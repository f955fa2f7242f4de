/** The plotter configuration of Config.hpp and Config.cpp: validation,
    palette expansion, the built-in default, and the per-field rules that turn
    a parsed JSON object into a configuration. The JSON text and its parser are
    not modelled; a parsed document is a map from keys to typed values. */
module Config {
  import opened Results
  import Canvases

  /** The record of Config.hpp. */
  datatype PlotterConfig = PlotterConfig(
    width: int,
    height: int,
    backgroundChar: char,
    palette: seq<char>,
    plotterType: string
  )

  /** A value of the parsed document, as far as the loader inspects it. */
  datatype JsonValue = JInt(i: int) | JString(s: string) | JOther

  type Document = map<string, JsonValue>

  /** Why loading stopped: a required key is absent, a key holds a value of
      the wrong kind, or the assembled record failed `ValidateConfig`. */
  datatype ConfigError = MissingField(name: string) | WrongType(name: string) | ValidationFailed

  /** The plotter types the validator accepts. */
  predicate KnownPlotterType(t: string) {
    t == "basic" || t == "grayscale"
  }

  /** `ValidateConfig`: positive dimensions, a known plotter type, and a palette
      that is empty or holds at least two entries. Entries need not differ. */
  function ValidateConfig(cfg: PlotterConfig): (ok: bool)
    ensures ok <==> cfg.width > 0 && cfg.height > 0 && KnownPlotterType(cfg.plotterType)
                    && |cfg.palette| != 1
  {
    if cfg.width <= 0 || cfg.height <= 0 then
      false
    else if cfg.plotterType != "basic" && cfg.plotterType != "grayscale" then
      false
    else if |cfg.palette| != 0 && |cfg.palette| < 2 then
      false
    else
      true
  }

  /** Only a one-entry palette is refused; repeated entries are fine. */
  lemma PaletteSizeRule(cfg: PlotterConfig)
    requires cfg.width > 0 && cfg.height > 0 && KnownPlotterType(cfg.plotterType)
    ensures ValidateConfig(cfg) <==> |cfg.palette| == 0 || |cfg.palette| >= 2
    ensures ValidateConfig(cfg.(palette := ['#', '#']))
    ensures !ValidateConfig(cfg.(palette := ['#']))
  {
  }

  /** `ParsePalette`: one entry per character of the string, in order, built
      by appending each character in turn. */
  function ParsePalette(text: string): (palette: seq<char>)
    ensures |palette| == |text|
    ensures forall i | 0 <= i < |text| :: palette[i] == text[i]
  {
    if text == [] then [] else ParsePalette(text[..|text| - 1]) + [text[|text| - 1]]
  }

  /** The background rule: the first character of the string, or a space when
      the string is empty. */
  function BackgroundFrom(text: string): (ch: char)
    ensures |text| == 0 ==> ch == ' '
    ensures |text| > 0 ==> ch == text[0]
  {
    if |text| == 0 then ' ' else text[0]
  }

  /** `DefaultConfig`: an 80x40 canvas of spaces, no palette, the basic plotter. */
  function DefaultConfig(): (cfg: PlotterConfig)
    ensures cfg.width == 80 && cfg.height == 40 && cfg.backgroundChar == ' '
    ensures cfg.palette == [] && cfg.plotterType == "basic"
    ensures ValidateConfig(cfg)
  {
    PlotterConfig(80, 40, ' ', [], "basic")
  }

  /** `AsInt` on the value stored under a required key. */
  function RequiredInt(doc: Document, key: string): (r: Result<int, ConfigError>)
    ensures key !in doc ==> r == Err(MissingField(key))
    ensures key in doc && doc[key].JInt? ==> r == Ok(doc[key].i)
    ensures key in doc && !doc[key].JInt? ==> r == Err(WrongType(key))
  {
    if key !in doc then Err(MissingField(key))
    else if doc[key].JInt? then Ok(doc[key].i)
    else Err(WrongType(key))
  }

  /** `AsString` on the value stored under a key; `absent` is used when the key is missing. */
  function StringField(doc: Document, key: string, absent: Result<string, ConfigError>): (r: Result<string, ConfigError>)
    ensures key !in doc ==> r == absent
    ensures key in doc && doc[key].JString? ==> r == Ok(doc[key].s)
    ensures key in doc && !doc[key].JString? ==> r == Err(WrongType(key))
  {
    if key !in doc then absent
    else if doc[key].JString? then Ok(doc[key].s)
    else Err(WrongType(key))
  }

  /** `LoadFromString` after parsing: read width, height and background_char
      (all required, in that order), then the optional palette and
      plotter_type, then validate. */
  function LoadFromDocument(doc: Document): (r: Result<PlotterConfig, ConfigError>)
    ensures "width" !in doc ==> r == Err(MissingField("width"))
    ensures IntPresent(doc, "width") && "height" !in doc ==> r == Err(MissingField("height"))
    ensures IntPresent(doc, "width") && IntPresent(doc, "height") && "background_char" !in doc
            ==> r == Err(MissingField("background_char"))
    ensures "width" in doc && !IntPresent(doc, "width") ==> r == Err(WrongType("width"))
    ensures IntPresent(doc, "width") && "height" in doc && !IntPresent(doc, "height")
            ==> r == Err(WrongType("height"))
    ensures IntPresent(doc, "width") && IntPresent(doc, "height")
            && "background_char" in doc && !StringPresent(doc, "background_char")
            ==> r == Err(WrongType("background_char"))
    ensures IntPresent(doc, "width") && IntPresent(doc, "height") && StringPresent(doc, "background_char")
            && !OptionalString(doc, "palette")
            ==> r == Err(WrongType("palette"))
    ensures IntPresent(doc, "width") && IntPresent(doc, "height") && StringPresent(doc, "background_char")
            && OptionalString(doc, "palette") && !OptionalString(doc, "plotter_type")
            ==> r == Err(WrongType("plotter_type"))
    ensures r.Ok? ==> Loadable(doc) && r.value == Assembled(doc) && ValidateConfig(r.value)
  {
    var width :- RequiredInt(doc, "width");
    var height :- RequiredInt(doc, "height");
    var bg :- StringField(doc, "background_char", Err(MissingField("background_char")));
    var paletteText :- StringField(doc, "palette", Ok(""));
    var plotterType :- StringField(doc, "plotter_type", Ok("basic"));
    var cfg := PlotterConfig(width, height, BackgroundFrom(bg), ParsePalette(paletteText), plotterType);
    if !ValidateConfig(cfg) then Err(ValidationFailed) else Ok(cfg)
  }

  /** Whether `key` is present and holds an integer. */
  predicate IntPresent(doc: Document, key: string) {
    key in doc && doc[key].JInt?
  }

  /** Whether `key` is present and holds a string. */
  predicate StringPresent(doc: Document, key: string) {
    key in doc && doc[key].JString?
  }

  /** Whether an optional key is absent or holds a string. */
  predicate OptionalString(doc: Document, key: string) {
    key !in doc || doc[key].JString?
  }

  /** Every key the loader reads is present when required and of the kind it reads. */
  predicate Loadable(doc: Document) {
    && IntPresent(doc, "width") && IntPresent(doc, "height")
    && StringPresent(doc, "background_char")
    && OptionalString(doc, "palette") && OptionalString(doc, "plotter_type")
  }

  /** The record the loader builds from a well-typed document, stated field by field. */
  function Assembled(doc: Document): PlotterConfig
    requires Loadable(doc)
  {
    var bg := doc["background_char"].s;
    PlotterConfig(
      doc["width"].i,
      doc["height"].i,
      if bg == "" then ' ' else bg[0],
      if "palette" in doc then doc["palette"].s else [],
      if "plotter_type" in doc then doc["plotter_type"].s else "basic")
  }

  /** Loading succeeds exactly on well-typed documents whose assembled record
      validates; a well-typed document that does not validate is a ValidationFailed. */
  lemma LoadSucceedsIff(doc: Document)
    ensures LoadFromDocument(doc).Ok? <==> Loadable(doc) && ValidateConfig(Assembled(doc))
    ensures Loadable(doc) && !ValidateConfig(Assembled(doc)) ==> LoadFromDocument(doc) == Err(ValidationFailed)
  {
  }

  /** A document with width -1 fails validation, so no canvas is built from it. */
  lemma NegativeWidthRejected()
    ensures LoadFromDocument(map["width" := JInt(-1), "height" := JInt(5), "background_char" := JString("x")])
            == Err(ValidationFailed)
  {
  }

  /** A configuration that passed validation always seeds a canvas: the
      canvas constructor's own dimension check cannot fail on it. */
  lemma ValidConfigBuildsCanvas(cfg: PlotterConfig)
    requires ValidateConfig(cfg)
    ensures Canvases.New(cfg.width, cfg.height, cfg.backgroundChar).Ok?
    ensures Canvases.Size(Canvases.New(cfg.width, cfg.height, cfg.backgroundChar).value) == cfg.width * cfg.height
  {
  }
}
