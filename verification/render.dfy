/** The text forms of a canvas from Canvas.cpp: `Render`'s row-major body and
    the three-line header `SaveToFile` writes in front of it. The stream and
    the file themselves are not modelled; each function returns the characters
    that would be written. */
module CanvasRender {
  import opened Canvases

  /** One line of the body: the cells of row `y`, left to right. */
  function Line(c: Canvas, y: int): (line: seq<char>)
    requires Valid(c) && 0 <= y < c.height
    ensures |line| == c.width
  {
    seq(c.width, x requires 0 <= x < c.width => Cell(c, x, y))
  }

  /** Rows `y` to the last, each followed by a newline. */
  function RenderRows(c: Canvas, y: int): seq<char>
    requires Valid(c) && 0 <= y <= c.height
    decreases c.height - y
  {
    if y == c.height then [] else Line(c, y) + ['\n'] + RenderRows(c, y + 1)
  }

  /** Everything `Render` sends to its stream: `height` lines of `width` cells,
      each followed by a newline (the cells themselves are placed by `RenderLayout`). */
  function Render(c: Canvas): (text: seq<char>)
    requires Valid(c)
    ensures |text| == c.height * (c.width + 1)
  {
    RenderRowsLength(c, 0);
    LineStartProduct(c.width, c.height);
    RenderRows(c, 0)
  }

  /** Where line `n` of the body starts when every line holds `w` cells and a newline. */
  function LineStart(w: nat, n: nat): nat {
    if n == 0 then 0 else LineStart(w, n - 1) + w + 1
  }

  lemma {:induction false} LineStartProduct(w: nat, n: nat)
    ensures LineStart(w, n) == n * (w + 1)
  {
    if n > 0 {
      LineStartProduct(w, n - 1);
    }
  }

  /** A slice past the first part of a concatenation is a slice of the second part. */
  lemma SliceAfter(head: seq<char>, rest: seq<char>, s: nat, n: nat)
    requires s + n <= |rest|
    ensures (head + rest)[|head| + s..|head| + s + n] == rest[s..s + n]
  {
  }

  lemma {:induction false} RenderRowsLength(c: Canvas, k: nat)
    requires Valid(c) && k <= c.height
    ensures |RenderRows(c, k)| == LineStart(c.width, c.height - k)
    decreases c.height - k
  {
    if k < c.height {
      RenderRowsLength(c, k + 1);
    }
  }

  /** Line `y` of the body sits at its line start, `y - k` lines into `RenderRows(c, k)`. */
  lemma {:induction false} LineInRows(c: Canvas, k: nat, y: nat)
    requires Valid(c) && k <= y < c.height
    ensures LineStart(c.width, y - k) + c.width < |RenderRows(c, k)|
    ensures RenderRows(c, k)[LineStart(c.width, y - k)..LineStart(c.width, y - k) + c.width + 1]
            == Line(c, y) + ['\n']
    decreases y - k
  {
    var head := Line(c, k) + ['\n'];
    var rest := RenderRows(c, k + 1);
    assert RenderRows(c, k) == head + rest;
    if y == k {
      assert (head + rest)[0..c.width + 1] == head;
    } else {
      LineInRows(c, k + 1, y);
      SliceAfter(head, rest, LineStart(c.width, y - (k + 1)), c.width + 1);
    }
  }

  /** Character x of line y of the body is cell (x, y). */
  lemma RenderedCell(c: Canvas, x: int, y: int)
    requires Valid(c) && InBounds(c, x, y)
    ensures LineStart(c.width, y) + x < |Render(c)|
    ensures Render(c)[LineStart(c.width, y) + x] == Cell(c, x, y)
  {
    var s := LineStart(c.width, y);
    LineInRows(c, 0, y);
    assert Render(c)[s + x] == Render(c)[s..s + c.width + 1][x];
    assert (Line(c, y) + ['\n'])[x] == Cell(c, x, y);
  }

  /** Line y of the body ends with a newline right after its `width` cells. */
  lemma RenderedNewline(c: Canvas, y: int)
    requires Valid(c) && 0 <= y < c.height
    ensures LineStart(c.width, y) + c.width < |Render(c)|
    ensures Render(c)[LineStart(c.width, y) + c.width] == '\n'
  {
    var s := LineStart(c.width, y);
    LineInRows(c, 0, y);
    assert Render(c)[s..s + c.width + 1][c.width] == (Line(c, y) + ['\n'])[c.width];
  }

  /** The body holds `height` lines of exactly `width` characters, each ended
      by a newline; character x of line y is cell (x, y). */
  lemma RenderLayout(c: Canvas)
    requires Valid(c)
    ensures |Render(c)| == c.height * (c.width + 1)
    ensures forall x, y | InBounds(c, x, y) ::
              LineStart(c.width, y) + x < |Render(c)|
              && Render(c)[LineStart(c.width, y) + x] == Cell(c, x, y)
    ensures forall y | 0 <= y < c.height ::
              LineStart(c.width, y) + c.width < |Render(c)|
              && Render(c)[LineStart(c.width, y) + c.width] == '\n'
  {
    RenderRowsLength(c, 0);
    LineStartProduct(c.width, c.height);
    forall x, y | InBounds(c, x, y)
      ensures LineStart(c.width, y) + x < |Render(c)|
      ensures Render(c)[LineStart(c.width, y) + x] == Cell(c, x, y)
    {
      RenderedCell(c, x, y);
    }
    forall y | 0 <= y < c.height
      ensures LineStart(c.width, y) + c.width < |Render(c)|
      ensures Render(c)[LineStart(c.width, y) + c.width] == '\n'
    {
      RenderedNewline(c, y);
    }
  }

  /** The decimal digits `operator<<` prints for a non-negative int. */
  function Decimal(n: nat): (s: seq<char>)
    ensures |s| >= 1
    ensures forall i | 0 <= i < |s| :: '0' <= s[i] <= '9'
    ensures n < 10 ==> |s| == 1
    ensures n >= 10 ==> s[0] != '0'
  {
    if n < 10 then [Digit(n)] else Decimal(n / 10) + [Digit(n % 10)]
  }

  /** The character of decimal digit `d`. */
  function Digit(d: nat): (ch: char)
    requires d < 10
    ensures '0' <= ch <= '9'
    ensures (ch - '0') as nat == d
  {
    (d + '0' as int) as char
  }

  /** Reads a string of decimal digits back as a number. */
  function DecimalValue(s: seq<char>): nat
    requires forall i | 0 <= i < |s| :: '0' <= s[i] <= '9'
  {
    if s == [] then 0 else 10 * DecimalValue(s[..|s| - 1]) + (s[|s| - 1] - '0') as nat
  }

  /** The printed width and height read back as the numbers they came from. */
  lemma {:induction false} DecimalRoundTrip(n: nat)
    ensures DecimalValue(Decimal(n)) == n
  {
    if n >= 10 {
      DecimalRoundTrip(n / 10);
      var s := Decimal(n);
      assert s[..|s| - 1] == Decimal(n / 10);
    }
  }

  /** The three header lines `SaveToFile` writes before the body. */
  function Header(c: Canvas): (text: seq<char>)
    requires Valid(c)
    ensures |text| == 34 + |Decimal(c.width)| + |Decimal(c.height)|
  {
    "Canvas " + Decimal(c.width) + "x" + Decimal(c.height) + "\n"
    + "Background: '" + [c.background] + "'\n"
    + "Content:\n"
  }

  /** Where each field sits in the header: the width digits right after
      "Canvas ", then 'x', the height digits and a newline, then the
      background character quoted on the second line, then "Content:". */
  lemma HeaderFields(c: Canvas)
    requires Valid(c)
    ensures var dw, dh := Decimal(c.width), Decimal(c.height);
            var L := |dw| + |dh|;
            && |Header(c)| == 34 + L
            && Header(c)[..7] == "Canvas "
            && Header(c)[7..7 + |dw|] == dw && Header(c)[7 + |dw|] == 'x'
            && Header(c)[8 + |dw|..8 + L] == dh && Header(c)[8 + L] == '\n'
            && Header(c)[9 + L..22 + L] == "Background: '" && Header(c)[22 + L] == c.background
            && Header(c)[23 + L..] == "'\nContent:\n"
  {
  }

  /** How many decimal digits `t` starts with. */
  function LeadingDigits(t: seq<char>): (n: nat)
    ensures n <= |t|
  {
    if t == [] || !('0' <= t[0] <= '9') then 0 else 1 + LeadingDigits(t[1..])
  }

  /** A run of digits followed by a non-digit is read back as exactly that run. */
  lemma {:induction false} LeadingDigitsOfField(t: seq<char>, start: nat, d: seq<char>)
    requires start + |d| < |t| && t[start..start + |d|] == d
    requires forall i | 0 <= i < |d| :: '0' <= d[i] <= '9'
    requires !('0' <= t[start + |d|] <= '9')
    ensures LeadingDigits(t[start..]) == |d|
    decreases |d|
  {
    if d != [] {
      assert t[start..][1..] == t[start + 1..];
      LeadingDigitsOfField(t, start + 1, d[1..]);
    }
  }

  /** A run of digits followed by a non-digit splits a string in only one way. */
  lemma DigitsThenMark(d1: seq<char>, r1: seq<char>, d2: seq<char>, r2: seq<char>)
    requires forall i | 0 <= i < |d1| :: '0' <= d1[i] <= '9'
    requires forall i | 0 <= i < |d2| :: '0' <= d2[i] <= '9'
    requires r1 != [] && !('0' <= r1[0] <= '9') && r2 != [] && !('0' <= r2[0] <= '9')
    requires d1 + r1 == d2 + r2
    ensures d1 == d2 && r1 == r2
  {
    var t := d1 + r1;
    assert t[0..|d1|] == d1;
    assert t[0..|d2|] == d2;
    LeadingDigitsOfField(t, 0, d1);
    LeadingDigitsOfField(t, 0, d2);
    assert r1 == t[|d1|..];
    assert r2 == t[|d2|..];
  }

  /** What follows the height digits in a header: the rest of the first line,
      the background line and the content line. */
  function HeaderRest(bg: char): seq<char> {
    "\nBackground: '" + [bg] + "'\nContent:\n"
  }

  /** The header as nested fields: "Canvas ", the width digits, then 'x', the
      height digits and the rest. */
  lemma HeaderNested(c: Canvas)
    requires Valid(c)
    ensures Header(c) == "Canvas " + (Decimal(c.width) + ("x" + (Decimal(c.height) + HeaderRest(c.background))))
  {
  }

  /** The header can be read back: two canvases with the same header have the
      same width, height and background character. */
  lemma HeaderReadBack(a: Canvas, b: Canvas)
    requires Valid(a) && Valid(b) && Header(a) == Header(b)
    ensures a.width == b.width && a.height == b.height && a.background == b.background
  {
    HeaderNested(a);
    HeaderNested(b);
    var ta := Decimal(a.width) + ("x" + (Decimal(a.height) + HeaderRest(a.background)));
    var tb := Decimal(b.width) + ("x" + (Decimal(b.height) + HeaderRest(b.background)));
    assert ta == Header(a)[7..] && tb == Header(b)[7..];
    var ra := "x" + (Decimal(a.height) + HeaderRest(a.background));
    var rb := "x" + (Decimal(b.height) + HeaderRest(b.background));
    DigitsThenMark(Decimal(a.width), ra, Decimal(b.width), rb);
    assert ra[1..] == Decimal(a.height) + HeaderRest(a.background);
    assert rb[1..] == Decimal(b.height) + HeaderRest(b.background);
    DigitsThenMark(Decimal(a.height), HeaderRest(a.background), Decimal(b.height), HeaderRest(b.background));
    assert HeaderRest(a.background)[14] == a.background;
    assert HeaderRest(b.background)[14] == b.background;
    DecimalRoundTrip(a.width);
    DecimalRoundTrip(b.width);
    DecimalRoundTrip(a.height);
    DecimalRoundTrip(b.height);
  }

  /** The whole text of a saved canvas. */
  function FileText(c: Canvas): (text: seq<char>)
    requires Valid(c)
    ensures |text| == |Header(c)| + c.height * (c.width + 1)
    ensures text[..7] == "Canvas "
  {
    Header(c) + Render(c)
  }

  /** A saved file is the header followed by the body, the header taking three
      lines whose first names the dimensions and whose second the background. */
  lemma FileTextLayout(c: Canvas)
    requires Valid(c)
    ensures |FileText(c)| == |Header(c)| + c.height * (c.width + 1)
    ensures FileText(c)[|Header(c)|..] == Render(c)
    ensures FileText(c)[..7] == "Canvas "
    ensures |Header(c)| == 34 + |Decimal(c.width)| + |Decimal(c.height)|
    ensures FileText(c)[|Header(c)| - 9..|Header(c)|] == "Content:\n"
  {
    RenderRowsLength(c, 0);
    LineStartProduct(c.width, c.height);
  }

  /** The body of any 3x2 canvas, cell by cell. */
  lemma RenderThreeByTwo(c: Canvas)
    requires Valid(c) && c.width == 3 && c.height == 2
    ensures Render(c) == [Cell(c, 0, 0), Cell(c, 1, 0), Cell(c, 2, 0), '\n',
                          Cell(c, 0, 1), Cell(c, 1, 1), Cell(c, 2, 1), '\n']
  {
    assert Line(c, 0) == [Cell(c, 0, 0), Cell(c, 1, 0), Cell(c, 2, 0)];
    assert Line(c, 1) == [Cell(c, 0, 1), Cell(c, 1, 1), Cell(c, 2, 1)];
    assert RenderRows(c, 2) == [];
    assert RenderRows(c, 1) == Line(c, 1) + ['\n'];
    assert Render(c) == Line(c, 0) + ['\n'] + RenderRows(c, 1);
  }

  /** A 3x2 canvas of '.' with its first two top cells filled with '#' renders as "##.\n...\n". */
  lemma RenderScenario()
    ensures New(3, 2, '.').Ok?
    ensures Render(FillRegion(New(3, 2, '.').value, 0, 0, 1, 0, '#')) == "##.\n...\n"
  {
    var c := New(3, 2, '.').value;
    var f := FillRegion(c, 0, 0, 1, 0, '#');
    FillRegionCells(c, 0, 0, 1, 0, '#');
    assert Cell(f, 0, 0) == '#' && Cell(f, 1, 0) == '#' && Cell(f, 2, 0) == '.';
    assert Cell(f, 0, 1) == '.' && Cell(f, 1, 1) == '.' && Cell(f, 2, 1) == '.';
    RenderThreeByTwo(f);
  }

  /** The body of any 2x2 canvas, cell by cell. */
  lemma RenderTwoByTwo(c: Canvas)
    requires Valid(c) && c.width == 2 && c.height == 2
    ensures Render(c) == [Cell(c, 0, 0), Cell(c, 1, 0), '\n', Cell(c, 0, 1), Cell(c, 1, 1), '\n']
  {
    assert Line(c, 0) == [Cell(c, 0, 0), Cell(c, 1, 0)];
    assert Line(c, 1) == [Cell(c, 0, 1), Cell(c, 1, 1)];
    assert RenderRows(c, 2) == [];
    assert RenderRows(c, 1) == Line(c, 1) + ['\n'];
    assert Render(c) == Line(c, 0) + ['\n'] + RenderRows(c, 1);
  }

  /** The header of a 2x2 canvas with a space background. */
  lemma HeaderTwoByTwo(c: Canvas)
    requires Valid(c) && c.width == 2 && c.height == 2 && c.background == ' '
    ensures Header(c) == "Canvas 2x2\nBackground: ' '\nContent:\n"
  {
    assert Decimal(2) == [Digit(2)];
    assert Digit(2) == '2';
  }

  /** A 2x2 canvas of spaces saves as its header and two lines of two spaces. */
  lemma SaveScenario()
    ensures New(2, 2, ' ').Ok?
    ensures FileText(New(2, 2, ' ').value) == "Canvas 2x2\nBackground: ' '\nContent:\n  \n  \n"
  {
    var c := New(2, 2, ' ').value;
    HeaderTwoByTwo(c);
    RenderTwoByTwo(c);
    assert Cell(c, 0, 0) == ' ' && Cell(c, 1, 0) == ' ' && Cell(c, 0, 1) == ' ' && Cell(c, 1, 1) == ' ';
  }
}
