# Canvas, cursors and plotter configuration — a Dafny model

This project models the core of an ASCII plotter written in C++:

- the `Canvas` grid of `Canvas.cpp`: a `width` by `height` buffer of characters stored
  row-major (cell (x, y) at offset `y * width + x`), with a background character,
  construction that rejects non-positive dimensions, copy and move (a move leaves the
  source 0x0), the checked accessor `at`, the unchecked `operator()`, `InBounds`,
  `Clear`, the clamped `FillRegion`, `Render` and the text `SaveToFile` writes;
- the three random-access cursors of `CanvasIterators.hpp` (row, column and pixel)
  and the factories `RowBegin/RowEnd/ColBegin/ColEnd/begin/end` that create them;
- the configuration loader of `Config.cpp`: `ValidateConfig`, `ParsePalette`,
  `DefaultConfig`, and the per-field rules of `LoadFromString` applied to an
  already-parsed JSON object.

Files and modules:

| file | module | models |
|---|---|---|
| `results.dfy` | `Results` | the `Result` type standing in for thrown exceptions |
| `arith.dfy` | `Arith` | facts about row-major offsets (`y * w + x`, `p / w`, `p % w`) |
| `canvas.dfy` | `Canvases` | the grid, its accessors and its mutations |
| `render.dfy` | `CanvasRender` | `Render` and the `SaveToFile` text |
| `cursors.dfy` | `CanvasIterators` | the cursors, their algebra and traversals |
| `config.dfy` | `Config` | the configuration record, validation and loading |

Modelling choices:

- The canvas is an immutable value; every mutating member returns the new canvas.
  `Width()` and `Height()` are the datatype's fields.
- The exceptions become `Result` values: `InvalidArgument` (constructor), `OutOfRange`
  (`at`), and for the loader `MissingField`, `WrongType` and `ValidationFailed`.
- The unchecked `operator()` performs no bounds test: it indexes the buffer at
  `y * width + x`. `InBounds` is the caller's documented obligation, but the code
  accepts any coordinate whose offset lies inside the buffer, and an off-grid one then
  reaches a cell of a neighbouring row (`(-1, 1)` on a 3x2 canvas is cell (2, 0)).
  The model requires only an in-buffer offset; an offset outside the buffer is
  undefined behaviour in the source.
- The three cursor classes share one datatype `Cursor(canvas, axis, pos)` whose
  `Axis` is `Row(r)`, `Column(c)` or `Pixel`. The canvas pointer a cursor holds is an
  abstract identity (`CanvasId`); members that read or write cells take the canvas
  that identity denotes. Self-assignment is an explicit `aliased` flag.
- Cursor dereference goes through the checked `at` (CanvasIterators.hpp lines 19,
  117 and 216), so an off-grid dereference is an `OutOfRange` error.
- The validator checks the palette's size only (Config.cpp line 86): a palette of
  two equal characters is accepted.
- A moved-from canvas is 0x0 with an empty buffer and keeps its background character.
- `Render` and `SaveToFile` are pure functions that return the characters written.

## Model

| member | source | states |
|---|---|---|
| `Canvases.New` | Canvas.cpp:9-15 | fails with InvalidArgument iff width <= 0 or height <= 0; otherwise the canvas has the given width, height and background, Size = w*h, and every cell equals the background |
| `Canvases.Size` | Canvas.cpp:54-56 | Size is the buffer length, and it is zero exactly for a canvas with a zero dimension |
| `Canvases.CopyAssign` | Canvas.cpp:24-32 | after copy assignment the target has the source's width, height, background and buffer contents; self-assignment leaves it unchanged |
| `Canvases.MovedFrom` | Canvas.cpp:20-21 | a moved-from canvas is valid and 0x0, so InBounds is false for every coordinate |
| `Canvases.MoveConstruct` | Canvas.cpp:17-22 | the new canvas gets the source's state and the source becomes the 0x0 moved-from canvas |
| `Canvases.MoveAssign` | Canvas.cpp:34-44 | moving into another canvas transfers width, height, background and buffer and empties the source; self-move changes nothing |
| `Canvases.At` | Canvas.cpp:58-63 | at(x, y) fails with OutOfRange iff not (0 <= x < w and 0 <= y < h); otherwise it returns buffer[y*w+x], and that offset is below Size |
| `Canvases.Put` | Canvas.cpp:58-63 | writing through at(x, y) fails with OutOfRange off the grid; on the grid it changes exactly cell (x, y) and keeps dimensions and background |
| `Canvases.PutThenAt` | Canvas.cpp:58-63 | reading a cell right after writing it through at yields the written character |
| `Canvases.Unchecked` | Canvas.cpp:72-78 | for any (x, y) whose offset y*w+x lies in the buffer, operator() reads the cell that offset names, (offset % w, offset / w); on an in-bounds cell that is what at returns |
| `Canvases.PutUnchecked` | Canvas.cpp:72-74 | writing through operator() changes exactly the cell whose offset is y*w+x, keeping shape and background; for an in-bounds (x, y) that is cell (x, y) only |
| `Canvases.UncheckedNeighbourRow` | Canvas.cpp:72-78 | on a 3x2 canvas at(-1, 1) throws OutOfRange while operator()(-1, 1) reads cell (2, 0) of the row above |
| `Canvases.InBoundsByOffset` | Canvas.cpp:80-82 | InBounds(x, y) holds exactly when at(x, y) succeeds, and exactly when 0 <= x < w and y*w+x lies inside the buffer |
| `Canvases.Clear` | Canvas.cpp:84-87 | after Clear(c) every cell and the background equal c; width and height are unchanged |
| `Canvases.ClearIsFresh` | Canvas.cpp:84-87 | a cleared canvas equals a freshly constructed canvas of the same size filled with the same character |
| `Canvases.FillRegion` | Canvas.cpp:89-105 | FillRegion keeps the width, the height, the background and a buffer of w*h cells |
| `Canvases.FillRegionCells` | Canvas.cpp:89-105 | after FillRegion(x1,y1,x2,y2,c), an in-bounds cell (x,y) holds c iff min(x1,x2) <= x <= max(x1,x2) and min(y1,y2) <= y <= max(y1,y2); every other cell keeps its character |
| `Canvases.FillRegionCornerOrder` | Canvas.cpp:90-93 | swapping the two corners, or just their x coordinates, gives the same canvas |
| `Canvases.FillRegionOutside` | Canvas.cpp:95-104 | a rectangle lying entirely left of, right of, above or below the grid leaves the canvas unchanged after clamping |
| `Canvases.FillRegionLoop` | Canvas.cpp:89-105 | the source's swap, clamp and nested row/column loop produces exactly the canvas FillRegion describes |
| `CanvasRender.Render` | Canvas.cpp:107-115 | Render writes exactly h*(w+1) characters; RenderLayout places them as h lines of w cells plus a newline each |
| `CanvasRender.Header` | Canvas.cpp:129-131 | the header's length is 34 fixed characters plus the decimal digits of width and height; where each field sits is stated by HeaderFields |
| `CanvasRender.HeaderFields` | Canvas.cpp:129-131 | the header is "Canvas ", the width digits, 'x', the height digits and a newline, then "Background: '", the background character and "'\n", then "Content:\n" |
| `CanvasRender.DigitsThenMark` | Canvas.cpp:129 | a run of digits followed by a non-digit ('x' after the width, the newline after the height) splits the text in only one way |
| `CanvasRender.HeaderReadBack` | Canvas.cpp:129-131 | two canvases with the same header have the same width, height and background, so the header can be read back |
| `CanvasRender.FileText` | Canvas.cpp:129-133 | the saved text starts with "Canvas " and is the header's length plus h*(w+1) characters of body |
| `CanvasRender.RenderLayout` | Canvas.cpp:107-115 | Render emits h lines, h*(w+1) characters in all; character x of line y is cell (x, y) and each line ends in a newline after w characters |
| `CanvasRender.RenderedCell` | Canvas.cpp:109-111 | character x of rendered line y is cell (x, y), i.e. buffer[y*w+x] |
| `CanvasRender.RenderedNewline` | Canvas.cpp:112 | rendered line y ends with a newline right after its w cells |
| `CanvasRender.LineStartProduct` | Canvas.cpp:108-113 | line y of the rendered text starts at offset y*(w+1) |
| `CanvasRender.Decimal` | Canvas.cpp:129 | a dimension is printed as a non-empty string of decimal digits without a leading zero: a single digit below 10, otherwise starting with a non-zero digit |
| `CanvasRender.DecimalRoundTrip` | Canvas.cpp:129 | the printed dimension reads back as the number printed |
| `CanvasRender.FileTextLayout` | Canvas.cpp:129-133 | the saved text is the header (whose fields HeaderFields places) followed by exactly the Render text; it starts with "Canvas " and the header ends with "Content:\n" |
| `CanvasRender.RenderScenario` | Canvas.cpp:89-115 | a 3x2 canvas of '.' after FillRegion(0,0,1,0,'#') renders as "##.\n...\n" |
| `CanvasRender.SaveScenario` | Canvas.cpp:117-134 | a 2x2 canvas of spaces saves as "Canvas 2x2", "Background: ' '", "Content:" and two lines of two spaces |
| `CanvasIterators.Deref` | CanvasIterators.hpp:213-217 | dereference reads through the checked at (likewise lines 18-20 and 116-118): a row cursor reads cell (col,row) and fails with OutOfRange iff that cell is off the grid; likewise for a column cursor; a pixel cursor at p reads buffer[p] and fails iff p >= Size |
| `CanvasIterators.PixelCell` | CanvasIterators.hpp:213-217 | pixel position p splits into (p % w, p / w), which is in bounds iff p < w*h and maps back to offset p |
| `CanvasIterators.Index` | CanvasIterators.hpp:26-28 | it[n] reads the same cell as *(it + n) (likewise lines 124-126 and 225-230) |
| `CanvasIterators.Store` | CanvasIterators.hpp:18-20 | assigning through *it succeeds exactly when the dereference does, a later dereference reads the stored character, and every other cell, the shape and the background are unchanged |
| `CanvasIterators.Plus` | CanvasIterators.hpp:62-64 | it + n keeps canvas and axis and (it + n) - it == n |
| `CanvasIterators.Minus` | CanvasIterators.hpp:66-68 | (it - n) + n == it and it - (it - n) == n |
| `CanvasIterators.AddAssign` | CanvasIterators.hpp:52-55 | it += n leaves the cursor that it + n returns |
| `CanvasIterators.SubAssign` | CanvasIterators.hpp:57-60 | it -= n is undone by += n and matches it - n |
| `CanvasIterators.Increment` | CanvasIterators.hpp:30-33 | prefix ++ advances by exactly one position, as it + 1 |
| `CanvasIterators.Decrement` | CanvasIterators.hpp:41-44 | prefix -- is undone by prefix ++ and matches it - 1 |
| `CanvasIterators.PostIncrement` | CanvasIterators.hpp:35-39 | postfix ++ yields the old cursor and leaves the cursor advanced by one |
| `CanvasIterators.PostDecrement` | CanvasIterators.hpp:46-50 | postfix -- yields the old cursor and leaves the cursor moved back by one |
| `CanvasIterators.Difference` | CanvasIterators.hpp:70-72 | a - b is the number of steps that carry b to a when both share canvas and axis |
| `CanvasIterators.Equal` | CanvasIterators.hpp:74-77 | == holds iff canvas, fixed axis and position all agree |
| `CanvasIterators.NotEqual` | CanvasIterators.hpp:79-81 | != holds iff the cursors differ |
| `CanvasIterators.Less` | CanvasIterators.hpp:83-85 | < holds iff a - b is negative, whatever the canvases |
| `CanvasIterators.Greater` | CanvasIterators.hpp:87-89 | a > b iff b < a |
| `CanvasIterators.LessEq` | CanvasIterators.hpp:91-93 | a <= b iff not a > b |
| `CanvasIterators.GreaterEq` | CanvasIterators.hpp:95-97 | a >= b iff not a < b |
| `CanvasIterators.IncrementDecrement` | CanvasIterators.hpp:30-50 | prefix ++ then -- (and -- then ++) is the identity |
| `CanvasIterators.AddSubRoundTrip` | CanvasIterators.hpp:52-72 | it += n; it -= n restores the cursor, and (it + n) - it == n |
| `CanvasIterators.OrderingIsByPosition` | CanvasIterators.hpp:74-97 | the orderings are a total order on positions, agree with ==, and cursors of different canvases at one position are neither equal nor ordered |
| `CanvasIterators.RowBegin` | Canvas.cpp:140-142 | RowBegin(r) is a row cursor over row r of this canvas (its reads are stated by RowTraversal) |
| `CanvasIterators.RowEnd` | Canvas.cpp:144-146 | RowEnd(r) - RowBegin(r) == Width |
| `CanvasIterators.ColBegin` | Canvas.cpp:148-150 | ColBegin(c) is a column cursor over column c of this canvas (its reads are stated by ColumnTraversal) |
| `CanvasIterators.ColEnd` | Canvas.cpp:152-154 | ColEnd(c) - ColBegin(c) == Height |
| `CanvasIterators.Begin` | Canvas.cpp:156-158 | begin() is a pixel cursor over this canvas (its reads are stated by PixelTraversal) |
| `CanvasIterators.End` | Canvas.cpp:160-162 | end() - begin() == Size == buffer length |
| `CanvasIterators.TraverseReads` | CanvasIterators.hpp:26-33 | walking from a cursor to an end cursor with ++ makes end - begin reads, the k-th being begin[k] |
| `CanvasIterators.RowTraversal` | Canvas.cpp:140-146 | walking RowBegin(r) to RowEnd(r) reads at(0,r), ..., at(w-1,r) in order |
| `CanvasIterators.ColumnTraversal` | Canvas.cpp:148-154 | walking ColBegin(c) to ColEnd(c) reads at(c,0), ..., at(c,h-1) in order |
| `CanvasIterators.PixelTraversal` | Canvas.cpp:156-162 | walking begin() to end() reads buffer[0], ..., buffer[Size-1] in order |
| `CanvasIterators.RenderedPixel` | Canvas.cpp:107-115 | buffer position p is the character Render prints at column p % w of line p / w |
| `CanvasIterators.PixelOrderMatchesRender` | CanvasIterators.hpp:213-217 | the p-th read of a begin()-to-end() walk is the character Render prints at column p % w of line p / w, so pixel order is Render's order |
| `CanvasIterators.AtIsPixel` | Canvas.cpp:58-63 | at(x, y) reads the same cell as the pixel cursor y*w+x steps after begin() |
| `Config.ValidateConfig` | Config.cpp:77-91 | true iff width > 0, height > 0, plotter type is "basic" or "grayscale", and the palette does not have exactly one entry |
| `Config.PaletteSizeRule` | Config.cpp:86-88 | with valid dimensions and type, an empty or >= 2-entry palette passes and a one-entry palette fails; two equal entries pass |
| `Config.ParsePalette` | Config.cpp:69-75 | the palette has one entry per character, same length, same order |
| `Config.BackgroundFrom` | Config.cpp:39-44 | an empty background string gives ' ', otherwise its first character |
| `Config.DefaultConfig` | Config.cpp:93-101 | the default is 80x40, background ' ', empty palette, type "basic", and it passes ValidateConfig |
| `Config.RequiredInt` | Config.cpp:23-28 | a missing required key is MissingField(key); a non-integer value is WrongType(key); otherwise its integer |
| `Config.StringField` | Config.cpp:49-60 | a missing key yields the caller's default; a non-string value is WrongType(key); otherwise its string |
| `Config.LoadFromDocument` | Config.cpp:16-67 | the fields are read in the order width, height, background_char, palette, plotter_type, and the first one that is missing (when required) or of the wrong kind decides the error: MissingField(key) or WrongType(key); a returned config equals the field-by-field assembly (palette default empty, type default "basic") and satisfies ValidateConfig |
| `Config.LoadSucceedsIff` | Config.cpp:62-66 | loading succeeds iff every read key is present when required and of the right kind and the assembled record validates; otherwise a well-typed document fails with ValidationFailed |
| `Config.NegativeWidthRejected` | Config.cpp:78-80 | the document {width: -1, height: 5, background_char: "x"} fails validation |
| `Config.ValidConfigBuildsCanvas` | Config.cpp:77-91 | a configuration that passes ValidateConfig always constructs a canvas of width*height cells |

## Left out

- Integer widths: `int` and `size_t` arithmetic is modelled with unbounded integers, so
  overflow of `width * height`, of `y * width + x` and of cursor positions is not modelled.
- `CanvasIterators.Decrement`: a pixel cursor's position is `size_t` in the source, so
  `--` at position 0 wraps around; the model lets the position become -1 instead, and
  dereferencing a pixel cursor requires a non-negative position.
- `CanvasIterators.Difference`: the pixel cursor's difference is an unsigned subtraction
  converted to a signed type; the model uses plain integer subtraction.
- `CanvasIterators.Deref`: dereferencing a pixel cursor of a 0-wide (moved-from) canvas
  divides by zero in the source; the model requires a positive width there.
- The constructor sizes the buffer before checking the dimensions, so a negative product
  throws from the vector first; the model treats every non-positive dimension as the one
  construction failure, InvalidArgument.
- `SaveToFile`'s directory creation, file opening and its I/O error, `LoadFromFile`'s
  stream opening, `Render`'s stream writes and `flush`: I/O, modelled only as the text produced.
- `Config.ParsePalette`: a Dafny `char` stands for one C++ `char`, that is one byte,
  and a `JString` holds the bytes `AsString` returns. A palette or background written
  with a multi-byte UTF-8 character therefore counts once per byte, as in the source;
  the model does not decode or encode text.
- The JSON library (`Load`, `AsMap`, `AsInt`, `AsString`) is not part of this model; a parsed
  document is a map from keys to typed values, and reading a value of the wrong kind is
  assumed to fail (modelled as WrongType).
- The cursors' `operator->`, which returns a raw pointer, and pointer identity itself
  (a cursor's canvas is an abstract identity).
- A moved-from vector's contents are unspecified by the C++ standard; the model takes
  the usual empty buffer.
