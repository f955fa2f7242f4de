/** The fixed-size character grid of Canvas.cpp: a row-major buffer with checked
    and unchecked cell access, clearing, clamped region fill, and copy/move. */
module Canvases {
  import opened Results
  import Arith

  /** The conditions the canvas raises: a construction with a non-positive
      dimension, and a checked access outside the grid. */
  datatype CanvasError = InvalidArgument | OutOfRange

  /** A grid of `width` by `height` cells; cell (x, y) lives at `data[y * width + x]`.
      `background` is the fill used at construction and by the last `Clear`. */
  datatype Canvas = Canvas(width: int, height: int, background: char, data: seq<char>)

  /** What every canvas satisfies, including a moved-from 0x0 one. */
  ghost predicate Valid(c: Canvas) {
    c.width >= 0 && c.height >= 0 && |c.data| == c.width * c.height
  }

  /** Whether (x, y) names a cell of the grid. */
  predicate InBounds(c: Canvas, x: int, y: int) {
    0 <= x < c.width && 0 <= y < c.height
  }

  /** The buffer offset of cell (x, y). */
  function Offset(c: Canvas, x: int, y: int): int {
    y * c.width + x
  }

  /** The character stored at an in-bounds cell. */
  function Cell(c: Canvas, x: int, y: int): char
    requires Valid(c) && InBounds(c, x, y)
    ensures 0 <= Offset(c, x, y) < |c.data|
  {
    Arith.OffsetInBuffer(c.width, c.height, x, y);
    c.data[Offset(c, x, y)]
  }

  /** Two canvases with the same shape, background and cells are the same canvas. */
  lemma Extensionality(a: Canvas, b: Canvas)
    requires Valid(a) && Valid(b)
    requires a.width == b.width && a.height == b.height && a.background == b.background
    requires forall x, y | InBounds(a, x, y) :: Cell(a, x, y) == Cell(b, x, y)
    ensures a == b
  {
    forall i | 0 <= i < |a.data|
      ensures a.data[i] == b.data[i]
    {
      Arith.WidthOfNonEmpty(a.width, a.height);
      Arith.RowOfOffset(a.width, a.height, i);
      assert Cell(a, i % a.width, i / a.width) == Cell(b, i % a.width, i / a.width);
    }
  }

  /** Construction: every cell set to `background`; a non-positive dimension
      raises InvalidArgument and produces no canvas. */
  function New(width: int, height: int, background: char): (r: Result<Canvas, CanvasError>)
    ensures r.Err? <==> width <= 0 || height <= 0
    ensures r.Err? ==> r.error == InvalidArgument
    ensures r.Ok? ==> Valid(r.value) && r.value.width == width && r.value.height == height
                      && r.value.background == background && Size(r.value) == width * height
    ensures r.Ok? ==> forall x, y | InBounds(r.value, x, y) :: Cell(r.value, x, y) == background
  {
    if width <= 0 || height <= 0 then
      Err(InvalidArgument)
    else
      Ok(Canvas(width, height, background, seq(width * height, _ => background)))
  }

  /** The number of cells, which is also the length of the buffer. */
  function Size(c: Canvas): (n: int)
    requires Valid(c)
    ensures n == |c.data|
    ensures n == 0 <==> c.width == 0 || c.height == 0
  {
    c.width * c.height
  }

  /** Copy assignment: the target takes the source's dimensions, background
      and a private copy of its buffer; assigning a canvas to itself changes nothing. */
  function CopyAssign(target: Canvas, source: Canvas, aliased: bool): (r: Canvas)
    requires aliased ==> target == source
    ensures r.width == source.width && r.height == source.height
    ensures r.background == source.background && r.data == source.data
  {
    if aliased then target else source
  }

  /** The state a canvas is left in once its buffer has been moved out. */
  function MovedFrom(c: Canvas): (r: Canvas)
    ensures Valid(r) && r.width == 0 && r.height == 0 && r.background == c.background
    ensures forall x, y :: !InBounds(r, x, y)
  {
    Canvas(0, 0, c.background, [])
  }

  /** Move construction: the new canvas receives the source's state and the
      source is left 0x0. Returns (new canvas, source afterwards). */
  function MoveConstruct(source: Canvas): (r: (Canvas, Canvas))
    ensures r.0 == source
    ensures r.1 == MovedFrom(source)
  {
    (source, MovedFrom(source))
  }

  /** Move assignment. Returns (target afterwards, source afterwards); moving a
      canvas into itself is a no-op. */
  function MoveAssign(target: Canvas, source: Canvas, aliased: bool): (r: (Canvas, Canvas))
    requires aliased ==> target == source
    ensures aliased ==> r.0 == target && r.1 == source
    ensures !aliased ==> r.0 == source && r.1 == MovedFrom(source)
  {
    if aliased then (target, source) else (source, MovedFrom(source))
  }

  /** Checked read (`at`): the cell's character, or OutOfRange. */
  function At(c: Canvas, x: int, y: int): (r: Result<char, CanvasError>)
    requires Valid(c)
    ensures r.Err? <==> !(0 <= x < c.width && 0 <= y < c.height)
    ensures r.Err? ==> r.error == OutOfRange
    ensures r.Ok? ==> 0 <= y * c.width + x < Size(c) && r.value == c.data[y * c.width + x]
  {
    if !InBounds(c, x, y) then Err(OutOfRange) else Ok(Cell(c, x, y))
  }

  /** Checked write through the reference `at` returns. */
  function Put(c: Canvas, x: int, y: int, v: char): (r: Result<Canvas, CanvasError>)
    requires Valid(c)
    ensures r.Err? <==> !InBounds(c, x, y)
    ensures r.Err? ==> r.error == OutOfRange
    ensures r.Ok? ==> Valid(r.value) && r.value.width == c.width && r.value.height == c.height
                      && r.value.background == c.background
    ensures r.Ok? ==> forall px, py | InBounds(c, px, py) ::
                        Cell(r.value, px, py) == if px == x && py == y then v else Cell(c, px, py)
  {
    if !InBounds(c, x, y) then
      Err(OutOfRange)
    else
      Arith.OffsetInBuffer(c.width, c.height, x, y);
      Ok(PutUnchecked(c, x, y, v))
  }

  /** Unchecked read (`operator()`): no bounds test, only the offset `y * width + x`.
      The source leaves the call undefined when that offset falls outside the
      buffer; inside it, an off-grid coordinate reads a cell of a neighbouring row. */
  function Unchecked(c: Canvas, x: int, y: int): (ch: char)
    requires Valid(c) && 0 <= Offset(c, x, y) < |c.data|
    ensures c.width > 0
    ensures ch == Cell(c, Offset(c, x, y) % c.width, Offset(c, x, y) / c.width)
    ensures InBounds(c, x, y) ==> At(c, x, y) == Ok(ch)
  {
    Arith.WidthOfNonEmpty(c.width, c.height);
    Arith.RowOfOffset(c.width, c.height, Offset(c, x, y));
    c.data[y * c.width + x]
  }

  /** Unchecked write through the reference `operator()` returns: exactly the
      cell at offset `y * width + x` changes, which is cell (x, y) itself when
      (x, y) is on the grid. */
  function PutUnchecked(c: Canvas, x: int, y: int, v: char): (r: Canvas)
    requires Valid(c) && 0 <= Offset(c, x, y) < |c.data|
    ensures Valid(r) && r.width == c.width && r.height == c.height && r.background == c.background
    ensures forall px, py | InBounds(c, px, py) ::
              Cell(r, px, py) == if Offset(c, px, py) == Offset(c, x, y) then v else Cell(c, px, py)
    ensures InBounds(c, x, y) ==>
              forall px, py | InBounds(c, px, py) ::
                Cell(r, px, py) == if px == x && py == y then v else Cell(c, px, py)
  {
    OffsetsDistinct(c, x, y);
    c.(data := c.data[Offset(c, x, y) := v])
  }

  /** On a 3x2 canvas `operator()(-1, 1)` is off the grid, so `at` refuses it,
      yet its offset 2 is inside the buffer and names cell (2, 0). */
  lemma UncheckedNeighbourRow(c: Canvas)
    requires Valid(c) && c.width == 3 && c.height == 2
    ensures At(c, -1, 1) == Err(OutOfRange)
    ensures Unchecked(c, -1, 1) == Cell(c, 2, 0)
  {
  }

  /** `InBounds`: exactly the coordinates `at` accepts, and exactly those whose
      column lies inside the row and whose offset lies inside the buffer. */
  lemma InBoundsByOffset(c: Canvas, x: int, y: int)
    requires Valid(c)
    ensures InBounds(c, x, y) <==> At(c, x, y).Ok?
    ensures InBounds(c, x, y) <==> 0 <= x < c.width && 0 <= Offset(c, x, y) < |c.data|
  {
    if InBounds(c, x, y) {
      Arith.OffsetInBuffer(c.width, c.height, x, y);
    } else if 0 <= x < c.width && 0 <= Offset(c, x, y) < |c.data| {
      Arith.OffsetSplits(c.width, x, y);
      Arith.RowOfOffset(c.width, c.height, Offset(c, x, y));
    }
  }

  /** Distinct cells have distinct offsets. */
  lemma OffsetsDistinct(c: Canvas, x: int, y: int)
    ensures InBounds(c, x, y) ==>
              forall px, py | InBounds(c, px, py) && (px != x || py != y) :: Offset(c, px, py) != Offset(c, x, y)
  {
    if InBounds(c, x, y) {
      forall px, py | InBounds(c, px, py) && (px != x || py != y)
        ensures Offset(c, px, py) != Offset(c, x, y)
      {
        Arith.OffsetSplits(c.width, px, py);
        Arith.OffsetSplits(c.width, x, y);
      }
    }
  }

  /** A write through `at` followed by a read of the same cell yields the written value. */
  lemma PutThenAt(c: Canvas, x: int, y: int, v: char)
    requires Valid(c) && InBounds(c, x, y)
    ensures Put(c, x, y, v).Ok?
    ensures At(Put(c, x, y, v).value, x, y) == Ok(v)
  {
  }

  /** `Clear`: every cell and the stored background become `fill`. */
  function Clear(c: Canvas, fill: char): (r: Canvas)
    requires Valid(c)
    ensures Valid(r) && r.width == c.width && r.height == c.height && r.background == fill
    ensures forall x, y | InBounds(r, x, y) :: Cell(r, x, y) == fill
  {
    c.(data := seq(|c.data|, _ => fill), background := fill)
  }

  /** A cleared canvas is indistinguishable from a fresh one of the same shape. */
  lemma ClearIsFresh(c: Canvas, fill: char)
    requires Valid(c) && c.width > 0 && c.height > 0
    ensures New(c.width, c.height, fill) == Ok(Clear(c, fill))
  {
    var blank := New(c.width, c.height, fill).value;
    Extensionality(blank, Clear(c, fill));
  }

  /** An inclusive rectangle of cells; empty when a bound is crossed. */
  datatype Rect = Rect(left: int, top: int, right: int, bottom: int)

  predicate Covers(r: Rect, x: int, y: int) {
    r.left <= x <= r.right && r.top <= y <= r.bottom
  }

  function Min(a: int, b: int): int { if a <= b then a else b }
  function Max(a: int, b: int): int { if a <= b then b else a }

  /** The rectangle `FillRegion` writes: corners ordered by swapping, then
      clamped to the grid's last column and row. */
  function FillArea(c: Canvas, x1: int, y1: int, x2: int, y2: int): Rect {
    var (lx, rx) := if x1 > x2 then (x2, x1) else (x1, x2);
    var (ty, bot) := if y1 > y2 then (y2, y1) else (y1, y2);
    Rect(Max(0, lx), Max(0, ty), Min(c.width - 1, rx), Min(c.height - 1, bot))
  }

  /** Whether v lies between a and b, whichever of the two is larger. */
  predicate Between(v: int, a: int, b: int) {
    Min(a, b) <= v <= Max(a, b)
  }

  /** `FillRegion`: sets to `fill` the cells of the rectangle spanned by the two
      corners, silently clipped to the grid. */
  function FillRegion(c: Canvas, x1: int, y1: int, x2: int, y2: int, fill: char): (r: Canvas)
    requires Valid(c)
    ensures Valid(r) && r.width == c.width && r.height == c.height && r.background == c.background
  {
    var area := FillArea(c, x1, y1, x2, y2);
    c.(data := seq(|c.data|, i requires 0 <= i < |c.data| =>
                     if Covers(area, i % c.width, i / c.width) then fill else c.data[i]))
  }

  /** A cell ends up holding `fill` exactly when it lies between the corners on
      both axes; every other cell keeps its character. */
  lemma FillRegionCells(c: Canvas, x1: int, y1: int, x2: int, y2: int, fill: char)
    requires Valid(c)
    ensures forall x, y | InBounds(c, x, y) ::
              Cell(FillRegion(c, x1, y1, x2, y2, fill), x, y)
              == if Between(x, x1, x2) && Between(y, y1, y2) then fill else Cell(c, x, y)
  {
    var r := FillRegion(c, x1, y1, x2, y2, fill);
    forall x, y | InBounds(c, x, y)
      ensures Cell(r, x, y) == if Between(x, x1, x2) && Between(y, y1, y2) then fill else Cell(c, x, y)
    {
      Arith.OffsetSplits(c.width, x, y);
    }
  }

  /** The order in which the two corners are given does not matter. */
  lemma FillRegionCornerOrder(c: Canvas, x1: int, y1: int, x2: int, y2: int, fill: char)
    requires Valid(c)
    ensures FillRegion(c, x1, y1, x2, y2, fill) == FillRegion(c, x2, y2, x1, y1, fill)
    ensures FillRegion(c, x1, y1, x2, y2, fill) == FillRegion(c, x2, y1, x1, y2, fill)
  {
    FillRegionCells(c, x1, y1, x2, y2, fill);
    FillRegionCells(c, x2, y2, x1, y1, fill);
    FillRegionCells(c, x2, y1, x1, y2, fill);
    Extensionality(FillRegion(c, x1, y1, x2, y2, fill), FillRegion(c, x2, y2, x1, y1, fill));
    Extensionality(FillRegion(c, x1, y1, x2, y2, fill), FillRegion(c, x2, y1, x1, y2, fill));
  }

  /** A rectangle that misses the grid on some side leaves the canvas as it was. */
  lemma FillRegionOutside(c: Canvas, x1: int, y1: int, x2: int, y2: int, fill: char)
    requires Valid(c)
    requires Max(x1, x2) < 0 || Min(x1, x2) >= c.width || Max(y1, y2) < 0 || Min(y1, y2) >= c.height
    ensures FillRegion(c, x1, y1, x2, y2, fill) == c
  {
    FillRegionCells(c, x1, y1, x2, y2, fill);
    Extensionality(FillRegion(c, x1, y1, x2, y2, fill), c);
  }

  /** The loop state of `FillRegionLoop` before cell (x, y): rows `area.top`
      to `y - 1` of the area are filled, row `y` is filled left of `x`, and
      every other cell still holds its original character. */
  ghost predicate PartlyFilled(c: Canvas, data: seq<char>, area: Rect, y: int, x: int, fill: char)
    requires Valid(c)
  {
    && |data| == |c.data|
    && (c.width > 0 ==>
          forall i | 0 <= i < |data| ::
            data[i] == if FilledBefore(area, y, x, i % c.width, i / c.width) then fill else c.data[i])
  }

  predicate FilledBefore(area: Rect, y: int, x: int, px: int, py: int) {
    area.left <= px <= area.right && (area.top <= py < y || (py == y && px < x))
  }

  /** Writing cell (x, y) advances the loop state by one column. */
  lemma FillStep(c: Canvas, data: seq<char>, area: Rect, y: int, x: int, fill: char)
    requires Valid(c) && InBounds(c, x, y) && area.left <= x <= area.right && area.top <= y
    requires PartlyFilled(c, data, area, y, x, fill)
    ensures 0 <= Offset(c, x, y) < |data|
    ensures PartlyFilled(c, data[Offset(c, x, y) := fill], area, y, x + 1, fill)
  {
    var w := c.width;
    Arith.OffsetInBuffer(w, c.height, x, y);
    Arith.OffsetSplits(w, x, y);
    var o := Offset(c, x, y);
    var data' := data[o := fill];
    forall i | 0 <= i < |data'|
      ensures data'[i] == if FilledBefore(area, y, x + 1, i % w, i / w) then fill else c.data[i]
    {
      var px, py := i % w, i / w;
      if i == o {
        assert px == x && py == y;
      } else {
        assert data'[i] == data[i];
        if py == y && px == x {
          Arith.SameSplitSameOffset(w, i, o);
        }
        assert FilledBefore(area, y, x + 1, px, py) == FilledBefore(area, y, x, px, py);
      }
    }
  }

  /** Finishing a row moves the loop state to the start of the next row. */
  lemma FillNextRow(c: Canvas, data: seq<char>, area: Rect, y: int, x: int, fill: char)
    requires Valid(c) && PartlyFilled(c, data, area, y, x, fill) && area.top <= y
    requires x == area.right + 1 || (x == area.left && area.left > area.right)
    ensures PartlyFilled(c, data, area, y + 1, area.left, fill)
  {
    if c.width > 0 {
      forall i | 0 <= i < |data|
        ensures data[i] == if FilledBefore(area, y + 1, area.left, i % c.width, i / c.width) then fill else c.data[i]
      {
        var px, py := i % c.width, i / c.width;
        assert FilledBefore(area, y + 1, area.left, px, py) == FilledBefore(area, y, x, px, py);
      }
    }
  }

  /** Once every row of the area is done the buffer is the one `FillRegion` describes. */
  lemma FillDone(c: Canvas, data: seq<char>, x1: int, y1: int, x2: int, y2: int, y: int, fill: char)
    requires Valid(c)
    requires var area := FillArea(c, x1, y1, x2, y2);
             PartlyFilled(c, data, area, y, area.left, fill) && (y == area.top || y == area.bottom + 1)
             && y > area.bottom
    ensures c.(data := data) == FillRegion(c, x1, y1, x2, y2, fill)
  {
  }

  /** The nested loop of Canvas.cpp: swap the corners into order, clamp them,
      then write the rectangle row by row. */
  method FillRegionLoop(c: Canvas, x1: int, y1: int, x2: int, y2: int, fill: char) returns (r: Canvas)
    requires Valid(c)
    ensures r == FillRegion(c, x1, y1, x2, y2, fill)
  {
    var left, top, right, bottom := x1, y1, x2, y2;
    if left > right {
      left, right := right, left;
    }
    if top > bottom {
      top, bottom := bottom, top;
    }
    left := Max(0, left);
    top := Max(0, top);
    right := Min(c.width - 1, right);
    bottom := Min(c.height - 1, bottom);
    ghost var area := Rect(left, top, right, bottom);
    assert area == FillArea(c, x1, y1, x2, y2);

    var w := c.width;
    var data := c.data;
    var y := top;
    while y <= bottom
      invariant y == top || top <= y <= bottom + 1
      invariant PartlyFilled(c, data, area, y, left, fill)
      decreases bottom + 1 - y
    {
      var x := left;
      while x <= right
        invariant x == left || left <= x <= right + 1
        invariant PartlyFilled(c, data, area, y, x, fill)
        decreases right + 1 - x
      {
        FillStep(c, data, area, y, x, fill);
        data := data[y * w + x := fill];
        x := x + 1;
      }
      FillNextRow(c, data, area, y, x, fill);
      y := y + 1;
    }
    FillDone(c, data, x1, y1, x2, y2, y, fill);
    r := c.(data := data);
  }
}
