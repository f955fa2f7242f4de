/** The three random-access cursors of CanvasIterators.hpp and the factories
    of Canvas.cpp that create them. The row, column and pixel cursors differ
    only in how a position maps to a cell, so one datatype with an `Axis`
    covers all three. A cursor names its canvas by an abstract identity; the
    operations that read or write cells take the canvas that identity denotes. */
module CanvasIterators {
  import opened Results
  import opened Canvases
  import CanvasRender
  import Arith

  /** Stands for the canvas pointer a cursor holds. */
  type CanvasId = nat

  /** The fixed part of a cursor: a row (RowIterator), a column
      (ColumnIterator), or nothing (PixelIterator). */
  datatype Axis = Row(row: int) | Column(col: int) | Pixel

  /** A cursor: the canvas it walks, its fixed axis and its moving position
      (the column of a row cursor, the row of a column cursor, the linear
      index of a pixel cursor). */
  datatype Cursor = Cursor(canvas: CanvasId, axis: Axis, pos: int)

  /** The cell (x, y) that position `p` denotes on `axis` in a grid `w` wide. */
  function Coord(w: int, axis: Axis, p: int): (int, int)
    requires axis.Pixel? ==> w > 0
  {
    match axis
    case Row(r) => (p, r)
    case Column(col) => (col, p)
    case Pixel => (p % w, p / w)
  }

  /** What the source needs before dereferencing: a pixel cursor divides by
      the width and holds an unsigned position. */
  predicate Dereferenceable(c: Canvas, it: Cursor) {
    it.axis.Pixel? ==> c.width > 0 && it.pos >= 0
  }

  /** `*it`: the cell under the cursor, read through the checked `at`, so a
      position off the grid is an OutOfRange error. */
  function Deref(c: Canvas, it: Cursor): (r: Result<char, CanvasError>)
    requires Valid(c) && Dereferenceable(c, it)
    ensures r.Err? ==> r.error == OutOfRange
    ensures it.axis.Row? ==>
              (r.Ok? <==> 0 <= it.pos < c.width && 0 <= it.axis.row < c.height)
              && (r.Ok? ==> r.value == Cell(c, it.pos, it.axis.row))
    ensures it.axis.Column? ==>
              (r.Ok? <==> 0 <= it.axis.col < c.width && 0 <= it.pos < c.height)
              && (r.Ok? ==> r.value == Cell(c, it.axis.col, it.pos))
    ensures it.axis.Pixel? ==>
              (r.Ok? <==> it.pos < Size(c))
              && (r.Ok? ==> r.value == c.data[it.pos])
  {
    PixelCursorCell(c, it);
    var (x, y) := Coord(c.width, it.axis, it.pos);
    At(c, x, y)
  }

  /** `PixelCell` for the position of a dereferenceable pixel cursor. */
  lemma PixelCursorCell(c: Canvas, it: Cursor)
    requires Valid(c) && Dereferenceable(c, it)
    ensures it.axis.Pixel? ==>
              (InBounds(c, it.pos % c.width, it.pos / c.width) <==> it.pos < Size(c))
              && (it.pos < Size(c) ==> Offset(c, it.pos % c.width, it.pos / c.width) == it.pos)
  {
    if it.axis.Pixel? {
      PixelCell(c, it.pos);
    }
  }

  /** Pixel position `p` names an in-bounds cell exactly when it is below
      `Size()`, and that cell's offset is `p` itself. */
  lemma PixelCell(c: Canvas, p: int)
    requires Valid(c) && c.width > 0 && p >= 0
    ensures InBounds(c, p % c.width, p / c.width) <==> p < Size(c)
    ensures p < Size(c) ==> Offset(c, p % c.width, p / c.width) == p
  {
    if p < Size(c) {
      Arith.RowOfOffset(c.width, c.height, p);
    } else {
      Arith.RowPastEnd(c.width, c.height, p);
    }
  }

  /** `it[n]`, written per family as the source does: the row cursor reads
      `at(col + n, row)`, the column cursor `at(col, row + n)`, the pixel
      cursor splits `pos + n`. */
  function Index(c: Canvas, it: Cursor, n: int): (r: Result<char, CanvasError>)
    requires Valid(c) && Dereferenceable(c, Plus(it, n))
    ensures r == Deref(c, Plus(it, n))
  {
    match it.axis
    case Row(row) => At(c, it.pos + n, row)
    case Column(col) => At(c, col, it.pos + n)
    case Pixel =>
      var p := it.pos + n;
      At(c, p % c.width, p / c.width)
  }

  /** `*it = v`: a write through the reference the checked dereference returns. */
  function Store(c: Canvas, it: Cursor, v: char): (r: Result<Canvas, CanvasError>)
    requires Valid(c) && Dereferenceable(c, it)
    ensures r.Ok? <==> Deref(c, it).Ok?
    ensures r.Ok? ==> Valid(r.value) && r.value.width == c.width && r.value.height == c.height
    ensures r.Ok? ==> Deref(r.value, it) == Ok(v)
    ensures r.Ok? ==> r.value.background == c.background
                      && forall x, y | InBounds(c, x, y) && (x, y) != Coord(c.width, it.axis, it.pos) ::
                           Cell(r.value, x, y) == Cell(c, x, y)
  {
    var (x, y) := Coord(c.width, it.axis, it.pos);
    Put(c, x, y, v)
  }

  /** `it + n`: a new cursor `n` positions further on, over the same canvas and axis. */
  function Plus(it: Cursor, n: int): (r: Cursor)
    ensures r.canvas == it.canvas && r.axis == it.axis
    ensures Difference(r, it) == n
  {
    it.(pos := it.pos + n)
  }

  /** `it - n`: the cursor that `+ n` brings back to `it`. */
  function Minus(it: Cursor, n: int): (r: Cursor)
    ensures Plus(r, n) == it
    ensures Difference(it, r) == n
  {
    it.(pos := it.pos - n)
  }

  /** `it += n`: the cursor afterwards is the one `it + n` returns. */
  function AddAssign(it: Cursor, n: int): (r: Cursor)
    ensures r == Plus(it, n)
  {
    it.(pos := it.pos + n)
  }

  /** `it -= n`: undone by `+= n`. */
  function SubAssign(it: Cursor, n: int): (r: Cursor)
    ensures AddAssign(r, n) == it
    ensures r == Minus(it, n)
  {
    it.(pos := it.pos - n)
  }

  /** Prefix `++`: one step forward. */
  function Increment(it: Cursor): (r: Cursor)
    ensures r == Plus(it, 1)
  {
    it.(pos := it.pos + 1)
  }

  /** Prefix `--`: one step back, undone by `++`. */
  function Decrement(it: Cursor): (r: Cursor)
    ensures Increment(r) == it
    ensures r == Minus(it, 1)
  {
    it.(pos := it.pos - 1)
  }

  /** Postfix `++`: returns (value of the expression, cursor afterwards). */
  function PostIncrement(it: Cursor): (r: (Cursor, Cursor))
    ensures r.0 == it
    ensures r.1 == Increment(it)
  {
    (it, it.(pos := it.pos + 1))
  }

  /** Postfix `--`: returns (value of the expression, cursor afterwards). */
  function PostDecrement(it: Cursor): (r: (Cursor, Cursor))
    ensures r.0 == it
    ensures r.1 == Decrement(it)
  {
    (it, it.(pos := it.pos - 1))
  }

  /** `a - b`: how many steps lead from `b` to `a`. */
  function Difference(a: Cursor, b: Cursor): (d: int)
    ensures b.canvas == a.canvas && b.axis == a.axis ==> b.(pos := b.pos + d) == a
  {
    a.pos - b.pos
  }

  /** `==`: same canvas, same fixed axis, same position. */
  function Equal(a: Cursor, b: Cursor): (r: bool)
    ensures r <==> a == b
  {
    a.canvas == b.canvas && a.axis == b.axis && a.pos == b.pos
  }

  /** `!=`. */
  function NotEqual(a: Cursor, b: Cursor): (r: bool)
    ensures r <==> a != b
  {
    !Equal(a, b)
  }

  /** `<`: compares positions only. */
  function Less(a: Cursor, b: Cursor): (r: bool)
    ensures r <==> Difference(a, b) < 0
  {
    a.pos < b.pos
  }

  /** `>`. */
  function Greater(a: Cursor, b: Cursor): (r: bool)
    ensures r <==> Less(b, a)
  {
    a.pos > b.pos
  }

  /** `<=`. */
  function LessEq(a: Cursor, b: Cursor): (r: bool)
    ensures r <==> !Greater(a, b)
  {
    a.pos <= b.pos
  }

  /** `>=`. */
  function GreaterEq(a: Cursor, b: Cursor): (r: bool)
    ensures r <==> !Less(a, b)
  {
    a.pos >= b.pos
  }

  /** `RowBegin(row)`: the first cell of the row. */
  function RowBegin(id: CanvasId, row: int): (it: Cursor)
    ensures it.axis == Row(row) && it.canvas == id
  {
    Cursor(id, Row(row), 0)
  }

  /** `RowEnd(row)`: one past the last cell of the row, `width` steps after `RowBegin`. */
  function RowEnd(c: Canvas, id: CanvasId, row: int): (it: Cursor)
    ensures it.axis == Row(row) && it.canvas == id
    ensures Difference(it, RowBegin(id, row)) == c.width
  {
    Cursor(id, Row(row), c.width)
  }

  /** `ColBegin(col)`: the top cell of the column. */
  function ColBegin(id: CanvasId, col: int): (it: Cursor)
    ensures it.axis == Column(col) && it.canvas == id
  {
    Cursor(id, Column(col), 0)
  }

  /** `ColEnd(col)`: one past the bottom cell, `height` steps after `ColBegin`. */
  function ColEnd(c: Canvas, id: CanvasId, col: int): (it: Cursor)
    ensures it.axis == Column(col) && it.canvas == id
    ensures Difference(it, ColBegin(id, col)) == c.height
  {
    Cursor(id, Column(col), c.height)
  }

  /** `begin()`: the pixel cursor at the first buffer position. */
  function Begin(id: CanvasId): (it: Cursor)
    ensures it.axis == Pixel && it.canvas == id
  {
    Cursor(id, Pixel, 0)
  }

  /** `end()`: the pixel cursor `Size()` steps after `begin()`. */
  function End(c: Canvas, id: CanvasId): (it: Cursor)
    requires Valid(c)
    ensures it.axis == Pixel && it.canvas == id
    ensures Difference(it, Begin(id)) == Size(c) == |c.data|
  {
    Cursor(id, Pixel, Size(c))
  }

  /** Prefix `++` and `--` undo each other. */
  lemma IncrementDecrement(it: Cursor)
    ensures Decrement(Increment(it)) == it
    ensures Increment(Decrement(it)) == it
  {
  }

  /** `it += n; it -= n` returns to the starting cursor, and `(it + n) - it == n`. */
  lemma AddSubRoundTrip(it: Cursor, n: int)
    ensures SubAssign(AddAssign(it, n), n) == it
    ensures Difference(Plus(it, n), it) == n
    ensures Plus(Plus(it, n), -n) == it
  {
  }

  /** The orderings compare positions only: they form a total order on
      positions, agree with `==` on equal cursors, but two cursors of different
      canvases at one position are neither ordered nor equal. */
  lemma OrderingIsByPosition(a: Cursor, b: Cursor)
    ensures Less(a, b) || Greater(a, b) || a.pos == b.pos
    ensures !(Less(a, b) && Greater(a, b))
    ensures LessEq(a, b) <==> Less(a, b) || a.pos == b.pos
    ensures Equal(a, b) ==> !Less(a, b) && !Greater(a, b) && LessEq(a, b) && GreaterEq(a, b)
    ensures a.pos == b.pos && a.canvas != b.canvas ==> !Less(a, b) && !Greater(a, b) && !Equal(a, b)
  {
  }

  /** The result of dereferencing each position from `from` up to `stop`. */
  function Traverse(c: Canvas, from: Cursor, stop: Cursor): (vals: seq<Result<char, CanvasError>>)
    requires Valid(c) && from.canvas == stop.canvas && from.axis == stop.axis && from.pos <= stop.pos
    requires from.pos < stop.pos ==> Dereferenceable(c, from)
    decreases stop.pos - from.pos
  {
    if Equal(from, stop) then [] else [Deref(c, from)] + Traverse(c, Increment(from), stop)
  }

  /** A traversal makes `stop - from` reads, the k-th of which is `from[k]`. */
  lemma {:induction false} TraverseReads(c: Canvas, from: Cursor, stop: Cursor)
    requires Valid(c) && from.canvas == stop.canvas && from.axis == stop.axis && from.pos <= stop.pos
    requires from.pos < stop.pos ==> Dereferenceable(c, from)
    ensures |Traverse(c, from, stop)| == Difference(stop, from)
    ensures forall k | 0 <= k < Difference(stop, from) ::
              Dereferenceable(c, Plus(from, k)) && Traverse(c, from, stop)[k] == Index(c, from, k)
    decreases stop.pos - from.pos
  {
    if from.pos < stop.pos {
      var next := Increment(from);
      TraverseReads(c, next, stop);
      forall k | 1 <= k < Difference(stop, from)
        ensures Traverse(c, from, stop)[k] == Index(c, from, k)
      {
        assert Plus(next, k - 1) == Plus(from, k);
      }
    }
  }

  /** A row cursor walked from `RowBegin(r)` to `RowEnd(r)` reads cells
      (0, r) to (width - 1, r) in order, each through the checked `at`. */
  lemma RowTraversal(c: Canvas, id: CanvasId, r: int)
    requires Valid(c)
    ensures Traverse(c, RowBegin(id, r), RowEnd(c, id, r)) == seq(c.width, x => At(c, x, r))
  {
    TraverseReads(c, RowBegin(id, r), RowEnd(c, id, r));
  }

  /** A column cursor walked from `ColBegin(col)` to `ColEnd(col)` reads cells
      (col, 0) to (col, height - 1) in order. */
  lemma ColumnTraversal(c: Canvas, id: CanvasId, col: int)
    requires Valid(c)
    ensures Traverse(c, ColBegin(id, col), ColEnd(c, id, col)) == seq(c.height, y => At(c, col, y))
  {
    TraverseReads(c, ColBegin(id, col), ColEnd(c, id, col));
  }

  /** A pixel cursor walked from `begin()` to `end()` reads the whole buffer in order. */
  lemma PixelTraversal(c: Canvas, id: CanvasId)
    requires Valid(c)
    ensures Traverse(c, Begin(id), End(c, id)) == seq(|c.data|, p requires 0 <= p < |c.data| => Ok(c.data[p]))
  {
    TraverseReads(c, Begin(id), End(c, id));
  }

  /** Buffer position p is printed by `Render` at column p % width of line p / width. */
  lemma RenderedPixel(c: Canvas, p: int)
    requires Valid(c) && 0 <= p < Size(c)
    ensures c.width > 0
    ensures CanvasRender.LineStart(c.width, p / c.width) + p % c.width < |CanvasRender.Render(c)|
    ensures CanvasRender.Render(c)[CanvasRender.LineStart(c.width, p / c.width) + p % c.width] == c.data[p]
  {
    Arith.WidthOfNonEmpty(c.width, c.height);
    PixelCell(c, p);
    CanvasRender.RenderedCell(c, p % c.width, p / c.width);
    assert Cell(c, p % c.width, p / c.width) == c.data[p];
  }

  /** The pixel order is `Render`'s order: the p-th pixel read is the character
      `Render` prints at column p % width of line p / width. */
  lemma PixelOrderMatchesRender(c: Canvas, id: CanvasId)
    requires Valid(c)
    ensures |Traverse(c, Begin(id), End(c, id))| == Size(c)
    ensures forall p | 0 <= p < Size(c) ::
              c.width > 0
              && CanvasRender.LineStart(c.width, p / c.width) + p % c.width < |CanvasRender.Render(c)|
              && Traverse(c, Begin(id), End(c, id))[p]
                 == Ok(CanvasRender.Render(c)[CanvasRender.LineStart(c.width, p / c.width) + p % c.width])
  {
    var walk := Traverse(c, Begin(id), End(c, id));
    PixelTraversal(c, id);
    assert |walk| == Size(c);
    forall p | 0 <= p < Size(c)
      ensures c.width > 0
      ensures CanvasRender.LineStart(c.width, p / c.width) + p % c.width < |CanvasRender.Render(c)|
      ensures walk[p] == Ok(CanvasRender.Render(c)[CanvasRender.LineStart(c.width, p / c.width) + p % c.width])
    {
      RenderedPixel(c, p);
      assert walk[p] == Ok(c.data[p]);
    }
  }

  /** The checked accessor and a pixel cursor agree: `at(x, y)` is the pixel
      `y * width + x` positions after `begin()`. */
  lemma AtIsPixel(c: Canvas, id: CanvasId, x: int, y: int)
    requires Valid(c) && InBounds(c, x, y)
    ensures Dereferenceable(c, Plus(Begin(id), Offset(c, x, y)))
    ensures Deref(c, Plus(Begin(id), Offset(c, x, y))) == At(c, x, y)
  {
    Arith.OffsetSplits(c.width, x, y);
  }
}
