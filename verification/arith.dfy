/** Facts about the row-major offset `y * w + x` that the canvas and its cursors rely on. */
module Arith {

  /** The offset of an in-row coordinate splits back into its column and row. */
  lemma OffsetSplits(w: int, x: int, y: int)
    requires 0 <= x < w
    ensures (y * w + x) / w == y
    ensures (y * w + x) % w == x
  {
    var o := y * w + x;
    var q, r := o / w, o % w;
    assert o == q * w + r && 0 <= r < w;
    assert (q - y) * w == x - r;
    if q > y {
      MulAtLeast(q - y, w);
    } else if q < y {
      MulAtLeast(y - q, w);
    }
  }

  lemma MulAtLeast(a: int, w: int)
    requires a >= 1 && w > 0
    ensures a * w >= w
  {
  }

  /** An in-bounds coordinate has an offset inside the buffer. */
  lemma OffsetInBuffer(w: int, h: int, x: int, y: int)
    requires 0 <= x < w && 0 <= y < h
    ensures 0 <= y * w + x < w * h
  {
    assert y * w <= (h - 1) * w;
    assert (h - 1) * w + w == h * w;
  }

  /** Every offset below `w * h` lies in one of the first `h` rows. */
  lemma RowOfOffset(w: int, h: int, p: int)
    requires w > 0 && 0 <= p < w * h
    ensures 0 <= p / w < h
    ensures p == (p / w) * w + p % w
  {
    if p / w >= h {
      MulMonotone(h, p / w, w);
    }
  }

  lemma MulMonotone(a: int, b: int, w: int)
    requires 0 <= a <= b && w >= 0
    ensures a * w <= b * w
  {
  }

  /** A non-empty buffer has a positive row width. */
  lemma WidthOfNonEmpty(w: int, h: int)
    requires w >= 0 && h >= 0 && w * h > 0
    ensures w > 0 && h > 0
  {
  }

  /** Two offsets with the same row and column are the same offset. */
  lemma SameSplitSameOffset(w: int, i: int, j: int)
    requires w > 0
    requires i / w == j / w && i % w == j % w
    ensures i == j
  {
  }

  /** An offset at or past `w * h` lies below the last row. */
  lemma RowPastEnd(w: int, h: int, p: int)
    requires w > 0 && h >= 0 && p >= w * h
    ensures p / w >= h
  {
    if p / w < h {
      MulMonotone(p / w + 1, h, w);
    }
  }
}
