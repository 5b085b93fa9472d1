/** The planes of a YCbCr 4:2:0 frame are row-major arrays: a cell at
    column c of row r of a plane with row stride s is element r * s + c.
    This module describes copying a row-major block into such a plane, and
    the arithmetic of row-major indices. */
module YuvPlanes {

  type Byte = b: int | 0 <= b < 256

  /** Java's clamp of an int or a long to 0..255. */
  function Clamp(v: int): (r: Byte)
    ensures 0 <= v <= 255 ==> r == v
    ensures v < 0 ==> r == 0
    ensures v > 255 ==> r == 255
  {
    if v < 0 then 0 else if v > 255 then 255 else v
  }

  // ---------------------------------------------------------------------
  // Row-major blocks

  lemma MulLe(a: int, b: int, c: int)
    requires a <= b && 0 <= c
    ensures a * c <= b * c
  {
    assert b * c - a * c == (b - a) * c;
  }

  /** The start of the next row of a row-major array. */
  lemma MulSucc(a: int, b: int)
    ensures (a + 1) * b == a * b + b
  {
  }

  /** Row and column of a row-major index are its quotient and remainder. */
  lemma DivModOf(k: int, stride: int, row: int, col: int)
    requires stride > 0 && 0 <= col < stride && k == row * stride + col
    ensures k / stride == row && k % stride == col
  {
    var q, m := k / stride, k % stride;
    assert k == q * stride + m;
    if q < row {
      MulLe(q + 1, row, stride);
      assert false;
    }
    if q > row {
      MulLe(row + 1, q, stride);
      assert false;
    }
  }

  lemma DivBound(i: int, w: int, h: int)
    requires 0 <= i < w * h && w > 0
    ensures 0 <= i / w < h
  {
    if i / w >= h {
      MulLe(h, i / w, w);
      assert false;
    }
  }

  /** A cell of row r < h of a block starting at row dy lies before row dy + h. */
  lemma RowInside(r: int, col: int, stride: int, dy: int, h: int)
    requires 0 <= dy && 0 <= r < h && 0 <= col < stride
    ensures 0 <= (dy + r) * stride + col < (dy + h) * stride
  {
    MulLe(dy + r + 1, dy + h, stride);
    assert (dy + r + 1) * stride == (dy + r) * stride + stride;
  }

  lemma BlockIndexBound(row: int, col: int, w: int, h: int)
    requires 0 <= row < h && 0 <= col < w
    ensures 0 <= row * w + col < w * h
  {
    RowInside(row, col, w, 0, h);
  }

  /** Cell k of a plane with the given row stride lies in the w x h block
      whose top-left corner is (dx, dy). */
  predicate InBlock(k: int, stride: int, dx: int, dy: int, w: int, h: int)
    requires stride > 0
  {
    dy <= k / stride < dy + h && dx <= k % stride < dx + w
  }

  /** Where in the row-major source block the value for destination cell k is. */
  function SourceIndex(k: int, stride: int, dx: int, dy: int, w: int): int
    requires stride > 0
  {
    (k / stride - dy) * w + (k % stride - dx)
  }

  lemma SourceIndexInBounds(k: int, stride: int, dx: int, dy: int, w: int, h: int)
    requires stride > 0 && InBlock(k, stride, dx, dy, w, h)
    ensures 0 <= SourceIndex(k, stride, dx, dy, w) < w * h
  {
    BlockIndexBound(k / stride - dy, k % stride - dx, w, h);
  }

  /** The block lies inside a plane of the given stride. */
  predicate BlockFits(planeLength: int, stride: int, dx: int, dy: int, w: int, h: int)
  {
    stride > 0 && 0 <= dx && 0 <= w && dx + w <= stride &&
    0 <= dy && 0 <= h && (dy + h) * stride <= planeLength
  }

  /** The plane after the row-major block src was copied in at (dx, dy). */
  function Pasted(plane: seq<real>, stride: int, dx: int, dy: int, w: int, h: int, src: seq<real>): (r: seq<real>)
    requires BlockFits(|plane|, stride, dx, dy, w, h) && |src| == w * h
    ensures |r| == |plane|
  {
    seq(|plane|, k requires 0 <= k < |plane| =>
      if InBlock(k, stride, dx, dy, w, h) then
        SourceIndexInBounds(k, stride, dx, dy, w, h);
        src[SourceIndex(k, stride, dx, dy, w)]
      else plane[k])
  }

  /** Pasting writes src[l*w + c] at row dy + l, column dx + c. */
  lemma {:induction false} PastedInside(plane: seq<real>, stride: int, dx: int, dy: int, w: int, h: int, src: seq<real>, l: int, c: int)
    requires BlockFits(|plane|, stride, dx, dy, w, h) && |src| == w * h
    requires 0 <= l < h && 0 <= c < w
    ensures 0 <= (dy + l) * stride + dx + c < |plane| && 0 <= l * w + c < |src|
    ensures Pasted(plane, stride, dx, dy, w, h, src)[(dy + l) * stride + dx + c] == src[l * w + c]
  {
    var k := (dy + l) * stride + dx + c;
    DivModOf(k, stride, dy + l, dx + c);
    BlockIndexBound(l, c, w, h);
    RowInside(l, dx + c, stride, dy, h);
  }

  /** Pasting changes no cell outside the block. */
  lemma PastedOutside(plane: seq<real>, stride: int, dx: int, dy: int, w: int, h: int, src: seq<real>, k: int)
    requires BlockFits(|plane|, stride, dx, dy, w, h) && |src| == w * h
    requires 0 <= k < |plane| && !InBlock(k, stride, dx, dy, w, h)
    ensures Pasted(plane, stride, dx, dy, w, h, src)[k] == plane[k]
  {
  }

  /** The block read back from a pasted plane. */
  function Block(plane: seq<real>, stride: int, dx: int, dy: int, w: int, h: int): (r: seq<real>)
    requires BlockFits(|plane|, stride, dx, dy, w, h)
    ensures |r| == w * h
  {
    seq(w * h, i requires 0 <= i < w * h =>
      BlockCellInPlane(stride, dx, dy, w, h, i);
      plane[(dy + i / w) * stride + dx + i % w])
  }

  lemma BlockCellInPlane(stride: int, dx: int, dy: int, w: int, h: int, i: int)
    requires stride > 0 && 0 <= dx && 0 <= w && dx + w <= stride && 0 <= dy && 0 <= h
    requires 0 <= i < w * h
    ensures w > 0 && 0 <= i / w < h && 0 <= (dy + i / w) * stride + dx + i % w < (dy + h) * stride
  {
    DivBound(i, w, h);
    RowInside(i / w, dx + i % w, stride, dy, h);
  }

  /** Reading the block back after pasting it gives the pasted values. */
  lemma {:induction false} PastedReadBack(plane: seq<real>, stride: int, dx: int, dy: int, w: int, h: int, src: seq<real>)
    requires BlockFits(|plane|, stride, dx, dy, w, h) && |src| == w * h
    ensures Block(Pasted(plane, stride, dx, dy, w, h, src), stride, dx, dy, w, h) == src
  {
    var p := Pasted(plane, stride, dx, dy, w, h, src);
    forall i | 0 <= i < w * h
      ensures Block(p, stride, dx, dy, w, h)[i] == src[i]
    {
      BlockCellInPlane(stride, dx, dy, w, h, i);
      var l, c := i / w, i % w;
      assert l * w + c == i;
      PastedInside(plane, stride, dx, dy, w, h, src, l, c);
      assert Block(p, stride, dx, dy, w, h)[i] == p[(dy + l) * stride + dx + c];
    }
  }

  /** The plane part-way through the copy loop: rows before `line` of the
      block are done, and so are the first `col` cells of row `line`. */
  function PartlyPasted(plane: seq<real>, stride: int, dx: int, dy: int, w: int, h: int, src: seq<real>,
                        line: int, col: int): (r: seq<real>)
    requires BlockFits(|plane|, stride, dx, dy, w, h) && |src| == w * h
    requires 0 <= line <= h && 0 <= col <= w && (col > 0 ==> line < h)
    ensures |r| == |plane|
  {
    seq(|plane|, k requires 0 <= k < |plane| =>
      if InBlock(k, stride, dx, dy, w, line) || InBlock(k, stride, dx, dy + line, col, 1) then
        assert InBlock(k, stride, dx, dy, w, h);
        SourceIndexInBounds(k, stride, dx, dy, w, h);
        src[SourceIndex(k, stride, dx, dy, w)]
      else plane[k])
  }

  lemma PartlyPastedStart(plane: seq<real>, stride: int, dx: int, dy: int, w: int, h: int, src: seq<real>)
    requires BlockFits(|plane|, stride, dx, dy, w, h) && |src| == w * h
    ensures PartlyPasted(plane, stride, dx, dy, w, h, src, 0, 0) == plane
  {
  }

  lemma PartlyPastedDone(plane: seq<real>, stride: int, dx: int, dy: int, w: int, h: int, src: seq<real>)
    requires BlockFits(|plane|, stride, dx, dy, w, h) && |src| == w * h
    ensures PartlyPasted(plane, stride, dx, dy, w, h, src, h, 0) == Pasted(plane, stride, dx, dy, w, h, src)
  {
  }

  /** A finished row is the start of the next one. */
  lemma PartlyPastedNextLine(plane: seq<real>, stride: int, dx: int, dy: int, w: int, h: int, src: seq<real>, line: int)
    requires BlockFits(|plane|, stride, dx, dy, w, h) && |src| == w * h
    requires 0 <= line < h
    ensures PartlyPasted(plane, stride, dx, dy, w, h, src, line, w) == PartlyPasted(plane, stride, dx, dy, w, h, src, line + 1, 0)
  {
  }

  /** One more cell of row `line`: the cell at row dy + line, column dx + col. */
  lemma {:induction false} PartlyPastedNextCell(plane: seq<real>, stride: int, dx: int, dy: int, w: int, h: int, src: seq<real>,
                                                line: int, col: int)
    requires BlockFits(|plane|, stride, dx, dy, w, h) && |src| == w * h
    requires 0 <= line < h && 0 <= col < w
    ensures 0 <= (dy + line) * stride + dx + col < |plane| && 0 <= line * w + col < |src|
    ensures PartlyPasted(plane, stride, dx, dy, w, h, src, line, col + 1)
         == PartlyPasted(plane, stride, dx, dy, w, h, src, line, col)[(dy + line) * stride + dx + col := src[line * w + col]]
  {
    var k0 := (dy + line) * stride + dx + col;
    DivModOf(k0, stride, dy + line, dx + col);
    RowInside(line, dx + col, stride, dy, h);
    BlockIndexBound(line, col, w, h);
    var a := PartlyPasted(plane, stride, dx, dy, w, h, src, line, col + 1);
    var b := PartlyPasted(plane, stride, dx, dy, w, h, src, line, col)[k0 := src[line * w + col]];
    assert forall k | 0 <= k < |plane| :: a[k] == b[k];
  }

  /** The plane after the copy loop has done rows 0 .. line-1 of the block
      and the first col cells of row `line`, one assignment at a time. */
  function CopiedSoFar(plane: seq<real>, stride: int, dx: int, dy: int, w: int, h: int, src: seq<real>,
                       line: int, col: int): (r: seq<real>)
    requires BlockFits(|plane|, stride, dx, dy, w, h) && |src| == w * h
    requires 0 <= line <= h && 0 <= col <= w && (col > 0 ==> line < h)
    ensures |r| == |plane|
    decreases line, col
  {
    if col > 0 then
      RowInside(line, dx + col - 1, stride, dy, h);
      BlockIndexBound(line, col - 1, w, h);
      CopiedSoFar(plane, stride, dx, dy, w, h, src, line, col - 1)[dx + (dy + line) * stride + (col - 1) := src[line * w + (col - 1)]]
    else if line > 0 then
      CopiedSoFar(plane, stride, dx, dy, w, h, src, line - 1, w)
    else
      plane
  }

  /** One assignment of the copy loop, at cell (line, col) of the block. */
  lemma CopiedSoFarStep(plane: seq<real>, stride: int, dx: int, dy: int, w: int, h: int, src: seq<real>,
                        line: int, col: int, i: int, j: int)
    requires BlockFits(|plane|, stride, dx, dy, w, h) && |src| == w * h
    requires 0 <= line < h && 0 <= col < w
    requires i == dx + (dy + line) * stride + col && j == line * w + col
    ensures 0 <= i < |plane| && 0 <= j < |src|
    ensures CopiedSoFar(plane, stride, dx, dy, w, h, src, line, col + 1)
         == CopiedSoFar(plane, stride, dx, dy, w, h, src, line, col)[i := src[j]]
  {
    RowInside(line, dx + col, stride, dy, h);
    BlockIndexBound(line, col, w, h);
  }

  /** The end of one line of the copy loop is the start of the next. */
  lemma CopiedSoFarNextLine(plane: seq<real>, stride: int, dx: int, dy: int, w: int, h: int, src: seq<real>, line: int)
    requires BlockFits(|plane|, stride, dx, dy, w, h) && |src| == w * h
    requires 0 <= line < h
    ensures CopiedSoFar(plane, stride, dx, dy, w, h, src, line + 1, 0)
         == CopiedSoFar(plane, stride, dx, dy, w, h, src, line, w)
  {
  }

  /** The assignments done so far leave the plane as PartlyPasted describes. */
  lemma {:induction false} CopiedSoFarIsPartly(plane: seq<real>, stride: int, dx: int, dy: int, w: int, h: int, src: seq<real>,
                                               line: int, col: int)
    requires BlockFits(|plane|, stride, dx, dy, w, h) && |src| == w * h
    requires 0 <= line <= h && 0 <= col <= w && (col > 0 ==> line < h)
    ensures CopiedSoFar(plane, stride, dx, dy, w, h, src, line, col) == PartlyPasted(plane, stride, dx, dy, w, h, src, line, col)
    decreases line, col
  {
    if col > 0 {
      CopiedSoFarIsPartly(plane, stride, dx, dy, w, h, src, line, col - 1);
      PartlyPastedNextCell(plane, stride, dx, dy, w, h, src, line, col - 1);
    } else if line > 0 {
      CopiedSoFarIsPartly(plane, stride, dx, dy, w, h, src, line - 1, w);
      PartlyPastedNextLine(plane, stride, dx, dy, w, h, src, line - 1);
    } else {
      PartlyPastedStart(plane, stride, dx, dy, w, h, src);
    }
  }

  /** The whole copy loop pastes the block. */
  lemma CopiedSoFarDone(plane: seq<real>, stride: int, dx: int, dy: int, w: int, h: int, src: seq<real>)
    requires BlockFits(|plane|, stride, dx, dy, w, h) && |src| == w * h
    ensures CopiedSoFar(plane, stride, dx, dy, w, h, src, h, 0) == Pasted(plane, stride, dx, dy, w, h, src)
  {
    CopiedSoFarIsPartly(plane, stride, dx, dy, w, h, src, h, 0);
    PartlyPastedDone(plane, stride, dx, dy, w, h, src);
  }

  /** Each chroma plane holds one sample per 2 x 2 luma square. */
  lemma {:induction false} ChromaPlaneSize(w: int, h: int)
    requires w > 0 && h > 0 && w % 2 == 0 && h % 2 == 0
    ensures w * h / 4 == (w / 2) * (h / 2)
  {
    var a, b := w / 2, h / 2;
    assert w == 2 * a && h == 2 * b;
    assert w * h == 4 * (a * b);
  }

  /** Java's iDestY * m_iWidth / 2 is row iDestY of the chroma stride when the width is even. */
  lemma HalfStride(row: int, w: int)
    requires w % 2 == 0
    ensures row * w / 2 == row * (w / 2)
  {
    var a := w / 2;
    assert w == 2 * a;
    assert row * w == 2 * (row * a);
  }

  /** A block inside a plane of `rows` rows fits the plane. */
  lemma BlockFitsPlane(stride: int, rows: int, dx: int, dy: int, w: int, h: int)
    requires stride > 0 && 0 <= dx && 0 <= w && dx + w <= stride && 0 <= dy && 0 <= h && dy + h <= rows
    ensures BlockFits(rows * stride, stride, dx, dy, w, h)
  {
    MulLe(dy + h, rows, stride);
  }

  function AsReals(s: seq<int>): (r: seq<real>)
    ensures |r| == |s| && forall i :: 0 <= i < |s| ==> r[i] == s[i] as real
  {
    seq(|s|, i requires 0 <= i < |s| => s[i] as real)
  }
}
