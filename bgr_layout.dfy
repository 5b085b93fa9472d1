/** The BMP-style byte layout of a frame: rows bottom first, each row the
    pixels' B, G, R bytes padded with zeros to a multiple of 4 bytes. The
    conversion of one pixel uses Java doubles, here exact reals, and the
    rounding function jpsxdec.util.Math.round, here a parameter. */
module BgrLayout {
  import opened YuvPlanes

  /** Java's (int) cast of a long: keeps the low 32 bits, as a signed value. */
  function ToInt32(v: int): (r: int)
    ensures -0x8000_0000 <= r < 0x8000_0000
    ensures -0x8000_0000 <= v < 0x8000_0000 ==> r == v
    ensures (r - v) % 0x1_0000_0000 == 0
  {
    (v + 0x8000_0000) % 0x1_0000_0000 - 0x8000_0000
  }

  /** (W*3 + 3) & 0xFFFFFFFC: the BGR row length rounded up to 4 bytes. */
  function PaddedRowWidth(w: int): int
  {
    var s := w * 3 + 3;
    s - s % 4
  }

  /** The padded row holds the W pixels and at most 3 padding bytes, and is
      a whole number of 4-byte words. */
  lemma PaddedRowWidthBounds(w: int)
    ensures var p := PaddedRowWidth(w);
      p % 4 == 0 && 3 * w <= p <= 3 * w + 3
  {
  }

  /** Three planes of a W x H frame: W*H luma samples, W*H/4 of each chroma. */
  predicate PlanesValid(w: int, h: int, ys: seq<real>, cbs: seq<real>, crs: seq<real>)
  {
    w > 0 && h > 0 && w % 2 == 0 && h % 2 == 0 &&
    |ys| == w * h && |cbs| == w * h / 4 && |crs| == w * h / 4
  }

  lemma {:induction false} PixelIndices(w: int, h: int, row: int, col: int)
    requires w > 0 && h > 0 && w % 2 == 0 && h % 2 == 0
    requires 0 <= row < h && 0 <= col < w
    ensures 0 <= row * w + col < w * h
    ensures 0 <= (row / 2) * (w / 2) + col / 2 < w * h / 4
  {
    BlockIndexBound(row, col, w, h);
    BlockIndexBound(row / 2, col / 2, w / 2, h / 2);
    ChromaPlaneSize(w, h);
  }

  /** The colour conversion of one pixel from its luma (already shifted by
      128) and its chroma, with Java's coefficients, each component rounded
      and cast to int. */
  function ToRed(round: real -> int, luma: real, cb: real, cr: real): int
  {
    ToInt32(round(luma + 1.402 * cr))
  }

  function ToGreen(round: real -> int, luma: real, cb: real, cr: real): int
  {
    ToInt32(round(luma - 0.3437 * cb - 0.7143 * cr))
  }

  function ToBlue(round: real -> int, luma: real, cb: real, cr: real): int
  {
    ToInt32(round(luma + 1.772 * cb))
  }

  /** The three bytes of pixel (col, row): its luma shifted by 128 and the
      chroma sample its 2 x 2 square shares, converted, clamped to 0..255
      and stored in B, G, R order. */
  function PixelBgr(w: int, h: int, ys: seq<real>, cbs: seq<real>, crs: seq<real>,
                    round: real -> int, row: int, col: int): (r: seq<Byte>)
    requires PlanesValid(w, h, ys, cbs, crs) && 0 <= row < h && 0 <= col < w
    ensures |r| == 3
  {
    PixelIndices(w, h, row, col);
    var chroma := (row / 2) * (w / 2) + col / 2;
    var luma, cb, cr := ys[row * w + col] + 128.0, cbs[chroma], crs[chroma];
    [Clamp(ToBlue(round, luma, cb, cr)), Clamp(ToGreen(round, luma, cb, cr)), Clamp(ToRed(round, luma, cb, cr))]
  }

  /** PixelBgr from the three samples the conversion loop reads. */
  lemma PixelBgrOf(w: int, h: int, ys: seq<real>, cbs: seq<real>, crs: seq<real>,
                   round: real -> int, row: int, col: int, luma: real, cb: real, cr: real)
    requires PlanesValid(w, h, ys, cbs, crs) && 0 <= row < h && 0 <= col < w
    requires 0 <= row * w + col < |ys| && 0 <= (row / 2) * (w / 2) + col / 2 < |cbs|
    requires luma == ys[row * w + col] + 128.0
    requires cb == cbs[(row / 2) * (w / 2) + col / 2] && cr == crs[(row / 2) * (w / 2) + col / 2]
    ensures PixelBgr(w, h, ys, cbs, crs, round, row, col)
            == [Clamp(ToBlue(round, luma, cb, cr)), Clamp(ToGreen(round, luma, cb, cr)), Clamp(ToRed(round, luma, cb, cr))]
  {
  }

  /** Byte i of toRowReverseBGRArray's output: output row i / P shows image
      row H-1-(i / P); within it byte j is byte j % 3 (B, G, R) of pixel
      j / 3, or zero padding from 3*W on. */
  function BgrByteAt(w: int, h: int, p: int, ys: seq<real>, cbs: seq<real>, crs: seq<real>,
                     round: real -> int, i: int): Byte
    requires PlanesValid(w, h, ys, cbs, crs) && 3 * w <= p && 0 <= i < p * h
  {
    DivBound(i, p, h);
    var row, j := i / p, i % p;
    if j < 3 * w then PixelBgr(w, h, ys, cbs, crs, round, h - 1 - row, j / 3)[j % 3] else 0
  }

  /** The H rows of P bytes each, as a function of the planes. */
  function BgrRows(w: int, h: int, p: int, ys: seq<real>, cbs: seq<real>, crs: seq<real>,
                         round: real -> int): (r: seq<Byte>)
    requires PlanesValid(w, h, ys, cbs, crs) && 3 * w <= p
    ensures |r| == p * h
  {
    seq(p * h, i requires 0 <= i < p * h => BgrByteAt(w, h, p, ys, cbs, crs, round, i))
  }

  /** toRowReverseBGRArray's output: the rows padded to PaddedRowWidth(W). */
  function RowReverseBgr(w: int, h: int, ys: seq<real>, cbs: seq<real>, crs: seq<real>,
                         round: real -> int): (r: seq<Byte>)
    requires PlanesValid(w, h, ys, cbs, crs)
    ensures |r| == PaddedRowWidth(w) * h
  {
    PaddedRowWidthBounds(w);
    BgrRows(w, h, PaddedRowWidth(w), ys, cbs, crs, round)
  }

  /** Byte j of output row d, by its row and column. */
  lemma {:induction false} BgrByteOf(w: int, h: int, p: int, ys: seq<real>, cbs: seq<real>, crs: seq<real>,
                                     round: real -> int, d: int, j: int, i: int)
    requires PlanesValid(w, h, ys, cbs, crs) && 3 * w <= p && 0 <= d < h && 0 <= j < p
    requires i == d * p + j
    ensures 0 <= i < p * h
    ensures BgrByteAt(w, h, p, ys, cbs, crs, round, i)
         == if j < 3 * w then PixelBgr(w, h, ys, cbs, crs, round, h - 1 - d, j / 3)[j % 3] else 0
  {
    BlockIndexBound(d, j, p, h);
    DivModOf(i, p, d, j);
  }

  /** Byte c (B, G or R) of pixel iX in output row d. */
  lemma {:induction false} BgrChannelAt(w: int, h: int, p: int, ys: seq<real>, cbs: seq<real>, crs: seq<real>,
                                        round: real -> int, d: int, iX: int, c: int, i: int)
    requires PlanesValid(w, h, ys, cbs, crs) && 3 * w <= p && 0 <= d < h && 0 <= iX < w && 0 <= c < 3
    requires i == d * p + (3 * iX + c)
    ensures 0 <= i < p * h
    ensures BgrByteAt(w, h, p, ys, cbs, crs, round, i) == PixelBgr(w, h, ys, cbs, crs, round, h - 1 - d, iX)[c]
  {
    DivModOf(3 * iX + c, 3, iX, c);
    BgrByteOf(w, h, p, ys, cbs, crs, round, d, 3 * iX + c, i);
  }

  /** Output row d shows image row H-1-d: the three bytes at d*P + 3*iX
      are the B, G and R of pixel (iX, H-1-d). */
  lemma {:induction false} BgrPixelAt(w: int, h: int, p: int, ys: seq<real>, cbs: seq<real>, crs: seq<real>,
                                      round: real -> int, d: int, iX: int, pos: int)
    requires PlanesValid(w, h, ys, cbs, crs) && 3 * w <= p && 0 <= d < h && 0 <= iX < w
    requires pos == d * p + 3 * iX
    ensures 0 <= pos && pos + 3 <= p * h
    ensures BgrByteAt(w, h, p, ys, cbs, crs, round, pos) == PixelBgr(w, h, ys, cbs, crs, round, h - 1 - d, iX)[0]
    ensures BgrByteAt(w, h, p, ys, cbs, crs, round, pos + 1) == PixelBgr(w, h, ys, cbs, crs, round, h - 1 - d, iX)[1]
    ensures BgrByteAt(w, h, p, ys, cbs, crs, round, pos + 2) == PixelBgr(w, h, ys, cbs, crs, round, h - 1 - d, iX)[2]
  {
    BgrChannelAt(w, h, p, ys, cbs, crs, round, d, iX, 0, pos);
    BgrChannelAt(w, h, p, ys, cbs, crs, round, d, iX, 1, pos + 1);
    BgrChannelAt(w, h, p, ys, cbs, crs, round, d, iX, 2, pos + 2);
  }

  /** The three stores of one pixel's B, G and R bytes at pos. */
  function StorePixel(before: seq<Byte>, pos: int, px: seq<Byte>): (r: seq<Byte>)
    requires 0 <= pos && pos + 3 <= |before| && |px| == 3
    ensures |r| == |before|
  {
    before[pos := px[0]][pos + 1 := px[1]][pos + 2 := px[2]]
  }

  /** The three bytes of pixel iX of output row d lie inside the output. */
  lemma PixelSlotInside(w: int, h: int, p: int, d: int, iX: int, pos: int)
    requires 3 * w <= p && 0 <= d < h && 0 <= iX < w && pos == d * p + 3 * iX
    ensures 0 <= pos && pos + 3 <= p * h
  {
    RowInside(d, 3 * iX + 2, p, 0, h);
  }

  /** The output array after the conversion loop has done `done` output
      rows and the first iX pixels of the next one, one store at a time,
      starting from a zeroed array. */
  function BgrSoFar(w: int, h: int, p: int, ys: seq<real>, cbs: seq<real>, crs: seq<real>,
                    round: real -> int, done: int, iX: int): (r: seq<Byte>)
    requires PlanesValid(w, h, ys, cbs, crs) && 3 * w <= p
    requires 0 <= done <= h && 0 <= iX <= w && (iX > 0 ==> done < h)
    ensures |r| == p * h
    decreases done, iX
  {
    if iX > 0 then
      var pos := done * p + 3 * (iX - 1);
      PixelSlotInside(w, h, p, done, iX - 1, pos);
      var px := PixelBgr(w, h, ys, cbs, crs, round, h - 1 - done, iX - 1);
      StorePixel(BgrSoFar(w, h, p, ys, cbs, crs, round, done, iX - 1), pos, px)
    else if done > 0 then
      BgrSoFar(w, h, p, ys, cbs, crs, round, done - 1, w)
    else
      MulLe(0, p, h);
      seq(p * h, _ => 0)
  }

  /** One pass of the inner loop: the pixel (iX, row) is stored at pos. */
  lemma BgrSoFarStep(w: int, h: int, p: int, ys: seq<real>, cbs: seq<real>, crs: seq<real>,
                     round: real -> int, done: int, iX: int, row: int, pos: int)
    requires PlanesValid(w, h, ys, cbs, crs) && 3 * w <= p
    requires 0 <= done < h && 0 <= iX < w && row == h - 1 - done && pos == done * p + 3 * iX
    ensures 0 <= pos && pos + 3 <= p * h
    ensures BgrSoFar(w, h, p, ys, cbs, crs, round, done, iX + 1)
         == StorePixel(BgrSoFar(w, h, p, ys, cbs, crs, round, done, iX), pos, PixelBgr(w, h, ys, cbs, crs, round, row, iX))
  {
    BgrPixelAt(w, h, p, ys, cbs, crs, round, done, iX, pos);
  }

  /** The end of one output row is the start of the next. */
  lemma BgrSoFarNextRow(w: int, h: int, p: int, ys: seq<real>, cbs: seq<real>, crs: seq<real>,
                        round: real -> int, done: int)
    requires PlanesValid(w, h, ys, cbs, crs) && 3 * w <= p && 0 <= done < h
    ensures BgrSoFar(w, h, p, ys, cbs, crs, round, done + 1, 0) == BgrSoFar(w, h, p, ys, cbs, crs, round, done, w)
  {
  }

  /** Three consecutive stores change only their own three bytes. */
  lemma StoreThree(before: seq<Byte>, pos: int, px: seq<Byte>, k: int)
    requires 0 <= pos && pos + 3 <= |before| && |px| == 3 && 0 <= k < |before|
    ensures StorePixel(before, pos, px)[k] == if pos <= k < pos + 3 then px[k - pos] else before[k]
  {
  }

  /** Byte k of `now` is settled with respect to the write position lim:
      below it, the byte has its final value; from it on, it is still zero. */
  predicate Settled(w: int, h: int, p: int, ys: seq<real>, cbs: seq<real>, crs: seq<real>,
                    round: real -> int, now: seq<Byte>, lim: int, k: int)
    requires PlanesValid(w, h, ys, cbs, crs) && 3 * w <= p && 0 <= k < p * h && |now| == p * h
  {
    (k < lim ==> now[k] == BgrByteAt(w, h, p, ys, cbs, crs, round, k)) && (k >= lim ==> now[k] == 0)
  }

  /** Part-way through the loop, every byte before the write position holds
      its final value and every byte from it on is still zero. */
  lemma {:induction false} BgrSoFarAt(w: int, h: int, p: int, ys: seq<real>, cbs: seq<real>, crs: seq<real>,
                                      round: real -> int, done: int, iX: int, k: int)
    requires PlanesValid(w, h, ys, cbs, crs) && 3 * w <= p
    requires 0 <= done <= h && 0 <= iX <= w && (iX > 0 ==> done < h)
    requires 0 <= k < p * h
    ensures Settled(w, h, p, ys, cbs, crs, round, BgrSoFar(w, h, p, ys, cbs, crs, round, done, iX),
                    done * p + 3 * iX, k)
  {
    BgrRowsSettled(w, h, p, ys, cbs, crs, round, done, k);
    BgrPixelsSettled(w, h, p, ys, cbs, crs, round, done, iX, k);
  }

  /** Within one output row, by induction on the pixels stored. */
  lemma {:induction false} BgrPixelsSettled(w: int, h: int, p: int, ys: seq<real>, cbs: seq<real>, crs: seq<real>,
                                            round: real -> int, done: int, iX: int, k: int)
    requires PlanesValid(w, h, ys, cbs, crs) && 3 * w <= p
    requires 0 <= done <= h && 0 <= iX <= w && (iX > 0 ==> done < h)
    requires 0 <= k < p * h
    requires Settled(w, h, p, ys, cbs, crs, round, BgrSoFar(w, h, p, ys, cbs, crs, round, done, 0),
                     done * p + 3 * 0, k)
    ensures Settled(w, h, p, ys, cbs, crs, round, BgrSoFar(w, h, p, ys, cbs, crs, round, done, iX),
                    done * p + 3 * iX, k)
  {
    if iX > 0 {
      BgrPixelsSettled(w, h, p, ys, cbs, crs, round, done, iX - 1, k);
      BgrSoFarStepAt(w, h, p, ys, cbs, crs, round, done, iX, k);
    }
  }

  /** At the start of each output row, by induction on the rows done. */
  lemma {:induction false} BgrRowsSettled(w: int, h: int, p: int, ys: seq<real>, cbs: seq<real>, crs: seq<real>,
                                          round: real -> int, done: int, k: int)
    requires PlanesValid(w, h, ys, cbs, crs) && 3 * w <= p
    requires 0 <= done <= h
    requires 0 <= k < p * h
    ensures Settled(w, h, p, ys, cbs, crs, round, BgrSoFar(w, h, p, ys, cbs, crs, round, done, 0),
                    done * p + 3 * 0, k)
  {
    if done > 0 {
      BgrRowsSettled(w, h, p, ys, cbs, crs, round, done - 1, k);
      BgrPixelsSettled(w, h, p, ys, cbs, crs, round, done - 1, w, k);
      BgrSoFarRowAt(w, h, p, ys, cbs, crs, round, done, k);
    }
  }

  /** One pixel's step of BgrSoFarAt: the three stores extend the finished
      prefix by three bytes. */
  lemma {:induction false} BgrSoFarStepAt(w: int, h: int, p: int, ys: seq<real>, cbs: seq<real>, crs: seq<real>,
                                          round: real -> int, done: int, iX: int, k: int)
    requires PlanesValid(w, h, ys, cbs, crs) && 3 * w <= p
    requires 0 <= done < h && 0 < iX <= w
    requires 0 <= k < p * h
    requires Settled(w, h, p, ys, cbs, crs, round, BgrSoFar(w, h, p, ys, cbs, crs, round, done, iX - 1),
                     done * p + 3 * (iX - 1), k)
    ensures Settled(w, h, p, ys, cbs, crs, round, BgrSoFar(w, h, p, ys, cbs, crs, round, done, iX),
                    done * p + 3 * iX, k)
  {
    var pos := done * p + 3 * (iX - 1);
    BgrPixelAt(w, h, p, ys, cbs, crs, round, done, iX - 1, pos);
    var px := PixelBgr(w, h, ys, cbs, crs, round, h - 1 - done, iX - 1);
    StoreThree(BgrSoFar(w, h, p, ys, cbs, crs, round, done, iX - 1), pos, px, k);
  }

  /** The end of an output row: the padding bytes, never stored, are the
      zeros the layout asks for. */
  lemma {:induction false} BgrSoFarRowAt(w: int, h: int, p: int, ys: seq<real>, cbs: seq<real>, crs: seq<real>,
                                         round: real -> int, done: int, k: int)
    requires PlanesValid(w, h, ys, cbs, crs) && 3 * w <= p
    requires 0 < done <= h
    requires 0 <= k < p * h
    requires Settled(w, h, p, ys, cbs, crs, round, BgrSoFar(w, h, p, ys, cbs, crs, round, done - 1, w),
                     (done - 1) * p + 3 * w, k)
    ensures Settled(w, h, p, ys, cbs, crs, round, BgrSoFar(w, h, p, ys, cbs, crs, round, done, 0),
                    done * p + 3 * 0, k)
  {
    assert (done - 1) * p + p == done * p;
    if (done - 1) * p + 3 * w <= k < done * p {
      BgrByteOf(w, h, p, ys, cbs, crs, round, done - 1, k - (done - 1) * p, k);
    }
  }

  /** The whole loop produces toRowReverseBGRArray's layout. */
  lemma {:induction false} BgrSoFarDone(w: int, h: int, p: int, ys: seq<real>, cbs: seq<real>, crs: seq<real>,
                                        round: real -> int)
    requires PlanesValid(w, h, ys, cbs, crs) && 3 * w <= p
    ensures BgrSoFar(w, h, p, ys, cbs, crs, round, h, 0) == BgrRows(w, h, p, ys, cbs, crs, round)
  {
    var out := BgrRows(w, h, p, ys, cbs, crs, round);
    forall k | 0 <= k < p * h
      ensures BgrSoFar(w, h, p, ys, cbs, crs, round, h, 0)[k] == out[k]
    {
      BgrSoFarAt(w, h, p, ys, cbs, crs, round, h, 0, k);
      assert h * p + 3 * 0 == p * h;
      assert out[k] == BgrByteAt(w, h, p, ys, cbs, crs, round, k);
    }
  }
}
