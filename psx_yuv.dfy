/** PsxYuv: a decoded frame as three row-major planes of samples, one luma
    plane of W x H and two chroma planes of W/2 x H/2, filled block by block
    and written out as BMP pixel data or as a yuv4mpeg2 file. The samples
    are Java doubles, here exact reals. */
module PsxYuvImage {
  import opened YuvPlanes
  import opened BgrLayout
  import opened Yuv4Mpeg

  /** The Java assertions at the top of setY, as written. */
  predicate SetYAsserts(frameWidth: int, frameHeight: int, destX: int, destY: int, w: int, h: int, srcLength: int)
  {
    destX > 0 && destY > 0 && w > 0 && h > 0 &&
    destX + w < frameWidth && destY + h < frameHeight &&
    destX % 2 == 0 && destY % 2 == 0 &&
    srcLength == w * h
  }

  /** The block a setY call can copy: inside the frame, with a source of
      exactly w*h samples. */
  predicate SetYInBounds(frameWidth: int, frameHeight: int, destX: int, destY: int, w: int, h: int, srcLength: int)
  {
    0 <= destX && 0 <= w && destX + w <= frameWidth &&
    0 <= destY && 0 <= h && destY + h <= frameHeight &&
    srcLength == w * h
  }

  /** The assertions refuse the first macroblock of every frame, at (0, 0),
      and the last one of every row, though both lie inside the frame. */
  lemma SetYAssertsRejectCorners()
    ensures !SetYAsserts(320, 240, 0, 0, 16, 16, 256) && SetYInBounds(320, 240, 0, 0, 16, 16, 256)
    ensures !SetYAsserts(320, 240, 304, 16, 16, 16, 256) && SetYInBounds(320, 240, 304, 16, 16, 16, 256)
  {
  }

  /** Whatever the assertions accept, the in-bounds condition accepts too. */
  lemma SetYAssertsStronger(frameWidth: int, frameHeight: int, destX: int, destY: int, w: int, h: int, srcLength: int)
    requires SetYAsserts(frameWidth, frameHeight, destX, destY, w, h, srcLength)
    ensures SetYInBounds(frameWidth, frameHeight, destX, destY, w, h, srcLength)
  {
  }

  /** One pass of the outer loop of setY: row `line` of the block src
      goes to the plane row that starts at destLineStart. */
  method CopyLine(dst: array<real>, stride: int, dx: int, dy: int, w: int, h: int, src: array<real>,
                  line: int, destLineStart: int, srcLineStart: int, ghost plane: seq<real>)
    requires dst != src && BlockFits(|plane|, stride, dx, dy, w, h) && src.Length == w * h
    requires dst.Length == |plane| && 0 <= line < h
    requires destLineStart == dx + (dy + line) * stride && srcLineStart == line * w
    requires dst[..] == CopiedSoFar(plane, stride, dx, dy, w, h, src[..], line, 0)
    modifies dst
    ensures dst[..] == CopiedSoFar(plane, stride, dx, dy, w, h, src[..], line, w)
  {
    var col := 0;
    while col < w
      invariant 0 <= col <= w
      invariant dst[..] == CopiedSoFar(plane, stride, dx, dy, w, h, src[..], line, col)
    {
      CopiedSoFarStep(plane, stride, dx, dy, w, h, src[..], line, col, destLineStart + col, srcLineStart + col);
      ghost var before := dst[..];
      dst[destLineStart + col] := src[srcLineStart + col];
      assert dst[..] == before[destLineStart + col := src[srcLineStart + col]];
      col := col + 1;
    }
  }

  /** The same pass for an int[] source, each value widened to a double. */
  method CopyIntLine(dst: array<real>, stride: int, dx: int, dy: int, w: int, h: int, src: array<int>,
                     line: int, destLineStart: int, srcLineStart: int, ghost plane: seq<real>)
    requires BlockFits(|plane|, stride, dx, dy, w, h) && src.Length == w * h
    requires dst.Length == |plane| && 0 <= line < h
    requires destLineStart == dx + (dy + line) * stride && srcLineStart == line * w
    requires dst[..] == CopiedSoFar(plane, stride, dx, dy, w, h, AsReals(src[..]), line, 0)
    modifies dst
    ensures dst[..] == CopiedSoFar(plane, stride, dx, dy, w, h, AsReals(src[..]), line, w)
  {
    ghost var values := AsReals(src[..]);
    var col := 0;
    while col < w
      invariant 0 <= col <= w
      invariant dst[..] == CopiedSoFar(plane, stride, dx, dy, w, h, values, line, col)
    {
      CopiedSoFarStep(plane, stride, dx, dy, w, h, values, line, col, destLineStart + col, srcLineStart + col);
      ghost var before := dst[..];
      dst[destLineStart + col] := src[srcLineStart + col] as real;
      assert dst[..] == before[destLineStart + col := values[srcLineStart + col]];
      col := col + 1;
    }
  }

  /** One pass of the outer loop of setCbCr: the same row of both chroma
      blocks, one Cb and one Cr store per step. */
  method CopyChromaLine(cb: array<real>, cr: array<real>, stride: int, dx: int, dy: int, w: int, h: int,
                        srcCb: array<real>, srcCr: array<real>, line: int, destLineStart: int, srcLineStart: int,
                        ghost cbPlane: seq<real>, ghost crPlane: seq<real>)
    requires cb != cr && srcCb != cb && srcCb != cr && srcCr != cb && srcCr != cr
    requires BlockFits(|cbPlane|, stride, dx, dy, w, h) && |crPlane| == |cbPlane|
    requires srcCb.Length == w * h && srcCr.Length == w * h
    requires cb.Length == |cbPlane| && cr.Length == |crPlane| && 0 <= line < h
    requires destLineStart == dx + (dy + line) * stride && srcLineStart == line * w
    requires cb[..] == CopiedSoFar(cbPlane, stride, dx, dy, w, h, srcCb[..], line, 0)
    requires cr[..] == CopiedSoFar(crPlane, stride, dx, dy, w, h, srcCr[..], line, 0)
    modifies cb, cr
    ensures cb[..] == CopiedSoFar(cbPlane, stride, dx, dy, w, h, srcCb[..], line, w)
    ensures cr[..] == CopiedSoFar(crPlane, stride, dx, dy, w, h, srcCr[..], line, w)
  {
    var col := 0;
    while col < w
      invariant 0 <= col <= w
      invariant cb[..] == CopiedSoFar(cbPlane, stride, dx, dy, w, h, srcCb[..], line, col)
      invariant cr[..] == CopiedSoFar(crPlane, stride, dx, dy, w, h, srcCr[..], line, col)
    {
      CopiedSoFarStep(cbPlane, stride, dx, dy, w, h, srcCb[..], line, col, destLineStart + col, srcLineStart + col);
      CopiedSoFarStep(crPlane, stride, dx, dy, w, h, srcCr[..], line, col, destLineStart + col, srcLineStart + col);
      ghost var cbBefore, crBefore := cb[..], cr[..];
      cb[destLineStart + col] := srcCb[srcLineStart + col];
      cr[destLineStart + col] := srcCr[srcLineStart + col];
      assert cb[..] == cbBefore[destLineStart + col := srcCb[srcLineStart + col]];
      assert cr[..] == crBefore[destLineStart + col := srcCr[srcLineStart + col]];
      col := col + 1;
    }
  }

  /** The same pass of the int[] overload of setCbCr. */
  method CopyIntChromaLine(cb: array<real>, cr: array<real>, stride: int, dx: int, dy: int, w: int, h: int,
                           srcCb: array<int>, srcCr: array<int>, line: int, destLineStart: int, srcLineStart: int,
                           ghost cbPlane: seq<real>, ghost crPlane: seq<real>)
    requires cb != cr
    requires BlockFits(|cbPlane|, stride, dx, dy, w, h) && |crPlane| == |cbPlane|
    requires srcCb.Length == w * h && srcCr.Length == w * h
    requires cb.Length == |cbPlane| && cr.Length == |crPlane| && 0 <= line < h
    requires destLineStart == dx + (dy + line) * stride && srcLineStart == line * w
    requires cb[..] == CopiedSoFar(cbPlane, stride, dx, dy, w, h, AsReals(srcCb[..]), line, 0)
    requires cr[..] == CopiedSoFar(crPlane, stride, dx, dy, w, h, AsReals(srcCr[..]), line, 0)
    modifies cb, cr
    ensures cb[..] == CopiedSoFar(cbPlane, stride, dx, dy, w, h, AsReals(srcCb[..]), line, w)
    ensures cr[..] == CopiedSoFar(crPlane, stride, dx, dy, w, h, AsReals(srcCr[..]), line, w)
  {
    ghost var cbValues, crValues := AsReals(srcCb[..]), AsReals(srcCr[..]);
    var col := 0;
    while col < w
      invariant 0 <= col <= w
      invariant cb[..] == CopiedSoFar(cbPlane, stride, dx, dy, w, h, cbValues, line, col)
      invariant cr[..] == CopiedSoFar(crPlane, stride, dx, dy, w, h, crValues, line, col)
    {
      CopiedSoFarStep(cbPlane, stride, dx, dy, w, h, cbValues, line, col, destLineStart + col, srcLineStart + col);
      CopiedSoFarStep(crPlane, stride, dx, dy, w, h, crValues, line, col, destLineStart + col, srcLineStart + col);
      ghost var cbBefore, crBefore := cb[..], cr[..];
      cb[destLineStart + col] := srcCb[srcLineStart + col] as real;
      cr[destLineStart + col] := srcCr[srcLineStart + col] as real;
      assert cb[..] == cbBefore[destLineStart + col := cbValues[srcLineStart + col]];
      assert cr[..] == crBefore[destLineStart + col := crValues[srcLineStart + col]];
      col := col + 1;
    }
  }

  /** One of the three sample loops of Write: each double of the plane,
      rounded, shifted by 128 and clamped, one byte per sample in order. */
  method WriteSamples(plane: array<real>, round: real -> int) returns (bytes: seq<Byte>)
    ensures bytes == Samples(round, plane[..])
  {
    bytes := [];
    var k := 0;
    while k < plane.Length
      invariant 0 <= k <= plane.Length
      invariant bytes == Samples(round, plane[..k])
    {
      assert plane[..k + 1] == plane[..k] + [plane[k]];
      SamplesSnoc(round, plane[..k], plane[k]);
      bytes := bytes + [SampleByte(round, plane[k])];
      k := k + 1;
    }
    assert plane[..k] == plane[..];
  }

  /** The three stores ab[bmpPos++] = b, g, r of one pixel. */
  method StoreBgr(ab: array<Byte>, pos: int, b: Byte, g: Byte, r: Byte)
    requires 0 <= pos && pos + 3 <= ab.Length
    modifies ab
    ensures ab[..] == StorePixel(old(ab[..]), pos, [b, g, r])
  {
    ab[pos] := b;
    ab[pos + 1] := g;
    ab[pos + 2] := r;
  }

  class PsxYuv {
    const width: int
    const height: int
    const y: array<real>
    const cb: array<real>
    const cr: array<real>

    ghost predicate Valid()
      reads this
    {
      width > 0 && height > 0 && width % 2 == 0 && height % 2 == 0 &&
      y.Length == width * height &&
      cb.Length == width * height / 4 && cr.Length == width * height / 4 &&
      y != cb && y != cr && cb != cr
    }

    /** The planes are allocated zeroed: W*H luma samples and W*H/4 of each
        chroma component. */
    constructor (w: int, h: int)
      requires w > 0 && h > 0 && w % 2 == 0 && h % 2 == 0
      ensures Valid() && width == w && height == h
      ensures fresh(y) && fresh(cb) && fresh(cr)
      ensures y.Length == w * h && cb.Length == w * h / 4 && cr.Length == w * h / 4
      ensures forall k :: 0 <= k < y.Length ==> y[k] == 0.0
      ensures forall k :: 0 <= k < cb.Length ==> cb[k] == 0.0 && cr[k] == 0.0
    {
      width, height := w, h;
      var size := w * h;
      y := new real[size](_ => 0.0);
      cb := new real[size / 4](_ => 0.0);
      cr := new real[size / 4](_ => 0.0);
    }

    /** setY: copies the row-major w x h block src into the luma plane with
        its top-left corner at (destX, destY). The precondition is the
        in-bounds condition, not the stricter Java assertions. */
    method SetY(destX: int, destY: int, w: int, h: int, src: array<real>)
      requires Valid()
      requires SetYInBounds(width, height, destX, destY, w, h, src.Length)
      requires src != y
      modifies y
      ensures BlockFits(y.Length, width, destX, destY, w, h)
      ensures y[..] == Pasted(old(y[..]), width, destX, destY, w, h, src[..])
    {
      BlockFitsPlane(width, height, destX, destY, w, h);
      assert height * width == y.Length;
      var srcLineStart := 0;
      var destLineStart := destX + destY * width;
      var line := 0;
      while line < h
        invariant 0 <= line <= h
        invariant srcLineStart == line * w && destLineStart == destX + (destY + line) * width
        invariant y[..] == CopiedSoFar(old(y[..]), width, destX, destY, w, h, src[..], line, 0)
      {
        CopyLine(y, width, destX, destY, w, h, src, line, destLineStart, srcLineStart, old(y[..]));
        CopiedSoFarNextLine(old(y[..]), width, destX, destY, w, h, src[..], line);
        assert destLineStart + width == destX + (destY + line + 1) * width;
        assert srcLineStart + w == (line + 1) * w;
        line, destLineStart, srcLineStart := line + 1, destLineStart + width, srcLineStart + w;
      }
      CopiedSoFarDone(old(y[..]), width, destX, destY, w, h, src[..]);
    }

    /** The int[] overload of setY: the same copy, each value widened to a double. */
    method SetYFromInts(destX: int, destY: int, w: int, h: int, src: array<int>)
      requires Valid()
      requires SetYInBounds(width, height, destX, destY, w, h, src.Length)
      modifies y
      ensures BlockFits(y.Length, width, destX, destY, w, h)
      ensures y[..] == Pasted(old(y[..]), width, destX, destY, w, h, AsReals(src[..]))
    {
      BlockFitsPlane(width, height, destX, destY, w, h);
      assert height * width == y.Length;
      ghost var values := AsReals(src[..]);
      var srcLineStart := 0;
      var destLineStart := destX + destY * width;
      var line := 0;
      while line < h
        invariant 0 <= line <= h
        invariant srcLineStart == line * w && destLineStart == destX + (destY + line) * width
        invariant y[..] == CopiedSoFar(old(y[..]), width, destX, destY, w, h, values, line, 0)
      {
        CopyIntLine(y, width, destX, destY, w, h, src, line, destLineStart, srcLineStart, old(y[..]));
        CopiedSoFarNextLine(old(y[..]), width, destX, destY, w, h, values, line);
        assert destLineStart + width == destX + (destY + line + 1) * width;
        assert srcLineStart + w == (line + 1) * w;
        line, destLineStart, srcLineStart := line + 1, destLineStart + width, srcLineStart + w;
      }
      CopiedSoFarDone(old(y[..]), width, destX, destY, w, h, values);
    }

    /** setCbCr: copies the same w x h block position of srcCb into the Cb
        plane and of srcCr into the Cr plane; (destX, destY) and the block
        size are in chroma samples, so the row stride is W/2. */
    method SetCbCr(destX: int, destY: int, w: int, h: int, srcCb: array<real>, srcCr: array<real>)
      requires Valid()
      requires SetYInBounds(width / 2, height / 2, destX, destY, w, h, srcCb.Length) && srcCr.Length == w * h
      requires srcCb != cb && srcCb != cr && srcCr != cb && srcCr != cr
      modifies cb, cr
      ensures BlockFits(cb.Length, width / 2, destX, destY, w, h)
      ensures cb[..] == Pasted(old(cb[..]), width / 2, destX, destY, w, h, old(srcCb[..]))
      ensures cr[..] == Pasted(old(cr[..]), width / 2, destX, destY, w, h, old(srcCr[..]))
    {
      var stride := width / 2;
      BlockFitsPlane(stride, height / 2, destX, destY, w, h);
      ChromaPlaneSize(width, height);
      HalfStride(destY, width);
      var srcLineStart := 0;
      var destLineStart := destX + destY * width / 2;
      var line := 0;
      while line < h
        invariant 0 <= line <= h
        invariant srcLineStart == line * w && destLineStart == destX + (destY + line) * stride
        invariant cb[..] == CopiedSoFar(old(cb[..]), stride, destX, destY, w, h, srcCb[..], line, 0)
        invariant cr[..] == CopiedSoFar(old(cr[..]), stride, destX, destY, w, h, srcCr[..], line, 0)
      {
        CopyChromaLine(cb, cr, stride, destX, destY, w, h, srcCb, srcCr, line, destLineStart, srcLineStart,
                       old(cb[..]), old(cr[..]));
        CopiedSoFarNextLine(old(cb[..]), stride, destX, destY, w, h, srcCb[..], line);
        CopiedSoFarNextLine(old(cr[..]), stride, destX, destY, w, h, srcCr[..], line);
        assert destLineStart + stride == destX + (destY + line + 1) * stride;
        assert srcLineStart + w == (line + 1) * w;
        line, destLineStart, srcLineStart := line + 1, destLineStart + width / 2, srcLineStart + w;
      }
      CopiedSoFarDone(old(cb[..]), stride, destX, destY, w, h, srcCb[..]);
      CopiedSoFarDone(old(cr[..]), stride, destX, destY, w, h, srcCr[..]);
    }

    /** The int[] overload of setCbCr. */
    method SetCbCrFromInts(destX: int, destY: int, w: int, h: int, srcCb: array<int>, srcCr: array<int>)
      requires Valid()
      requires SetYInBounds(width / 2, height / 2, destX, destY, w, h, srcCb.Length) && srcCr.Length == w * h
      modifies cb, cr
      ensures BlockFits(cb.Length, width / 2, destX, destY, w, h)
      ensures cb[..] == Pasted(old(cb[..]), width / 2, destX, destY, w, h, AsReals(srcCb[..]))
      ensures cr[..] == Pasted(old(cr[..]), width / 2, destX, destY, w, h, AsReals(srcCr[..]))
    {
      var stride := width / 2;
      BlockFitsPlane(stride, height / 2, destX, destY, w, h);
      ChromaPlaneSize(width, height);
      HalfStride(destY, width);
      ghost var cbValues, crValues := AsReals(srcCb[..]), AsReals(srcCr[..]);
      var srcLineStart := 0;
      var destLineStart := destX + destY * width / 2;
      var line := 0;
      while line < h
        invariant 0 <= line <= h
        invariant srcLineStart == line * w && destLineStart == destX + (destY + line) * stride
        invariant cb[..] == CopiedSoFar(old(cb[..]), stride, destX, destY, w, h, cbValues, line, 0)
        invariant cr[..] == CopiedSoFar(old(cr[..]), stride, destX, destY, w, h, crValues, line, 0)
      {
        CopyIntChromaLine(cb, cr, stride, destX, destY, w, h, srcCb, srcCr, line, destLineStart, srcLineStart,
                          old(cb[..]), old(cr[..]));
        CopiedSoFarNextLine(old(cb[..]), stride, destX, destY, w, h, cbValues, line);
        CopiedSoFarNextLine(old(cr[..]), stride, destX, destY, w, h, crValues, line);
        assert destLineStart + stride == destX + (destY + line + 1) * stride;
        assert srcLineStart + w == (line + 1) * w;
        line, destLineStart, srcLineStart := line + 1, destLineStart + width / 2, srcLineStart + w;
      }
      CopiedSoFarDone(old(cb[..]), stride, destX, destY, w, h, cbValues);
      CopiedSoFarDone(old(cr[..]), stride, destX, destY, w, h, crValues);
    }

    /** The planes of the two frames are distinct arrays (each frame
        allocates its own). */
    ghost predicate SeparateFrom(o: PsxYuv)
      reads this, o
    {
      {y, cb, cr} !! {o.y, o.cb, o.cr}
    }

    /** putYuvImage: pastes o with its top-left corner at (x, yPos): its luma
        at (x, yPos), its chroma at (x/2, yPos/2) with half its width and
        height. */
    method PutYuvImage(x: int, yPos: int, o: PsxYuv)
      requires Valid() && o.Valid() && SeparateFrom(o)
      requires 0 <= x && x + o.width <= width && 0 <= yPos && yPos + o.height <= height
      modifies y, cb, cr
      ensures o.cb.Length == (o.width / 2) * (o.height / 2)
      ensures BlockFits(y.Length, width, x, yPos, o.width, o.height)
      ensures BlockFits(cb.Length, width / 2, x / 2, yPos / 2, o.width / 2, o.height / 2)
      ensures y[..] == Pasted(old(y[..]), width, x, yPos, o.width, o.height, o.y[..])
      ensures cb[..] == Pasted(old(cb[..]), width / 2, x / 2, yPos / 2, o.width / 2, o.height / 2, o.cb[..])
      ensures cr[..] == Pasted(old(cr[..]), width / 2, x / 2, yPos / 2, o.width / 2, o.height / 2, o.cr[..])
    {
      ChromaPlaneSize(o.width, o.height);
      SetY(x, yPos, o.width, o.height, o.y);
      SetCbCr(x / 2, yPos / 2, o.width / 2, o.height / 2, o.cb, o.cr);
    }

    /** toRowReverseBGRArray: the frame as BMP pixel data, bottom row first,
        each row the pixels' B, G, R bytes padded with zeros to a multiple
        of 4 bytes. */
    method ToRowReverseBgrArray(round: real -> int) returns (ab: array<Byte>)
      requires Valid()
      ensures fresh(ab)
      ensures PlanesValid(width, height, y[..], cb[..], cr[..])
      ensures ab[..] == RowReverseBgr(width, height, y[..], cb[..], cr[..], round)
    {
      var bmpWidth := PaddedRowWidth(width);
      PaddedRowWidthBounds(width);
      ghost var ys, cbs, crs := y[..], cb[..], cr[..];
      assert PlanesValid(width, height, ys, cbs, crs);
      MulLe(0, bmpWidth, height);
      ab := new Byte[bmpWidth * height](_ => 0);
      assert ab[..] == BgrSoFar(width, height, bmpWidth, ys, cbs, crs, round, 0, 0);
      var iY := height - 1;
      var bmpLinePos := 0;
      ghost var done := 0;
      while iY >= 0
        invariant -1 <= iY <= height - 1 && done == height - 1 - iY
        invariant bmpLinePos == done * bmpWidth
        invariant ab.Length == bmpWidth * height
        invariant y[..] == ys && cb[..] == cbs && cr[..] == crs
        invariant ab[..] == BgrSoFar(width, height, bmpWidth, ys, cbs, crs, round, done, 0)
      {
        BgrRowInto(ab, bmpWidth, iY, bmpLinePos, round, done);
        BgrSoFarNextRow(width, height, bmpWidth, ys, cbs, crs, round, done);
        MulSucc(done, bmpWidth);
        iY, bmpLinePos, done := iY - 1, bmpLinePos + bmpWidth, done + 1;
      }
      assert done == height;
      BgrSoFarDone(width, height, bmpWidth, ys, cbs, crs, round);
      assert ab[..] == BgrRows(width, height, bmpWidth, ys, cbs, crs, round);
    }

    /** The body of the inner loop of toRowReverseBGRArray before the
        stores: the luma and the shared chroma of pixel (iX, iY), converted
        and clamped. */
    method ConvertPixel(luminLinePos: int, chromLinePos: int, iY: int, iX: int, round: real -> int)
      returns (b: Byte, g: Byte, r: Byte)
      requires Valid() && 0 <= iY < height && 0 <= iX < width
      requires luminLinePos == iY * width && chromLinePos == (iY / 2) * (width / 2)
      ensures PlanesValid(width, height, y[..], cb[..], cr[..])
      ensures [b, g, r] == PixelBgr(width, height, y[..], cb[..], cr[..], round, iY, iX)
    {
      PixelIndices(width, height, iY, iX);
      var luma := y[luminLinePos + iX] + 128.0;
      var cbv := cb[chromLinePos + iX / 2];
      var crv := cr[chromLinePos + iX / 2];
      r := Clamp(ToRed(round, luma, cbv, crv));
      g := Clamp(ToGreen(round, luma, cbv, crv));
      b := Clamp(ToBlue(round, luma, cbv, crv));
      PixelBgrOf(width, height, y[..], cb[..], cr[..], round, iY, iX, luma, cbv, crv);
    }

    /** One pass of the inner loop of toRowReverseBGRArray: pixel (iX, iY)
        converted and stored at bmpPos. */
    method BgrPixelInto(ab: array<Byte>, bmpWidth: int, iY: int, iX: int, luminLinePos: int,
                        chromLinePos: int, bmpPos: int, round: real -> int, ghost done: int)
      requires Valid() && 3 * width <= bmpWidth && ab.Length == bmpWidth * height
      requires 0 <= iY < height && done == height - 1 - iY && 0 <= iX < width
      requires luminLinePos == iY * width && chromLinePos == (iY / 2) * (width / 2)
      requires bmpPos == done * bmpWidth + 3 * iX
      requires ab[..] == BgrSoFar(width, height, bmpWidth, y[..], cb[..], cr[..], round, done, iX)
      modifies ab
      ensures ab[..] == BgrSoFar(width, height, bmpWidth, y[..], cb[..], cr[..], round, done, iX + 1)
    {
      var b, g, r := ConvertPixel(luminLinePos, chromLinePos, iY, iX, round);
      BgrSoFarStep(width, height, bmpWidth, y[..], cb[..], cr[..], round, done, iX, iY, bmpPos);
      StoreBgr(ab, bmpPos, b, g, r);
    }

    /** One pass of the outer loop of toRowReverseBGRArray: the pixels of
        image row iY go to the BMP row that starts at bmpLinePos. */
    method BgrRowInto(ab: array<Byte>, bmpWidth: int, iY: int, bmpLinePos: int, round: real -> int, ghost done: int)
      requires Valid() && 3 * width <= bmpWidth && ab.Length == bmpWidth * height
      requires 0 <= iY < height && done == height - 1 - iY && bmpLinePos == done * bmpWidth
      requires ab[..] == BgrSoFar(width, height, bmpWidth, y[..], cb[..], cr[..], round, done, 0)
      modifies ab
      ensures ab[..] == BgrSoFar(width, height, bmpWidth, y[..], cb[..], cr[..], round, done, width)
    {
      assert PlanesValid(width, height, y[..], cb[..], cr[..]);
      var luminLinePos := iY * width;
      var chromLinePos := (iY / 2) * (width / 2);
      var iX := 0;
      var bmpPos := bmpLinePos;
      while iX < width
        invariant 0 <= iX <= width
        invariant bmpPos == bmpLinePos + 3 * iX
        invariant ab[..] == BgrSoFar(width, height, bmpWidth, y[..], cb[..], cr[..], round, done, iX)
      {
        BgrPixelInto(ab, bmpWidth, iY, iX, luminLinePos, chromLinePos, bmpPos, round, done);
        bmpPos := bmpPos + 3;
        iX := iX + 1;
      }
    }

    /** Write: the bytes of the yuv4mpeg2 file of this frame at the given
        frame rate, in the order they go to the stream. */
    method Write(fpsNum: int, fpsDen: int, round: real -> int) returns (out: seq<Byte>)
      requires Valid()
      ensures out == YuvFile(width, height, y[..], cb[..], cr[..], fpsNum, fpsDen, round)
    {
      out := Ascii(YuvHeader(width, height, fpsNum, fpsDen) + FRAME_LINE);
      var ys := WriteSamples(y, round);
      var cbs := WriteSamples(cb, round);
      var crs := WriteSamples(cr, round);
      out := out + ys + cbs + crs;
    }
  }
}
