/** The frame header of Final Fantasy 7's STR video: eight little-endian
    bytes (half the VLC count rounded up to 32, the magic 0x3800, the
    quantization scale, the version 1), optionally preceded by 40 bytes of
    camera data. The reader decides whether camera data is present by
    looking for the magic at bytes 2..3. */
module Ff7Frame {
  import opened Wrappers

  type Byte = b: int | 0 <= b < 256

  /// A Java int.
  type Int32 = x: int | -0x8000_0000 <= x < 0x8000_0000

  const MAGIC_3800: int := 0x3800
  const CAMERA_DATA_SIZE: nat := 40
  const HEADER_SIZE: nat := 8
  const FF7_VERSION: int := 1

  // ---------------------------------------------------------------------
  // Little-endian 16-bit words

  function ReadUInt16LE(data: seq<Byte>, offset: nat): (r: int)
    requires offset + 2 <= |data|
    ensures 0 <= r < 0x1_0000
  {
    data[offset] as int + 0x100 * data[offset + 1] as int
  }

  /** The same two bytes read as a two's-complement short. */
  function ReadSInt16LE(data: seq<Byte>, offset: nat): (r: int)
    requires offset + 2 <= |data|
    ensures -0x8000 <= r < 0x8000
    ensures (r - ReadUInt16LE(data, offset)) % 0x1_0000 == 0
  {
    var u := ReadUInt16LE(data, offset);
    if u < 0x8000 then u else u - 0x1_0000
  }

  /** What writeInt16LE writes: the low 16 bits of v, low byte first. */
  function Int16LE(v: int): (r: seq<Byte>)
    ensures |r| == 2
  {
    var u := v % 0x1_0000;
    [u % 0x100, u / 0x100]
  }

  lemma Int16LERoundTrip(v: int, prefix: seq<Byte>, rest: seq<Byte>)
    requires -0x8000 <= v < 0x8000
    ensures ReadSInt16LE(prefix + Int16LE(v) + rest, |prefix|) == v
  {
    var d := prefix + Int16LE(v) + rest;
    assert d[|prefix|] == Int16LE(v)[0] && d[|prefix| + 1] == Int16LE(v)[1];
  }

  // ---------------------------------------------------------------------
  // Reading

  /** Camera data is assumed whenever the word at bytes 2..3 is not the magic. */
  predicate HasCameraData(data: seq<Byte>)
    requires |data| >= 4
  {
    ReadUInt16LE(data, 2) != MAGIC_3800
  }

  function HeaderOffset(data: seq<Byte>): (o: nat)
    requires |data| >= 4
    ensures o == if HasCameraData(data) then CAMERA_DATA_SIZE else 0
  {
    if HasCameraData(data) then CAMERA_DATA_SIZE else 0
  }

  /** The frame is long enough for every header read to stay in the array. */
  predicate HeaderInBounds(data: seq<Byte>)
  {
    |data| >= 4 && HeaderOffset(data) + HEADER_SIZE <= |data|
  }

  /** checkHeader: offset by the camera data if the magic is not at 2..3,
      then the magic, a positive qscale, version 1 and a non-negative half
      VLC count must all be present. */
  function CheckHeader(data: seq<Byte>): bool
    requires HeaderInBounds(data)
  {
    var first := ReadUInt16LE(data, 2);
    var start: nat := if first != MAGIC_3800 then CAMERA_DATA_SIZE else 0;
    var magic := if first != MAGIC_3800 then ReadUInt16LE(data, start + 2) else first;
    var halfVlcCountCeil32 := ReadSInt16LE(data, start + 0);
    var qscale := ReadSInt16LE(data, start + 4);
    var version := ReadSInt16LE(data, start + 6);
    !(magic != MAGIC_3800 || qscale < 1 || version != FF7_VERSION || halfVlcCountCeil32 < 0)
  }

  /** The four conditions of checkHeader, stated at the chosen offset. */
  lemma CheckHeaderAtOffset(data: seq<Byte>)
    requires HeaderInBounds(data)
    ensures var o := HeaderOffset(data);
      CheckHeader(data) <==>
        ReadUInt16LE(data, o + 2) == MAGIC_3800 && ReadSInt16LE(data, o + 4) >= 1 &&
        ReadSInt16LE(data, o + 6) == FF7_VERSION && ReadSInt16LE(data, o) >= 0
  {
  }

  /// A bit reader over a frame: the array, its byte order and the first byte to read.
  datatype ArrayBitReader = ArrayBitReader(data: seq<Byte>, littleEndian: bool, start: nat)

  datatype HeaderError = NotThisType

  /** The FF7 frame uncompressor. Only the header fields are modelled; the
      STR v2 bitstream decoding it inherits is not. */
  class DemuxFrameUncompressorFf7 {
    var magic3800: int
    var hasCameraData: bool
    var halfVlcCountCeil32: int
    var qscale: int
    /// The reader over the current frame, kept by the STR v2 base class.
    var bitReader: Option<ArrayBitReader>

    /** Camera data, when present, lies inside the current frame. */
    ghost predicate Valid()
      reads this
    {
      hasCameraData && bitReader.Some? ==> |bitReader.value.data| >= CAMERA_DATA_SIZE
    }

    constructor ()
      ensures Valid() && bitReader == None && !hasCameraData
    {
      magic3800, hasCameraData, halfVlcCountCeil32, qscale := 0, false, 0, 0;
      bitReader := None;
    }

    /** readHeader: sets the four header fields (also when it then fails)
        and, for an FF7 header, returns a reader positioned after it. */
    method ReadHeader(data: seq<Byte>) returns (r: Result<ArrayBitReader, HeaderError>)
      requires HeaderInBounds(data)
      modifies this`magic3800, this`hasCameraData, this`halfVlcCountCeil32, this`qscale
      ensures hasCameraData == HasCameraData(data)
      ensures magic3800 == ReadUInt16LE(data, HeaderOffset(data) + 2)
      ensures halfVlcCountCeil32 == ReadSInt16LE(data, HeaderOffset(data))
      ensures qscale == ReadSInt16LE(data, HeaderOffset(data) + 4)
      ensures r.Ok? <==> CheckHeader(data)
      ensures r.Ok? ==> r.value == ArrayBitReader(data, true, HeaderOffset(data) + HEADER_SIZE)
    {
      var startOffset: nat := 0;
      magic3800 := ReadUInt16LE(data, 2);
      hasCameraData := magic3800 != MAGIC_3800;
      if hasCameraData {
        startOffset := CAMERA_DATA_SIZE;
        magic3800 := ReadUInt16LE(data, startOffset + 2);
      }
      halfVlcCountCeil32 := ReadSInt16LE(data, startOffset + 0);
      qscale := ReadSInt16LE(data, startOffset + 4);
      var version := ReadSInt16LE(data, startOffset + 6);
      if magic3800 != MAGIC_3800 || qscale < 1 || version != FF7_VERSION || halfVlcCountCeil32 < 0 {
        return Err(NotThisType);
      }
      return Ok(ArrayBitReader(data, true, startOffset + HEADER_SIZE));
    }

    /** The STR v2 base class reads the header of a new frame through
        readHeader and keeps the reader it returns. */
    method BeginFrame(data: seq<Byte>) returns (r: Result<ArrayBitReader, HeaderError>)
      requires HeaderInBounds(data)
      modifies this
      ensures Valid()
      ensures hasCameraData == HasCameraData(data)
      ensures magic3800 == ReadUInt16LE(data, HeaderOffset(data) + 2)
      ensures halfVlcCountCeil32 == ReadSInt16LE(data, HeaderOffset(data))
      ensures qscale == ReadSInt16LE(data, HeaderOffset(data) + 4)
      ensures r.Ok? <==> CheckHeader(data)
      ensures bitReader == if r.Ok? then Some(r.value) else None
    {
      r := ReadHeader(data);
      bitReader := if r.Ok? then Some(r.value) else None;
    }

    /** getCameraData: the first 40 bytes of the frame, exactly when camera
        data was detected; null otherwise, with or without a frame. Only
        the camera branch reads the frame's array. */
    method GetCameraData() returns (r: Option<seq<Byte>>)
      requires Valid() && (hasCameraData ==> bitReader.Some?)
      ensures r.Some? <==> hasCameraData
      ensures r.Some? ==> r.value == bitReader.value.data[..CAMERA_DATA_SIZE]
    {
      if hasCameraData {
        r := Some(bitReader.value.data[0..CAMERA_DATA_SIZE]);
      } else {
        r := None;
      }
    }
  }

  // ---------------------------------------------------------------------
  // Writing

  /** ((vlcCount + 1) / 2 + 31) & ~31, in Java int arithmetic: the
      addition overflows only for vlcCount = Integer.MAX_VALUE. Dafny's %
      is Euclidean, so s - s % 32 clears the low five bits exactly as & ~31
      does on a two's-complement int. */
  function HalfVlcCountCeil32(vlcCount: Int32): int
    requires vlcCount >= 0
  {
    var plusOne := if vlcCount == 0x7FFF_FFFF then -0x8000_0000 else vlcCount + 1;
    var half := if plusOne < 0 then -((-plusOne) / 2) else plusOne / 2;
    var s := half + 31;
    s - s % 32
  }

  /** The written word is the half count rounded up to a multiple of 32. */
  lemma HalfVlcCountCeil32Bounds(vlcCount: Int32)
    requires 0 <= vlcCount < 0x7FFF_FFFF
    ensures var w, h := HalfVlcCountCeil32(vlcCount), (vlcCount + 1) / 2;
      w % 32 == 0 && h <= w <= h + 31
  {
  }

  /** The eight header bytes that compressToDemuxFF7 writes. */
  function HeaderBytes(qscale: Int32, vlcCount: Int32): (r: seq<Byte>)
    requires vlcCount >= 0
    ensures |r| == HEADER_SIZE
  {
    Int16LE(HalfVlcCountCeil32(vlcCount)) + Int16LE(MAGIC_3800) + Int16LE(qscale) + Int16LE(FF7_VERSION)
  }

  /// A byte sink standing for jPSXdec's bit-stream writer.
  class BitStreamWriter {
    var written: seq<Byte>
    var littleEndian: bool

    constructor ()
      ensures written == [] && !littleEndian
    {
      written, littleEndian := [], false;
    }

    method SetLittleEndian(b: bool)
      modifies this`littleEndian
      ensures littleEndian == b
    {
      littleEndian := b;
    }

    method Write(bytes: seq<Byte>)
      modifies this`written
      ensures written == old(written) + bytes
    {
      written := written + bytes;
    }

    method WriteInt16LE(v: int)
      modifies this`written
      ensures written == old(written) + Int16LE(v)
    {
      written := written + Int16LE(v);
    }
  }

  datatype CompressError = IllegalArgument

  /** The FF7 side of the STR v2 recompressor: only the header it writes
      before the bitstream is modelled. */
  class RecompressorFf7 {
    var qscale: int
    var vlcCount: int
    var bitStream: BitStreamWriter?

    constructor ()
      ensures bitStream == null
    {
      qscale, vlcCount, bitStream := 0, 0, null;
    }

    /** compressToDemuxFF7: refuses a qscale below 1 or a negative VLC count
        before anything is written; otherwise writes the camera data, if
        given, and then the four header words. */
    method CompressToDemuxFf7(stream: BitStreamWriter, newQscale: Int32, newVlcCount: Int32, cameraData: Option<seq<Byte>>)
      returns (r: Result<(), CompressError>)
      modifies this, stream
      ensures r.Err? <==> newQscale < 1 || newVlcCount < 0
      ensures r.Err? ==> unchanged(this) && unchanged(stream)
      ensures r.Ok? ==> qscale == newQscale && vlcCount == newVlcCount && bitStream == stream
      ensures r.Ok? ==> stream.littleEndian
      ensures r.Ok? ==>
        stream.written == old(stream.written) + (if cameraData.Some? then cameraData.value else []) + HeaderBytes(newQscale, newVlcCount)
    {
      if newQscale < 1 || newVlcCount < 0 {
        return Err(IllegalArgument);
      }
      qscale := newQscale;
      vlcCount := newVlcCount;
      bitStream := stream;
      if cameraData.Some? {
        stream.SetLittleEndian(false);
        stream.Write(cameraData.value);
      }
      stream.SetLittleEndian(true);
      stream.WriteInt16LE(HalfVlcCountCeil32(newVlcCount));
      stream.WriteInt16LE(MAGIC_3800);
      stream.WriteInt16LE(newQscale);
      stream.WriteInt16LE(FF7_VERSION);
      return Ok(());
    }
  }

  // ---------------------------------------------------------------------
  // Round trips

  /** Every header word read back from a frame that starts with prefix and
      then the written header. */
  lemma {:induction false} HeaderWordsAt(prefix: seq<Byte>, qscale: Int32, vlcCount: Int32, rest: seq<Byte>)
    requires vlcCount >= 0
    requires -0x8000 <= qscale < 0x8000 && -0x8000 <= HalfVlcCountCeil32(vlcCount) < 0x8000
    ensures var d, o := prefix + HeaderBytes(qscale, vlcCount) + rest, |prefix|;
      ReadSInt16LE(d, o) == HalfVlcCountCeil32(vlcCount) && ReadUInt16LE(d, o + 2) == MAGIC_3800 &&
      ReadSInt16LE(d, o + 4) == qscale && ReadSInt16LE(d, o + 6) == FF7_VERSION
  {
    var w := HalfVlcCountCeil32(vlcCount);
    var a, b, c, v := Int16LE(w), Int16LE(MAGIC_3800), Int16LE(qscale), Int16LE(FF7_VERSION);
    var d := prefix + HeaderBytes(qscale, vlcCount) + rest;
    assert d == prefix + a + (b + c + v + rest);
    Int16LERoundTrip(w, prefix, b + c + v + rest);
    assert d == (prefix + a) + b + (c + v + rest);
    Int16LERoundTrip(MAGIC_3800, prefix + a, c + v + rest);
    assert d == (prefix + a + b) + c + (v + rest);
    Int16LERoundTrip(qscale, prefix + a + b, v + rest);
    assert d == (prefix + a + b + c) + v + rest;
    Int16LERoundTrip(FF7_VERSION, prefix + a + b + c, rest);
  }

  /** Without camera data, the written header is accepted by checkHeader
      and yields the written qscale and half VLC count, provided every word
      fits a signed 16-bit value. */
  lemma {:induction false} HeaderRoundTrip(qscale: Int32, vlcCount: Int32, body: seq<Byte>)
    requires qscale >= 1 && vlcCount >= 0
    requires qscale < 0x8000 && -0x8000 <= HalfVlcCountCeil32(vlcCount) < 0x8000
    ensures var d := HeaderBytes(qscale, vlcCount) + body;
      HeaderInBounds(d) && !HasCameraData(d) && HeaderOffset(d) == 0 && CheckHeader(d) &&
      ReadSInt16LE(d, 4) == qscale && ReadSInt16LE(d, 0) == HalfVlcCountCeil32(vlcCount)
  {
    HeaderWordsAt([], qscale, vlcCount, body);
    assert [] + HeaderBytes(qscale, vlcCount) + body == HeaderBytes(qscale, vlcCount) + body;
  }

  /** With 40 bytes of camera data whose second word is not the magic, the
      reader finds the camera data, returns it unchanged and reads the same
      header after it. */
  lemma {:induction false} CameraRoundTrip(camera: seq<Byte>, qscale: Int32, vlcCount: Int32, body: seq<Byte>)
    requires |camera| == CAMERA_DATA_SIZE && ReadUInt16LE(camera, 2) != MAGIC_3800
    requires qscale >= 1 && vlcCount >= 0
    requires qscale < 0x8000 && -0x8000 <= HalfVlcCountCeil32(vlcCount) < 0x8000
    ensures var d := camera + HeaderBytes(qscale, vlcCount) + body;
      HeaderInBounds(d) && HasCameraData(d) && HeaderOffset(d) == CAMERA_DATA_SIZE &&
      CheckHeader(d) && ReadSInt16LE(d, CAMERA_DATA_SIZE + 4) == qscale &&
      d[..CAMERA_DATA_SIZE] == camera
  {
    var d := camera + HeaderBytes(qscale, vlcCount) + body;
    assert d[2] == camera[2] && d[3] == camera[3];
    HeaderWordsAt(camera, qscale, vlcCount, body);
    assert d[..CAMERA_DATA_SIZE] == camera;
  }

  /** The detection is a heuristic: camera data whose bytes 2..3 happen to
      be 00 38 is taken for a header, so the frame is read at offset 0. */
  lemma CameraMistakenForHeader(qscale: Int32, vlcCount: Int32)
    requires vlcCount >= 0
    ensures var camera := [0, 0, 0x00, 0x38] + seq(36, _ => 0);
      var d := camera + HeaderBytes(qscale, vlcCount);
      |camera| == CAMERA_DATA_SIZE && HeaderInBounds(d) && !HasCameraData(d) && HeaderOffset(d) == 0
  {
    var camera: seq<Byte> := [0, 0, 0x00, 0x38] + seq(36, _ => 0);
    var d := camera + HeaderBytes(qscale, vlcCount);
    assert d[2] == 0 && d[3] == 0x38;
  }
}
