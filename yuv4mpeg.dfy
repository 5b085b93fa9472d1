/** The yuv4mpeg2 file PsxYuv.Write produces: a one-line ASCII header, a
    FRAME line, then every sample of the Y, Cb and Cr planes as one byte. */
module Yuv4Mpeg {
  import opened YuvPlanes

  const CHROMA_SUBSAMPLING: string := "420jpeg"

  // ---------------------------------------------------------------------
  // Decimal numbers, as Java's string concatenation writes them

  predicate IsDigit(c: char) { '0' <= c <= '9' }

  function DigitChar(d: int): (c: char)
    requires 0 <= d < 10
    ensures IsDigit(c) && c as int - '0' as int == d
  {
    ('0' as int + d) as char
  }

  /** The decimal digits of n, most significant first, without leading zeros. */
  function Digits(n: nat): (s: string)
    ensures |s| > 0 && forall i :: 0 <= i < |s| ==> IsDigit(s[i])
    ensures |s| > 1 ==> s[0] != '0'
    decreases n
  {
    if n < 10 then [DigitChar(n)] else Digits(n / 10) + [DigitChar(n % 10)]
  }

  /** A character that may appear in a written number. */
  predicate IsNumberChar(c: char) { IsDigit(c) || c == '-' }

  /** Java's decimal string of an int or a long: a minus sign for negatives. */
  function Decimal(n: int): (s: string)
    ensures |s| > 0 && IsNumberChar(s[0])
    ensures forall i :: 1 <= i < |s| ==> IsDigit(s[i])
    ensures s[0] == '-' <==> n < 0
  {
    if n < 0 then "-" + Digits(-n) else Digits(n)
  }

  /** The reference reading of a digit string, as a reader of the header
      parses it. */
  function DigitValue(c: char): nat
    requires IsDigit(c)
  {
    c as int - '0' as int
  }

  function ParseDigits(s: string): nat
    requires |s| > 0 && forall i :: 0 <= i < |s| ==> IsDigit(s[i])
    decreases |s|
  {
    var last := DigitValue(s[|s| - 1]);
    if |s| == 1 then last else ParseDigits(s[..|s| - 1]) * 10 + last
  }

  function ParseDecimal(s: string): int
    requires |s| > 0 && IsNumberChar(s[0]) && forall i :: 1 <= i < |s| ==> IsDigit(s[i])
    requires s[0] == '-' ==> |s| > 1
  {
    if s[0] == '-' then 0 - ParseDigits(s[1..]) else ParseDigits(s) as int
  }

  lemma {:induction false} DigitsRoundTrip(n: nat)
    ensures ParseDigits(Digits(n)) == n
    decreases n
  {
    if n >= 10 {
      DigitsRoundTrip(n / 10);
      var s := Digits(n);
      assert s[..|s| - 1] == Digits(n / 10);
    }
  }

  /** Every number written into the header reads back as itself. */
  lemma {:induction false} DecimalRoundTrip(n: int)
    ensures Decimal(n)[0] == '-' ==> |Decimal(n)| > 1
    ensures ParseDecimal(Decimal(n)) == n
  {
    if n < 0 {
      DigitsRoundTrip(-n);
      assert Decimal(n)[1..] == Digits(-n);
    } else {
      DigitsRoundTrip(n);
    }
  }

  /** Different numbers are written differently. */
  lemma DecimalInjective(m: int, n: int)
    requires Decimal(m) == Decimal(n)
    ensures m == n
  {
    DecimalRoundTrip(m);
    DecimalRoundTrip(n);
  }

  /** A number followed by text that starts with a character no number
      contains can be read off unambiguously: the number and the rest are
      both determined. */
  lemma {:induction false} DecimalThenDelimiter(m: int, n: int, s: string, t: string)
    requires |s| > 0 && |t| > 0 && !IsNumberChar(s[0]) && !IsNumberChar(t[0])
    requires Decimal(m) + s == Decimal(n) + t
    ensures m == n && s == t
  {
    var a, b := Decimal(m), Decimal(n);
    var i := if |a| < |b| then |a| else |b|;
    assert IsNumberChar((a + s)[i]) <==> i < |a|;
    assert IsNumberChar((b + t)[i]) <==> i < |b|;
    assert |a| == |b|;
    assert a == (a + s)[..|a|] == (b + t)[..|b|] == b;
    DecimalInjective(m, n);
    assert s == (a + s)[|a|..] == (b + t)[|b|..] == t;
  }

  // ---------------------------------------------------------------------
  // The header

  /** The stream header line: size, chroma siting, square pixels, frame
      rate, progressive, ended by a newline; written piece by piece, each
      piece starting at one of the numbers it holds. */
  function YuvHeader(w: int, h: int, fpsNum: int, fpsDen: int): string
  {
    HeaderStart() + (Decimal(w) + HeaderFromHeight(h, fpsNum, fpsDen))
  }

  function HeaderStart(): string { "YUV4MPEG2" + " W" }

  /** The header after its width. */
  function HeaderFromHeight(h: int, fpsNum: int, fpsDen: int): string
  {
    " H" + (Decimal(h) + HeaderFromChroma(fpsNum, fpsDen))
  }

  function ChromaAndAspect(): string { " C" + CHROMA_SUBSAMPLING + " A1:1" + " F" }

  /** The header after its height. */
  function HeaderFromChroma(fpsNum: int, fpsDen: int): string
  {
    ChromaAndAspect() + (Decimal(fpsNum) + HeaderFromDen(fpsDen))
  }

  /** The header after its frame-rate numerator. */
  function HeaderFromDen(fpsDen: int): string
  {
    ":" + (Decimal(fpsDen) + HeaderEnd())
  }

  function HeaderEnd(): string { " Ip" + "\n" }

  /** Dropping a common prefix. */
  lemma DropPrefix(p: string, s: string, t: string)
    requires p + s == p + t
    ensures s == t
  {
    assert s == (p + s)[|p|..];
    assert t == (p + t)[|p|..];
  }

  /** The header determines the frame size and rate it was written for. */
  lemma {:induction false} YuvHeaderInjective(w: int, h: int, fpsNum: int, fpsDen: int,
                                              w': int, h': int, fpsNum': int, fpsDen': int)
    requires YuvHeader(w, h, fpsNum, fpsDen) == YuvHeader(w', h', fpsNum', fpsDen')
    ensures w == w' && h == h' && fpsNum == fpsNum' && fpsDen == fpsDen'
  {
    DropPrefix(HeaderStart(), Decimal(w) + HeaderFromHeight(h, fpsNum, fpsDen),
               Decimal(w') + HeaderFromHeight(h', fpsNum', fpsDen'));
    DecimalThenDelimiter(w, w', HeaderFromHeight(h, fpsNum, fpsDen), HeaderFromHeight(h', fpsNum', fpsDen'));
    DropPrefix(" H", Decimal(h) + HeaderFromChroma(fpsNum, fpsDen), Decimal(h') + HeaderFromChroma(fpsNum', fpsDen'));
    DecimalThenDelimiter(h, h', HeaderFromChroma(fpsNum, fpsDen), HeaderFromChroma(fpsNum', fpsDen'));
    DropPrefix(ChromaAndAspect(), Decimal(fpsNum) + HeaderFromDen(fpsDen), Decimal(fpsNum') + HeaderFromDen(fpsDen'));
    DecimalThenDelimiter(fpsNum, fpsNum', HeaderFromDen(fpsDen), HeaderFromDen(fpsDen'));
    DropPrefix(":", Decimal(fpsDen) + HeaderEnd(), Decimal(fpsDen') + HeaderEnd());
    DecimalThenDelimiter(fpsDen, fpsDen', HeaderEnd(), HeaderEnd());
  }

  predicate NoNewline(s: string)
  {
    forall i :: 0 <= i < |s| ==> s[i] != '\n'
  }

  lemma NoNewlineConcat(a: string, b: string)
    requires NoNewline(a) && NoNewline(b)
    ensures NoNewline(a + b)
  {
    assert forall i :: 0 <= i < |a + b| ==> (a + b)[i] == if i < |a| then a[i] else b[i - |a|];
  }

  /** A string with exactly one newline, at its end. */
  predicate OneLine(s: string)
  {
    |s| > 0 && s[|s| - 1] == '\n' && NoNewline(s[..|s| - 1])
  }

  lemma PrependToLine(a: string, s: string)
    requires NoNewline(a) && OneLine(s)
    ensures OneLine(a + s)
  {
    assert (a + s)[..|a + s| - 1] == a + s[..|s| - 1];
    NoNewlineConcat(a, s[..|s| - 1]);
  }

  /** A written number holds no newline. */
  lemma DecimalNoNewline(n: int)
    ensures NoNewline(Decimal(n))
  {
  }

  /** The header is one line: its only newline is its last character, so
      the FRAME line that follows starts right after it. */
  lemma {:induction false} YuvHeaderOneLine(w: int, h: int, fpsNum: int, fpsDen: int)
    ensures OneLine(YuvHeader(w, h, fpsNum, fpsDen))
  {
    assert OneLine(HeaderEnd());
    DecimalNoNewline(fpsDen);
    PrependToLine(Decimal(fpsDen), HeaderEnd());
    PrependToLine(":", Decimal(fpsDen) + HeaderEnd());
    DecimalNoNewline(fpsNum);
    PrependToLine(Decimal(fpsNum), HeaderFromDen(fpsDen));
    PrependToLine(ChromaAndAspect(), Decimal(fpsNum) + HeaderFromDen(fpsDen));
    DecimalNoNewline(h);
    PrependToLine(Decimal(h), HeaderFromChroma(fpsNum, fpsDen));
    PrependToLine(" H", Decimal(h) + HeaderFromChroma(fpsNum, fpsDen));
    DecimalNoNewline(w);
    PrependToLine(Decimal(w), HeaderFromHeight(h, fpsNum, fpsDen));
    PrependToLine(HeaderStart(), Decimal(w) + HeaderFromHeight(h, fpsNum, fpsDen));
  }

  // ---------------------------------------------------------------------
  // Bytes

  /** The US-ASCII encoder of a Java OutputStreamWriter: each character
      below 128 is its own byte, any other becomes '?'. */
  function AsciiByte(c: char): Byte
  {
    if c as int < 128 then c as int else '?' as int
  }

  function Ascii(s: string): (r: seq<Byte>)
    ensures |r| == |s|
  {
    seq(|s|, i requires 0 <= i < |s| => AsciiByte(s[i]))
  }

  predicate IsAscii(s: string)
  {
    forall i :: 0 <= i < |s| ==> s[i] as int < 128
  }

  /** A string of ASCII characters is encoded as its character codes. */
  lemma AsciiExact(s: string)
    requires IsAscii(s)
    ensures forall i :: 0 <= i < |s| ==> Ascii(s)[i] == s[i] as int
  {
  }

  lemma AsciiConcat(a: string, b: string)
    ensures Ascii(a + b) == Ascii(a) + Ascii(b)
  {
  }

  lemma IsAsciiConcat(a: string, b: string)
    requires IsAscii(a) && IsAscii(b)
    ensures IsAscii(a + b)
  {
    assert forall i :: 0 <= i < |a + b| ==> (a + b)[i] == if i < |a| then a[i] else b[i - |a|];
  }

  lemma DecimalAscii(n: int)
    ensures IsAscii(Decimal(n))
  {
  }

  /** Nothing in the header needs the encoder's '?' replacement. */
  lemma {:induction false} YuvHeaderAscii(w: int, h: int, fpsNum: int, fpsDen: int)
    ensures IsAscii(YuvHeader(w, h, fpsNum, fpsDen))
  {
    DecimalAscii(w);
    DecimalAscii(h);
    DecimalAscii(fpsNum);
    DecimalAscii(fpsDen);
    IsAsciiConcat(Decimal(fpsDen), HeaderEnd());
    IsAsciiConcat(":", Decimal(fpsDen) + HeaderEnd());
    IsAsciiConcat(Decimal(fpsNum), HeaderFromDen(fpsDen));
    IsAsciiConcat(ChromaAndAspect(), Decimal(fpsNum) + HeaderFromDen(fpsDen));
    IsAsciiConcat(Decimal(h), HeaderFromChroma(fpsNum, fpsDen));
    IsAsciiConcat(" H", Decimal(h) + HeaderFromChroma(fpsNum, fpsDen));
    IsAsciiConcat(Decimal(w), HeaderFromHeight(h, fpsNum, fpsDen));
    IsAsciiConcat(HeaderStart(), Decimal(w) + HeaderFromHeight(h, fpsNum, fpsDen));
  }

  /** One sample of the file: rounded, shifted by 128, clamped to a byte. */
  function SampleByte(round: real -> int, d: real): (r: Byte)
  {
    Clamp(round(d) + 128)
  }

  /** A sample that rounds into -128..127 is written exactly, shifted by
      128; anything outside saturates at 0 or 255. */
  lemma SampleByteRange(round: real -> int, d: real)
    ensures -128 <= round(d) <= 127 ==> SampleByte(round, d) == round(d) + 128
    ensures round(d) < -128 ==> SampleByte(round, d) == 0
    ensures round(d) > 127 ==> SampleByte(round, d) == 255
  {
  }

  function Samples(round: real -> int, plane: seq<real>): (r: seq<Byte>)
    ensures |r| == |plane| && forall k :: 0 <= k < |plane| ==> r[k] == SampleByte(round, plane[k])
  {
    seq(|plane|, k requires 0 <= k < |plane| => SampleByte(round, plane[k]))
  }

  /** Writing the samples of a plane one at a time. */
  lemma SamplesSnoc(round: real -> int, plane: seq<real>, d: real)
    ensures Samples(round, plane + [d]) == Samples(round, plane) + [SampleByte(round, d)]
  {
  }

  // ---------------------------------------------------------------------
  // The file

  /** The FRAME line that opens the one frame. */
  const FRAME_LINE: string := "FRAME\n"

  /** The whole file: header, the FRAME line, then every Y, Cb and Cr sample
      in plane order. */
  function YuvFile(w: int, h: int, ys: seq<real>, cbs: seq<real>, crs: seq<real>,
                   fpsNum: int, fpsDen: int, round: real -> int): seq<Byte>
  {
    Ascii(YuvHeader(w, h, fpsNum, fpsDen) + FRAME_LINE) +
    Samples(round, ys) + Samples(round, cbs) + Samples(round, crs)
  }

  /** The file starts with the header's and the FRAME line's character codes. */
  lemma {:induction false} YuvFileText(w: int, h: int, ys: seq<real>, cbs: seq<real>, crs: seq<real>,
                                       fpsNum: int, fpsDen: int, round: real -> int)
    ensures var f, text := YuvFile(w, h, ys, cbs, crs, fpsNum, fpsDen, round), YuvHeader(w, h, fpsNum, fpsDen) + FRAME_LINE;
      |f| >= |text| && forall i :: 0 <= i < |text| ==> f[i] == text[i] as int
  {
    var text := YuvHeader(w, h, fpsNum, fpsDen) + FRAME_LINE;
    YuvHeaderAscii(w, h, fpsNum, fpsDen);
    IsAsciiConcat(YuvHeader(w, h, fpsNum, fpsDen), FRAME_LINE);
    AsciiExact(text);
  }

  /** Where the parts of t + a + b + c lie. */
  lemma ConcatFour(t: seq<Byte>, a: seq<Byte>, b: seq<Byte>, c: seq<Byte>)
    ensures var f := t + a + b + c;
      |f| == |t| + |a| + |b| + |c| &&
      (forall k :: 0 <= k < |a| ==> f[|t| + k] == a[k]) &&
      (forall k :: 0 <= k < |b| ==> f[|t| + |a| + k] == b[k]) &&
      (forall k :: 0 <= k < |c| ==> f[|t| + |a| + |b| + k] == c[k])
  {
  }

  /** After the text, the samples of the three planes follow in order, each
      byte the clamped sample at that position. */
  lemma {:induction false} YuvFileLayout(w: int, h: int, ys: seq<real>, cbs: seq<real>, crs: seq<real>,
                                         fpsNum: int, fpsDen: int, round: real -> int)
    ensures var f, start := YuvFile(w, h, ys, cbs, crs, fpsNum, fpsDen, round), |YuvHeader(w, h, fpsNum, fpsDen)| + 6;
      |f| == start + |ys| + |cbs| + |crs| &&
      (forall k :: 0 <= k < |ys| ==> f[start + k] == SampleByte(round, ys[k])) &&
      (forall k :: 0 <= k < |cbs| ==> f[start + |ys| + k] == SampleByte(round, cbs[k])) &&
      (forall k :: 0 <= k < |crs| ==> f[start + |ys| + |cbs| + k] == SampleByte(round, crs[k]))
  {
    var text := Ascii(YuvHeader(w, h, fpsNum, fpsDen) + FRAME_LINE);
    ConcatFour(text, Samples(round, ys), Samples(round, cbs), Samples(round, crs));
  }

  /** For a frame: W*H luma bytes followed by W*H/4 bytes of each chroma
      plane. */
  lemma YuvFileLength(w: int, h: int, ys: seq<real>, cbs: seq<real>, crs: seq<real>,
                      fpsNum: int, fpsDen: int, round: real -> int)
    requires |ys| == w * h && |cbs| == w * h / 4 && |crs| == w * h / 4
    ensures |YuvFile(w, h, ys, cbs, crs, fpsNum, fpsDen, round)| == |YuvHeader(w, h, fpsNum, fpsDen)| + 6 + w * h + 2 * (w * h / 4)
  {
  }
}
