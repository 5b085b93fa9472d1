/** Audio/video timing: how many audio samples a saver must still write so
    that the audio it has written keeps up with the sector being presented.
    Fractions are exact, so they are Dafny reals here; only the final
    rounding to a whole number of samples is integral. */
module AudioSyncing {

  /** Java's Math.round on a value that fits a long: the integer nearest to
      x, halves rounded up. */
  function Round(x: real): (r: int)
    ensures r as real <= x + 0.5 < r as real + 1.0
  {
    (x + 0.5).Floor
  }

  /** The rounding is determined by its bracket. */
  lemma RoundUnique(x: real, n: int)
    requires n as real <= x + 0.5 < n as real + 1.0
    ensures Round(x) == n
  {
  }

  lemma RoundMonotone(x: real, y: real)
    requires x <= y
    ensures Round(x) <= Round(y)
  {
  }

  lemma {:induction false} RoundShift(x: real, k: int)
    ensures Round(x - k as real) == Round(x) - k
  {
    RoundUnique(x - k as real, Round(x) - k);
  }

  /// The timing parameters of one saver; all three are fixed at construction.
  datatype AudioSync = AudioSync(
    firstPresentationSector: int,
    sectorsPerSecond: int,
    samplesPerSecond: int)
  {
    predicate Valid() { sectorsPerSecond != 0 && samplesPerSecond != 0 }

    /** samples/sector = samples/second / sectors/second. */
    function SamplesPerSector(): (r: real)
      requires Valid()
      ensures r * sectorsPerSecond as real == samplesPerSecond as real
    {
      samplesPerSecond as real / sectorsPerSecond as real
    }

    /** The difference, in samples, between where the presentation is (the
        given sector, possibly fractional) and how much audio has already
        been written, measured from the first presentation sector. */
    function CalculateAudioToCatchUp(audioPresentationSector: real, samplesWritten: int): int
      requires Valid()
    {
      var presentationTime := (audioPresentationSector - firstPresentationSector as real) / sectorsPerSecond as real;
      var movieTime := samplesWritten as real / samplesPerSecond as real;
      var timeDiff := presentationTime - movieTime;
      var sampleDiff := timeDiff * samplesPerSecond as real;
      Round(sampleDiff)
    }
  }

  /** The constructor stores its three arguments. */
  function NewAudioSync(firstPresentationSector: int, sectorsPerSecond: int, samplesPerSecond: int): (s: AudioSync)
    ensures s.firstPresentationSector == firstPresentationSector
    ensures s.sectorsPerSecond == sectorsPerSecond
    ensures s.samplesPerSecond == samplesPerSecond
  {
    AudioSync(firstPresentationSector, sectorsPerSecond, samplesPerSecond)
  }

  /** The sequence of time conversions amounts to one unit conversion:
      the distance in sectors times samples per sector, minus what has
      been written. */
  lemma {:induction false} CatchUpClosedForm(s: AudioSync, p: real, w: int)
    requires s.Valid()
    ensures s.CalculateAudioToCatchUp(p, w)
         == Round((p - s.firstPresentationSector as real) * s.SamplesPerSector() - w as real)
  {
    var f, sec, smp := s.firstPresentationSector as real, s.sectorsPerSecond as real, s.samplesPerSecond as real;
    var d := p - f;
    calc {
      ((d / sec) - (w as real / smp)) * smp;
      (d / sec) * smp - (w as real / smp) * smp;
      { assert (w as real / smp) * smp == w as real; }
      (d / sec) * smp - w as real;
      { assert (d / sec) * smp == d * (smp / sec); }
      d * (smp / sec) - w as real;
    }
  }

  /** At the first presentation sector, with nothing written, nothing is owed. */
  lemma {:induction false} CatchUpAtStart(s: AudioSync)
    requires s.Valid()
    ensures s.CalculateAudioToCatchUp(s.firstPresentationSector as real, 0) == 0
  {
    CatchUpClosedForm(s, s.firstPresentationSector as real, 0);
    RoundUnique(0.0, 0);
  }

  /** Each sample written reduces what is owed by exactly one sample. */
  lemma {:induction false} CatchUpWrittenOneMore(s: AudioSync, p: real, w: int)
    requires s.Valid()
    ensures s.CalculateAudioToCatchUp(p, w + 1) == s.CalculateAudioToCatchUp(p, w) - 1
  {
    var x := (p - s.firstPresentationSector as real) * s.SamplesPerSector() - w as real;
    CatchUpClosedForm(s, p, w);
    CatchUpClosedForm(s, p, w + 1);
    assert (p - s.firstPresentationSector as real) * s.SamplesPerSector() - (w + 1) as real == x - 1 as real;
    RoundShift(x, 1);
  }

  /** With positive rates, a later presentation sector never owes fewer samples. */
  lemma {:induction false} CatchUpMonotone(s: AudioSync, p: real, q: real, w: int)
    requires s.sectorsPerSecond > 0 && s.samplesPerSecond > 0
    requires p <= q
    ensures s.CalculateAudioToCatchUp(p, w) <= s.CalculateAudioToCatchUp(q, w)
  {
    var f, k := s.firstPresentationSector as real, s.SamplesPerSector();
    CatchUpClosedForm(s, p, w);
    CatchUpClosedForm(s, q, w);
    assert k > 0.0;
    assert (p - f) * k <= (q - f) * k;
    RoundMonotone((p - f) * k - w as real, (q - f) * k - w as real);
  }
}
