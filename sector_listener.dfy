/** The per-sector checks the disc scan makes before handing a sector to
    the indexers: a warning for a corrupted header, a warning when the
    sector numbers in the headers break their run, and a warning for a Mode
    1 sector met after more Mode 2 sectors than Mode 1 ones. Handing the
    sector on and reporting progress are not part of this model. */
module SectorListening {

  /** What the listener reads of a CD sector. */
  datatype CdSector = CdSector(
    hasHeaderErrors: bool,
    hasHeaderSectorNumber: bool,
    headerSectorNumber: int,   // -1 when the header's number cannot be read
    isMode1: bool,
    isCdAudio: bool,
    numberFromStart: int)

  /** The warnings sectorRead logs. */
  datatype Notice =
    | SectorCorrupted(sector: int)
    | HeaderNumberBreak(last: int, next: int)
    | Mode1AmongMode2(sector: int)

  /** The listener's three counters. */
  datatype Counters = Counters(header: int, mode1: int, mode2: int)

  const Initial := Counters(-1, 0, 0)

  /** The header sector number sectorRead tracks after s. */
  function NextHeader(s: CdSector): int
  {
    if s.hasHeaderSectorNumber && s.headerSectorNumber != -1 then s.headerSectorNumber else -1
  }

  /** sectorRead's effect: the new counters and the warnings, in the order
      they are logged. */
  function Step(c: Counters, s: CdSector): (Counters, seq<Notice>)
  {
    var corrupted := if s.hasHeaderErrors then [SectorCorrupted(s.numberFromStart)] else [];
    var broken :=
      if s.hasHeaderSectorNumber && s.headerSectorNumber != -1 && c.header >= 0 && c.header + 1 != s.headerSectorNumber
      then [HeaderNumberBreak(c.header, s.headerSectorNumber)] else [];
    var mode1Warning := if s.isMode1 && c.mode1 < c.mode2 then [Mode1AmongMode2(s.numberFromStart)] else [];
    var counters := Counters(
      NextHeader(s),
      if s.isMode1 then c.mode1 + 1 else c.mode1,
      if !s.isMode1 && !s.isCdAudio then c.mode2 + 1 else c.mode2);
    (counters, corrupted + broken + mode1Warning)
  }

  /** The break warning fires exactly when a header number was being
      tracked and the new readable one does not follow it; the tracking
      restarts at every sector, at -1 when the sector has no readable
      number. */
  lemma HeaderBreakIff(c: Counters, s: CdSector)
    ensures HeaderNumberBreak(c.header, s.headerSectorNumber) in Step(c, s).1 <==>
              s.hasHeaderSectorNumber && s.headerSectorNumber != -1 && c.header >= 0 && c.header + 1 != s.headerSectorNumber
    ensures forall n :: n in Step(c, s).1 && n.HeaderNumberBreak? ==> n == HeaderNumberBreak(c.header, s.headerSectorNumber)
    ensures Step(c, s).0.header == NextHeader(s)
    ensures !s.hasHeaderSectorNumber ==> Step(c, s).0.header == -1
  {
  }

  /** The Mode 1 warning fires exactly for a Mode 1 sector met while fewer
      Mode 1 than Mode 2 sectors have been counted. */
  lemma Mode1WarningIff(c: Counters, s: CdSector)
    ensures Mode1AmongMode2(s.numberFromStart) in Step(c, s).1 <==> s.isMode1 && c.mode1 < c.mode2
    ensures SectorCorrupted(s.numberFromStart) in Step(c, s).1 <==> s.hasHeaderErrors
  {
  }

  /** Counters after a run of sectors. */
  function Run(c: Counters, sectors: seq<CdSector>): Counters
  {
    if |sectors| == 0 then c else Step(Run(c, sectors[..|sectors| - 1]), sectors[|sectors| - 1]).0
  }

  function CountMode1(sectors: seq<CdSector>): nat
  {
    if |sectors| == 0 then 0
    else CountMode1(sectors[..|sectors| - 1]) + (if sectors[|sectors| - 1].isMode1 then 1 else 0)
  }

  function CountMode2(sectors: seq<CdSector>): nat
  {
    if |sectors| == 0 then 0
    else CountMode2(sectors[..|sectors| - 1]) +
         (if !sectors[|sectors| - 1].isMode1 && !sectors[|sectors| - 1].isCdAudio then 1 else 0)
  }

  /** From the start of a scan, the Mode 1 count is the number of Mode 1
      sectors read and the Mode 2 count the number of the others that are
      not CD audio; the header number is the last sector's. */
  lemma {:induction false} RunCounts(sectors: seq<CdSector>)
    ensures Run(Initial, sectors).mode1 == CountMode1(sectors)
    ensures Run(Initial, sectors).mode2 == CountMode2(sectors)
    ensures Run(Initial, sectors).header == if |sectors| == 0 then -1 else NextHeader(sectors[|sectors| - 1])
  {
    if |sectors| > 0 {
      RunCounts(sectors[..|sectors| - 1]);
    }
  }

  /** CD audio sectors are counted in neither total. */
  lemma {:induction false} CdAudioNotCounted(sectors: seq<CdSector>)
    requires forall i :: 0 <= i < |sectors| ==> sectors[i].isCdAudio && !sectors[i].isMode1
    ensures CountMode1(sectors) == 0 && CountMode2(sectors) == 0
  {
    if |sectors| > 0 {
      CdAudioNotCounted(sectors[..|sectors| - 1]);
    }
  }

  /** A sector whose readable header number follows the tracked one, or
      that comes while nothing is tracked, raises no break warning. */
  lemma NoBreakWhenConsecutive(c: Counters, s: CdSector)
    requires c.header < 0 || !s.hasHeaderSectorNumber || s.headerSectorNumber == -1 || s.headerSectorNumber == c.header + 1
    ensures forall n :: n in Step(c, s).1 ==> !n.HeaderNumberBreak?
  {
  }

  /** UnidentifiedSectorIteratorListener's counters. */
  class Listener {
    var currentHeaderSectorNumber: int
    var mode1Count: int
    var mode2Count: int

    function State(): Counters
      reads this
    {
      Counters(currentHeaderSectorNumber, mode1Count, mode2Count)
    }

    constructor ()
      ensures State() == Initial
    {
      currentHeaderSectorNumber := -1;
      mode1Count := 0;
      mode2Count := 0;
    }

    /** sectorRead, up to handing the sector to the indexers. */
    method SectorRead(s: CdSector) returns (notices: seq<Notice>)
      modifies this
      ensures (State(), notices) == Step(old(State()), s)
    {
      var corrupted: seq<Notice> := [];
      if s.hasHeaderErrors {
        corrupted := [SectorCorrupted(s.numberFromStart)];
      }
      var broken: seq<Notice> := [];
      if s.hasHeaderSectorNumber {
        var newNumber := s.headerSectorNumber;
        if newNumber != -1 {
          if currentHeaderSectorNumber >= 0 {
            if currentHeaderSectorNumber + 1 != newNumber {
              broken := [HeaderNumberBreak(currentHeaderSectorNumber, newNumber)];
            }
          }
          currentHeaderSectorNumber := newNumber;
        } else {
          currentHeaderSectorNumber := -1;
        }
      } else {
        currentHeaderSectorNumber := -1;
      }
      var mode1Warning: seq<Notice> := [];
      if s.isMode1 {
        if mode1Count < mode2Count {
          mode1Warning := [Mode1AmongMode2(s.numberFromStart)];
        }
        mode1Count := mode1Count + 1;
      } else if !s.isCdAudio {
        mode2Count := mode2Count + 1;
      }
      notices := corrupted + broken + mode1Warning;
    }
  }
}
