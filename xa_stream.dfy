/** The life of one XA audio stream while a disc is indexed: the stream is
    seeded by its first sector and grows by one sector at a time as long as
    each new sector continues it at a fixed sector stride. This module is
    the value-level meaning of the tracker; the class that updates it in
    place is in XaAudio. */
module XaStream {
  import opened Wrappers

  /** What the tracker reads from a CD-ROM XA audio sector. The sub-header
      parsing and the ADPCM silence test behind these fields are not part
      of this model. */
  datatype XaSector = XaSector(
    number: int,        // sector number on the disc
    channel: int,       // XA channel, 0..31
    eof: bool,          // the sub-mode EOF marker
    samples: int,       // audio samples the sector holds
    allQuiet: bool)     // every sample is silent

  /** The arguments of createMedia: the item a finished stream becomes,
      built by the sector it is created from. */
  datatype XaItem = XaItem(startSector: int, stride: int, sampleCount: int, from: XaSector)

  /** The fields of an AudioStreamIndex. A stride below zero means "not
      yet known". */
  datatype Stream = Stream(
    start: int,
    previous: Option<XaSector>,
    current: XaSector,
    sampleCount: int,
    stride: int)

  /** A fresh tracker for the stream whose first sector is `first`. */
  function Seed(first: XaSector): Stream
  {
    Stream(first.number, None, first, 0, -1)
  }

  /** sectorRead's acceptance test. `matches(s, c)` is s.matchesPrevious(c)
      returning non-null; its body is not part of this model. */
  predicate Accepts(st: Stream, s: XaSector, matches: (XaSector, XaSector) -> bool)
  {
    !st.current.eof &&
    matches(s, st.current) &&
    (st.stride < 0 || s.number - st.current.number == st.stride)
  }

  /** The fields after sectorRead accepted s: the stride is fixed by the
      first accepted gap, the old current sector's samples are counted and
      s becomes current. */
  function AfterRead(st: Stream, s: XaSector): Stream
  {
    var gap := s.number - st.current.number;
    Stream(st.start, Some(st.current), s, st.sampleCount + st.current.samples,
           if st.stride < 0 then gap else st.stride)
  }

  /** createMediaItemFromCurrent: a lone silent sector is dropped;
      otherwise the current sector's samples are counted and the item is
      built. Returns the item and the updated fields. */
  function FromCurrent(st: Stream): (Option<XaItem>, Stream)
  {
    if st.previous.None? && st.current.allQuiet then
      (None, st)
    else
      var count := st.sampleCount + st.current.samples;
      (Some(XaItem(st.start, st.stride, count, st.current)), st.(sampleCount := count))
  }

  /** createMediaItemFromPrevious: the stream without its current sector,
      or nothing when it has a single sector. Changes no field. */
  function FromPrevious(st: Stream): Option<XaItem>
  {
    if st.previous.None? then None else Some(XaItem(st.start, st.stride, st.sampleCount, st.current))
  }

  /** ended: sector n lies beyond the next sector the stride expects. */
  predicate HasEnded(st: Stream, n: int)
  {
    st.stride >= 0 && n > st.current.number + st.stride
  }

  function SumSamples(ss: seq<XaSector>): int
  {
    if |ss| == 0 then 0 else SumSamples(ss[..|ss| - 1]) + ss[|ss| - 1].samples
  }

  /** The tracker's invariant with respect to the sectors it has accepted
      so far, `members`, oldest first: each member's sector number is
      start + k * stride, the stride is unset exactly while there is one
      member, previous is the member before current, and the count sums
      every member except the current one. */
  predicate Tracks(st: Stream, members: seq<XaSector>)
  {
    |members| >= 1 &&
    members[0].number == st.start &&
    members[|members| - 1] == st.current &&
    (st.previous.None? <==> |members| == 1) &&
    (|members| >= 2 ==> st.previous == Some(members[|members| - 2])) &&
    (st.stride < 0 <==> |members| == 1) &&
    (forall k :: 0 <= k < |members| ==> members[k].number == st.start + k * st.stride) &&
    st.sampleCount == SumSamples(members[..|members| - 1])
  }

  /** A fresh tracker holds exactly its seed. */
  lemma SeedTracks(first: XaSector)
    ensures Tracks(Seed(first), [first])
    ensures Seed(first).start == first.number && Seed(first).current == first
    ensures Seed(first).previous == None && Seed(first).stride == -1 && Seed(first).sampleCount == 0
  {
    assert [first][..0] == [];
  }

  lemma MulStep(k: int, d: int)
    ensures (k + 1) * d == k * d + d
  {
  }

  /** Accepting a sector that comes later on the disc keeps the invariant:
      the stride, once set, is never changed, so the new member lies one
      stride beyond the current one. */
  lemma {:induction false} TracksAfterRead(st: Stream, members: seq<XaSector>, s: XaSector,
                                           matches: (XaSector, XaSector) -> bool)
    requires Tracks(st, members) && Accepts(st, s, matches)
    requires s.number > st.current.number
    ensures Tracks(AfterRead(st, s), members + [s])
    ensures AfterRead(st, s).stride > 0
    ensures st.stride >= 0 ==> AfterRead(st, s).stride == st.stride
  {
    var n := |members|;
    var ms := members + [s];
    var st' := AfterRead(st, s);
    assert ms[..n] == members;
    assert members == members[..n - 1] + [st.current];
    assert st'.sampleCount == SumSamples(ms[..n]);
    MulStep(n - 1, st'.stride);
    if st.stride < 0 {
      assert n == 1;
      assert st.current.number == st.start;
    } else {
      assert st.current.number == st.start + (n - 1) * st.stride;
    }
    assert s.number == st.start + n * st'.stride;
    forall k | 0 <= k < n + 1
      ensures ms[k].number == st'.start + k * st'.stride
    {
      if k < n {
        assert ms[k] == members[k];
        if n == 1 {
          assert k == 0;
        }
      }
    }
  }

  /** The item made from the current sector covers every member: its start
      is the first member and its count the samples of all of them; it is
      missing exactly for a single silent sector. */
  lemma {:induction false} FromCurrentItem(st: Stream, members: seq<XaSector>)
    requires Tracks(st, members)
    ensures FromCurrent(st).0.None? <==> (|members| == 1 && st.current.allQuiet)
    ensures FromCurrent(st).0.Some? ==>
              FromCurrent(st).0.value.startSector == members[0].number &&
              FromCurrent(st).0.value.stride == st.stride &&
              FromCurrent(st).0.value.sampleCount == SumSamples(members)
  {
    var n := |members|;
    assert members[..n] == members;
  }

  /** The item made from the previous sector leaves the current one out:
      its count sums all members but the last. It exists exactly when the
      stream has more than one member. */
  lemma FromPreviousItem(st: Stream, members: seq<XaSector>)
    requires Tracks(st, members)
    ensures FromPrevious(st).None? <==> |members| == 1
    ensures FromPrevious(st).Some? ==>
              FromPrevious(st).value.startSector == members[0].number &&
              FromPrevious(st).value.sampleCount == SumSamples(members[..|members| - 1]) &&
              FromPrevious(st).value.from == members[|members| - 1]
  {
  }

  /** A stream is never swept while its stride is unknown, nor while the
      sector it expects next has not yet gone by. */
  lemma EndedWindow(st: Stream, n: int)
    ensures HasEnded(st, n) ==> st.stride >= 0
    ensures st.stride >= 0 ==> (HasEnded(st, n) <==> n > st.current.number + st.stride)
    ensures st.stride >= 0 ==> !HasEnded(st, st.current.number + st.stride) && HasEnded(st, st.current.number + st.stride + 1)
  {
  }

  /** What identifySector recognises: an XA audio sector first, then a
      null XA sector, else nothing. The two parsers are not part of this
      model; their verdicts are the parameters. */
  datatype SectorKind = KindXa | KindXaNull

  function IdentifySector(parsesAsXa: bool, parsesAsXaNull: bool): (r: Option<SectorKind>)
    ensures r == Some(KindXa) <==> parsesAsXa
    ensures r == Some(KindXaNull) <==> !parsesAsXa && parsesAsXaNull
    ensures r == None <==> !parsesAsXa && !parsesAsXaNull
  {
    if parsesAsXa then Some(KindXa) else if parsesAsXaNull then Some(KindXaNull) else None
  }
}
