/** JPSXModuleXAAudio: the XA audio indexer. One tracker per XA channel
    (32 slots) follows the stream playing on that channel; streams that
    end become disc items. The value-level model of the indexer is an
    Indexer (the 32 slots and the items added so far); the classes below
    update their fields and array in place and are proved to follow it. */
module XaAudio {
  import opened Wrappers
  import opened XaStream

  const CHANNELS := 32

  /** The 32 channel slots and the items handed to addDiscItem, in order. */
  datatype Indexer = Indexer(slots: seq<Option<Stream>>, items: seq<XaItem>)

  /** A sector as indexing_sectorRead sees it: an XA audio sector, or any
      other identified sector, of which only the number is used. */
  datatype Identified = Audio(s: XaSector) | NonAudio(number: int)

  /** The three loops over all channels. */
  datatype Pass =
    | Sweep(n: int)     // a non-audio sector numbered n: close streams beyond their stride
    | Flush             // indexing_endOfDisc: close every stream
    | EndBefore         // indexing_endAllBeforeCurrent: close every stream before its current sector

  function Emit(o: Option<XaItem>): seq<XaItem>
  {
    if o.Some? then [o.value] else []
  }

  /** One slot after its pass of the loop. */
  function SlotAfter(o: Option<Stream>, pass: Pass): Option<Stream>
  {
    match o
    case None => None
    case Some(st) =>
      match pass
      case Sweep(n) => if HasEnded(st, n) then None else o
      case Flush => None
      case EndBefore => if FromPrevious(st).Some? then Some(Seed(st.current)) else o
  }

  /** The items one slot's pass of the loop adds. */
  function Emitted(o: Option<Stream>, pass: Pass): seq<XaItem>
  {
    match o
    case None => []
    case Some(st) =>
      match pass
      case Sweep(n) => if HasEnded(st, n) then Emit(FromCurrent(st).0) else []
      case Flush => Emit(FromCurrent(st).0)
      case EndBefore => Emit(FromPrevious(st))
  }

  /** One iteration of a channel loop, at slot i. */
  function Step(m: Indexer, pass: Pass, i: int): (r: Indexer)
    requires 0 <= i < |m.slots|
    ensures |r.slots| == |m.slots|
  {
    Indexer(m.slots[i := SlotAfter(m.slots[i], pass)], m.items + Emitted(m.slots[i], pass))
  }

  /** A channel loop after its first k iterations. */
  function Run(m: Indexer, pass: Pass, k: int): (r: Indexer)
    requires 0 <= k <= |m.slots|
    ensures |r.slots| == |m.slots|
  {
    if k == 0 then m else Step(Run(m, pass, k - 1), pass, k - 1)
  }

  /** The items slots 0..k-1 add, in channel order. */
  function EmittedUpTo(slots: seq<Option<Stream>>, pass: Pass, k: int): seq<XaItem>
    requires 0 <= k <= |slots|
  {
    if k == 0 then [] else EmittedUpTo(slots, pass, k - 1) + Emitted(slots[k - 1], pass)
  }

  /** How many of slots 0..k-1 hold a tracker. */
  function Occupied(slots: seq<Option<Stream>>, k: int): int
    requires 0 <= k <= |slots|
  {
    if k == 0 then 0 else Occupied(slots, k - 1) + (if slots[k - 1].Some? then 1 else 0)
  }

  /** The first k iterations have passed over slots 0..k-1 and left the
      others alone; the items grew by those slots' items in channel order. */
  lemma {:induction false} RunEffect(m: Indexer, pass: Pass, k: int)
    requires 0 <= k <= |m.slots|
    ensures forall i :: 0 <= i < |m.slots| ==>
              Run(m, pass, k).slots[i] == if i < k then SlotAfter(m.slots[i], pass) else m.slots[i]
    ensures Run(m, pass, k).items == m.items + EmittedUpTo(m.slots, pass, k)
  {
    if k > 0 {
      RunEffect(m, pass, k - 1);
      var prev := Run(m, pass, k - 1);
      assert prev.slots[k - 1] == m.slots[k - 1];
      assert m.items + EmittedUpTo(m.slots, pass, k)
          == (m.items + EmittedUpTo(m.slots, pass, k - 1)) + Emitted(m.slots[k - 1], pass);
    }
  }

  /** Each occupied slot adds at most one item and an empty one none. */
  lemma {:induction false} EmittedAtMostOccupied(slots: seq<Option<Stream>>, pass: Pass, k: int)
    requires 0 <= k <= |slots|
    ensures |EmittedUpTo(slots, pass, k)| <= Occupied(slots, k)
  {
    if k > 0 {
      EmittedAtMostOccupied(slots, pass, k - 1);
    }
  }

  /** The whole loop over the 32 channels. */
  function AllChannels(m: Indexer, pass: Pass): (r: Indexer)
    requires |m.slots| == CHANNELS
  {
    Run(m, pass, CHANNELS)
  }

  /** A non-audio sector numbered n removes exactly the trackers whose
      stride is known and which n has passed, adds at most one item for
      each of them, and leaves every other slot as it was. */
  lemma SweepRemovesEnded(m: Indexer, n: int)
    requires |m.slots| == CHANNELS
    ensures forall i :: 0 <= i < CHANNELS ==>
              AllChannels(m, Sweep(n)).slots[i] ==
                if m.slots[i].Some? && m.slots[i].value.stride >= 0 && n > m.slots[i].value.current.number + m.slots[i].value.stride
                then None else m.slots[i]
    ensures AllChannels(m, Sweep(n)).items == m.items + EmittedUpTo(m.slots, Sweep(n), CHANNELS)
    ensures |AllChannels(m, Sweep(n)).items| <= |m.items| + Occupied(m.slots, CHANNELS)
  {
    RunEffect(m, Sweep(n), CHANNELS);
    EmittedAtMostOccupied(m.slots, Sweep(n), CHANNELS);
  }

  /** End of disc: every slot is empty afterwards, and at most one item
      was added per slot that held a tracker. */
  lemma FlushEmptiesAll(m: Indexer)
    requires |m.slots| == CHANNELS
    ensures forall i :: 0 <= i < CHANNELS ==> AllChannels(m, Flush).slots[i] == None
    ensures |AllChannels(m, Flush).items| <= |m.items| + Occupied(m.slots, CHANNELS)
  {
    RunEffect(m, Flush, CHANNELS);
    EmittedAtMostOccupied(m.slots, Flush, CHANNELS);
  }

  /** endAllBeforeCurrent: a tracker with no previous sector is untouched;
      every other one is replaced by a fresh tracker seeded with its
      current sector, and the item it adds leaves that sector out. */
  lemma EndBeforeReseeds(m: Indexer)
    requires |m.slots| == CHANNELS
    ensures forall i :: 0 <= i < CHANNELS ==>
              AllChannels(m, EndBefore).slots[i] ==
                if m.slots[i].Some? && m.slots[i].value.previous.Some?
                then Some(Seed(m.slots[i].value.current)) else m.slots[i]
    ensures AllChannels(m, EndBefore).items == m.items + EmittedUpTo(m.slots, EndBefore, CHANNELS)
    ensures |AllChannels(m, EndBefore).items| <= |m.items| + Occupied(m.slots, CHANNELS)
  {
    RunEffect(m, EndBefore, CHANNELS);
    EmittedAtMostOccupied(m.slots, EndBefore, CHANNELS);
  }

  /** The item endAllBeforeCurrent adds for a tracker counts the samples of
      every member but the current one. */
  lemma EndBeforeItem(st: Stream, members: seq<XaSector>)
    requires Tracks(st, members)
    ensures Emitted(Some(st), EndBefore) == if |members| == 1 then [] else
              [XaItem(members[0].number, st.stride, SumSamples(members[..|members| - 1]), st.current)]
  {
    FromPreviousItem(st, members);
  }

  /** indexing_sectorRead. An audio sector goes to its channel's slot: it
      seeds an empty slot, extends the stream it continues, or else closes
      that stream (adding its item) and seeds a new one. Any other sector
      sweeps all channels. */
  function SectorRead(m: Indexer, sector: Identified, matches: (XaSector, XaSector) -> bool): Indexer
    requires |m.slots| == CHANNELS
    requires sector.Audio? ==> 0 <= sector.s.channel < CHANNELS
  {
    match sector
    case Audio(s) =>
      var c := s.channel;
      (match m.slots[c]
       case None => Indexer(m.slots[c := Some(Seed(s))], m.items)
       case Some(st) =>
         if Accepts(st, s, matches) then Indexer(m.slots[c := Some(AfterRead(st, s))], m.items)
         else Indexer(m.slots[c := Some(Seed(s))], m.items + Emit(FromCurrent(st).0)))
    case NonAudio(n) => AllChannels(m, Sweep(n))
  }

  /** An audio sector touches its own channel only, adds an item only when
      it is refused by an occupied channel, and that channel always ends
      up holding a tracker whose current sector is the new one. */
  lemma AudioSectorRead(m: Indexer, s: XaSector, matches: (XaSector, XaSector) -> bool)
    requires |m.slots| == CHANNELS && 0 <= s.channel < CHANNELS
    ensures |SectorRead(m, Audio(s), matches).slots| == CHANNELS
    ensures forall i :: 0 <= i < CHANNELS && i != s.channel ==> SectorRead(m, Audio(s), matches).slots[i] == m.slots[i]
    ensures SectorRead(m, Audio(s), matches).slots[s.channel].Some?
    ensures SectorRead(m, Audio(s), matches).slots[s.channel].value.current == s
    ensures SectorRead(m, Audio(s), matches).items != m.items ==>
              m.slots[s.channel].Some? && !Accepts(m.slots[s.channel].value, s, matches) &&
              SectorRead(m, Audio(s), matches).slots[s.channel] == Some(Seed(s)) &&
              SectorRead(m, Audio(s), matches).items == m.items + Emit(FromCurrent(m.slots[s.channel].value).0)
  {
  }

  /** The three cases of an audio sector, each with the slot and items it
      leaves: an empty channel is seeded; a stream that accepts the sector
      is extended; a stream that refuses it is closed, its item (if any)
      added, and the channel re-seeded with the sector. */
  lemma AudioSectorCases(m: Indexer, s: XaSector, matches: (XaSector, XaSector) -> bool)
    requires |m.slots| == CHANNELS && 0 <= s.channel < CHANNELS
    ensures m.slots[s.channel].None? ==>
              SectorRead(m, Audio(s), matches).slots[s.channel] == Some(Seed(s)) &&
              SectorRead(m, Audio(s), matches).items == m.items
    ensures m.slots[s.channel].Some? && Accepts(m.slots[s.channel].value, s, matches) ==>
              SectorRead(m, Audio(s), matches).slots[s.channel] == Some(AfterRead(m.slots[s.channel].value, s)) &&
              SectorRead(m, Audio(s), matches).items == m.items
    ensures m.slots[s.channel].Some? && !Accepts(m.slots[s.channel].value, s, matches) ==>
              SectorRead(m, Audio(s), matches).slots[s.channel] == Some(Seed(s)) &&
              SectorRead(m, Audio(s), matches).items == m.items + Emit(FromCurrent(m.slots[s.channel].value).0)
  {
  }

  /** When a tracked stream refuses the sector, nothing is added exactly
      when the stream was a single silent sector; otherwise one item is
      added, spanning the stream from its first sector with every
      member's samples. */
  lemma RefusedSectorItem(m: Indexer, s: XaSector, matches: (XaSector, XaSector) -> bool, members: seq<XaSector>)
    requires |m.slots| == CHANNELS && 0 <= s.channel < CHANNELS
    requires m.slots[s.channel].Some? && !Accepts(m.slots[s.channel].value, s, matches)
    requires Tracks(m.slots[s.channel].value, members)
    ensures SectorRead(m, Audio(s), matches).items == m.items <==>
              |members| == 1 && m.slots[s.channel].value.current.allQuiet
    ensures SectorRead(m, Audio(s), matches).items != m.items ==>
              var items := SectorRead(m, Audio(s), matches).items;
              |items| == |m.items| + 1 && items[..|m.items|] == m.items &&
              items[|m.items|].startSector == members[0].number &&
              items[|m.items|].stride == m.slots[s.channel].value.stride &&
              items[|m.items|].sampleCount == SumSamples(members)
  {
    FromCurrentItem(m.slots[s.channel].value, members);
  }

  /** Tracks one audio stream in one channel. */
  class AudioStreamIndex {
    const startSector: int
    var previous: Option<XaSector>
    var current: XaSector
    var sampleCount: int
    var stride: int

    function State(): Stream
      reads this
    {
      Stream(startSector, previous, current, sampleCount, stride)
    }

    /** A fresh tracker: start and current sector are `first`, no previous
        sector, no samples counted, stride unknown. */
    constructor (first: XaSector)
      ensures State() == Seed(first)
      ensures startSector == first.number && current == first && previous == None
      ensures sampleCount == 0 && stride == -1
    {
      startSector := first.number;
      previous := None;
      current := first;
      sampleCount := 0;
      stride := -1;
    }

    /** sectorRead: refuses s, changing nothing, when the current sector
        closes the stream, when s does not continue it, or when the stride
        is known and s is not one stride on; otherwise s is accepted. */
    method SectorRead(s: XaSector, matches: (XaSector, XaSector) -> bool) returns (accepted: bool)
      modifies this
      ensures accepted <==> !old(current).eof && matches(s, old(current)) &&
                            (old(stride) < 0 || s.number - old(current).number == old(stride))
      ensures accepted ==> State() == AfterRead(old(State()), s)
      ensures !accepted ==> State() == old(State())
    {
      if current.eof {
        return false;
      }
      if !matches(s, current) {
        return false;
      }
      var gap := s.number - current.number;
      if stride < 0 {
        stride := gap;
      } else if gap != stride {
        return false;
      }
      previous := Some(current);
      sampleCount := sampleCount + current.samples;
      current := s;
      return true;
    }

    /** createMediaItemFromCurrent. */
    method CreateMediaItemFromCurrent() returns (item: Option<XaItem>)
      modifies this
      ensures (item, State()) == FromCurrent(old(State()))
    {
      if previous.None? && current.allQuiet {
        return None;
      }
      sampleCount := sampleCount + current.samples;
      return Some(XaItem(startSector, stride, sampleCount, current));
    }

    /** createMediaItemFromPrevious: the item exists exactly when there is
        a previous sector; it carries the start, the stride and the samples
        counted so far, and is built by the current sector. */
    method CreateMediaItemFromPrevious() returns (item: Option<XaItem>)
      ensures item.None? <==> previous.None?
      ensures item.Some? ==> item.value == XaItem(startSector, stride, sampleCount, current)
      ensures item == FromPrevious(State())
    {
      if previous.None? {
        return None;
      }
      return Some(XaItem(startSector, stride, sampleCount, current));
    }

    predicate Ended(n: int)
      reads this
    {
      HasEnded(State(), n)
    }
  }

  /** The indexer: `channels` is _aoChannels, `items` what addDiscItem
      received. `slots` is the value of every channel's tracker. */
  class XaAudioModule {
    const channels: array<AudioStreamIndex?>
    var items: seq<XaItem>
    ghost var slots: seq<Option<Stream>>

    ghost function Trackers(): set<AudioStreamIndex>
      reads this, channels
    {
      set i | 0 <= i < channels.Length && channels[i] != null :: channels[i]
    }

    /** Each slot is the value of its tracker, and no tracker sits in two
        slots. */
    ghost predicate Valid()
      reads this, channels, Trackers()
    {
      channels.Length == CHANNELS && |slots| == CHANNELS &&
      (forall i :: 0 <= i < CHANNELS ==> (channels[i] == null <==> slots[i].None?)) &&
      (forall i :: 0 <= i < CHANNELS && channels[i] != null ==> slots[i] == Some(channels[i].State())) &&
      (forall i, j :: 0 <= i < j < CHANNELS && channels[i] != null ==> channels[i] != channels[j])
    }

    ghost function Model(): Indexer
      reads this
    {
      Indexer(slots, items)
    }

    constructor ()
      ensures Valid() && fresh(channels)
      ensures Model() == Indexer(seq(CHANNELS, _ => None), [])
    {
      channels := new AudioStreamIndex?[CHANNELS](_ => null);
      items := [];
      slots := seq(CHANNELS, _ => None);
    }

    /** The body of the channel loops of indexing_sectorRead (non-audio
        sector), indexing_endOfDisc and indexing_endAllBeforeCurrent, at
        channel i; the other channels keep their trackers. */
    method ChannelPass(i: int, pass: Pass)
      requires Valid() && 0 <= i < CHANNELS
      modifies this, channels, channels[i]
      ensures Valid()
      ensures Model() == Step(old(Model()), pass, i)
      ensures forall j :: 0 <= j < CHANNELS && j != i ==> channels[j] == old(channels[j])
      ensures channels[i] == null || channels[i] == old(channels[i]) || fresh(channels[i])
    {
      var audStream := channels[i];
      if audStream == null {
        return;
      }
      match pass
      case Sweep(n) =>
        if audStream.Ended(n) {
          var item := audStream.CreateMediaItemFromCurrent();
          if item.Some? {
            items := items + [item.value];
          }
          channels[i] := null;
          slots := slots[i := None];
        }
      case Flush =>
        var item := audStream.CreateMediaItemFromCurrent();
        if item.Some? {
          items := items + [item.value];
        }
        channels[i] := null;
        slots := slots[i := None];
      case EndBefore =>
        var item := audStream.CreateMediaItemFromPrevious();
        if item.Some? {
          items := items + [item.value];
          var current := audStream.current;
          var reseeded := new AudioStreamIndex(current);
          channels[i] := reseeded;
          slots := slots[i := Some(Seed(current))];
        }
    }

    /** One of the three loops over all channels, slot 0 first. */
    method EachChannel(pass: Pass)
      requires Valid()
      modifies this, channels, Trackers()
      ensures Valid()
      ensures Model() == AllChannels(old(Model()), pass)
    {
      var i := 0;
      while i < CHANNELS
        invariant 0 <= i <= CHANNELS
        invariant Valid()
        invariant Model() == Run(old(Model()), pass, i)
        invariant forall j :: 0 <= j < CHANNELS && channels[j] != null ==>
                    channels[j] in old(Trackers()) || fresh(channels[j])
      {
        ChannelPass(i, pass);
        i := i + 1;
      }
    }

    /** indexing_sectorRead. */
    method IndexingSectorRead(sector: Identified, matches: (XaSector, XaSector) -> bool)
      requires Valid()
      requires sector.Audio? ==> 0 <= sector.s.channel < CHANNELS
      modifies this, channels, Trackers()
      ensures Valid()
      ensures Model() == SectorRead(old(Model()), sector, matches)
    {
      match sector
      case Audio(audSect) =>
        var c := audSect.channel;
        var audStream := channels[c];
        if audStream == null {
          audStream := new AudioStreamIndex(audSect);
          channels[c] := audStream;
          slots := slots[c := Some(Seed(audSect))];
        } else {
          ghost var st := audStream.State();
          var accepted := audStream.SectorRead(audSect, matches);
          if accepted {
            slots := slots[c := Some(AfterRead(st, audSect))];
          } else {
            var item := audStream.CreateMediaItemFromCurrent();
            if item.Some? {
              items := items + [item.value];
            }
            audStream := new AudioStreamIndex(audSect);
            channels[c] := audStream;
            slots := slots[c := Some(Seed(audSect))];
          }
        }
      case NonAudio(n) =>
        EachChannel(Sweep(n));
    }

    /** indexing_endOfDisc: every tracker is closed and every slot emptied. */
    method IndexingEndOfDisc()
      requires Valid()
      modifies this, channels, Trackers()
      ensures Valid()
      ensures Model() == AllChannels(old(Model()), Flush)
    {
      EachChannel(Flush);
    }

    /** indexing_endAllCurrent: the same as the end of the disc. */
    method IndexingEndAllCurrent()
      requires Valid()
      modifies this, channels, Trackers()
      ensures Valid()
      ensures Model() == AllChannels(old(Model()), Flush)
    {
      IndexingEndOfDisc();
    }

    /** indexing_endAllBeforeCurrent. */
    method IndexingEndAllBeforeCurrent()
      requires Valid()
      modifies this, channels, Trackers()
      ensures Valid()
      ensures Model() == AllChannels(old(Model()), EndBefore)
    {
      EachChannel(EndBefore);
    }
  }
}
