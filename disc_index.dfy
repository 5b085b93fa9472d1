/** The disc index: the sorted list of disc items, the tree over them and
    the lookup table from index number and serialized id to item, built
    either from a scan of the disc or from a saved index text. File and
    stream handling, logging and the indexers' own parsing are not part of
    this model; an indexer is a function from an item line to its verdict. */
module DiscIndexing {
  import opened Wrappers
  import opened DiscOrder
  import opened DiscTree

  /** A disc item in the index with the two fields the index reads back:
      its index number (getIndex) and its serialized IndexId. */
  datatype Entry = Entry(item: Item, index: int, id: string)

  /** The keys of _lookup: an Integer index or a String id (never equal to
      each other, as in the Java map). */
  datatype LookupKey = ByIndex(n: int) | ById(s: string)

  /** Where the source CD came from: the reader the caller supplied, or one
      opened from the index's source line. */
  datatype CdSource = Supplied | Opened(line: string)

  datatype Warning =
    | CdFormatMismatch(line: string)
    | ParseLineFail(line: string)
    | UnhandledLine(line: string)
    | RejectedChild(parent: nat, child: nat)

  datatype LoadFailure = HeaderMissing | NoCd

  /** Whether entry e is filed under key. */
  predicate Names(e: Entry, key: LookupKey)
  {
    key == ByIndex(e.index) || key == ById(e.id)
  }

  /** _lookup after addLookupItem on the first n entries, in order: each
      entry puts its index and its id, a later put overwriting an earlier. */
  function LookupOf(entries: seq<Entry>, n: nat): map<LookupKey, nat>
    requires n <= |entries|
  {
    if n == 0 then map[]
    else LookupOf(entries, n - 1)[ByIndex(entries[n - 1].index) := n - 1][ById(entries[n - 1].id) := n - 1]
  }

  /** Every entry's index and id are keys of the table. */
  lemma {:induction false} LookupOfKeys(entries: seq<Entry>, n: nat)
    requires n <= |entries|
    ensures forall k :: 0 <= k < n ==>
              ByIndex(entries[k].index) in LookupOf(entries, n) && ById(entries[k].id) in LookupOf(entries, n)
  {
    if n > 0 {
      LookupOfKeys(entries, n - 1);
    }
  }

  /** A key of the table leads to the last entry filed under it. */
  lemma {:induction false} LookupOfLast(entries: seq<Entry>, n: nat, key: LookupKey)
    requires n <= |entries| && key in LookupOf(entries, n)
    ensures LastNamed(entries, n, key, LookupOf(entries, n)[key])
  {
    if !Names(entries[n - 1], key) {
      LookupOfLast(entries, n - 1, key);
    }
  }

  /** Entry k is the last of the first n entries filed under key. */
  predicate LastNamed(entries: seq<Entry>, n: nat, key: LookupKey, k: nat)
    requires n <= |entries|
  {
    k < n && Names(entries[k], key) && forall j :: k < j < n ==> !Names(entries[j], key)
  }

  /** When entry k holds index k, index i leads to entry i exactly for
      0 <= i < n, and nowhere otherwise. */
  lemma SequentialLookup(entries: seq<Entry>, n: nat)
    requires n <= |entries|
    requires forall k :: 0 <= k < n ==> entries[k].index == k
    ensures forall i :: ByIndex(i) in LookupOf(entries, n) <==> 0 <= i < n
    ensures forall i :: 0 <= i < n ==> LookupOf(entries, n)[ByIndex(i)] == i
  {
    LookupOfKeys(entries, n);
    forall i | ByIndex(i) in LookupOf(entries, n)
      ensures 0 <= i < n && LookupOf(entries, n)[ByIndex(i)] == i
    {
      LookupOfLast(entries, n, ByIndex(i));
    }
    forall i | 0 <= i < n
      ensures ByIndex(i) in LookupOf(entries, n)
    {
      assert entries[i].index == i;
    }
  }

  /** With distinct ids, an entry's id leads to that entry. */
  lemma UniqueIdLookup(entries: seq<Entry>, n: nat)
    requires n <= |entries|
    requires forall i, j :: 0 <= i < j < n ==> entries[i].id != entries[j].id
    ensures forall k :: 0 <= k < n ==>
              ById(entries[k].id) in LookupOf(entries, n) && LookupOf(entries, n)[ById(entries[k].id)] == k
  {
    LookupOfKeys(entries, n);
    forall k | 0 <= k < n
      ensures LookupOf(entries, n)[ById(entries[k].id)] == k
    {
      LookupOfLast(entries, n, ById(entries[k].id));
    }
  }

  // ---------------------------------------------------------------------
  // Reading an index text

  const CommentLineStart: string := ";"

  /** Java's \s: space, tab, line feed, vertical tab, form feed, carriage
      return. */
  predicate IsJavaSpace(ch: char)
  {
    ch == ' ' || ch == '\t' || ch == '\n' || ch == '\r' || ch as int == 11 || ch as int == 12
  }

  predicate StartsWith(s: string, prefix: string)
  {
    |prefix| <= |s| && s[..|prefix|] == prefix
  }

  datatype LineKind = CommentLine | BlankLine | SourceLine | ItemLine

  /** How the load loop treats a line after the header, tested in the
      loop's order; `sourceStart` is CdFileSectorReader.SERIALIZATION_START. */
  function Classify(line: string, sourceStart: string): (k: LineKind)
    ensures k == CommentLine <==> StartsWith(line, CommentLineStart)
    ensures k == BlankLine <==> !StartsWith(line, CommentLineStart) && forall i :: 0 <= i < |line| ==> IsJavaSpace(line[i])
    ensures k == ItemLine ==> !StartsWith(line, sourceStart) && exists i :: 0 <= i < |line| && !IsJavaSpace(line[i])
  {
    if StartsWith(line, CommentLineStart) then CommentLine
    else if forall i :: 0 <= i < |line| ==> IsJavaSpace(line[i]) then BlankLine
    else if StartsWith(line, sourceStart) then SourceLine
    else ItemLine
  }

  /** The load loop's state: the item lines kept, the source line a CD
      was opened from (when no reader was supplied) and the warnings. */
  datatype Scanned = Scanned(itemLines: seq<string>, fromLine: Option<string>, warnings: seq<Warning>)

  /** One line of the load loop. `reader` is the supplied reader's
      matchesSerialization, or None when there is no reader. */
  function ScanLine(st: Scanned, line: string, sourceStart: string, reader: Option<string -> bool>): Scanned
  {
    match Classify(line, sourceStart)
    case CommentLine => st
    case BlankLine => st
    case SourceLine =>
      (match reader
       case Some(matches) => if matches(line) then st else st.(warnings := st.warnings + [CdFormatMismatch(line)])
       case None => st.(fromLine := Some(line)))
    case ItemLine => st.(itemLines := st.itemLines + [line])
  }

  /** The load loop over the lines after the header. */
  function Scan(lines: seq<string>, sourceStart: string, reader: Option<string -> bool>): Scanned
  {
    if |lines| == 0 then Scanned([], None, [])
    else ScanLine(Scan(lines[..|lines| - 1], sourceStart, reader), lines[|lines| - 1], sourceStart, reader)
  }

  /** Some line is a source line equal to `line`, and no later line is a
      source line. */
  predicate LastSourceLine(lines: seq<string>, sourceStart: string, line: string)
  {
    exists i :: 0 <= i < |lines| && lines[i] == line && Classify(lines[i], sourceStart) == SourceLine &&
                (forall j :: i < j < |lines| ==> Classify(lines[j], sourceStart) != SourceLine)
  }

  /** w warns about a source line of `lines` the supplied reader does not
      match. */
  predicate MismatchWarning(w: Warning, lines: seq<string>, sourceStart: string, reader: Option<string -> bool>)
  {
    reader.Some? && w.CdFormatMismatch? && w.line in lines &&
    Classify(w.line, sourceStart) == SourceLine && !reader.value(w.line)
  }

  /** Scanning one more line is one more step of the loop. */
  lemma ScanSnoc(lines: seq<string>, line: string, sourceStart: string, reader: Option<string -> bool>)
    ensures Scan(lines + [line], sourceStart, reader) == ScanLine(Scan(lines, sourceStart, reader), line, sourceStart, reader)
  {
    assert (lines + [line])[..|lines|] == lines;
  }

  /** Comments, blank lines and source lines never become item lines, and
      every other line does. */
  lemma {:induction false} ScanItems(lines: seq<string>, sourceStart: string, reader: Option<string -> bool>)
    ensures |Scan(lines, sourceStart, reader).itemLines| <= |lines|
    ensures forall l :: l in Scan(lines, sourceStart, reader).itemLines <==> l in lines && Classify(l, sourceStart) == ItemLine
  {
    if |lines| > 0 {
      var init := lines[..|lines| - 1];
      ScanItems(init, sourceStart, reader);
      assert lines == init + [lines[|lines| - 1]];
    }
  }

  /** With a reader nothing is opened; without one nothing is warned about
      and the CD is opened exactly when there is a source line. */
  lemma {:induction false} ScanOpens(lines: seq<string>, sourceStart: string, reader: Option<string -> bool>)
    ensures reader.Some? ==> Scan(lines, sourceStart, reader).fromLine.None?
    ensures reader.None? ==> Scan(lines, sourceStart, reader).warnings == []
    ensures reader.None? ==>
              (Scan(lines, sourceStart, reader).fromLine.None? <==>
               forall i :: 0 <= i < |lines| ==> Classify(lines[i], sourceStart) != SourceLine)
  {
    if |lines| > 0 {
      var init := lines[..|lines| - 1];
      ScanOpens(init, sourceStart, reader);
      if reader.None? && Classify(lines[|lines| - 1], sourceStart) != SourceLine {
        forall i | 0 <= i < |lines| - 1
          ensures lines[i] == init[i]
        {
        }
      }
    }
  }

  /** Without a reader the CD is opened from the last source line. */
  lemma {:induction false} ScanOpensLast(lines: seq<string>, sourceStart: string)
    ensures Scan(lines, sourceStart, None).fromLine.Some? ==>
              LastSourceLine(lines, sourceStart, Scan(lines, sourceStart, None).fromLine.value)
  {
    if |lines| > 0 {
      var init := lines[..|lines| - 1];
      ScanOpensLast(init, sourceStart);
      var last := lines[|lines| - 1];
      var sc := Scan(lines, sourceStart, None);
      var prev := Scan(init, sourceStart, None);
      if sc.fromLine.Some? {
        if Classify(last, sourceStart) == SourceLine {
          assert lines[|lines| - 1] == sc.fromLine.value;
        } else {
          assert sc.fromLine == prev.fromLine;
          var i :| 0 <= i < |init| && init[i] == prev.fromLine.value &&
                   Classify(init[i], sourceStart) == SourceLine &&
                   forall j :: i < j < |init| ==> Classify(init[j], sourceStart) != SourceLine;
          assert lines[i] == init[i];
          forall j | i < j < |lines|
            ensures Classify(lines[j], sourceStart) != SourceLine
          {
            if j < |init| {
              assert lines[j] == init[j];
            }
          }
        }
      }
    }
  }

  /** Each warning is about a source line the supplied reader does not
      match. */
  lemma {:induction false} ScanWarns(lines: seq<string>, sourceStart: string, reader: Option<string -> bool>)
    ensures forall w :: w in Scan(lines, sourceStart, reader).warnings ==> MismatchWarning(w, lines, sourceStart, reader)
  {
    if |lines| > 0 {
      var init := lines[..|lines| - 1];
      ScanWarns(init, sourceStart, reader);
      var sc := Scan(lines, sourceStart, reader);
      var prev := Scan(init, sourceStart, reader);
      forall w | w in sc.warnings
        ensures MismatchWarning(w, lines, sourceStart, reader)
      {
        if w in prev.warnings {
          assert MismatchWarning(w, init, sourceStart, reader);
          assert w.line in lines by {
            var i :| 0 <= i < |init| && init[i] == w.line;
            assert lines[i] == init[i];
          }
        }
      }
    }
  }

  /** The load loop. */
  method ScanLines(lines: seq<string>, sourceStart: string, reader: Option<string -> bool>) returns (sc: Scanned)
    ensures sc == Scan(lines, sourceStart, reader)
  {
    sc := Scanned([], None, []);
    var k := 0;
    while k < |lines|
      invariant k <= |lines|
      invariant sc == Scan(lines[..k], sourceStart, reader)
    {
      assert lines[..k + 1][..k] == lines[..k];
      var line := lines[k];
      var kind := Classify(line, sourceStart);
      if kind == SourceLine {
        if reader.Some? {
          if !reader.value(line) {
            sc := sc.(warnings := sc.warnings + [CdFormatMismatch(line)]);
          }
        } else {
          sc := sc.(fromLine := Some(line));
        }
      } else if kind == ItemLine {
        sc := sc.(itemLines := sc.itemLines + [line]);
      }
      k := k + 1;
    }
    assert lines[..k] == lines;
  }

  /** An indexer's verdict on an item line: an item, not its line (null),
      or a DeserializationFail. */
  datatype Verdict = Made(entry: Entry) | NotMine | Failed

  /** One item line offered to the first k indexers: the entries made,
      the warnings and whether any indexer handled it. */
  datatype LineState = LineState(entries: seq<Entry>, warnings: seq<Warning>, handled: bool)

  function OfferedTo(line: string, indexers: seq<string -> Verdict>, k: nat): LineState
    requires k <= |indexers|
  {
    if k == 0 then LineState([], [], false)
    else
      var prev := OfferedTo(line, indexers, k - 1);
      match indexers[k - 1](line)
      case Made(e) => prev.(entries := prev.entries + [e], handled := true)
      case NotMine => prev
      case Failed => prev.(warnings := prev.warnings + [ParseLineFail(line)], handled := true)
  }

  /** An item line offered to every indexer, with the warning for a line
      nobody handled. */
  function Deserialize(line: string, indexers: seq<string -> Verdict>): (seq<Entry>, seq<Warning>)
  {
    var st := OfferedTo(line, indexers, |indexers|);
    (st.entries, if st.handled then st.warnings else st.warnings + [UnhandledLine(line)])
  }

  /** A line is handled exactly when some indexer does not turn it down. */
  lemma {:induction false} OfferedHandled(line: string, indexers: seq<string -> Verdict>, k: nat)
    requires k <= |indexers|
    ensures OfferedTo(line, indexers, k).handled <==> exists j :: 0 <= j < k && !indexers[j](line).NotMine?
  {
    if k > 0 {
      OfferedHandled(line, indexers, k - 1);
    }
  }

  /** Every indexer that makes an item adds it, and only those do. */
  lemma {:induction false} OfferedEntries(line: string, indexers: seq<string -> Verdict>, k: nat)
    requires k <= |indexers|
    ensures |OfferedTo(line, indexers, k).entries| <= k
    ensures OfferedTo(line, indexers, k).entries == [] <==> forall j :: 0 <= j < k ==> !indexers[j](line).Made?
    ensures forall e :: e in OfferedTo(line, indexers, k).entries <==> exists j :: 0 <= j < k && indexers[j](line) == Made(e)
  {
    if k > 0 {
      OfferedEntries(line, indexers, k - 1);
    }
  }

  /** Every indexer that fails adds one warning, and only those do. */
  lemma {:induction false} OfferedWarnings(line: string, indexers: seq<string -> Verdict>, k: nat)
    requires k <= |indexers|
    ensures |OfferedTo(line, indexers, k).warnings| <= k
    ensures forall w :: w in OfferedTo(line, indexers, k).warnings ==> w == ParseLineFail(line)
    ensures OfferedTo(line, indexers, k).warnings == [] <==> forall j :: 0 <= j < k ==> !indexers[j](line).Failed?
  {
    if k > 0 {
      OfferedWarnings(line, indexers, k - 1);
    }
  }

  /** A line no indexer handles makes no item and only the one warning. */
  lemma UnhandledOnlyWarns(line: string, indexers: seq<string -> Verdict>)
    requires forall j :: 0 <= j < |indexers| ==> indexers[j](line) == NotMine
    ensures Deserialize(line, indexers).0 == []
    ensures Deserialize(line, indexers).1 == [UnhandledLine(line)]
  {
    OfferedHandled(line, indexers, |indexers|);
    OfferedEntries(line, indexers, |indexers|);
    OfferedWarnings(line, indexers, |indexers|);
    var st := OfferedTo(line, indexers, |indexers|);
    assert !st.handled;
    assert st.entries == [] && st.warnings == [];
    assert [] + [UnhandledLine(line)] == [UnhandledLine(line)];
  }

  /** The item-line loop over the first n item lines. */
  function DeserializeAll(lines: seq<string>, indexers: seq<string -> Verdict>, n: nat): (seq<Entry>, seq<Warning>)
    requires n <= |lines|
  {
    if n == 0 then ([], [])
    else
      var prev := DeserializeAll(lines, indexers, n - 1);
      var one := Deserialize(lines[n - 1], indexers);
      (prev.0 + one.0, prev.1 + one.1)
  }

  /** The inner loop of the item-line loop. */
  method DeserializeLine(line: string, indexers: seq<string -> Verdict>) returns (entries: seq<Entry>, warnings: seq<Warning>)
    ensures entries == Deserialize(line, indexers).0
    ensures warnings == Deserialize(line, indexers).1
  {
    var st := LineState([], [], false);
    var k := 0;
    while k < |indexers|
      invariant k <= |indexers|
      invariant st == OfferedTo(line, indexers, k)
    {
      match indexers[k](line) {
        case Made(e) =>
          st := st.(entries := st.entries + [e], handled := true);
        case NotMine =>
        case Failed =>
          st := st.(warnings := st.warnings + [ParseLineFail(line)], handled := true);
      }
      k := k + 1;
    }
    entries := st.entries;
    warnings := if st.handled then st.warnings else st.warnings + [UnhandledLine(line)];
  }

  lemma DeserializeAllStep(lines: seq<string>, indexers: seq<string -> Verdict>, n: nat)
    requires n < |lines|
    ensures DeserializeAll(lines, indexers, n + 1).0 == DeserializeAll(lines, indexers, n).0 + Deserialize(lines[n], indexers).0
    ensures DeserializeAll(lines, indexers, n + 1).1 == DeserializeAll(lines, indexers, n).1 + Deserialize(lines[n], indexers).1
  {
  }

  /** The item-line loop. */
  method DeserializeLines(lines: seq<string>, indexers: seq<string -> Verdict>) returns (entries: seq<Entry>, warnings: seq<Warning>)
    ensures entries == DeserializeAll(lines, indexers, |lines|).0
    ensures warnings == DeserializeAll(lines, indexers, |lines|).1
  {
    entries, warnings := [], [];
    var n := 0;
    while n < |lines|
      invariant n <= |lines|
      invariant entries == DeserializeAll(lines, indexers, n).0
      invariant warnings == DeserializeAll(lines, indexers, n).1
    {
      var es, ws := DeserializeLine(lines[n], indexers);
      DeserializeAllStep(lines, indexers, n);
      entries, warnings := entries + es, warnings + ws;
      n := n + 1;
    }
  }

  /** What loading an index text yields. */
  datatype Loaded = Loaded(source: CdSource, entries: seq<Entry>, tree: Rebuilt, warnings: seq<Warning>)

  function RejectionWarnings(rejected: seq<(nat, nat)>): (ws: seq<Warning>)
    ensures |ws| == |rejected|
    ensures forall i :: 0 <= i < |ws| ==> ws[i] == RejectedChild(rejected[i].0, rejected[i].1)
  {
    if |rejected| == 0 then []
    else RejectionWarnings(rejected[..|rejected| - 1]) + [RejectedChild(rejected[|rejected| - 1].0, rejected[|rejected| - 1].1)]
  }

  /** Loading an index text: the header check, the load loop, the source
      CD, the item lines and recreateTree. */
  function LoadSpec(lines: seq<string>, header: string, sourceStart: string, reader: Option<string -> bool>,
                    indexers: seq<string -> Verdict>, isRoot: Entry -> bool, isParent: (Entry, Entry) -> bool,
                    accepts: (Entry, Entry) -> bool): Result<Loaded, LoadFailure>
  {
    if |lines| == 0 || lines[0] != header then Err(HeaderMissing)
    else
      var sc := Scan(lines[1..], sourceStart, reader);
      if sc.fromLine.None? && reader.None? then Err(NoCd)
      else
        var source := if sc.fromLine.Some? then Opened(sc.fromLine.value) else Supplied;
        var (entries, ws) := DeserializeAll(sc.itemLines, indexers, |sc.itemLines|);
        var tree := Rebuild(entries, isRoot, isParent, accepts, |entries|);
        Ok(Loaded(source, entries, tree, sc.warnings + ws + RejectionWarnings(tree.rejected)))
  }

  /** Loading fails, without consulting any indexer, exactly when the first
      line is not the version header or no CD can be had; an item line no
      indexer handles never makes it fail. */
  lemma LoadFailsOnlyOn(lines: seq<string>, header: string, sourceStart: string, reader: Option<string -> bool>,
                        indexers: seq<string -> Verdict>, others: seq<string -> Verdict>,
                        isRoot: Entry -> bool, isParent: (Entry, Entry) -> bool, accepts: (Entry, Entry) -> bool)
    ensures (|lines| == 0 || lines[0] != header) ==>
              LoadSpec(lines, header, sourceStart, reader, indexers, isRoot, isParent, accepts) == Err(HeaderMissing)
    ensures LoadSpec(lines, header, sourceStart, reader, indexers, isRoot, isParent, accepts).Err? <==>
              LoadSpec(lines, header, sourceStart, reader, others, isRoot, isParent, accepts).Err?
    ensures LoadSpec(lines, header, sourceStart, reader, indexers, isRoot, isParent, accepts).Err? ==>
              LoadSpec(lines, header, sourceStart, reader, indexers, isRoot, isParent, accepts) ==
              LoadSpec(lines, header, sourceStart, reader, others, isRoot, isParent, accepts)
    ensures LoadSpec(lines, header, sourceStart, reader, indexers, isRoot, isParent, accepts) == Err(NoCd) <==>
              |lines| > 0 && lines[0] == header && reader.None? &&
              forall i :: 1 <= i < |lines| ==> Classify(lines[i], sourceStart) != SourceLine
  {
    if |lines| > 0 && lines[0] == header {
      ScanOpens(lines[1..], sourceStart, reader);
      if reader.None? && Scan(lines[1..], sourceStart, reader).fromLine.None? {
        forall i | 1 <= i < |lines|
          ensures Classify(lines[i], sourceStart) != SourceLine
        {
          assert lines[i] == lines[1..][i - 1];
        }
      }
    }
  }

  /** The two failures are the only ones: loading fails exactly when the
      header line is missing or wrong, or no CD reader is supplied and no
      line names a source CD. */
  lemma LoadFailsExactlyWhen(lines: seq<string>, header: string, sourceStart: string, reader: Option<string -> bool>,
                             indexers: seq<string -> Verdict>,
                             isRoot: Entry -> bool, isParent: (Entry, Entry) -> bool, accepts: (Entry, Entry) -> bool)
    ensures LoadSpec(lines, header, sourceStart, reader, indexers, isRoot, isParent, accepts).Err? <==>
              (|lines| == 0 || lines[0] != header ||
               (reader.None? && forall i :: 1 <= i < |lines| ==> Classify(lines[i], sourceStart) != SourceLine))
  {
    LoadFailsOnlyOn(lines, header, sourceStart, reader, indexers, indexers, isRoot, isParent, accepts);
  }

  // ---------------------------------------------------------------------
  // Writing an index text

  /** serializeIndex(PrintStream): the header, the comment line, the source
      CD's serialization, then one line per item in list order. */
  function IndexText(header: string, comment: string, sourceLine: string, itemLines: seq<string>): (r: seq<string>)
    ensures |r| == 3 + |itemLines| && r[0] == header && r[1] == comment && r[2] == sourceLine
    ensures r[3..] == itemLines
  {
    [header, comment, sourceLine] + itemLines
  }

  function SerializedItems(entries: seq<Entry>, serialize: Entry -> string): (r: seq<string>)
    ensures |r| == |entries| && forall i :: 0 <= i < |r| ==> r[i] == serialize(entries[i])
  {
    if |entries| == 0 then [] else SerializedItems(entries[..|entries| - 1], serialize) + [serialize(entries[|entries| - 1])]
  }

  /** Reading back a written index text: its header passes, the source line
      is the one the CD is opened from, and the item lines are exactly the
      items' serializations in order, provided the comment starts with ';',
      the source line with the source marker and no item's line would be
      taken for anything but an item line. */
  lemma {:induction false} IndexTextReadsBack(header: string, comment: string, sourceLine: string,
                                              itemLines: seq<string>, sourceStart: string)
    requires StartsWith(comment, CommentLineStart)
    requires StartsWith(sourceLine, sourceStart) && !StartsWith(sourceLine, CommentLineStart)
    requires exists i :: 0 <= i < |sourceLine| && !IsJavaSpace(sourceLine[i])
    requires forall i :: 0 <= i < |itemLines| ==> Classify(itemLines[i], sourceStart) == ItemLine
    ensures IndexText(header, comment, sourceLine, itemLines)[0] == header
    ensures Scan(IndexText(header, comment, sourceLine, itemLines)[1..], sourceStart, None) ==
              Scanned(itemLines, Some(sourceLine), [])
  {
    ScanHeaderLines(comment, sourceLine, sourceStart);
    ScanItemsAfter([comment, sourceLine], itemLines, sourceStart);
    assert IndexText(header, comment, sourceLine, itemLines)[1..] == [comment, sourceLine] + itemLines;
  }

  /** The comment line and the source line of a written index. */
  lemma ScanHeaderLines(comment: string, sourceLine: string, sourceStart: string)
    requires StartsWith(comment, CommentLineStart)
    requires StartsWith(sourceLine, sourceStart) && !StartsWith(sourceLine, CommentLineStart)
    requires exists i :: 0 <= i < |sourceLine| && !IsJavaSpace(sourceLine[i])
    ensures Scan([comment, sourceLine], sourceStart, None) == Scanned([], Some(sourceLine), [])
  {
    assert Classify(sourceLine, sourceStart) == SourceLine;
    ScanSnoc([], comment, sourceStart, None);
    ScanSnoc([comment], sourceLine, sourceStart, None);
    assert [] + [comment] == [comment] && [comment] + [sourceLine] == [comment, sourceLine];
  }

  /** An item line is kept and changes nothing else. */
  lemma ScanLineItem(st: Scanned, line: string, sourceStart: string)
    requires Classify(line, sourceStart) == ItemLine
    ensures ScanLine(st, line, sourceStart, None) == st.(itemLines := st.itemLines + [line])
  {
  }

  lemma ConcatSnoc(a: seq<string>, b: seq<string>)
    requires |b| > 0
    ensures a + b == (a + b[..|b| - 1]) + [b[|b| - 1]]
  {
  }

  lemma {:induction false} ScanItemsAfter(prefix: seq<string>, itemLines: seq<string>, sourceStart: string)
    requires forall i :: 0 <= i < |itemLines| ==> Classify(itemLines[i], sourceStart) == ItemLine
    ensures Scan(prefix + itemLines, sourceStart, None) ==
              Scan(prefix, sourceStart, None).(itemLines := Scan(prefix, sourceStart, None).itemLines + itemLines)
  {
    if |itemLines| == 0 {
      assert prefix + itemLines == prefix;
    } else {
      var init := itemLines[..|itemLines| - 1];
      var line := itemLines[|itemLines| - 1];
      ScanItemsAfter(prefix, init, sourceStart);
      ConcatSnoc(prefix, itemLines);
      ConcatSnoc([], itemLines);
      ScanSnoc(prefix + init, line, sourceStart, None);
      ScanLineItem(Scan(prefix + init, sourceStart, None), line, sourceStart);
    }
  }

  // ---------------------------------------------------------------------
  // The index object

  class DiscIndex {
    var entries: seq<Entry>
    var root: seq<nat>
    var lookup: map<LookupKey, nat>
    var source: CdSource

    ghost predicate Valid()
      reads this
    {
      (forall key :: key in lookup ==> lookup[key] < |entries|) &&
      (forall i :: 0 <= i < |root| ==> root[i] < |entries|)
    }

    constructor (entries: seq<Entry>, root: seq<nat>, source: CdSource)
      requires forall i :: 0 <= i < |root| ==> root[i] < |entries|
      ensures Valid()
      ensures this.entries == entries && this.root == root && this.source == source && lookup == map[]
    {
      this.entries := entries;
      this.root := root;
      this.source := source;
      lookup := map[];
    }

    /** addLookupItem. */
    method AddLookupItem(k: nat)
      requires Valid() && k < |entries|
      modifies this
      ensures Valid()
      ensures entries == old(entries) && root == old(root) && source == old(source)
      ensures lookup == old(lookup)[ByIndex(entries[k].index) := k][ById(entries[k].id) := k]
    {
      lookup := lookup[ByIndex(entries[k].index) := k][ById(entries[k].id) := k];
    }

    /** The loop after recreateTree that files every loaded item. */
    method FillLookup()
      requires Valid() && lookup == map[]
      modifies this
      ensures Valid()
      ensures lookup == LookupOf(entries, |entries|)
      ensures entries == old(entries) && root == old(root) && source == old(source)
    {
      var k := 0;
      while k < |entries|
        invariant k <= |entries| && Valid()
        invariant lookup == LookupOf(entries, k)
        invariant entries == old(entries) && root == old(root) && source == old(source)
      {
        AddLookupItem(k);
        k := k + 1;
      }
    }

    /** The loop after buildTree: item i gets index i and is filed. */
    method NumberItems()
      requires Valid() && lookup == map[]
      modifies this
      ensures Valid()
      ensures |entries| == |old(entries)|
      ensures forall i :: 0 <= i < |entries| ==> entries[i] == old(entries)[i].(index := i)
      ensures lookup == LookupOf(entries, |entries|)
      ensures root == old(root) && source == old(source)
    {
      var k := 0;
      while k < |entries|
        invariant k <= |entries| == |old(entries)| && Valid()
        invariant forall i :: 0 <= i < k ==> entries[i] == old(entries)[i].(index := i)
        invariant forall i :: k <= i < |entries| ==> entries[i] == old(entries)[i]
        invariant lookup == LookupOf(entries, k)
        invariant root == old(root) && source == old(source)
      {
        LookupPrefix(entries, entries[k := entries[k].(index := k)], k);
        entries := entries[k := entries[k].(index := k)];
        AddLookupItem(k);
        k := k + 1;
      }
    }

    /** getByIndex. */
    function GetByIndex(i: int): (r: Option<Entry>)
      requires Valid()
      reads this
      ensures r.Some? <==> ByIndex(i) in lookup
    {
      if ByIndex(i) in lookup then Some(entries[lookup[ByIndex(i)]]) else None
    }

    /** getById. */
    function GetById(s: string): (r: Option<Entry>)
      requires Valid()
      reads this
      ensures r.Some? <==> ById(s) in lookup
    {
      if ById(s) in lookup then Some(entries[lookup[ById(s)]]) else None
    }

    /** Once the items are numbered in list order and filed, getByIndex(i)
        is item i for 0 <= i < size() and null for any other i. */
    lemma ByIndexAfterNumbering()
      requires Valid() && lookup == LookupOf(entries, |entries|)
      requires forall k :: 0 <= k < |entries| ==> entries[k].index == k
      ensures forall i :: GetByIndex(i).Some? <==> 0 <= i < Size()
      ensures forall i :: 0 <= i < Size() ==> GetByIndex(i) == Some(entries[i])
    {
      SequentialLookup(entries, |entries|);
    }

    /** With distinct ids, getById of an item's id is that item. */
    lemma ByIdAfterFiling()
      requires Valid() && lookup == LookupOf(entries, |entries|)
      requires forall i, j :: 0 <= i < j < |entries| ==> entries[i].id != entries[j].id
      ensures forall k :: 0 <= k < Size() ==> GetById(entries[k].id) == Some(entries[k])
    {
      UniqueIdLookup(entries, |entries|);
    }

    /** size. */
    function Size(): nat
      reads this
    {
      |entries|
    }

    /** serializeIndex(PrintStream). `sourceLine` is the source CD's
        serialization and `serialize` an item's; neither is part of this
        model. */
    method SerializeIndex(header: string, comment: string, sourceLine: string, serialize: Entry -> string)
      returns (lines: seq<string>)
      ensures lines == IndexText(header, comment, sourceLine, SerializedItems(entries, serialize))
    {
      lines := [header, comment, sourceLine];
      var k := 0;
      while k < |entries|
        invariant k <= |entries|
        invariant lines == IndexText(header, comment, sourceLine, SerializedItems(entries[..k], serialize))
      {
        assert entries[..k + 1][..k] == entries[..k];
        lines := lines + [serialize(entries[k])];
        k := k + 1;
      }
      assert entries[..k] == entries;
    }
  }

  /** Entries that agree below k are filed alike below k. */
  lemma {:induction false} LookupPrefix(a: seq<Entry>, b: seq<Entry>, k: nat)
    requires k <= |a| && k <= |b|
    requires forall i :: 0 <= i < k ==> a[i] == b[i]
    ensures LookupOf(a, k) == LookupOf(b, k)
  {
    if k > 0 {
      LookupPrefix(a, b, k - 1);
    }
  }

  /** The indexing constructor after the scan: the sorted items are put in
      a tree, then numbered and filed. `sorted` is what Collections.sort
      returns and `ids` the serialized id each item holds once the tree is
      built (set by addChild and setIndexId, which are not part of this
      model). */
  method IndexDisc(sorted: seq<Item>, natural: (Item, Item) -> int, rating: (Item, Item) -> int,
                   accepts: (Item, Item) -> bool, setIndexId: (Item, int) -> bool, ids: seq<string>)
    returns (r: Result<DiscIndex, Refusal>)
    requires SortedBy(sorted, natural)
    requires |ids| == |sorted|
    ensures r.Err? <==> Placed(sorted, rating, accepts, |sorted|).Err?
    ensures r.Err? ==> r.error == Placed(sorted, rating, accepts, |sorted|).error
    ensures r.Ok? ==> fresh(r.value) && r.value.Valid() && r.value.source == Supplied
    ensures r.Ok? ==> r.value.root == Placed(sorted, rating, accepts, |sorted|).value.0
    ensures r.Ok? ==> |r.value.entries| == |sorted|
    ensures r.Ok? ==> forall i :: 0 <= i < |sorted| ==> r.value.entries[i] == Entry(sorted[i], i, ids[i])
    ensures r.Ok? ==> r.value.lookup == LookupOf(r.value.entries, |sorted|)
  {
    var forest := BuildTree(sorted, rating, accepts, setIndexId);
    if forest.Err? {
      return Err(forest.error);
    }
    var entries := seq(|sorted|, i requires 0 <= i < |sorted| => Entry(sorted[i], -1, ids[i]));
    var index := new DiscIndex(entries, forest.value.roots, Supplied);
    index.NumberItems();
    r := Ok(index);
  }

  /** The loading constructor. */
  method LoadIndex(lines: seq<string>, header: string, sourceStart: string, reader: Option<string -> bool>,
                   indexers: seq<string -> Verdict>, isRoot: Entry -> bool, isParent: (Entry, Entry) -> bool,
                   accepts: (Entry, Entry) -> bool)
    returns (r: Result<DiscIndex, LoadFailure>, warnings: seq<Warning>)
    ensures var spec := LoadSpec(lines, header, sourceStart, reader, indexers, isRoot, isParent, accepts);
      (r.Err? <==> spec.Err?) && (r.Err? ==> r.error == spec.error)
    ensures r.Ok? ==> fresh(r.value) && r.value.Valid()
    ensures var spec := LoadSpec(lines, header, sourceStart, reader, indexers, isRoot, isParent, accepts);
      r.Ok? ==> (r.value.source == spec.value.source && r.value.entries == spec.value.entries &&
                 r.value.root == spec.value.tree.roots &&
                 r.value.lookup == LookupOf(spec.value.entries, |spec.value.entries|) &&
                 warnings == spec.value.warnings)
  {
    warnings := [];
    if |lines| == 0 || lines[0] != header {
      return Err(HeaderMissing), warnings;
    }
    var sc := ScanLines(lines[1..], sourceStart, reader);
    if sc.fromLine.None? && reader.None? {
      return Err(NoCd), warnings;
    }
    var source := if sc.fromLine.Some? then Opened(sc.fromLine.value) else Supplied;
    var entries, ws := DeserializeLines(sc.itemLines, indexers);
    var tree := RecreateTree(entries, isRoot, isParent, accepts);
    RebuildAscending(entries, isRoot, isParent, accepts, |entries|);
    var index := new DiscIndex(entries, tree.roots, source);
    index.FillLookup();
    warnings := sc.warnings + ws + RejectionWarnings(tree.rejected);
    r := Ok(index);
  }
}
