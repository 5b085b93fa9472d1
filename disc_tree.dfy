/** The tree of disc items. After indexing a disc, buildTree gives each item
    the parent that rates it highest, or makes it a root; after loading a
    saved index, recreateTree finds each item's parent through the ids the
    items were saved with. Items are referred to by their position in the
    index list; the items' own methods (getParentRating, addChild,
    setIndexId and the IndexId tests) are not part of this model and are
    the function parameters. */
module DiscTree {
  import opened Wrappers

  /** A best parent refused its child: buildTree throws. */
  datatype Refusal = Refusal(parent: nat, child: nat)

  /** The result of buildTree: the root items, the addChild calls made (a
      (parent, child) pair each, in call order) and the top-level id each
      root item was offered. */
  datatype Forest = Forest(roots: seq<nat>, adopted: seq<(nat, nat)>, rootIds: seq<int>)

  /** The inner loop of buildTree after looking at the first k candidate
      parents: the best one so far and its rating (0 while there is none). */
  function BestSoFar<T>(items: seq<T>, rating: (T, T) -> int, c: nat, k: nat): (r: (Option<nat>, int))
    requires c < |items| && k <= |items|
    ensures r.0.Some? ==> r.0.value < k
  {
    if k == 0 then (None, 0)
    else
      var prev := BestSoFar(items, rating, c, k - 1);
      var r := rating(items[k - 1], items[c]);
      if r > prev.1 then (Some(k - 1), r) else prev
  }

  /** The parent buildTree chooses for item c. */
  function BestParent<T>(items: seq<T>, rating: (T, T) -> int, c: nat): (r: Option<nat>)
    requires c < |items|
    ensures r.Some? ==> r.value < |items|
  {
    BestSoFar(items, rating, c, |items|).0
  }

  lemma {:induction false} BestSoFarMeaning<T>(items: seq<T>, rating: (T, T) -> int, c: nat, k: nat)
    requires c < |items| && k <= |items|
    ensures var (b, br) := BestSoFar(items, rating, c, k);
      (b.None? ==> br == 0 && forall q :: 0 <= q < k ==> rating(items[q], items[c]) <= 0) &&
      (b.Some? ==>
         b.value < k && br > 0 && rating(items[b.value], items[c]) == br &&
         (forall q :: 0 <= q < k ==> rating(items[q], items[c]) <= br) &&
         (forall q :: 0 <= q < b.value ==> rating(items[q], items[c]) < br))
  {
    if k > 0 {
      BestSoFarMeaning(items, rating, c, k - 1);
    }
  }

  /** buildTree's choice: item c has no parent exactly when no item rates
      it above 0; otherwise its parent is the earliest item with the
      strictly highest rating (which may be c itself: the loop does not
      skip it). */
  lemma BestParentChoice<T>(items: seq<T>, rating: (T, T) -> int, c: nat)
    requires c < |items|
    ensures BestParent(items, rating, c).None? <==>
              forall q :: 0 <= q < |items| ==> rating(items[q], items[c]) <= 0
    ensures BestParent(items, rating, c).Some? ==>
              var p := BestParent(items, rating, c).value;
              p < |items| && rating(items[p], items[c]) > 0 &&
              (forall q :: 0 <= q < |items| ==> rating(items[q], items[c]) <= rating(items[p], items[c])) &&
              (forall q :: 0 <= q < p ==> rating(items[q], items[c]) < rating(items[p], items[c]))
  {
    BestSoFarMeaning(items, rating, c, |items|);
  }

  /** The inner loop of buildTree. */
  method FindBestParent<T>(items: seq<T>, rating: (T, T) -> int, c: nat) returns (best: Option<nat>)
    requires c < |items|
    ensures best == BestParent(items, rating, c)
  {
    best := None;
    var bestRating := 0;
    var k := 0;
    while k < |items|
      invariant k <= |items|
      invariant (best, bestRating) == BestSoFar(items, rating, c, k)
    {
      var r := rating(items[k], items[c]);
      if r > bestRating {
        best := Some(k);
        bestRating := r;
      }
      k := k + 1;
    }
  }

  /** The first loop of buildTree after placing the first n items: the
      roots and the addChild calls so far, or the first refusal. */
  function Placed<T>(items: seq<T>, rating: (T, T) -> int, accepts: (T, T) -> bool, n: nat)
    : Result<(seq<nat>, seq<(nat, nat)>), Refusal>
    requires n <= |items|
  {
    if n == 0 then Ok(([], []))
    else
      var prev := Placed(items, rating, accepts, n - 1);
      if prev.Err? then prev
      else
        var c: nat := n - 1;
        match BestParent(items, rating, c)
        case None => Ok((prev.value.0 + [c], prev.value.1))
        case Some(p) =>
          if accepts(items[p], items[c]) then Ok((prev.value.0, prev.value.1 + [(p, c)]))
          else Err(Refusal(p, c))
  }

  /** Children are placed in list order: both lists are strictly
      increasing in the child. */
  ghost predicate AscendingChildren(roots: seq<nat>, adopted: seq<(nat, nat)>, n: nat)
  {
    (forall i :: 0 <= i < |roots| ==> roots[i] < n) &&
    (forall i, j :: 0 <= i < j < |roots| ==> roots[i] < roots[j]) &&
    (forall i :: 0 <= i < |adopted| ==> adopted[i].1 < n) &&
    (forall i, j :: 0 <= i < j < |adopted| ==> adopted[i].1 < adopted[j].1)
  }

  /** Whether the best parent of c, if any, accepts it. */
  predicate Fits<T>(items: seq<T>, rating: (T, T) -> int, accepts: (T, T) -> bool, c: nat)
    requires c < |items|
  {
    BestParent(items, rating, c).Some? ==> accepts(items[BestParent(items, rating, c).value], items[c])
  }

  /** buildTree fails exactly when some best parent refuses its child, and
      then with the first such refusal. */
  lemma {:induction false} PlacedFails<T>(items: seq<T>, rating: (T, T) -> int, accepts: (T, T) -> bool, n: nat)
    requires n <= |items|
    ensures Placed(items, rating, accepts, n).Ok? <==> forall c :: 0 <= c < n ==> Fits(items, rating, accepts, c)
    ensures Placed(items, rating, accepts, n).Err? ==>
              var e := Placed(items, rating, accepts, n).error;
              e.child < n && BestParent(items, rating, e.child) == Some(e.parent) &&
              !Fits(items, rating, accepts, e.child) &&
              forall c :: 0 <= c < e.child ==> Fits(items, rating, accepts, c)
  {
    if n > 0 {
      PlacedFails(items, rating, accepts, n - 1);
      var c: nat := n - 1;
      if Placed(items, rating, accepts, n - 1).Ok? {
        if Fits(items, rating, accepts, c) {
          assert Placed(items, rating, accepts, n).Ok?;
        } else {
          var p := BestParent(items, rating, c).value;
          assert Placed(items, rating, accepts, n) == Err(Refusal(p, c));
        }
      }
    }
  }

  /** One step of the placing loop when it succeeds. */
  lemma PlacedStep<T>(items: seq<T>, rating: (T, T) -> int, accepts: (T, T) -> bool, n: nat)
    requires 0 < n <= |items|
    requires Placed(items, rating, accepts, n).Ok?
    ensures Placed(items, rating, accepts, n - 1).Ok?
    ensures var prev := Placed(items, rating, accepts, n - 1).value;
      Placed(items, rating, accepts, n).value ==
        match BestParent(items, rating, n - 1)
        case None => (prev.0 + [n - 1], prev.1)
        case Some(p) => (prev.0, prev.1 + [(p, n - 1)])
  {
  }

  /** The roots and the adopted children are listed in list order. */
  lemma {:induction false} PlacedAscending<T>(items: seq<T>, rating: (T, T) -> int, accepts: (T, T) -> bool, n: nat)
    requires n <= |items|
    requires Placed(items, rating, accepts, n).Ok?
    ensures AscendingChildren(Placed(items, rating, accepts, n).value.0, Placed(items, rating, accepts, n).value.1, n)
  {
    if n > 0 {
      PlacedStep(items, rating, accepts, n);
      PlacedAscending(items, rating, accepts, n - 1);
      var prev := Placed(items, rating, accepts, n - 1).value;
      match BestParent(items, rating, n - 1)
      case None => AscendingSnoc(prev.0, prev.1, n - 1, 0);
      case Some(p) => AscendingSnoc(prev.0, prev.1, n - 1, p);
    }
  }

  /** Before item n is placed it is listed nowhere. */
  lemma PlacedFresh<T>(items: seq<T>, rating: (T, T) -> int, accepts: (T, T) -> bool, n: nat)
    requires n <= |items|
    requires Placed(items, rating, accepts, n).Ok?
    ensures n !in Placed(items, rating, accepts, n).value.0
    ensures forall p :: (p, n) !in Placed(items, rating, accepts, n).value.1
  {
    PlacedAscending(items, rating, accepts, n);
    var placed := Placed(items, rating, accepts, n).value;
    NotListed(placed.0, placed.1, n);
  }

  /** An item is a root exactly when it has no best parent. */
  lemma {:induction false} PlacedRoots<T>(items: seq<T>, rating: (T, T) -> int, accepts: (T, T) -> bool, n: nat)
    requires n <= |items|
    requires Placed(items, rating, accepts, n).Ok?
    ensures forall c :: 0 <= c < n ==>
              (c in Placed(items, rating, accepts, n).value.0 <==> BestParent(items, rating, c).None?)
  {
    if n > 0 {
      PlacedStep(items, rating, accepts, n);
      PlacedRoots(items, rating, accepts, n - 1);
      PlacedFresh(items, rating, accepts, n - 1);
    }
  }

  /** An item is adopted by p exactly when p is its best parent. */
  lemma {:induction false} PlacedAdopted<T>(items: seq<T>, rating: (T, T) -> int, accepts: (T, T) -> bool, n: nat)
    requires n <= |items|
    requires Placed(items, rating, accepts, n).Ok?
    ensures forall c, p :: 0 <= c < n ==>
              ((p, c) in Placed(items, rating, accepts, n).value.1 <==> BestParent(items, rating, c) == Some(p))
  {
    if n > 0 {
      PlacedStep(items, rating, accepts, n);
      PlacedAdopted(items, rating, accepts, n - 1);
      PlacedFresh(items, rating, accepts, n - 1);
    }
  }

  /** Once a refusal is met the placing loop has stopped: the result stays
      that refusal. */
  lemma {:induction false} PlacedErrStays<T>(items: seq<T>, rating: (T, T) -> int, accepts: (T, T) -> bool, n: nat, m: nat)
    requires n <= m <= |items|
    requires Placed(items, rating, accepts, n).Err?
    ensures Placed(items, rating, accepts, m) == Placed(items, rating, accepts, n)
    decreases m - n
  {
    if n < m {
      assert Placed(items, rating, accepts, n + 1) == Placed(items, rating, accepts, n);
      PlacedErrStays(items, rating, accepts, n + 1, m);
    }
  }

  /** Listing one more root, or one more adopted child, after the first n
      items keeps the lists in order. */
  lemma AscendingSnoc(roots: seq<nat>, adopted: seq<(nat, nat)>, n: nat, p: nat)
    requires AscendingChildren(roots, adopted, n)
    ensures AscendingChildren(roots, adopted, n + 1)
    ensures AscendingChildren(roots + [n], adopted, n + 1)
    ensures AscendingChildren(roots, adopted + [(p, n)], n + 1)
  {
  }

  /** An item beyond every listed child is not listed. */
  lemma NotListed(roots: seq<nat>, adopted: seq<(nat, nat)>, c: nat)
    requires AscendingChildren(roots, adopted, c)
    ensures c !in roots
    ensures forall p :: (p, c) !in adopted
  {
    forall p
      ensures (p, c) !in adopted
    {
      assert forall i :: 0 <= i < |adopted| ==> adopted[i] != (p, c);
    }
  }

  /** The ids buildTree offers the roots from `id` on: each root is
      offered the current id, which advances only when setIndexId accepts. */
  function RootIds<T>(roots: seq<T>, setIndexId: (T, int) -> bool, id: int): seq<int>
    decreases |roots|
  {
    if |roots| == 0 then []
    else [id] + RootIds(roots[1..], setIndexId, if setIndexId(roots[0], id) then id + 1 else id)
  }

  /** The first root is offered the starting id, and each next root the id
      before it, plus one exactly when that id was taken. */
  lemma {:induction false} RootIdsStep<T>(roots: seq<T>, setIndexId: (T, int) -> bool, id: int)
    decreases |roots|
    ensures var ids := RootIds(roots, setIndexId, id);
      |ids| == |roots| &&
      (|roots| > 0 ==> ids[0] == id) &&
      forall j :: 0 <= j < |roots| - 1 ==>
        ids[j + 1] == (if setIndexId(roots[j], ids[j]) then ids[j] + 1 else ids[j])
  {
    if |roots| > 0 {
      var next := if setIndexId(roots[0], id) then id + 1 else id;
      RootIdsStep(roots[1..], setIndexId, next);
      var ids := RootIds(roots, setIndexId, id);
      var rest := RootIds(roots[1..], setIndexId, next);
      forall j | 1 <= j < |roots| - 1
        ensures ids[j + 1] == (if setIndexId(roots[j], ids[j]) then ids[j] + 1 else ids[j])
      {
        assert ids[j] == rest[j - 1] && ids[j + 1] == rest[j] && roots[j] == roots[1..][j - 1];
      }
    }
  }

  /** The ids never decrease, and the roots that took an id all hold
      different ones. */
  lemma {:induction false} RootIdsDistinct<T>(roots: seq<T>, setIndexId: (T, int) -> bool, id: int)
    decreases |roots|
    ensures var ids := RootIds(roots, setIndexId, id);
      |ids| == |roots| &&
      (forall j :: 0 <= j < |ids| ==> id <= ids[j] <= id + j) &&
      (forall i, j :: 0 <= i < j < |ids| ==> ids[i] <= ids[j]) &&
      (forall i, j :: 0 <= i < j < |ids| && setIndexId(roots[i], ids[i]) ==> ids[i] < ids[j])
  {
    if |roots| > 0 {
      var next := if setIndexId(roots[0], id) then id + 1 else id;
      RootIdsDistinct(roots[1..], setIndexId, next);
      var ids := RootIds(roots, setIndexId, id);
      var rest := RootIds(roots[1..], setIndexId, next);
      assert ids == [id] + rest;
      forall i, j | 0 <= i < j < |ids| && setIndexId(roots[i], ids[i])
        ensures ids[i] < ids[j]
      {
        if i > 0 {
          assert roots[i] == roots[1..][i - 1] && ids[i] == rest[i - 1];
        }
      }
    }
  }

  /** The root-id loop of buildTree. */
  method AssignRootIds<T>(roots: seq<T>, setIndexId: (T, int) -> bool) returns (ids: seq<int>)
    ensures ids == RootIds(roots, setIndexId, 0)
  {
    ids := [];
    var id := 0;
    var k := 0;
    while k < |roots|
      invariant k <= |roots|
      invariant ids + RootIds(roots[k..], setIndexId, id) == RootIds(roots, setIndexId, 0)
    {
      assert roots[k..][1..] == roots[k + 1..];
      ids := ids + [id];
      if setIndexId(roots[k], id) {
        id := id + 1;
      }
      k := k + 1;
    }
  }

  function ItemsAt<T>(items: seq<T>, positions: seq<nat>): (r: seq<T>)
    requires forall i :: 0 <= i < |positions| ==> positions[i] < |items|
    ensures |r| == |positions| && forall i :: 0 <= i < |r| ==> r[i] == items[positions[i]]
  {
    if |positions| == 0 then [] else ItemsAt(items, positions[..|positions| - 1]) + [items[positions[|positions| - 1]]]
  }

  /** buildTree: places every item, then offers the roots their ids. */
  method BuildTree<T>(items: seq<T>, rating: (T, T) -> int, accepts: (T, T) -> bool,
                      setIndexId: (T, int) -> bool) returns (r: Result<Forest, Refusal>)
    ensures Placed(items, rating, accepts, |items|).Err? <==> r.Err?
    ensures r.Err? ==> r.error == Placed(items, rating, accepts, |items|).error
    ensures r.Ok? ==>
              var placed := Placed(items, rating, accepts, |items|).value;
              r.value.roots == placed.0 && r.value.adopted == placed.1 &&
              (forall i :: 0 <= i < |placed.0| ==> placed.0[i] < |items|) &&
              r.value.rootIds == RootIds(ItemsAt(items, placed.0), setIndexId, 0)
  {
    var roots: seq<nat> := [];
    var adopted: seq<(nat, nat)> := [];
    var c := 0;
    while c < |items|
      invariant c <= |items|
      invariant Placed(items, rating, accepts, c) == Ok((roots, adopted))
    {
      var best := FindBestParent(items, rating, c);
      match best {
        case None =>
          roots := roots + [c];
        case Some(p) =>
          if !accepts(items[p], items[c]) {
            PlacedErrStays(items, rating, accepts, c + 1, |items|);
            return Err(Refusal(p, c));
          }
          adopted := adopted + [(p, c)];
      }
      c := c + 1;
    }
    PlacedAscending(items, rating, accepts, |items|);
    var ids := AssignRootIds(ItemsAt(items, roots), setIndexId);
    r := Ok(Forest(roots, adopted, ids));
  }

  /** The inner loop of recreateTree from candidate q on: the first item
      other than c whose id is the parent of c's id. */
  function FirstParentFrom<T>(items: seq<T>, isParent: (T, T) -> bool, c: nat, q: nat): (r: Option<nat>)
    requires c < |items| && q <= |items|
    decreases |items| - q
    ensures r.Some? ==> q <= r.value < |items| && r.value != c
  {
    if q == |items| then None
    else if q != c && isParent(items[c], items[q]) then Some(q)
    else FirstParentFrom(items, isParent, c, q + 1)
  }

  lemma {:induction false} FirstParentFromMeaning<T>(items: seq<T>, isParent: (T, T) -> bool, c: nat, q: nat)
    requires c < |items| && q <= |items|
    decreases |items| - q
    ensures FirstParentFrom(items, isParent, c, q).None? <==>
              forall k :: q <= k < |items| && k != c ==> !isParent(items[c], items[k])
    ensures FirstParentFrom(items, isParent, c, q).Some? ==>
              var p := FirstParentFrom(items, isParent, c, q).value;
              q <= p < |items| && p != c && isParent(items[c], items[p]) &&
              forall k :: q <= k < p && k != c ==> !isParent(items[c], items[k])
  {
    if q < |items| {
      FirstParentFromMeaning(items, isParent, c, q + 1);
    }
  }

  /** The inner loop of recreateTree. */
  method FindSavedParent<T>(items: seq<T>, isParent: (T, T) -> bool, c: nat) returns (found: Option<nat>)
    requires c < |items|
    ensures found == FirstParentFrom(items, isParent, c, 0)
  {
    var q := 0;
    while q < |items|
      invariant q <= |items|
      invariant FirstParentFrom(items, isParent, c, q) == FirstParentFrom(items, isParent, c, 0)
    {
      if q != c && isParent(items[c], items[q]) {
        return Some(q);
      }
      q := q + 1;
    }
    return None;
  }

  /** The result of recreateTree: the roots, every addChild call made and
      the calls that were refused (each logged as a warning). */
  datatype Rebuilt = Rebuilt(roots: seq<nat>, adopted: seq<(nat, nat)>, rejected: seq<(nat, nat)>)

  /** How recreateTree places item c: None for a root, else the parent it
      is offered to. */
  function SavedPlace<T>(items: seq<T>, isRoot: T -> bool, isParent: (T, T) -> bool, c: nat): (r: Option<nat>)
    requires c < |items|
    ensures r.Some? ==> r.value < |items| && r.value != c
  {
    if isRoot(items[c]) then None else FirstParentFrom(items, isParent, c, 0)
  }

  /** recreateTree after the first n items. */
  function Rebuild<T>(items: seq<T>, isRoot: T -> bool, isParent: (T, T) -> bool, accepts: (T, T) -> bool, n: nat): Rebuilt
    requires n <= |items|
  {
    if n == 0 then Rebuilt([], [], [])
    else
      var prev := Rebuild(items, isRoot, isParent, accepts, n - 1);
      var c: nat := n - 1;
      match SavedPlace(items, isRoot, isParent, c)
      case None => prev.(roots := prev.roots + [c])
      case Some(p) =>
        prev.(adopted := prev.adopted + [(p, c)],
              rejected := if accepts(items[p], items[c]) then prev.rejected else prev.rejected + [(p, c)])
  }

  /** Item c is a root of the recreated tree exactly when its id says so
      or no other item's id is its parent's; otherwise it goes to the first
      such item. */
  lemma SavedPlaceMeaning<T>(items: seq<T>, isRoot: T -> bool, isParent: (T, T) -> bool, c: nat)
    requires c < |items|
    ensures SavedPlace(items, isRoot, isParent, c).None? <==>
              isRoot(items[c]) || forall k :: 0 <= k < |items| && k != c ==> !isParent(items[c], items[k])
    ensures SavedPlace(items, isRoot, isParent, c).Some? ==>
              var p := SavedPlace(items, isRoot, isParent, c).value;
              !isRoot(items[c]) && isParent(items[c], items[p]) &&
              forall k :: 0 <= k < p && k != c ==> !isParent(items[c], items[k])
  {
    FirstParentFromMeaning(items, isParent, c, 0);
  }

  /** One step of the rebuilding loop. */
  lemma RebuildStep<T>(items: seq<T>, isRoot: T -> bool, isParent: (T, T) -> bool,
                       accepts: (T, T) -> bool, n: nat)
    requires 0 < n <= |items|
    ensures var prev := Rebuild(items, isRoot, isParent, accepts, n - 1);
      var rb := Rebuild(items, isRoot, isParent, accepts, n);
      match SavedPlace(items, isRoot, isParent, n - 1)
      case None => rb == prev.(roots := prev.roots + [n - 1])
      case Some(p) =>
        rb == prev.(adopted := prev.adopted + [(p, n - 1)],
                    rejected := if accepts(items[p], items[n - 1]) then prev.rejected else prev.rejected + [(p, n - 1)])
  {
  }

  /** The roots, the offers and the refusals are each listed in list
      order. */
  lemma {:induction false} RebuildAscending<T>(items: seq<T>, isRoot: T -> bool, isParent: (T, T) -> bool,
                                               accepts: (T, T) -> bool, n: nat)
    requires n <= |items|
    ensures AscendingChildren(Rebuild(items, isRoot, isParent, accepts, n).roots,
                              Rebuild(items, isRoot, isParent, accepts, n).adopted, n)
    ensures AscendingChildren([], Rebuild(items, isRoot, isParent, accepts, n).rejected, n)
  {
    if n > 0 {
      RebuildAscending(items, isRoot, isParent, accepts, n - 1);
      RebuildAscendingStep(items, isRoot, isParent, accepts, n);
      RebuildRejectedStep(items, isRoot, isParent, accepts, n);
    }
  }

  lemma RebuildAscendingStep<T>(items: seq<T>, isRoot: T -> bool, isParent: (T, T) -> bool,
                                accepts: (T, T) -> bool, n: nat)
    requires 0 < n <= |items|
    requires AscendingChildren(Rebuild(items, isRoot, isParent, accepts, n - 1).roots,
                               Rebuild(items, isRoot, isParent, accepts, n - 1).adopted, n - 1)
    ensures AscendingChildren(Rebuild(items, isRoot, isParent, accepts, n).roots,
                              Rebuild(items, isRoot, isParent, accepts, n).adopted, n)
  {
    RebuildStep(items, isRoot, isParent, accepts, n);
    var prev := Rebuild(items, isRoot, isParent, accepts, n - 1);
    match SavedPlace(items, isRoot, isParent, n - 1)
    case None => AscendingSnoc(prev.roots, prev.adopted, n - 1, 0);
    case Some(p) => AscendingSnoc(prev.roots, prev.adopted, n - 1, p);
  }

  lemma RebuildRejectedStep<T>(items: seq<T>, isRoot: T -> bool, isParent: (T, T) -> bool,
                               accepts: (T, T) -> bool, n: nat)
    requires 0 < n <= |items|
    requires AscendingChildren([], Rebuild(items, isRoot, isParent, accepts, n - 1).rejected, n - 1)
    ensures AscendingChildren([], Rebuild(items, isRoot, isParent, accepts, n).rejected, n)
  {
    RebuildStep(items, isRoot, isParent, accepts, n);
    var prev := Rebuild(items, isRoot, isParent, accepts, n - 1);
    match SavedPlace(items, isRoot, isParent, n - 1)
    case None => AscendingSnoc([], prev.rejected, n - 1, 0);
    case Some(p) => AscendingSnoc([], prev.rejected, n - 1, p);
  }

  /** Before item n is placed it is listed nowhere. */
  lemma RebuildFresh<T>(items: seq<T>, isRoot: T -> bool, isParent: (T, T) -> bool,
                        accepts: (T, T) -> bool, n: nat)
    requires n <= |items|
    ensures n !in Rebuild(items, isRoot, isParent, accepts, n).roots
    ensures forall p :: (p, n) !in Rebuild(items, isRoot, isParent, accepts, n).adopted
    ensures forall p :: (p, n) !in Rebuild(items, isRoot, isParent, accepts, n).rejected
  {
    RebuildAscending(items, isRoot, isParent, accepts, n);
    var rb := Rebuild(items, isRoot, isParent, accepts, n);
    NotListed(rb.roots, rb.adopted, n);
    NotListed([], rb.rejected, n);
  }

  /** An item is a root of the recreated tree exactly when SavedPlace says
      so. */
  lemma {:induction false} RebuildRoots<T>(items: seq<T>, isRoot: T -> bool, isParent: (T, T) -> bool,
                                           accepts: (T, T) -> bool, n: nat)
    requires n <= |items|
    ensures forall c :: 0 <= c < n ==>
              (c in Rebuild(items, isRoot, isParent, accepts, n).roots <==> SavedPlace(items, isRoot, isParent, c).None?)
  {
    if n > 0 {
      RebuildStep(items, isRoot, isParent, accepts, n);
      RebuildRoots(items, isRoot, isParent, accepts, n - 1);
      RebuildFresh(items, isRoot, isParent, accepts, n - 1);
      var prev := Rebuild(items, isRoot, isParent, accepts, n - 1);
      var roots := Rebuild(items, isRoot, isParent, accepts, n).roots;
      if SavedPlace(items, isRoot, isParent, n - 1).None? {
        assert roots == prev.roots + [n - 1];
      } else {
        assert roots == prev.roots;
      }
    }
  }

  /** Every item that is not a root is offered to its saved parent, once,
      whether or not the parent accepts it. */
  lemma {:induction false} RebuildOffers<T>(items: seq<T>, isRoot: T -> bool, isParent: (T, T) -> bool,
                                            accepts: (T, T) -> bool, n: nat)
    requires n <= |items|
    ensures forall c, p :: 0 <= c < n ==>
              ((p, c) in Rebuild(items, isRoot, isParent, accepts, n).adopted <==> SavedPlace(items, isRoot, isParent, c) == Some(p))
  {
    if n > 0 {
      RebuildStep(items, isRoot, isParent, accepts, n);
      RebuildOffers(items, isRoot, isParent, accepts, n - 1);
      RebuildFresh(items, isRoot, isParent, accepts, n - 1);
    }
  }

  /** The refusals logged are exactly the offers the saved parent turned
      down. */
  lemma {:induction false} RebuildRejects<T>(items: seq<T>, isRoot: T -> bool, isParent: (T, T) -> bool,
                                             accepts: (T, T) -> bool, n: nat)
    requires n <= |items|
    ensures forall c, p :: 0 <= c < n ==>
              ((p, c) in Rebuild(items, isRoot, isParent, accepts, n).rejected <==>
                 SavedPlace(items, isRoot, isParent, c) == Some(p) && !accepts(items[p], items[c]))
  {
    if n > 0 {
      RebuildStep(items, isRoot, isParent, accepts, n);
      RebuildRejects(items, isRoot, isParent, accepts, n - 1);
      RebuildFresh(items, isRoot, isParent, accepts, n - 1);
    }
  }

  /** recreateTree. */
  method RecreateTree<T>(items: seq<T>, isRoot: T -> bool, isParent: (T, T) -> bool,
                         accepts: (T, T) -> bool) returns (r: Rebuilt)
    ensures r == Rebuild(items, isRoot, isParent, accepts, |items|)
  {
    r := Rebuilt([], [], []);
    var c := 0;
    while c < |items|
      invariant c <= |items|
      invariant r == Rebuild(items, isRoot, isParent, accepts, c)
    {
      if isRoot(items[c]) {
        r := r.(roots := r.roots + [c]);
      } else {
        var found := FindSavedParent(items, isParent, c);
        match found
        case None =>
          r := r.(roots := r.roots + [c]);
        case Some(p) =>
          if !accepts(items[p], items[c]) {
            r := r.(rejected := r.rejected + [(p, c)]);
          }
          r := r.(adopted := r.adopted + [(p, c)]);
      }
      c := c + 1;
    }
  }
}
