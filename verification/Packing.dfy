/** First-fit packing of small sibling scopes (cdp/partition.py:180-270). */
module Packing {
  import opened Orders
  import opened Scopes
  import opened Cutting
  import opened CutScopes
  import opened Coalescing

  // ----------------------------------------------------------------- small scopes

  /** At most half of either budget. */
  predicate IsSmall(b: Budget, s: Scope) {
    !s.oversized && s.fileCount * 2 <= b.maxFiles && s.loc * 2 <= b.maxLoc
  }

  predicate FitsIn(b: Budget, slot: seq<Scope>, s: Scope) {
    SumFiles(slot) + s.fileCount <= b.maxFiles && SumLoc(slot) + s.loc <= b.maxLoc
  }

  /** More than half of one budget. */
  predicate HalfFull(b: Budget, slot: seq<Scope>) {
    2 * SumFiles(slot) > b.maxFiles || 2 * SumLoc(slot) > b.maxLoc
  }

  /** A bin: scopes that fit together. */
  predicate IsBin(b: Budget, slot: seq<Scope>) {
    slot != [] && Fits(b, SumFiles(slot), SumLoc(slot)) && forall i :: 0 <= i < |slot| ==> IsSmall(b, slot[i])
  }

  /** Bins as first fit keeps them: each within both budgets, and all but the last more than half full. */
  ghost predicate Packed(b: Budget, bins: seq<seq<Scope>>) {
    && (forall i :: 0 <= i < |bins| ==> IsBin(b, bins[i]))
    && (forall i :: 0 <= i < |bins| - 1 ==> HalfFull(b, bins[i]))
  }

  // -------------------------------------------------------------------- first fit

  /** The scope goes into the first bin that has room for it, or into a new one. */
  function Placed(b: Budget, bins: seq<seq<Scope>>, s: Scope): seq<seq<Scope>> {
    if bins == [] then [[s]]
    else if FitsIn(b, bins[0], s) then [bins[0] + [s]] + bins[1..]
    else [bins[0]] + Placed(b, bins[1..], s)
  }

  function FirstFit(b: Budget, small: seq<Scope>, n: nat): seq<seq<Scope>>
    requires n <= |small|
  {
    if n == 0 then [] else Placed(b, FirstFit(b, small, n - 1), small[n - 1])
  }

  lemma {:induction false} PlacedAt(b: Budget, bins: seq<seq<Scope>>, s: Scope, k: nat)
    requires k <= |bins| && forall i :: 0 <= i < k ==> !FitsIn(b, bins[i], s)
    requires k < |bins| ==> FitsIn(b, bins[k], s)
    ensures Placed(b, bins, s) == if k < |bins| then bins[k := bins[k] + [s]] else bins + [[s]]
  {
    if bins != [] && k > 0 {
      assert forall i :: 0 <= i < |bins[1..]| ==> bins[1..][i] == bins[i + 1];
      PlacedAt(b, bins[1..], s, k - 1);
      assert bins == [bins[0]] + bins[1..];
    }
  }

  /** The loop over the bins. */
  method Place(b: Budget, bins: seq<seq<Scope>>, s: Scope) returns (more: seq<seq<Scope>>)
    ensures more == Placed(b, bins, s)
  {
    var k := 0;
    while k < |bins| && !FitsIn(b, bins[k], s)
      invariant k <= |bins| && forall i :: 0 <= i < k ==> !FitsIn(b, bins[i], s)
    {
      k := k + 1;
    }
    PlacedAt(b, bins, s, k);
    more := if k < |bins| then bins[k := bins[k] + [s]] else bins + [[s]];
  }

  method PackBins(b: Budget, small: seq<Scope>) returns (bins: seq<seq<Scope>>)
    ensures bins == FirstFit(b, small, |small|)
  {
    bins := [];
    for i := 0 to |small|
      invariant bins == FirstFit(b, small, i)
    {
      bins := Place(b, bins, small[i]);
    }
  }

  lemma {:induction false} SlotGrows(b: Budget, slot: seq<Scope>, s: Scope)
    ensures SumFiles(slot + [s]) == SumFiles(slot) + s.fileCount && SumLoc(slot + [s]) == SumLoc(slot) + s.loc
    ensures HalfFull(b, slot) ==> HalfFull(b, slot + [s])
    ensures IsBin(b, slot) && IsSmall(b, s) && FitsIn(b, slot, s) ==> IsBin(b, slot + [s])
  {
    WeighPush(slot, s, FileCounts());
    WeighPush(slot, s, Locs());
  }

  lemma {:induction false} NewBin(b: Budget, s: Scope)
    requires IsSmall(b, s)
    ensures IsBin(b, [s])
  {
    SlotGrows(b, [], s);
    assert [] + [s] == [s];
  }

  /** Placing a small scope keeps the bins packed. A new bin is opened only when no other has room, so then every
  other is more than half full. */
  lemma {:induction false} PlaceKeepsPacked(b: Budget, bins: seq<seq<Scope>>, s: Scope)
    requires Packed(b, bins) && IsSmall(b, s)
    ensures Packed(b, Placed(b, bins, s))
  {
    if bins == [] {
      NewBin(b, s);
    } else {
      SlotGrows(b, bins[0], s);
      var tail := bins[1..];
      assert forall i :: 0 <= i < |tail| ==> tail[i] == bins[i + 1];
      if !FitsIn(b, bins[0], s) {
        PlaceKeepsPacked(b, tail, s);
        PackedCons(b, bins[0], Placed(b, tail, s));
      } else {
        PackedCons(b, bins[0] + [s], tail);
      }
    }
  }

  lemma {:induction false} PackedCons(b: Budget, slot: seq<Scope>, tail: seq<seq<Scope>>)
    requires IsBin(b, slot) && Packed(b, tail) && (tail != [] ==> HalfFull(b, slot))
    ensures Packed(b, [slot] + tail)
  {
    var bins := [slot] + tail;
    forall i | 0 <= i < |bins| ensures IsBin(b, bins[i]) { if i > 0 { assert bins[i] == tail[i - 1]; } }
    forall i | 0 <= i < |bins| - 1 ensures HalfFull(b, bins[i]) { if i > 0 { assert bins[i] == tail[i - 1]; } }
  }

  /** First fit keeps every bin within both budgets and every bin but the last more than half full in one. */
  lemma {:induction false} FirstFitIsPacked(b: Budget, small: seq<Scope>, n: nat)
    requires n <= |small| && forall i :: 0 <= i < |small| ==> IsSmall(b, small[i])
    ensures Packed(b, FirstFit(b, small, n))
  {
    if n > 0 {
      FirstFitIsPacked(b, small, n - 1);
      PlaceKeepsPacked(b, FirstFit(b, small, n - 1), small[n - 1]);
    }
  }

  // ------------------------------------------------------------------ conservation

  function WeighBins(bins: seq<seq<Scope>>, weight: Scope -> nat, n: nat): nat
    requires n <= |bins|
  {
    if n == 0 then 0 else WeighBins(bins, weight, n - 1) + Weigh(bins[n - 1], weight, |bins[n - 1]|)
  }

  lemma {:induction false} WeighBinsCons(slot: seq<Scope>, tail: seq<seq<Scope>>, weight: Scope -> nat, n: nat)
    requires n <= |tail|
    ensures WeighBins([slot] + tail, weight, n + 1) == Weigh(slot, weight, |slot|) + WeighBins(tail, weight, n)
  {
    if n > 0 { WeighBinsCons(slot, tail, weight, n - 1); }
  }

  lemma {:induction false} PlaceKeepsWeight(b: Budget, bins: seq<seq<Scope>>, s: Scope, weight: Scope -> nat)
    ensures WeighBins(Placed(b, bins, s), weight, |Placed(b, bins, s)|) == WeighBins(bins, weight, |bins|) + weight(s)
  {
    if bins == [] {
      WeighPush([], s, weight);
      assert [] + [s] == [s];
      WeighBinsCons([s], [], weight, 0);
      assert [[s]] + [] == [[s]];
    } else {
      var tail := bins[1..];
      assert bins == [bins[0]] + tail;
      WeighBinsCons(bins[0], tail, weight, |tail|);
      if FitsIn(b, bins[0], s) {
        WeighPush(bins[0], s, weight);
        WeighBinsCons(bins[0] + [s], tail, weight, |tail|);
      } else {
        PlaceKeepsWeight(b, tail, s, weight);
        WeighBinsCons(bins[0], Placed(b, tail, s), weight, |Placed(b, tail, s)|);
      }
    }
  }

  /** Whatever is measured, the bins hold what the small scopes held. */
  lemma {:induction false} FirstFitKeepsWeight(b: Budget, small: seq<Scope>, weight: Scope -> nat, n: nat)
    requires n <= |small|
    ensures WeighBins(FirstFit(b, small, n), weight, |FirstFit(b, small, n)|) == Weigh(small, weight, n)
  {
    if n > 0 {
      FirstFitKeepsWeight(b, small, weight, n - 1);
      PlaceKeepsWeight(b, FirstFit(b, small, n - 1), small[n - 1], weight);
    }
  }

  // ------------------------------------------------------------------- how many bins

  /** A bin that is more than half full in files or in lines covers half of the product of the budgets. */
  lemma {:induction false} HalfFullCovers(b: Budget, f: nat, l: nat)
    requires b.maxFiles >= 0 && b.maxLoc >= 0 && (2 * f > b.maxFiles || 2 * l > b.maxLoc)
    ensures b.maxFiles * b.maxLoc <= 2 * f * b.maxLoc + 2 * l * b.maxFiles
  {
    if 2 * f > b.maxFiles {
      MulMonotone(b.maxFiles, 2 * f, b.maxLoc);
      MulMonotone(0, 2 * l, b.maxFiles);
    } else {
      MulMonotone(b.maxLoc, 2 * l, b.maxFiles);
      MulMonotone(0, 2 * f, b.maxLoc);
    }
  }

  lemma {:induction false} MulMonotone(x: int, y: int, k: int)
    requires x <= y && k >= 0
    ensures x * k <= y * k
  {
  }

  lemma {:induction false} AddCover(b: Budget, n: nat, f: nat, l: nat, more: nat, extra: nat)
    requires n * (b.maxFiles * b.maxLoc) <= 2 * f * b.maxLoc + 2 * l * b.maxFiles
    requires b.maxFiles * b.maxLoc <= 2 * more * b.maxLoc + 2 * extra * b.maxFiles
    ensures (n + 1) * (b.maxFiles * b.maxLoc) <= 2 * (f + more) * b.maxLoc + 2 * (l + extra) * b.maxFiles
  {
    var p := b.maxFiles * b.maxLoc;
    assert (n + 1) * p == n * p + p;
    assert 2 * (f + more) * b.maxLoc == 2 * f * b.maxLoc + 2 * more * b.maxLoc;
    assert 2 * (l + extra) * b.maxFiles == 2 * l * b.maxFiles + 2 * extra * b.maxFiles;
  }

  lemma {:induction false} FullBinsCover(b: Budget, bins: seq<seq<Scope>>, n: nat)
    requires b.maxFiles >= 0 && b.maxLoc >= 0
    requires n <= |bins| && forall i :: 0 <= i < n ==> HalfFull(b, bins[i])
    ensures n * (b.maxFiles * b.maxLoc)
      <= 2 * WeighBins(bins, FileCounts(), n) * b.maxLoc + 2 * WeighBins(bins, Locs(), n) * b.maxFiles
  {
    if n > 0 {
      FullBinsCover(b, bins, n - 1);
      HalfFullCovers(b, SumFiles(bins[n - 1]), SumLoc(bins[n - 1]));
      AddCover(b, n - 1, WeighBins(bins, FileCounts(), n - 1), WeighBins(bins, Locs(), n - 1), SumFiles(bins[n - 1]),
               SumLoc(bins[n - 1]));
    }
  }

  /** The number of bins is bounded by twice what the small scopes fill of either budget, plus one. */
  lemma {:induction false} FirstFitBound(b: Budget, small: seq<Scope>)
    requires small != [] && forall i :: 0 <= i < |small| ==> IsSmall(b, small[i])
    ensures (|FirstFit(b, small, |small|)| - 1) * (b.maxFiles * b.maxLoc)
      <= 2 * SumFiles(small) * b.maxLoc + 2 * SumLoc(small) * b.maxFiles
  {
    var bins := FirstFit(b, small, |small|);
    assert IsSmall(b, small[0]);
    FirstFitIsPacked(b, small, |small|);
    FirstFitKeepsWeight(b, small, FileCounts(), |small|);
    FirstFitKeepsWeight(b, small, Locs(), |small|);
    SomeBin(b, small, |small|);
    FullBinsCover(b, bins, |bins| - 1);
    MulMonotone(2 * WeighBins(bins, FileCounts(), |bins| - 1), 2 * SumFiles(small), b.maxLoc);
    MulMonotone(2 * WeighBins(bins, Locs(), |bins| - 1), 2 * SumLoc(small), b.maxFiles);
  }

  lemma {:induction false} SomeBin(b: Budget, small: seq<Scope>, n: nat)
    requires 0 < n <= |small|
    ensures FirstFit(b, small, n) != []
  {
  }

  // ------------------------------------------------------------------- one module

  /** `_merge_scopes`. `name` stands for how the merged node is labelled; the order in which a bin's scopes are joined
  does not show in the result. */
  function MergeScopes(name: seq<Scope> -> string, slot: seq<Scope>): Scope
    requires slot != []
  {
    var files := JoinFiles(slot, |slot|);
    Scope(name(slot), slot[0].moduleName, StableSort(files, StrLe), |files|, SumLoc(slot), false)
  }

  function Emitted(name: seq<Scope> -> string, slot: seq<Scope>): Scope
    requires slot != []
  {
    if |slot| > 1 then MergeScopes(name, slot) else slot[0]
  }

  ghost predicate NonEmpty(bins: seq<seq<Scope>>) {
    forall i :: 0 <= i < |bins| ==> bins[i] != []
  }

  function EmittedBins(name: seq<Scope> -> string, bins: seq<seq<Scope>>, n: nat): seq<Scope>
    requires n <= |bins| && NonEmpty(bins)
  {
    if n == 0 then [] else EmittedBins(name, bins, n - 1) + [Emitted(name, bins[n - 1])]
  }

  /** The sort key of small scopes: larger first, then by node. */
  predicate SizeLe(s: Scope, t: Scope) {
    if s.loc != t.loc then s.loc > t.loc
    else if s.fileCount != t.fileCount then s.fileCount > t.fileCount
    else StrLe(s.node, t.node)
  }

  function Small(b: Budget): Scope -> bool {
    (s: Scope) => IsSmall(b, s)
  }

  function SmallOf(b: Budget, members: seq<Scope>): seq<Scope> {
    Select(members, Small(b), |members|)
  }

  function NodesOf(scopes: seq<Scope>): set<string> {
    set s | s in scopes :: s.node
  }

  function NotNamed(nodes: set<string>): Scope -> bool {
    (s: Scope) => s.node !in nodes
  }

  /** The members whose node is not that of a small one. */
  function LargeOf(b: Budget, members: seq<Scope>): seq<Scope> {
    Select(members, NotNamed(NodesOf(SmallOf(b, members))), |members|)
  }

  function BinsOf(b: Budget, members: seq<Scope>): seq<seq<Scope>> {
    var small := StableSort(SmallOf(b, members), SizeLe);
    FirstFit(b, small, |small|)
  }

  lemma {:induction false} PlacedNonEmpty(b: Budget, bins: seq<seq<Scope>>, s: Scope)
    requires NonEmpty(bins)
    ensures NonEmpty(Placed(b, bins, s))
  {
    if bins != [] {
      assert NonEmpty(bins[1..]);
      PlacedNonEmpty(b, bins[1..], s);
    }
  }

  lemma {:induction false} BinsNonEmpty(b: Budget, small: seq<Scope>, n: nat)
    requires n <= |small|
    ensures NonEmpty(FirstFit(b, small, n))
  {
    if n > 0 {
      BinsNonEmpty(b, small, n - 1);
      PlacedNonEmpty(b, FirstFit(b, small, n - 1), small[n - 1]);
    }
  }

  /** What one module's scopes become. */
  function PackedModule(name: seq<Scope> -> string, b: Budget, members: seq<Scope>): seq<Scope> {
    if |SmallOf(b, members)| < 2 then members
    else
      var small := StableSort(SmallOf(b, members), SizeLe);
      BinsNonEmpty(b, small, |small|);
      LargeOf(b, members) + EmittedBins(name, BinsOf(b, members), |BinsOf(b, members)|)
  }

  method PackModule(name: seq<Scope> -> string, b: Budget, members: seq<Scope>) returns (out: seq<Scope>)
    ensures out == PackedModule(name, b, members)
  {
    var small := SmallOf(b, members);
    if |small| < 2 { return members; }
    out := LargeOf(b, members);
    small := StableSort(small, SizeLe);
    var bins := PackBins(b, small);
    BinsNonEmpty(b, small, |small|);
    ghost var large := out;
    for i := 0 to |bins|
      invariant out == large + EmittedBins(name, bins, i)
    {
      out := out + [Emitted(name, bins[i])];
    }
  }

  // -------------------------------------------------------- what packing a module keeps

  lemma {:induction false} WeighInserted(x: Scope, s: seq<Scope>, le: (Scope, Scope) -> bool, weight: Scope -> nat)
    ensures Weigh(Insert(x, s, le), weight, |Insert(x, s, le)|) == weight(x) + Weigh(s, weight, |s|)
  {
    var r := Insert(x, s, le);
    if s == [] || le(x, s[0]) {
      WeighCons(x, s, weight);
    } else {
      WeighInserted(x, s[1..], le, weight);
      assert s == [s[0]] + s[1..];
      WeighCons(s[0], s[1..], weight);
      WeighCons(s[0], Insert(x, s[1..], le), weight);
    }
  }

  /** Sorting changes no total. */
  lemma {:induction false} WeighSorted(s: seq<Scope>, le: (Scope, Scope) -> bool, weight: Scope -> nat)
    ensures Weigh(StableSort(s, le), weight, |s|) == Weigh(s, weight, |s|)
  {
    if s != [] {
      WeighSorted(s[1..], le, weight);
      WeighInserted(s[0], StableSort(s[1..], le), le, weight);
      assert s == [s[0]] + s[1..];
      WeighCons(s[0], s[1..], weight);
    }
  }

  ghost predicate OneModule(scopes: seq<Scope>, m: string) {
    forall i :: 0 <= i < |scopes| ==> scopes[i].moduleName == m
  }

  ghost predicate BinsOfModule(bins: seq<seq<Scope>>, m: string) {
    forall i :: 0 <= i < |bins| ==> OneModule(bins[i], m)
  }

  lemma {:induction false} PlacedModule(b: Budget, bins: seq<seq<Scope>>, s: Scope, m: string)
    requires BinsOfModule(bins, m) && s.moduleName == m
    ensures BinsOfModule(Placed(b, bins, s), m)
  {
    if bins != [] {
      assert BinsOfModule(bins[1..], m);
      PlacedModule(b, bins[1..], s, m);
      assert OneModule(bins[0], m);
    }
  }

  lemma {:induction false} FirstFitModule(b: Budget, small: seq<Scope>, m: string, n: nat)
    requires n <= |small| && OneModule(small, m)
    ensures BinsOfModule(FirstFit(b, small, n), m)
  {
    if n > 0 {
      FirstFitModule(b, small, m, n - 1);
      PlacedModule(b, FirstFit(b, small, n - 1), small[n - 1], m);
    }
  }

  lemma {:induction false} EmittedHolds(name: seq<Scope> -> string, slot: seq<Scope>, m: string, mods: string -> bool,
      path: string)
    requires slot != [] && OneModule(slot, m)
    ensures Listing(mods, path)(Emitted(name, slot)) == Held(slot, mods, path)
  {
    if |slot| > 1 {
      GroupHolds(slot, m, mods, path, |slot|);
    } else {
      assert slot == [] + [slot[0]];
      WeighPush([], slot[0], Listing(mods, path));
    }
  }

  lemma {:induction false} EmittedBinsHold(name: seq<Scope> -> string, bins: seq<seq<Scope>>, m: string,
      mods: string -> bool, path: string, n: nat)
    requires n <= |bins| && NonEmpty(bins) && BinsOfModule(bins, m)
    ensures Held(EmittedBins(name, bins, n), mods, path) == WeighBins(bins, Listing(mods, path), n)
  {
    if n > 0 {
      EmittedBinsHold(name, bins, m, mods, path, n - 1);
      EmittedHolds(name, bins[n - 1], m, mods, path);
      WeighPush(EmittedBins(name, bins, n - 1), Emitted(name, bins[n - 1]), Listing(mods, path));
    }
  }

  /** With distinct nodes, a member is left whole exactly when it is not small. */
  lemma {:induction false} LargeIsRest(b: Budget, members: seq<Scope>, s: Scope)
    requires DistinctNodes(members) && s in members
    ensures NotNamed(NodesOf(SmallOf(b, members)))(s) <==> !IsSmall(b, s)
  {
    SelectedFrom(members, Small(b), |members|, s);
    assert members[..|members|] == members;
    if s.node in NodesOf(SmallOf(b, members)) {
      var t :| t in SmallOf(b, members) && t.node == s.node;
      SelectedFrom(members, Small(b), |members|, t);
      SameNodeSame(members, s, t);
    }
  }

  lemma {:induction false} SameNodeSame(scopes: seq<Scope>, s: Scope, t: Scope)
    requires DistinctNodes(scopes) && s in scopes && t in scopes && s.node == t.node
    ensures s == t
  {
  }

  lemma {:induction false} SelectSame(s: seq<Scope>, p: Scope -> bool, q: Scope -> bool, n: nat)
    requires n <= |s| && forall i :: 0 <= i < |s| ==> p(s[i]) == q(s[i])
    ensures Select(s, p, n) == Select(s, q, n)
  {
    if n > 0 { SelectSame(s, p, q, n - 1); }
  }

  function NotSmall(b: Budget): Scope -> bool {
    (s: Scope) => !IsSmall(b, s)
  }

  lemma {:induction false} LargeAndSmall(b: Budget, members: seq<Scope>, weight: Scope -> nat)
    requires DistinctNodes(members)
    ensures Weigh(LargeOf(b, members), weight, |LargeOf(b, members)|)
      + Weigh(SmallOf(b, members), weight, |SmallOf(b, members)|) == Weigh(members, weight, |members|)
  {
    forall i | 0 <= i < |members|
      ensures NotNamed(NodesOf(SmallOf(b, members)))(members[i]) == NotSmall(b)(members[i])
    {
      LargeIsRest(b, members, members[i]);
    }
    SelectSame(members, NotNamed(NodesOf(SmallOf(b, members))), NotSmall(b), |members|);
    SelectionsAdd(members, Small(b), NotSmall(b), weight, |members|);
  }

  lemma {:induction false} BinsHold(b: Budget, members: seq<Scope>, weight: Scope -> nat)
    ensures WeighBins(BinsOf(b, members), weight, |BinsOf(b, members)|)
      == Weigh(SmallOf(b, members), weight, |SmallOf(b, members)|)
  {
    var small := SmallOf(b, members);
    var sorted := StableSort(small, SizeLe);
    WeighSorted(small, SizeLe, weight);
    FirstFitKeepsWeight(b, sorted, weight, |sorted|);
  }

  lemma {:induction false} SmallOfModule(b: Budget, members: seq<Scope>, m: string)
    requires OneModule(members, m)
    ensures BinsOfModule(BinsOf(b, members), m) && Packed(b, BinsOf(b, members))
  {
    var sorted := StableSort(SmallOf(b, members), SizeLe);
    SortMembers(SmallOf(b, members), SizeLe);
    forall i | 0 <= i < |sorted| ensures sorted[i].moduleName == m && IsSmall(b, sorted[i]) {
      assert sorted[i] in sorted;
      SelectedFrom(members, Small(b), |members|, sorted[i]);
      assert members[..|members|] == members;
    }
    FirstFitModule(b, sorted, m, |sorted|);
    FirstFitIsPacked(b, sorted, |sorted|);
  }

  lemma {:induction false} BinsOfNonEmpty(b: Budget, members: seq<Scope>)
    ensures NonEmpty(BinsOf(b, members))
  {
    var small := StableSort(SmallOf(b, members), SizeLe);
    BinsNonEmpty(b, small, |small|);
  }

  /** The scopes emitted for the bins hold what the small members held. */
  lemma {:induction false} EmittedHold(name: seq<Scope> -> string, b: Budget, members: seq<Scope>, m: string,
      mods: string -> bool, path: string, bins: seq<seq<Scope>>)
    requires OneModule(members, m) && bins == BinsOf(b, members)
    ensures NonEmpty(bins)
    ensures Held(EmittedBins(name, bins, |bins|), mods, path) == Held(SmallOf(b, members), mods, path)
  {
    BinsOfNonEmpty(b, members);
    SmallOfModule(b, members, m);
    BinsHold(b, members, Listing(mods, path));
    EmittedBinsHold(name, bins, m, mods, path, |bins|);
  }

  lemma {:induction false} HeldTogether(s: seq<Scope>, t: seq<Scope>, mods: string -> bool, path: string)
    ensures Held(s + t, mods, path) == Held(s, mods, path) + Held(t, mods, path)
  {
    WeighAppend(s, t, Listing(mods, path), |t|);
  }

  /** The large members, and the scopes emitted for the bins. */
  lemma {:induction false} PackedParts(name: seq<Scope> -> string, b: Budget, members: seq<Scope>)
      returns (large: seq<Scope>, bins: seq<seq<Scope>>)
    requires |SmallOf(b, members)| >= 2
    ensures large == LargeOf(b, members) && bins == BinsOf(b, members) && NonEmpty(bins)
    ensures PackedModule(name, b, members) == large + EmittedBins(name, bins, |bins|)
  {
    large, bins := LargeOf(b, members), BinsOf(b, members);
    BinsOfNonEmpty(b, members);
  }

  /** Packing a module keeps its files. */
  lemma {:induction false} PackedModuleHolds(name: seq<Scope> -> string, b: Budget, members: seq<Scope>, m: string,
      mods: string -> bool, path: string)
    requires OneModule(members, m) && DistinctNodes(members)
    ensures Held(PackedModule(name, b, members), mods, path) == Held(members, mods, path)
  {
    if |SmallOf(b, members)| >= 2 {
      var large, bins := PackedParts(name, b, members);
      LargeAndSmall(b, members, Listing(mods, path));
      EmittedHold(name, b, members, m, mods, path, bins);
      HeldTogether(large, EmittedBins(name, bins, |bins|), mods, path);
    }
  }

  // ---------------------------------------------------------------- what is emitted

  lemma {:induction false} EmittedFrom(name: seq<Scope> -> string, bins: seq<seq<Scope>>, n: nat, s: Scope)
      returns (i: nat)
    requires n <= |bins| && NonEmpty(bins) && s in EmittedBins(name, bins, n)
    ensures i < n && s == Emitted(name, bins[i])
  {
    if s in EmittedBins(name, bins, n - 1) {
      i := EmittedFrom(name, bins, n - 1, s);
    } else {
      i := n - 1;
    }
  }

  ghost predicate BinsFrom(bins: seq<seq<Scope>>, scopes: seq<Scope>) {
    forall i, s :: 0 <= i < |bins| && s in bins[i] ==> s in scopes
  }

  lemma {:induction false} PlacedFrom(b: Budget, bins: seq<seq<Scope>>, s: Scope, scopes: seq<Scope>)
    requires BinsFrom(bins, scopes) && s in scopes
    ensures BinsFrom(Placed(b, bins, s), scopes)
  {
    if bins != [] {
      assert forall i :: 0 <= i < |bins[1..]| ==> bins[1..][i] == bins[i + 1];
      PlacedFrom(b, bins[1..], s, scopes);
      assert forall t :: t in bins[0] ==> t in scopes;
    }
  }

  lemma {:induction false} FirstFitFrom(b: Budget, small: seq<Scope>, scopes: seq<Scope>, n: nat)
    requires n <= |small| && forall i :: 0 <= i < |small| ==> small[i] in scopes
    ensures BinsFrom(FirstFit(b, small, n), scopes)
  {
    if n > 0 {
      FirstFitFrom(b, small, scopes, n - 1);
      PlacedFrom(b, FirstFit(b, small, n - 1), small[n - 1], scopes);
    }
  }

  lemma {:induction false} BinsOfMembers(b: Budget, members: seq<Scope>)
    ensures BinsFrom(BinsOf(b, members), members)
  {
    var sorted := StableSort(SmallOf(b, members), SizeLe);
    SortMembers(SmallOf(b, members), SizeLe);
    forall i | 0 <= i < |sorted| ensures sorted[i] in members {
      assert sorted[i] in sorted;
      SelectedFrom(members, Small(b), |members|, sorted[i]);
      assert members[..|members|] == members;
    }
    FirstFitFrom(b, sorted, members, |sorted|);
  }

  lemma {:induction false} BinScope(size: Sizes, name: seq<Scope> -> string, b: Budget, slot: seq<Scope>,
      members: seq<Scope>)
    requires IsBin(b, slot) && AllSized(size, members) && forall s :: s in slot ==> s in members
    ensures var s := Emitted(name, slot); Sized(size, s) && (s in members || (Fits(b, s.fileCount, s.loc) && !s.oversized))
  {
    assert slot[0] in slot;
    if |slot| > 1 {
      JoinIsSized(size, slot, |slot|);
      LocOfSorted(size, JoinFiles(slot, |slot|));
      assert |StableSort(JoinFiles(slot, |slot|), StrLe)| == |JoinFiles(slot, |slot|)|;
    }
  }

  /** Every scope a module is packed into was there before, or holds a bin and fits. */
  lemma {:induction false} PackedModuleScope(size: Sizes, name: seq<Scope> -> string, b: Budget, members: seq<Scope>,
      m: string, s: Scope)
    requires AllSized(size, members) && OneModule(members, m) && s in PackedModule(name, b, members)
    ensures Sized(size, s) && (s in members || (Fits(b, s.fileCount, s.loc) && !s.oversized))
  {
    if |SmallOf(b, members)| >= 2 {
      var large, bins := PackedParts(name, b, members);
      if s in large {
        SelectedFrom(members, NotNamed(NodesOf(SmallOf(b, members))), |members|, s);
        assert members[..|members|] == members;
      } else {
        var i := EmittedFrom(name, bins, |bins|, s);
        BinsOfMembers(b, members);
        SmallOfModule(b, members, m);
        BinScope(size, name, b, bins[i], members);
      }
    }
  }
}
