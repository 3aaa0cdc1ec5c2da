/** Bottom-up merging of sibling scopes (cdp/partition.py:111-177). */
module Coalescing {
  import opened Orders
  import opened Scopes
  import opened Cutting
  import opened CutScopes

  // ------------------------------------------------------------------ node paths

  ghost predicate LastSlash(n: string, i: nat) {
    i < |n| && n[i] == '/' && forall j :: i < j < |n| ==> n[j] != '/'
  }

  ghost predicate IsParent(parent: string, n: string) {
    exists i: nat :: LastSlash(n, i) && parent == n[..i]
  }

  /** `{n.rsplit("/", 1)[0] for n in by_node if "/" in n}`. */
  ghost predicate InParents(scopes: seq<Scope>, parent: string) {
    exists k :: 0 <= k < |scopes| && IsParent(parent, scopes[k].node)
  }

  function CountSlashes(s: string, n: nat): nat
    requires n <= |s|
  {
    if n == 0 then 0 else CountSlashes(s, n - 1) + if s[n - 1] == '/' then 1 else 0
  }

  function PathDepth(s: string): nat {
    CountSlashes(s, |s|)
  }

  lemma {:induction false} DepthCountsSlashes(s: string, n: nat)
    requires n <= |s|
    ensures CountSlashes(s, n) == |set i | 0 <= i < n && s[i] == '/'|
  {
    if n > 0 {
      DepthCountsSlashes(s, n - 1);
      var before, here := set i | 0 <= i < n - 1 && s[i] == '/', set i | 0 <= i < n && s[i] == '/';
      assert here == if s[n - 1] == '/' then before + {n - 1} else before;
    }
  }

  // -------------------------------------------------------------------- groups

  /** The node is the parent or lies below it. */
  function InGroup(parent: string): Scope -> bool {
    (s: Scope) => s.node == parent || parent + "/" <= s.node
  }

  function Outside(parent: string): Scope -> bool {
    (s: Scope) => !InGroup(parent)(s)
  }

  function GroupOf(scopes: seq<Scope>, parent: string): seq<Scope> {
    Select(scopes, InGroup(parent), |scopes|)
  }

  function OthersOf(scopes: seq<Scope>, parent: string): seq<Scope> {
    Select(scopes, Outside(parent), |scopes|)
  }

  function FileCounts(): Scope -> nat {
    (s: Scope) => s.fileCount
  }

  function Locs(): Scope -> nat {
    (s: Scope) => s.loc
  }

  function SumFiles(scopes: seq<Scope>): nat {
    Weigh(scopes, FileCounts(), |scopes|)
  }

  function SumLoc(scopes: seq<Scope>): nat {
    Weigh(scopes, Locs(), |scopes|)
  }

  /** The files of the first `n` scopes, one after another. */
  function JoinFiles(scopes: seq<Scope>, n: nat): seq<string>
    requires n <= |scopes|
  {
    if n == 0 then [] else JoinFiles(scopes, n - 1) + scopes[n - 1].files
  }

  predicate SameModule(group: seq<Scope>) {
    forall i, j :: 0 <= i < |group| && 0 <= j < |group| ==> group[i].moduleName == group[j].moduleName
  }

  /** Two or more scopes of one module that fit together, none of them flagged. */
  predicate CanMerge(b: Budget, group: seq<Scope>) {
    && |group| >= 2 && SameModule(group)
    && Fits(b, SumFiles(group), SumLoc(group))
    && forall i :: 0 <= i < |group| ==> !group[i].oversized
  }

  function Merged(node: string, group: seq<Scope>): Scope
    requires group != []
  {
    Scope(node, group[0].moduleName, StableSort(JoinFiles(group, |group|), StrLe), SumFiles(group),
          SumLoc(group), false)
  }

  predicate Mergeable(b: Budget, scopes: seq<Scope>, parent: string) {
    CanMerge(b, GroupOf(scopes, parent))
  }

  /** The scopes after the group of `parent` was merged. */
  function Step(scopes: seq<Scope>, parent: string): seq<Scope> {
    var group := GroupOf(scopes, parent);
    if group == [] then scopes else OthersOf(scopes, parent) + [Merged(parent, group)]
  }

  // ----------------------------------------------------------------------- runs

  ghost predicate DeepestMergeable(b: Budget, scopes: seq<Scope>, parent: string) {
    && InParents(scopes, parent) && Mergeable(b, scopes, parent)
    && forall q :: InParents(scopes, q) && PathDepth(q) > PathDepth(parent) ==> !Mergeable(b, scopes, q)
  }

  ghost predicate NothingMergeable(b: Budget, scopes: seq<Scope>) {
    forall q :: InParents(scopes, q) ==> !Mergeable(b, scopes, q)
  }

  function Repeated<S, T>(start: S, trace: seq<T>, n: nat, step: (S, T) -> S): S
    requires n <= |trace|
  {
    if n == 0 then start else step(Repeated(start, trace, n - 1, step), trace[n - 1])
  }

  function Stepping(): (seq<Scope>, string) -> seq<Scope> {
    (scopes: seq<Scope>, parent: string) => Step(scopes, parent)
  }

  /** The scopes after the first `n` merges. */
  function After(scopes: seq<Scope>, trace: seq<string>, n: nat): seq<Scope>
    requires n <= |trace|
  {
    Repeated(scopes, trace, n, Stepping())
  }

  /** Each merge in turn is of a deepest parent that can be merged. */
  ghost predicate IsRun(b: Budget, scopes: seq<Scope>, trace: seq<string>) {
    forall i :: 0 <= i < |trace| ==> DeepestMergeable(b, After(scopes, trace, i), trace[i])
  }

  // --------------------------------------------------------------- what can be merged

  predicate IsUnder(parent: string, s: Scope) {
    s.node == parent || parent + "/" <= s.node
  }

  function FilesUnder(scopes: seq<Scope>, parent: string, n: nat): nat
    requires n <= |scopes|
  {
    if n == 0 then 0
    else FilesUnder(scopes, parent, n - 1) + if IsUnder(parent, scopes[n - 1]) then scopes[n - 1].fileCount else 0
  }

  function LinesUnder(scopes: seq<Scope>, parent: string, n: nat): nat
    requires n <= |scopes|
  {
    if n == 0 then 0
    else LinesUnder(scopes, parent, n - 1) + if IsUnder(parent, scopes[n - 1]) then scopes[n - 1].loc else 0
  }

  /** At least two scopes stand at or under the parent, all of one module and none flagged, and together they are within
  both budgets. */
  ghost predicate CouldMerge(b: Budget, scopes: seq<Scope>, parent: string) {
    && (exists i, j :: 0 <= i < j < |scopes| && IsUnder(parent, scopes[i]) && IsUnder(parent, scopes[j]))
    && (forall s :: s in scopes && IsUnder(parent, s) ==> !s.oversized)
    && (forall s, t :: s in scopes && t in scopes && IsUnder(parent, s) && IsUnder(parent, t) ==> s.moduleName == t.moduleName)
    && FilesUnder(scopes, parent, |scopes|) <= b.maxFiles && LinesUnder(scopes, parent, |scopes|) <= b.maxLoc
  }

  lemma {:induction false} SelectSizes(scopes: seq<Scope>, p: Scope -> bool, n: nat)
    requires n <= |scopes|
    ensures |Select(scopes, p, n)| >= 1 <==> exists i :: 0 <= i < n && p(scopes[i])
    ensures |Select(scopes, p, n)| >= 2 <==> exists i, j :: 0 <= i < j < n && p(scopes[i]) && p(scopes[j])
  {
    if n > 0 { SelectSizes(scopes, p, n - 1); }
  }

  lemma {:induction false} GroupWeighs(scopes: seq<Scope>, parent: string, n: nat)
    requires n <= |scopes|
    ensures var group := Select(scopes, InGroup(parent), n);
      SumFiles(group) == FilesUnder(scopes, parent, n) && SumLoc(group) == LinesUnder(scopes, parent, n)
  {
    if n > 0 {
      GroupWeighs(scopes, parent, n - 1);
      var before := Select(scopes, InGroup(parent), n - 1);
      WeighPush(before, scopes[n - 1], FileCounts());
      WeighPush(before, scopes[n - 1], Locs());
      assert before + [] == before;
    }
  }

  lemma {:induction false} MergeableExactly(b: Budget, scopes: seq<Scope>, parent: string)
    ensures Mergeable(b, scopes, parent) <==> CouldMerge(b, scopes, parent)
  {
    var group := GroupOf(scopes, parent);
    SelectSizes(scopes, InGroup(parent), |scopes|);
    GroupWeighs(scopes, parent, |scopes|);
    forall s ensures s in group <==> s in scopes && IsUnder(parent, s) { GroupMembers(scopes, parent, s); }
    if CouldMerge(b, scopes, parent) {
      forall i | 0 <= i < |group| ensures !group[i].oversized { assert group[i] in group; }
      forall i, j | 0 <= i < |group| && 0 <= j < |group| ensures group[i].moduleName == group[j].moduleName {
        assert group[i] in group && group[j] in group;
      }
    }
    if Mergeable(b, scopes, parent) { MergeableGroup(scopes, parent, group); }
  }

  lemma {:induction false} MergeableGroup(scopes: seq<Scope>, parent: string, group: seq<Scope>)
    requires forall s :: s in group <==> s in scopes && IsUnder(parent, s)
    requires SameModule(group) && forall i :: 0 <= i < |group| ==> !group[i].oversized
    ensures forall s :: s in scopes && IsUnder(parent, s) ==> !s.oversized
    ensures forall s, t :: s in scopes && t in scopes && IsUnder(parent, s) && IsUnder(parent, t) ==> s.moduleName == t.moduleName
  {
    forall s, t | s in group && t in group ensures s.moduleName == t.moduleName {
      var i :| 0 <= i < |group| && group[i] == s;
      var j :| 0 <= j < |group| && group[j] == t;
    }
    forall s | s in group ensures !s.oversized {
      var i :| 0 <= i < |group| && group[i] == s;
    }
  }

  /** When the loop stops, no directory that any scope lies in has scopes that could be merged. */
  lemma {:induction false} NothingLeftToMerge(b: Budget, scopes: seq<Scope>)
    ensures NothingMergeable(b, scopes) <==> forall q :: InParents(scopes, q) ==> !CouldMerge(b, scopes, q)
  {
    forall q ensures Mergeable(b, scopes, q) <==> CouldMerge(b, scopes, q) { MergeableExactly(b, scopes, q); }
  }

  /** A merge replaces the scopes at or under the parent by one: at the parent's node, of their module, with their
  files and lines together, and not flagged. */
  lemma {:induction false} MergeReplaces(b: Budget, scopes: seq<Scope>, parent: string) returns (x: Scope)
    requires CouldMerge(b, scopes, parent)
    ensures forall s :: s in Step(scopes, parent) <==> s == x || (s in scopes && !IsUnder(parent, s))
    ensures x.node == parent && !x.oversized && exists s :: s in scopes && IsUnder(parent, s) && s.moduleName == x.moduleName
    ensures x.fileCount == FilesUnder(scopes, parent, |scopes|) && x.loc == LinesUnder(scopes, parent, |scopes|)
  {
    var group := GroupOf(scopes, parent);
    MergeableExactly(b, scopes, parent);
    GroupWeighs(scopes, parent, |scopes|);
    x := Merged(parent, group);
    GroupMembers(scopes, parent, group[0]);
    forall s ensures s in Step(scopes, parent) <==> s == x || (s in scopes && !IsUnder(parent, s)) {
      GroupMembers(scopes, parent, s);
    }
  }

  // ------------------------------------------------------------------- one merge

  ghost predicate Complementary(p: Scope -> bool, q: Scope -> bool) {
    forall s {:trigger p(s)} {:trigger q(s)} :: q(s) == !p(s)
  }

  lemma {:induction false} SelectionsAdd(scopes: seq<Scope>, p: Scope -> bool, q: Scope -> bool, weight: Scope -> nat,
      n: nat)
    requires n <= |scopes| && Complementary(p, q)
    ensures var a, c := Select(scopes, p, n), Select(scopes, q, n);
      |a| + |c| == n && Weigh(a, weight, |a|) + Weigh(c, weight, |c|) == Weigh(scopes, weight, n)
  {
    if n > 0 {
      SelectionsAdd(scopes, p, q, weight, n - 1);
      WeighPush(Select(scopes, p, n - 1), scopes[n - 1], weight);
      WeighPush(Select(scopes, q, n - 1), scopes[n - 1], weight);
      assert Select(scopes, p, n - 1) + [] == Select(scopes, p, n - 1);
      assert Select(scopes, q, n - 1) + [] == Select(scopes, q, n - 1);
    }
  }

  lemma {:induction false} WeighPrefix(scopes: seq<Scope>, s: Scope, weight: Scope -> nat, n: nat)
    requires n <= |scopes|
    ensures Weigh(scopes + [s], weight, n) == Weigh(scopes, weight, n)
  {
    if n > 0 { WeighPrefix(scopes, s, weight, n - 1); }
  }

  lemma {:induction false} WeighPush(scopes: seq<Scope>, s: Scope, weight: Scope -> nat)
    ensures Weigh(scopes + [s], weight, |scopes| + 1) == Weigh(scopes, weight, |scopes|) + weight(s)
  {
    WeighPrefix(scopes, s, weight, |scopes|);
  }

  /** Every path is listed as often as before, by scopes of the same modules. */
  ghost predicate SameFiles(before: seq<Scope>, after: seq<Scope>) {
    forall mods, path {:trigger Held(after, mods, path)} :: Held(after, mods, path) == Held(before, mods, path)
  }

  lemma {:induction false} GroupHolds(group: seq<Scope>, m: string, mods: string -> bool, path: string, n: nat)
    requires n <= |group| && forall i :: 0 <= i < |group| ==> group[i].moduleName == m
    ensures Weigh(group, Listing(mods, path), n) == CountIf(mods(m), multiset(JoinFiles(group, n))[path])
  {
    if n > 0 { GroupHolds(group, m, mods, path, n - 1); }
  }

  lemma {:induction false} MergedHolds(node: string, group: seq<Scope>, mods: string -> bool, path: string)
    requires group != [] && SameModule(group)
    ensures Listing(mods, path)(Merged(node, group)) == Held(group, mods, path)
  {
    GroupHolds(group, group[0].moduleName, mods, path, |group|);
  }

  /** A merge moves no file to another module and loses none. */
  lemma {:induction false} MergeKeepsFiles(scopes: seq<Scope>, parent: string)
    requires GroupOf(scopes, parent) != [] && SameModule(GroupOf(scopes, parent))
    ensures SameFiles(scopes, Step(scopes, parent))
  {
    var group, others := GroupOf(scopes, parent), OthersOf(scopes, parent);
    forall mods, path {:trigger Held(Step(scopes, parent), mods, path)}
      ensures Held(Step(scopes, parent), mods, path) == Held(scopes, mods, path)
    {
      SelectionsAdd(scopes, InGroup(parent), Outside(parent), Listing(mods, path), |scopes|);
      WeighPush(others, Merged(parent, group), Listing(mods, path));
      MergedHolds(parent, group, mods, path);
    }
  }

  /** A merge leaves fewer scopes. */
  lemma {:induction false} MergeShrinks(b: Budget, scopes: seq<Scope>, parent: string)
    requires Mergeable(b, scopes, parent)
    ensures |Step(scopes, parent)| < |scopes|
  {
    SelectionsAdd(scopes, InGroup(parent), Outside(parent), Locs(), |scopes|);
  }

  // ------------------------------------------------------- what every scope remains

  ghost predicate AllSized(size: Sizes, scopes: seq<Scope>) {
    forall s :: s in scopes ==> Sized(size, s)
  }

  lemma {:induction false} JoinIsSized(size: Sizes, group: seq<Scope>, n: nat)
    requires n <= |group| && AllSized(size, group)
    ensures |JoinFiles(group, n)| == Weigh(group, FileCounts(), n)
    ensures TotalLoc(size, JoinFiles(group, n)) == Weigh(group, Locs(), n)
    ensures n > 0 ==> JoinFiles(group, n) != []
  {
    if n > 0 {
      JoinIsSized(size, group, n - 1);
      assert group[n - 1] in group;
      LocOfBoth(size, JoinFiles(group, n - 1), group[n - 1].files);
    }
  }

  lemma {:induction false} MergedIsSized(size: Sizes, node: string, group: seq<Scope>)
    requires group != [] && AllSized(size, group)
    ensures Sized(size, Merged(node, group))
  {
    JoinIsSized(size, group, |group|);
    LocOfSorted(size, JoinFiles(group, |group|));
    assert |StableSort(JoinFiles(group, |group|), StrLe)| == |JoinFiles(group, |group|)|;
  }

  lemma {:induction false} GroupMembers(scopes: seq<Scope>, parent: string, s: Scope)
    ensures s in GroupOf(scopes, parent) <==> s in scopes && InGroup(parent)(s)
    ensures s in OthersOf(scopes, parent) <==> s in scopes && !InGroup(parent)(s)
  {
    SelectedFrom(scopes, InGroup(parent), |scopes|, s);
    SelectedFrom(scopes, Outside(parent), |scopes|, s);
    assert scopes[..|scopes|] == scopes;
  }

  lemma {:induction false} SelectKeepsDistinct(scopes: seq<Scope>, p: Scope -> bool, n: nat)
    requires n <= |scopes| && DistinctNodes(scopes)
    ensures DistinctNodes(Select(scopes, p, n))
    ensures forall s :: s in Select(scopes, p, n) ==> s in scopes[..n]
  {
    if n > 0 {
      SelectKeepsDistinct(scopes, p, n - 1);
      assert scopes[..n] == scopes[..n - 1] + [scopes[n - 1]];
      var before := Select(scopes, p, n - 1);
      forall i | 0 <= i < |before| ensures before[i].node != scopes[n - 1].node {
        assert before[i] in before;
      }
    }
  }

  /** After a merge every scope was there before, or is the merged one, which fits and is not flagged. */
  ghost predicate Settled(b: Budget, before: seq<Scope>, after: seq<Scope>) {
    forall s :: s in after ==> s in before || (Fits(b, s.fileCount, s.loc) && !s.oversized)
  }

  ghost predicate FlaggedStay(before: seq<Scope>, after: seq<Scope>) {
    forall s :: s in before && s.oversized ==> s in after
  }

  /** What one merge keeps. */
  lemma {:induction false} MergeKeeps(size: Sizes, b: Budget, scopes: seq<Scope>, parent: string)
    requires Mergeable(b, scopes, parent) && AllSized(size, scopes) && DistinctNodes(scopes)
    ensures AllSized(size, Step(scopes, parent)) && DistinctNodes(Step(scopes, parent))
    ensures Settled(b, scopes, Step(scopes, parent)) && FlaggedStay(scopes, Step(scopes, parent))
  {
    var group, others := GroupOf(scopes, parent), OthersOf(scopes, parent);
    forall s ensures (s in group ==> s in scopes) && (s in others <==> s in scopes && !InGroup(parent)(s)) {
      GroupMembers(scopes, parent, s);
    }
    MergedIsSized(size, parent, group);
    SelectKeepsDistinct(scopes, Outside(parent), |scopes|);
    assert forall s :: s in others ==> s.node != parent;
    forall s | s in scopes && s.oversized ensures s in Step(scopes, parent) {
      GroupMembers(scopes, parent, s);
      assert s !in group;
    }
  }

  // ----------------------------------------------------------------------- the dict

  /** `by_node[s.node] = s`, the dict being listed in insertion order. */
  function Put(scopes: seq<Scope>, s: Scope): seq<Scope> {
    if scopes == [] then [s]
    else if scopes[0].node == s.node then [s] + scopes[1..]
    else [scopes[0]] + Put(scopes[1..], s)
  }

  /** `{s["node"]: s for s in scopes}`: a later scope of the same node replaces an earlier one. */
  function ByNode(scopes: seq<Scope>, n: nat): seq<Scope>
    requires n <= |scopes|
  {
    if n == 0 then [] else Put(ByNode(scopes, n - 1), scopes[n - 1])
  }

  ghost predicate HasNode(scopes: seq<Scope>, node: string) {
    exists i :: 0 <= i < |scopes| && scopes[i].node == node
  }

  lemma {:induction false} PutNew(scopes: seq<Scope>, s: Scope)
    requires !HasNode(scopes, s.node)
    ensures Put(scopes, s) == scopes + [s]
  {
    if scopes != [] {
      assert scopes[0].node != s.node;
      assert forall i :: 0 <= i < |scopes[1..]| ==> scopes[1..][i] == scopes[i + 1];
      PutNew(scopes[1..], s);
    }
  }

  lemma {:induction false} PutNodes(scopes: seq<Scope>, s: Scope, node: string)
    ensures HasNode(Put(scopes, s), node) <==> HasNode(scopes, node) || node == s.node
  {
    if scopes == [] {
      assert [s][0].node == s.node;
    } else {
      var tail := scopes[1..];
      var longer := if scopes[0].node == s.node then [s] + tail else [scopes[0]] + Put(tail, s);
      if scopes[0].node != s.node { PutNodes(tail, s, node); }
      HeadOrTail(scopes, node);
      HeadOrTail(longer, node);
      assert longer[1..] == if scopes[0].node == s.node then tail else Put(tail, s);
    }
  }

  lemma {:induction false} HeadOrTail(scopes: seq<Scope>, node: string)
    requires scopes != []
    ensures HasNode(scopes, node) <==> scopes[0].node == node || HasNode(scopes[1..], node)
  {
    if i :| 0 <= i < |scopes| && scopes[i].node == node {
      if i > 0 { assert scopes[1..][i - 1].node == node; }
    }
    if i :| 0 <= i < |scopes[1..]| && scopes[1..][i].node == node { assert scopes[i + 1].node == node; }
  }

  lemma {:induction false} PutKeepsDistinct(scopes: seq<Scope>, s: Scope)
    requires DistinctNodes(scopes)
    ensures DistinctNodes(Put(scopes, s))
  {
    if scopes != [] && scopes[0].node != s.node {
      var tail := scopes[1..];
      PutKeepsDistinct(tail, s);
      PutNodes(tail, s, scopes[0].node);
      forall j | 0 <= j < |Put(tail, s)| ensures Put(tail, s)[j].node != scopes[0].node {
        assert HasNode(Put(tail, s), Put(tail, s)[j].node);
        assert !HasNode(tail, scopes[0].node) by {
          forall i | 0 <= i < |tail| ensures tail[i].node != scopes[0].node { assert tail[i] == scopes[i + 1]; }
        }
      }
    }
  }

  lemma {:induction false} ByNodeIsDistinct(scopes: seq<Scope>, n: nat)
    requires n <= |scopes|
    ensures DistinctNodes(ByNode(scopes, n))
    ensures forall s :: s in ByNode(scopes, n) ==> s in scopes
  {
    if n > 0 {
      ByNodeIsDistinct(scopes, n - 1);
      PutKeepsDistinct(ByNode(scopes, n - 1), scopes[n - 1]);
      PutMembers(ByNode(scopes, n - 1), scopes[n - 1]);
    }
  }

  lemma {:induction false} PutMembers(scopes: seq<Scope>, s: Scope)
    ensures forall t :: t in Put(scopes, s) ==> t == s || t in scopes
  {
    if scopes != [] { PutMembers(scopes[1..], s); }
  }

  /** With distinct nodes the dict is just the list. */
  lemma {:induction false} ByNodeOfDistinct(scopes: seq<Scope>, n: nat)
    requires n <= |scopes| && DistinctNodes(scopes)
    ensures ByNode(scopes, n) == scopes[..n]
  {
    if n > 0 {
      ByNodeOfDistinct(scopes, n - 1);
      PutNew(scopes[..n - 1], scopes[n - 1]);
      assert scopes[..n] == scopes[..n - 1] + [scopes[n - 1]];
    }
  }

  // -------------------------------------------------------------------- the loops

  method FindLastSlash(n: string) returns (i: int)
    ensures i < 0 <==> '/' !in n
    ensures 0 <= i ==> LastSlash(n, i)
  {
    i := |n| - 1;
    while 0 <= i && n[i] != '/'
      invariant -1 <= i < |n| && forall j :: i < j < |n| ==> n[j] != '/'
    {
      i := i - 1;
    }
  }

  lemma {:induction false} LastSlashIsUnique(n: string, i: nat, j: nat)
    requires LastSlash(n, i) && LastSlash(n, j)
    ensures i == j
  {
  }

  /** The set of parents. */
  method ParentsOf(scopes: seq<Scope>) returns (parents: set<string>)
    ensures forall q :: q in parents <==> InParents(scopes, q)
  {
    parents := {};
    for k := 0 to |scopes|
      invariant forall q :: q in parents <==> exists j :: 0 <= j < k && IsParent(q, scopes[j].node)
    {
      var n := scopes[k].node;
      var i := FindLastSlash(n);
      if 0 <= i {
        assert IsParent(n[..i], n);
        forall q | IsParent(q, n) ensures q == n[..i] {
          var j: nat :| LastSlash(n, j) && q == n[..j];
          LastSlashIsUnique(n, i, j);
        }
        parents := parents + {n[..i]};
      } else {
        forall q ensures !IsParent(q, n) {}
      }
    }
  }

  /** The inner loop: the first mergeable parent, deepest first; equally deep ones come in any order. */
  method FindMergeable(b: Budget, scopes: seq<Scope>) returns (found: bool, parent: string)
    ensures found ==> DeepestMergeable(b, scopes, parent)
    ensures !found ==> NothingMergeable(b, scopes)
  {
    var left := ParentsOf(scopes);
    found, parent := false, "";
    while left != {}
      invariant forall q :: q in left ==> InParents(scopes, q)
      invariant forall q :: InParents(scopes, q) && q !in left ==>
        !Mergeable(b, scopes, q) && forall r :: r in left ==> PathDepth(r) <= PathDepth(q)
      decreases |left|
    {
      parent := Deepest(left);
      if Mergeable(b, scopes, parent) { return true, parent; }
      left := left - {parent};
    }
  }

  method Deepest(parents: set<string>) returns (parent: string)
    requires parents != {}
    ensures parent in parents && forall q :: q in parents ==> PathDepth(q) <= PathDepth(parent)
  {
    parent :| parent in parents;
    var left := parents - {parent};
    while left != {}
      invariant parent in parents && left <= parents
      invariant forall q :: q in parents && q !in left ==> PathDepth(q) <= PathDepth(parent)
      decreases |left|
    {
      var q :| q in left;
      left := left - {q};
      if PathDepth(q) > PathDepth(parent) { parent := q; }
    }
  }

  // ----------------------------------------------------------------- the whole run

  /** What every merge, and so every run, keeps. */
  ghost predicate Kept(size: Sizes, b: Budget, before: seq<Scope>, after: seq<Scope>) {
    && AllSized(size, after) && DistinctNodes(after) && SameFiles(before, after)
    && Settled(b, before, after) && FlaggedStay(before, after)
  }

  lemma {:induction false} KeptAtOnce(size: Sizes, b: Budget, scopes: seq<Scope>)
    requires AllSized(size, scopes) && DistinctNodes(scopes)
    ensures Kept(size, b, scopes, scopes)
  {
  }

  lemma {:induction false} KeptFurther(size: Sizes, b: Budget, before: seq<Scope>, now: seq<Scope>, parent: string)
    requires Kept(size, b, before, now) && Mergeable(b, now, parent)
    ensures Kept(size, b, before, Step(now, parent))
  {
    MergeKeeps(size, b, now, parent);
    MergeKeepsFiles(now, parent);
    var after := Step(now, parent);
    forall mods, path {:trigger Held(after, mods, path)} ensures Held(after, mods, path) == Held(before, mods, path) {
      assert Held(after, mods, path) == Held(now, mods, path);
    }
  }

  lemma {:induction false} RunGrows(b: Budget, scopes: seq<Scope>, trace: seq<string>, parent: string)
    requires IsRun(b, scopes, trace) && DeepestMergeable(b, After(scopes, trace, |trace|), parent)
    ensures IsRun(b, scopes, trace + [parent])
    ensures After(scopes, trace + [parent], |trace| + 1) == Step(After(scopes, trace, |trace|), parent)
  {
    var longer := trace + [parent];
    AfterPrefix(scopes, trace, parent, |trace|);
    forall i | 0 <= i < |longer| ensures DeepestMergeable(b, After(scopes, longer, i), longer[i]) {
      RunStepStays(b, scopes, trace, parent, i);
    }
  }

  lemma {:induction false} RunStepStays(b: Budget, scopes: seq<Scope>, trace: seq<string>, parent: string, i: nat)
    requires i <= |trace| && IsRun(b, scopes, trace)
    requires DeepestMergeable(b, After(scopes, trace, |trace|), parent)
    ensures DeepestMergeable(b, After(scopes, trace + [parent], i), (trace + [parent])[i])
  {
    AfterPrefix(scopes, trace, parent, i);
    var at := After(scopes, trace, i);
    if i < |trace| {
      assert DeepestMergeable(b, at, trace[i]);
      SameStep(b, at, trace[i], After(scopes, trace + [parent], i), (trace + [parent])[i]);
    } else {
      SameStep(b, at, parent, After(scopes, trace + [parent], i), (trace + [parent])[i]);
    }
  }

  lemma {:induction false} SameStep(b: Budget, at: seq<Scope>, p: string, also: seq<Scope>, q: string)
    requires DeepestMergeable(b, at, p) && also == at && q == p
    ensures DeepestMergeable(b, also, q)
  {
  }

  lemma {:induction false} AfterPrefix(scopes: seq<Scope>, trace: seq<string>, parent: string, n: nat)
    requires n <= |trace|
    ensures After(scopes, trace + [parent], n) == After(scopes, trace, n)
  {
    RepeatedPrefix(scopes, trace, parent, n, Stepping());
  }

  lemma {:induction false} RepeatedPrefix<S, T>(start: S, trace: seq<T>, x: T, n: nat, step: (S, T) -> S)
    requires n <= |trace|
    ensures Repeated(start, trace + [x], n, step) == Repeated(start, trace, n, step)
  {
    if n > 0 { RepeatedPrefix(start, trace, x, n - 1, step); }
  }

  method IndexByNode(scopes: seq<Scope>) returns (byNode: seq<Scope>)
    ensures byNode == ByNode(scopes, |scopes|)
  {
    byNode := [];
    for i := 0 to |scopes|
      invariant byNode == ByNode(scopes, i)
    {
      byNode := Put(byNode, scopes[i]);
    }
  }

  /** `_coalesce`: merge the group of a deepest parent that can be merged until there is none. `trace` lists the
  merged parents in turn. */
  method Coalesce(ghost size: Sizes, b: Budget, scopes: seq<Scope>) returns (out: seq<Scope>, ghost trace: seq<string>)
    requires AllSized(size, scopes)
    ensures IsRun(b, ByNode(scopes, |scopes|), trace)
    ensures out == After(ByNode(scopes, |scopes|), trace, |trace|)
    ensures NothingMergeable(b, out) && Kept(size, b, ByNode(scopes, |scopes|), out)
  {
    out := IndexByNode(scopes);
    ghost var start := out;
    trace := [];
    ByNodeIsDistinct(scopes, |scopes|);
    KeptAtOnce(size, b, start);
    var changed := true;
    while changed
      invariant IsRun(b, start, trace) && out == After(start, trace, |trace|)
      invariant Kept(size, b, start, out) && (!changed ==> NothingMergeable(b, out))
      decreases |out|, if changed then 1 else 0
    {
      var parent;
      changed, parent := FindMergeable(b, out);
      if changed {
        MergeShrinks(b, out, parent);
        KeptFurther(size, b, start, out, parent);
        RunGrows(b, start, trace, parent);
        trace := trace + [parent];
        out := Step(out, parent);
      }
    }
  }

  // ------------------------------------------------------- what repeated nodes lose

  lemma {:induction false} PutHolds(scopes: seq<Scope>, s: Scope, weight: Scope -> nat)
    ensures Weigh(Put(scopes, s), weight, |Put(scopes, s)|) <= Weigh(scopes, weight, |scopes|) + weight(s)
    ensures forall t :: t in scopes && t.node == s.node && DistinctNodes(scopes) ==>
      Weigh(Put(scopes, s), weight, |Put(scopes, s)|) + weight(t) == Weigh(scopes, weight, |scopes|) + weight(s)
  {
    if scopes != [] {
      var tail := scopes[1..];
      assert scopes == [scopes[0]] + tail;
      WeighCons(scopes[0], tail, weight);
      if scopes[0].node == s.node {
        WeighCons(s, tail, weight);
      } else {
        PutHolds(tail, s, weight);
        WeighCons(scopes[0], Put(tail, s), weight);
        assert DistinctNodes(scopes) ==> DistinctNodes(tail);
      }
    }
  }

  lemma {:induction false} WeighCons(s: Scope, scopes: seq<Scope>, weight: Scope -> nat)
    ensures Weigh([s] + scopes, weight, |scopes| + 1) == weight(s) + Weigh(scopes, weight, |scopes|)
  {
    ConsPrefix(s, scopes, weight, |scopes|);
  }

  lemma {:induction false} ConsPrefix(s: Scope, scopes: seq<Scope>, weight: Scope -> nat, n: nat)
    requires n <= |scopes|
    ensures Weigh([s] + scopes, weight, n + 1) == weight(s) + Weigh(scopes, weight, n)
  {
    if n > 0 { ConsPrefix(s, scopes, weight, n - 1); }
  }

  lemma {:induction false} ByNodeHolds(scopes: seq<Scope>, weight: Scope -> nat, n: nat)
    requires n <= |scopes|
    ensures Weigh(ByNode(scopes, n), weight, |ByNode(scopes, n)|) <= Weigh(scopes, weight, n)
  {
    if n > 0 {
      ByNodeHolds(scopes, weight, n - 1);
      PutHolds(ByNode(scopes, n - 1), scopes[n - 1], weight);
    }
  }

  /** The file of a scope that is replaced by another is listed less often. */
  lemma {:induction false} ReplacedIsLost(before: seq<Scope>, s: Scope, t: Scope, weight: Scope -> nat)
    requires DistinctNodes(before) && t in before && t.node == s.node && weight(t) > 0
    ensures Weigh(Put(before, s), weight, |Put(before, s)|) < Weigh(before, weight, |before|) + weight(s)
  {
    PutHolds(before, s, weight);
  }

  lemma {:induction false} ListsOneFile(s: Scope) returns (path: string)
    requires s.files != []
    ensures Listing(Everywhere(), path)(s) > 0
  {
    path := s.files[0];
    assert path in multiset(s.files);
  }

  /** When a node repeats, some file of the scope that is replaced is listed less often than it was cut. */
  lemma {:induction false} RepeatedNodeLosesFile(size: Sizes, scopes: seq<Scope>, n: nat) returns (path: string)
    requires n <= |scopes| && AllSized(size, scopes) && !DistinctNodes(scopes[..n])
    ensures Weigh(ByNode(scopes, n), Listing(Everywhere(), path), |ByNode(scopes, n)|)
      < Weigh(scopes, Listing(Everywhere(), path), n)
  {
    assert scopes[..n] == scopes[..n - 1] + [scopes[n - 1]];
    if !DistinctNodes(scopes[..n - 1]) {
      path := RepeatedNodeLosesFile(size, scopes, n - 1);
      PutHolds(ByNode(scopes, n - 1), scopes[n - 1], Listing(Everywhere(), path));
    } else {
      path := FirstRepeatLosesFile(size, scopes, n);
    }
  }

  lemma {:induction false} FirstRepeatLosesFile(size: Sizes, scopes: seq<Scope>, n: nat) returns (path: string)
    requires 0 < n <= |scopes| && AllSized(size, scopes)
    requires DistinctNodes(scopes[..n - 1]) && HasNode(scopes[..n - 1], scopes[n - 1].node)
    ensures Weigh(ByNode(scopes, n), Listing(Everywhere(), path), |ByNode(scopes, n)|)
      < Weigh(scopes, Listing(Everywhere(), path), n)
  {
    var i := NodeHolder(scopes, n - 1, scopes[n - 1].node);
    assert scopes[i] in scopes;
    path := ListsOneFile(scopes[i]);
    RepeatLosesWeight(scopes, Listing(Everywhere(), path), n, i);
  }

  lemma {:induction false} NodeHolder(scopes: seq<Scope>, n: nat, node: string) returns (i: nat)
    requires n <= |scopes| && HasNode(scopes[..n], node)
    ensures i < n && scopes[i].node == node
  {
    i :| i < n && scopes[..n][i].node == node;
  }

  /** The scope that takes the place of an earlier one of its node loses what that one weighs. */
  lemma {:induction false} RepeatLosesWeight(scopes: seq<Scope>, weight: Scope -> nat, n: nat, i: nat)
    requires i < n - 1 < |scopes| && DistinctNodes(scopes[..n - 1])
    requires scopes[i].node == scopes[n - 1].node && weight(scopes[i]) > 0
    ensures Weigh(ByNode(scopes, n), weight, |ByNode(scopes, n)|) < Weigh(scopes, weight, n)
  {
    var before := scopes[..n - 1];
    UnrepeatedSoFar(scopes, n - 1);
    WeighOfPrefix(scopes, weight, n - 1, n - 1);
    assert before[i] in before;
    ReplacedIsLost(before, scopes[n - 1], before[i], weight);
    PutLast(scopes, weight, n);
  }

  lemma {:induction false} UnrepeatedSoFar(scopes: seq<Scope>, n: nat)
    requires n <= |scopes| && DistinctNodes(scopes[..n])
    ensures ByNode(scopes, n) == scopes[..n]
  {
    ByNodeOfDistinct(scopes[..n], n);
    ByNodeOfPrefix(scopes, n, n);
    assert scopes[..n][..n] == scopes[..n];
  }

  lemma {:induction false} PutLast(scopes: seq<Scope>, weight: Scope -> nat, n: nat)
    requires 0 < n <= |scopes| && ByNode(scopes, n - 1) == scopes[..n - 1]
    ensures ByNode(scopes, n) == Put(scopes[..n - 1], scopes[n - 1])
    ensures Weigh(scopes, weight, n) == Weigh(scopes, weight, n - 1) + weight(scopes[n - 1])
  {
  }

  lemma {:induction false} ByNodeOfPrefix(scopes: seq<Scope>, n: nat, m: nat)
    requires m <= n <= |scopes|
    ensures ByNode(scopes[..n], m) == ByNode(scopes, m)
  {
    if m > 0 { ByNodeOfPrefix(scopes, n, m - 1); }
  }
}
