/** What every scope of a cut is, and when their nodes differ (cdp/partition.py:72-108, 273-289). */
module CutScopes {
  import opened Orders
  import opened Scopes
  import opened Cutting

  // ------------------------------------------------------------------------- loc

  lemma {:induction false} LocOfInsert(size: Sizes, x: string, s: seq<string>)
    ensures TotalLoc(size, Insert(x, s, StrLe)) == size(x) + TotalLoc(size, s)
  {
    var r := Insert(x, s, StrLe);
    if s == [] || StrLe(x, s[0]) {
      assert r[1..] == s;
    } else {
      LocOfInsert(size, x, s[1..]);
      assert r[1..] == Insert(x, s[1..], StrLe);
    }
  }

  lemma {:induction false} LocOfSorted(size: Sizes, s: seq<string>)
    ensures TotalLoc(size, StableSort(s, StrLe)) == TotalLoc(size, s)
  {
    if s != [] {
      LocOfSorted(size, s[1..]);
      LocOfInsert(size, s[0], StableSort(s[1..], StrLe));
    }
  }

  lemma {:induction false} LocOfBoth(size: Sizes, s: seq<string>, t: seq<string>)
    ensures TotalLoc(size, s + t) == TotalLoc(size, s) + TotalLoc(size, t)
  {
    if s == [] {
      assert s + t == t;
    } else {
      assert (s + t)[1..] == s[1..] + t;
      LocOfBoth(size, s[1..], t);
    }
  }

  // ---------------------------------------------------------------------- each scope

  /** The counts are those of the files, and there are files. */
  predicate Sized(size: Sizes, s: Scope) {
    s.files != [] && s.fileCount == |s.files| && s.loc == TotalLoc(size, s.files)
  }

  /** The files that lie directly in a directory that was cut up. */
  predicate IsFilesLeaf(node: string) {
    |node| >= 8 && node[|node| - 8..] == "/(files)"
  }

  /** Only what exceeds the budget is flagged, and all of it but the loose files of a directory. */
  predicate Flagged(b: Budget, s: Scope) {
    && (s.oversized ==> !Fits(b, s.fileCount, s.loc))
    && (!Fits(b, s.fileCount, s.loc) ==> s.oversized || IsFilesLeaf(s.node))
  }

  ghost predicate GoodScope(size: Sizes, b: Budget, moduleName: string, s: Scope) {
    Sized(size, s) && s.moduleName == moduleName && Flagged(b, s)
  }

  lemma {:induction false} ScopeIsSized(size: Sizes, node: string, moduleName: string, files: seq<string>, oversized: bool)
    requires files != []
    ensures Sized(size, ScopeOf(size, node, moduleName, files, oversized))
  {
    LocOfSorted(size, files);
  }

  lemma {:induction false} LeafIsGood(size: Sizes, b: Budget, node: string, moduleName: string, files: seq<string>,
      oversized: bool)
    requires files != [] && oversized == !Fits(b, |files|, TotalLoc(size, files))
    ensures GoodScope(size, b, moduleName, ScopeOf(size, node, moduleName, files, oversized))
  {
    ScopeIsSized(size, node, moduleName, files, oversized);
  }

  lemma {:induction false} LooseIsGood(size: Sizes, b: Budget, node: string, moduleName: string, files: seq<string>)
    requires files != []
    ensures GoodScope(size, b, moduleName, ScopeOf(size, Child(node, "(files)"), moduleName, files, false))
  {
    ScopeIsSized(size, Child(node, "(files)"), moduleName, files, false);
    FilesLeaf(node);
  }

  /** `good` holds of every leaf that a cut makes. */
  ghost predicate LeavesAre(c: Cutter, good: Scope -> bool) {
    forall node, f {:trigger c.scope(node, f, true)} {:trigger c.scope(node, f, false)} :: f != [] ==>
      && (c.fits(f) ==> good(c.scope(node, f, false))) && (!c.fits(f) ==> good(c.scope(node, f, true)))
  }

  ghost predicate LooseAre(c: Cutter, good: Scope -> bool) {
    forall node, f {:trigger c.scope(c.child(node, "(files)"), f, false)} ::
      f != [] ==> good(c.scope(c.child(node, "(files)"), f, false))
  }

  lemma {:induction false} HereScopesAre(c: Cutter, good: Scope -> bool, node: string, drop: nat, files: seq<string>,
      s: Scope)
    requires Splits(c.split) && LeavesAre(c, good) && LooseAre(c, good) && s in CutOf(c, node, drop, files)
    requires c.fits(files) || c.split(files, drop) == [] || s in HereScope(c, node, drop, files)
    ensures good(s)
  {
  }

  /** What holds of every leaf holds of every scope of a cut. */
  lemma {:induction false} CutScopesAre(c: Cutter, good: Scope -> bool, node: string, drop: nat, files: seq<string>,
      s: Scope)
    requires Splits(c.split) && LeavesAre(c, good) && LooseAre(c, good) && s in CutOf(c, node, drop, files)
    ensures good(s)
    decreases Depth(files, drop), 1, 0
  {
    if c.fits(files) || c.split(files, drop) == [] || s in HereScope(c, node, drop, files) {
      HereScopesAre(c, good, node, drop, files, s);
    } else {
      SplitIsShallower(c.split, files, drop);
      var dirs := c.split(files, drop);
      var i := PartOfDir(c, node, drop, dirs, |dirs|, Depth(files, drop), s);
      assert IsShallow(dirs[i], drop, Depth(files, drop));
      CutScopesAre(c, good, c.child(node, dirs[i].name), drop + |dirs[i].name| + 1, dirs[i].files, s);
    }
  }

  ghost function Good(size: Sizes, b: Budget, moduleName: string): Scope -> bool {
    (s: Scope) => GoodScope(size, b, moduleName, s)
  }

  lemma {:induction false} LeavesAreGood(c: Cutter, size: Sizes, b: Budget, moduleName: string)
    requires Cuts(c, size, b, moduleName)
    ensures LeavesAre(c, Good(size, b, moduleName)) && LooseAre(c, Good(size, b, moduleName))
  {
    var good := Good(size, b, moduleName);
    forall node, f {:trigger c.scope(node, f, true)} {:trigger c.scope(node, f, false)} | f != []
      ensures (c.fits(f) ==> good(c.scope(node, f, false))) && (!c.fits(f) ==> good(c.scope(node, f, true)))
    {
      var fits := Fits(b, |f|, TotalLoc(size, f));
      LeafIsGood(size, b, node, moduleName, f, !fits);
      assert c.scope(node, f, !fits) == ScopeOf(size, node, moduleName, f, !fits);
    }
    forall node, f {:trigger c.scope(c.child(node, "(files)"), f, false)} | f != []
      ensures good(c.scope(c.child(node, "(files)"), f, false))
    {
      LooseIsGood(size, b, node, moduleName, f);
      assert c.child(node, "(files)") == Child(node, "(files)");
    }
  }

  /** Every scope of a cut is sized right, and flagged exactly when it should be; only the loose files of a
  directory can exceed the budget unflagged. */
  lemma {:induction false} CutIsGood(c: Cutter, size: Sizes, b: Budget, moduleName: string, node: string, drop: nat,
      files: seq<string>, s: Scope)
    requires Cuts(c, size, b, moduleName) && s in CutOf(c, node, drop, files)
    ensures GoodScope(size, b, moduleName, s)
  {
    LeavesAreGood(c, size, b, moduleName);
    CutScopesAre(c, Good(size, b, moduleName), node, drop, files, s);
  }

  lemma {:induction false} FilesLeaf(node: string)
    ensures IsFilesLeaf(Child(node, "(files)"))
  {
    assert Child(node, "(files)") == node + "/(files)";
  }

  // --------------------------------------------------------------------- distinct nodes

  ghost predicate IsBelow(node: string, tail: string, x: string) {
    x == node + tail && (tail == "" || tail[0] == '/')
  }

  /** `x` is `node` or lies below it. */
  ghost predicate Under(node: string, x: string) {
    exists tail :: IsBelow(node, tail, x)
  }

  predicate SlashFree(s: string) {
    '/' !in s
  }

  /** The path segment of `x` that follows `node`. */
  ghost function NextSegment(node: string, x: string): string {
    if |node| + 1 <= |x| then x[|node| + 1..Slash(x, |node| + 1)] else ""
  }

  lemma {:induction false} UnderChild(node: string, name: string, child: string, x: string)
    requires SlashFree(name) && child == node + "/" + name && Under(child, x)
    ensures NextSegment(node, x) == name
  {
    var tail :| IsBelow(child, tail, x);
    ChildSegment(node, name, tail);
  }

  lemma {:induction false} ChildSegment(node: string, name: string, tail: string)
    requires SlashFree(name) && (tail == "" || tail[0] == '/')
    ensures NextSegment(node, node + "/" + name + tail) == name
  {
    var x, start := node + "/" + name + tail, |node| + 1;
    var k := start + |name|;
    forall j | start <= j < k ensures x[j] != '/' { assert x[j] == name[j - start]; }
    if tail != "" { assert x[k] == tail[0]; }
    SlashIs(x, start, k);
    assert x[start..k] == name;
  }

  lemma {:induction false} SlashIs(x: string, start: nat, k: nat)
    requires start <= k <= |x| && (k < |x| ==> x[k] == '/')
    requires forall j :: start <= j < k ==> x[j] != '/'
    ensures Slash(x, start) == k
  {
    if k < |x| { assert FirstSlash(x, start, k); }
  }

  lemma {:induction false} UnderParent(node: string, name: string, child: string, x: string)
    requires child == node + "/" + name && Under(child, x)
    ensures Under(node, x)
  {
    var tail :| IsBelow(child, tail, x);
    assert node + "/" + name + tail == node + ("/" + name + tail);
    assert IsBelow(node, "/" + name + tail, x);
  }

  lemma {:induction false} UnderItself(node: string)
    ensures Under(node, node)
  {
    assert IsBelow(node, "", node);
  }

  /** How nodes are named: what lies under a child lies under its parent, and the segment that follows the parent
  is the child's name. */
  ghost predicate Naming(c: Cutter, under: (string, string) -> bool, segment: (string, string) -> string) {
    && (forall node, f, o {:trigger c.scope(node, f, o)} :: under(node, c.scope(node, f, o).node))
    && (forall node, name, x {:trigger under(c.child(node, name), x)} ::
          under(c.child(node, name), x) ==> under(node, x) && (SlashFree(name) ==> segment(node, x) == name))
  }

  ghost function UnderFn(): (string, string) -> bool {
    (node: string, x: string) => Under(node, x)
  }

  ghost function SegmentFn(): (string, string) -> string {
    (node: string, x: string) => NextSegment(node, x)
  }

  lemma {:induction false} NodesAreNamed(c: Cutter, size: Sizes, b: Budget, moduleName: string)
    requires Cuts(c, size, b, moduleName)
    ensures Naming(c, UnderFn(), SegmentFn())
  {
    var under, segment := UnderFn(), SegmentFn();
    forall node, f, o {:trigger c.scope(node, f, o)} ensures under(node, c.scope(node, f, o).node) {
      assert c.scope(node, f, o) == ScopeOf(size, node, moduleName, f, o);
      UnderItself(node);
    }
    forall node, name, x {:trigger under(c.child(node, name), x)} | under(c.child(node, name), x)
      ensures under(node, x) && (SlashFree(name) ==> segment(node, x) == name)
    {
      assert c.child(node, name) == Child(node, name);
      UnderParent(node, name, Child(node, name), x);
      if SlashFree(name) { UnderChild(node, name, Child(node, name), x); }
    }
  }

  lemma {:induction false} CutIsUnder(c: Cutter, under: (string, string) -> bool, segment: (string, string) -> string,
      node: string, drop: nat, files: seq<string>, s: Scope)
    requires Splits(c.split) && Naming(c, under, segment) && s in CutOf(c, node, drop, files)
    ensures under(node, s.node)
    decreases Depth(files, drop), 1, 0
  {
    if !c.fits(files) && c.split(files, drop) != [] {
      SplitIsShallower(c.split, files, drop);
      if s in HereScope(c, node, drop, files) {
        assert under(c.child(node, "(files)"), s.node);
      } else {
        var dirs := c.split(files, drop);
        var i := PartOfDir(c, node, drop, dirs, |dirs|, Depth(files, drop), s);
        assert IsShallow(dirs[i], drop, Depth(files, drop));
        CutIsUnder(c, under, segment, c.child(node, dirs[i].name), drop + |dirs[i].name| + 1, dirs[i].files, s);
      }
    }
  }

  lemma {:induction false} PartSegment(c: Cutter, under: (string, string) -> bool, segment: (string, string) -> string,
      node: string, drop: nat, d: Dir, s: Scope)
    requires Splits(c.split) && Naming(c, under, segment) && SlashFree(d.name) && s in PartOf(c, node, drop, d)
    ensures segment(node, s.node) == d.name
  {
    PartIsUnder(c, under, segment, node, drop, d, s);
    SegmentOfChild(c, under, segment, node, d.name, s.node);
  }

  lemma {:induction false} PartIsUnder(c: Cutter, under: (string, string) -> bool, segment: (string, string) -> string,
      node: string, drop: nat, d: Dir, s: Scope)
    requires Splits(c.split) && Naming(c, under, segment) && s in PartOf(c, node, drop, d)
    ensures under(c.child(node, d.name), s.node)
  {
    CutIsUnder(c, under, segment, c.child(node, d.name), drop + |d.name| + 1, d.files, s);
  }

  lemma {:induction false} SegmentOfChild(c: Cutter, under: (string, string) -> bool,
      segment: (string, string) -> string, node: string, name: string, x: string)
    requires Naming(c, under, segment) && SlashFree(name) && under(c.child(node, name), x)
    ensures segment(node, x) == name
  {
  }

  ghost predicate DistinctNodes(scopes: seq<Scope>) {
    forall i, j :: 0 <= i < j < |scopes| ==> scopes[i].node != scopes[j].node
  }

  lemma {:induction false} DistinctTogether(a: seq<Scope>, c: seq<Scope>)
    requires DistinctNodes(a) && DistinctNodes(c)
    requires forall s, t :: s in a && t in c ==> s.node != t.node
    ensures DistinctNodes(a + c)
  {
  }

  ghost predicate Apart(a: seq<Scope>, c: seq<Scope>) {
    forall s, t :: s in a && t in c ==> s.node != t.node
  }

  lemma {:induction false} JoinedDiffer(part: nat -> seq<Scope>, n: nat)
    requires forall i: nat {:trigger part(i)} :: i < n ==> DistinctNodes(part(i))
    requires forall i: nat, j: nat {:trigger Apart(part(i), part(j))} :: i < j < n ==> Apart(part(i), part(j))
    ensures DistinctNodes(Joined(part, n))
  {
    if n > 0 {
      JoinedDiffer(part, n - 1);
      forall s, t | s in Joined(part, n - 1) && t in part(n - 1) ensures s.node != t.node {
        var i := PartHolding(part, n - 1, s);
        assert Apart(part(i), part(n - 1));
      }
      DistinctTogether(Joined(part, n - 1), part(n - 1));
    }
  }

  predicate ReservedAt(path: string, k: nat) {
    k + 8 <= |path| && path[k..k + 8] == "(files)/"
  }

  lemma {:induction false} SegmentIsOrdinary(p: string, drop: nat)
    requires !IsHere(p, drop)
    ensures SlashFree(Segment(p, drop)) && (Segment(p, drop) == "(files)" ==> ReservedAt(p, drop))
  {
    var k := Slash(p, drop);
    assert p[drop..k + 1] == p[drop..k] + [p[k]];
    assert "(files)/" == "(files)" + ['/'];
  }

  lemma {:induction false} NamedBy(files: seq<string>, drop: nat, name: string, n: nat) returns (p: string)
    requires n <= |files| && name in Names(files, drop, n)
    ensures p in files && Below(drop, name)(p)
  {
    if name in NameOf(files[n - 1], drop) { p := files[n - 1]; } else { p := NamedBy(files, drop, name, n - 1); }
  }

  lemma {:induction false} DirsDiffer(files: seq<string>, drop: nat)
    ensures DistinctNames(Dirs(files, drop))
  {
    DirsCount(files, drop, "");
  }
}
