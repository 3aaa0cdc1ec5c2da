/** Which scopes a cut makes, and exactly when their nodes differ (cdp/partition.py:72-108). */
module CutNodes {
  import opened Orders
  import opened Scopes
  import opened Cutting
  import opened CutScopes

  // -------------------------------------------------------------------- directories

  /** A directory that a cut comes to: its node, the length of its path prefix, and its files. */
  datatype Place = Place(node: string, drop: nat, files: seq<string>)

  /** The directory is not cut further: its files fit, or none of them lies in a directory below. */
  ghost predicate Stops(c: Cutter, p: Place) {
    c.fits(p.files) || c.split(p.files, p.drop) == []
  }

  function Enter(c: Cutter, p: Place, d: Dir): Place {
    Place(c.child(p.node, d.name), p.drop + |d.name| + 1, d.files)
  }

  /** From `p` the cut goes down the directories named, each too large to be one scope, to `q`. */
  ghost predicate Reaches(c: Cutter, p: Place, names: seq<string>, q: Place)
    decreases |names|
  {
    if names == [] then
      q == p
    else
      !Stops(c, p) && exists d :: d in c.split(p.files, p.drop) && d.name == names[0] && Reaches(c, Enter(c, p, d), names[1..], q)
  }

  /** The whole directory is one scope. */
  ghost predicate IsWhole(c: Cutter, p: Place) {
    p.files != [] && Stops(c, p)
  }

  /** The directory is cut, and some of its files lie in no directory below. */
  ghost predicate IsLoose(c: Cutter, p: Place) {
    p.files != [] && !Stops(c, p) && HereFiles(p.files, p.drop) != []
  }

  /** A whole directory is flagged exactly when it is over budget; loose files never are. */
  ghost predicate MakesScope(c: Cutter, p: Place, s: Scope) {
    || (IsWhole(c, p) && s == c.scope(p.node, p.files, !c.fits(p.files)))
    || (IsLoose(c, p) && s == c.scope(c.child(p.node, "(files)"), HereFiles(p.files, p.drop), false))
  }

  ghost function CutAt(c: Cutter, p: Place): seq<Scope>
    requires Splits(c.split)
  {
    CutOf(c, p.node, p.drop, p.files)
  }

  lemma {:induction false} CutBelowIs(c: Cutter, p: Place)
    requires Splits(c.split) && p.files != [] && !Stops(c, p)
    ensures Shallower(c.split(p.files, p.drop), p.drop, Depth(p.files, p.drop))
    ensures var dirs := c.split(p.files, p.drop);
      CutAt(c, p) == HereScope(c, p.node, p.drop, p.files)
        + CutDirs(c, p.node, p.drop, dirs, |dirs|, Depth(p.files, p.drop))
  {
    SplitIsShallower(c.split, p.files, p.drop);
  }

  lemma {:induction false} EnteredPart(c: Cutter, p: Place, i: nat)
    requires Splits(c.split) && i < |c.split(p.files, p.drop)|
    requires Shallower(c.split(p.files, p.drop), p.drop, Depth(p.files, p.drop))
    ensures var dirs := c.split(p.files, p.drop);
      PartsOf(c, p.node, p.drop, dirs, Depth(p.files, p.drop))(i) == CutAt(c, Enter(c, p, dirs[i]))
    ensures var d := c.split(p.files, p.drop)[i];
      Depth(d.files, p.drop + |d.name| + 1) < Depth(p.files, p.drop)
  {
    assert IsShallow(c.split(p.files, p.drop)[i], p.drop, Depth(p.files, p.drop));
  }

  // -------------------------------------------------------------- which scopes there are

  lemma {:induction false} ScopeHasPlace(c: Cutter, p: Place, s: Scope) returns (names: seq<string>, q: Place)
    requires Splits(c.split) && s in CutAt(c, p)
    ensures Reaches(c, p, names, q) && MakesScope(c, q, s)
    decreases Depth(p.files, p.drop)
  {
    if p.files == [] || Stops(c, p) || s in HereScope(c, p.node, p.drop, p.files) {
      names, q := [], p;
      ScopeIsHere(c, p, s);
    } else {
      var i := ScopeIsBelow(c, p, s);
      var d := c.split(p.files, p.drop)[i];
      names, q := ScopeHasPlace(c, Enter(c, p, d), s);
      names := GoesThrough(c, p, d, names, q);
    }
  }

  lemma {:induction false} ScopeIsHere(c: Cutter, p: Place, s: Scope)
    requires Splits(c.split) && s in CutAt(c, p)
    requires p.files == [] || Stops(c, p) || s in HereScope(c, p.node, p.drop, p.files)
    ensures MakesScope(c, p, s)
  {
  }

  lemma {:induction false} ScopeIsBelow(c: Cutter, p: Place, s: Scope) returns (i: nat)
    requires Splits(c.split) && s in CutAt(c, p) && p.files != [] && !Stops(c, p)
    requires s !in HereScope(c, p.node, p.drop, p.files)
    ensures i < |c.split(p.files, p.drop)|
    ensures var d := c.split(p.files, p.drop)[i];
      s in CutAt(c, Enter(c, p, d)) && Depth(d.files, p.drop + |d.name| + 1) < Depth(p.files, p.drop)
  {
    CutBelowIs(c, p);
    var dirs, bound := c.split(p.files, p.drop), Depth(p.files, p.drop);
    i := PartHolding(PartsOf(c, p.node, p.drop, dirs, bound), |dirs|, s);
    EnteredPart(c, p, i);
  }

  lemma {:induction false} GoesThrough(c: Cutter, p: Place, d: Dir, names: seq<string>, q: Place) returns (more: seq<string>)
    requires !Stops(c, p) && d in c.split(p.files, p.drop) && Reaches(c, Enter(c, p, d), names, q)
    ensures more == [d.name] + names && Reaches(c, p, more, q)
  {
    more := [d.name] + names;
    assert more[1..] == names;
  }

  lemma {:induction false} DirHasFiles(split: Split, files: seq<string>, drop: nat, i: nat)
    requires Splits(split) && i < |split(files, drop)|
    ensures split(files, drop)[i].files != []
  {
    assert split(files, drop) == Dirs(files, drop);
    var name := DirAt(files, drop, i);
    GroupIsInhabited(files, drop, name, |files|);
  }

  lemma {:induction false} PlaceHasScope(c: Cutter, p: Place, names: seq<string>, q: Place, s: Scope)
    requires Splits(c.split) && Reaches(c, p, names, q) && MakesScope(c, q, s) && p.files != []
    ensures s in CutAt(c, p)
    decreases |names|
  {
    if !Stops(c, p) { CutBelowIs(c, p); }
    if names != [] {
      var dirs, bound := c.split(p.files, p.drop), Depth(p.files, p.drop);
      var d :| d in dirs && d.name == names[0] && Reaches(c, Enter(c, p, d), names[1..], q);
      var i :| 0 <= i < |dirs| && dirs[i] == d;
      DirHasFiles(c.split, p.files, p.drop, i);
      PlaceHasScope(c, Enter(c, p, d), names[1..], q, s);
      EnteredPart(c, p, i);
      InJoined(PartsOf(c, p.node, p.drop, dirs, bound), |dirs|, i, s);
    }
  }

  /** `_cut` makes exactly one kind of scope at each directory it comes to: the whole directory where it stops, flagged
  if and only if that is over budget, and elsewhere the loose files, never flagged. */
  lemma {:induction false} ScopesExactly(c: Cutter, p: Place, s: Scope)
    requires Splits(c.split)
    ensures s in CutAt(c, p) <==> p.files != [] && HasPlace(c, p, s)
  {
    assert p.files == [] ==> CutAt(c, p) == [];
    if s in CutAt(c, p) {
      var names, q := ScopeHasPlace(c, p, s);
    } else if p.files != [] && HasPlace(c, p, s) {
      var names, q :| Reaches(c, p, names, q) && MakesScope(c, q, s);
      PlaceHasScope(c, p, names, q, s);
    }
  }

  /** The scope is what the cut makes of some directory it comes to. */
  ghost predicate HasPlace(c: Cutter, p: Place, s: Scope) {
    exists names, q :: Reaches(c, p, names, q) && MakesScope(c, q, s)
  }

  // ------------------------------------------------------------- when nodes differ

  /** The functions of `c` name nodes as the source does: a scope has the node it is made for, a node below a child
  lies below the parent, the segment after the parent is the child's name, and no node lies below itself. */
  ghost predicate NamesNodes(c: Cutter, under: (string, string) -> bool, segment: (string, string) -> string) {
    && Naming(c, under, segment)
    && (forall node, f, o {:trigger c.scope(node, f, o)} :: c.scope(node, f, o).node == node)
    && (forall node, name, x {:trigger under(c.child(node, name), x)} :: under(c.child(node, name), x) ==> x != node)
  }

  /** Loose files beside a directory called `(files)` that is one scope. */
  ghost predicate Clashes(c: Cutter, p: Place) {
    IsLoose(c, p) && exists d :: d in c.split(p.files, p.drop) && d.name == "(files)" && IsWhole(c, Enter(c, p, d))
  }

  ghost predicate NoClash(c: Cutter, p: Place) {
    forall names, q :: Reaches(c, p, names, q) ==> !Clashes(c, q)
  }

  lemma {:induction false} NoClashBelow(c: Cutter, p: Place, d: Dir)
    requires NoClash(c, p) && !Stops(c, p) && d in c.split(p.files, p.drop)
    ensures NoClash(c, Enter(c, p, d))
  {
    forall names, q | Reaches(c, Enter(c, p, d), names, q) ensures !Clashes(c, q) {
      var more := GoesThrough(c, p, d, names, q);
    }
  }

  lemma {:induction false} NoClashHere(c: Cutter, p: Place)
    requires NoClash(c, p)
    ensures !Clashes(c, p)
  {
    assert Reaches(c, p, [], p);
  }

  lemma {:induction false} DirNamesSlashFree(split: Split, files: seq<string>, drop: nat, i: nat)
    requires Splits(split) && i < |split(files, drop)|
    ensures SlashFree(split(files, drop)[i].name)
  {
    assert split(files, drop) == Dirs(files, drop);
    var name := DirAt(files, drop, i);
    var p := NamedBy(files, drop, name, |files|);
    SegmentIsOrdinary(p, drop);
  }

  lemma {:induction false} DirNamesDiffer(split: Split, files: seq<string>, drop: nat)
    requires Splits(split)
    ensures DistinctNames(split(files, drop))
  {
    assert split(files, drop) == Dirs(files, drop);
    DirsDiffer(files, drop);
  }

  /** A scope with the directory's own node is the whole directory. */
  lemma {:induction false} OwnNodeIsWhole(c: Cutter, under: (string, string) -> bool,
      segment: (string, string) -> string, p: Place, s: Scope)
    requires Splits(c.split) && NamesNodes(c, under, segment) && s in CutAt(c, p) && s.node == p.node
    ensures IsWhole(c, p)
  {
    if p.files != [] && !Stops(c, p) { InsideIsBelow(c, under, segment, p, s); }
  }

  lemma {:induction false} InsideIsBelow(c: Cutter, under: (string, string) -> bool,
      segment: (string, string) -> string, p: Place, s: Scope)
    requires Splits(c.split) && NamesNodes(c, under, segment) && s in CutAt(c, p) && p.files != [] && !Stops(c, p)
    ensures s.node != p.node
  {
    CutBelowIs(c, p);
    if s in HereScope(c, p.node, p.drop, p.files) {
      assert under(c.child(p.node, "(files)"), s.node);
    } else {
      var dirs := c.split(p.files, p.drop);
      var i := PartOfDir(c, p.node, p.drop, dirs, |dirs|, Depth(p.files, p.drop), s);
      PartIsUnder(c, under, segment, p.node, p.drop, dirs[i], s);
    }
  }

  /** Only the whole directory `(files)` shares its node with the loose files beside it. */
  lemma {:induction false} HereMeetsPart(c: Cutter, under: (string, string) -> bool,
      segment: (string, string) -> string, p: Place, i: nat, s: Scope, t: Scope)
    requires Splits(c.split) && NamesNodes(c, under, segment) && p.files != [] && !Stops(c, p)
    requires i < |c.split(p.files, p.drop)| && s in HereScope(c, p.node, p.drop, p.files)
    requires t in CutAt(c, Enter(c, p, c.split(p.files, p.drop)[i])) && s.node == t.node
    ensures Clashes(c, p)
  {
    var d := c.split(p.files, p.drop)[i];
    assert under(c.child(p.node, "(files)"), s.node);
    DirNamesSlashFree(c.split, p.files, p.drop, i);
    PartIsFilesNode(c, under, segment, p, d, t);
    OwnNodeIsWhole(c, under, segment, Enter(c, p, d), t);
    assert d in c.split(p.files, p.drop);
  }

  lemma {:induction false} PartIsFilesNode(c: Cutter, under: (string, string) -> bool,
      segment: (string, string) -> string, p: Place, d: Dir, t: Scope)
    requires Splits(c.split) && NamesNodes(c, under, segment) && SlashFree(d.name)
    requires t in CutAt(c, Enter(c, p, d)) && under(c.child(p.node, "(files)"), t.node)
    ensures d.name == "(files)"
  {
    assert SlashFree("(files)");
    PartSegment(c, under, segment, p.node, p.drop, d, t);
  }

  lemma {:induction false} PartsAreApart(c: Cutter, under: (string, string) -> bool,
      segment: (string, string) -> string, p: Place, i: nat, j: nat)
    requires Splits(c.split) && NamesNodes(c, under, segment) && i < j < |c.split(p.files, p.drop)|
    ensures Apart(CutAt(c, Enter(c, p, c.split(p.files, p.drop)[i])), CutAt(c, Enter(c, p, c.split(p.files, p.drop)[j])))
  {
    var dirs := c.split(p.files, p.drop);
    DirNamesDiffer(c.split, p.files, p.drop);
    DirNamesSlashFree(c.split, p.files, p.drop, i);
    DirNamesSlashFree(c.split, p.files, p.drop, j);
    PartIn(c, under, segment, p, dirs[i]);
    PartIn(c, under, segment, p, dirs[j]);
    DifferentSegments(CutAt(c, Enter(c, p, dirs[i])), CutAt(c, Enter(c, p, dirs[j])), segment, p.node,
                      dirs[i].name, dirs[j].name);
  }

  ghost predicate AllIn(part: seq<Scope>, segment: (string, string) -> string, node: string, name: string) {
    forall s :: s in part ==> segment(node, s.node) == name
  }

  lemma {:induction false} PartIn(c: Cutter, under: (string, string) -> bool, segment: (string, string) -> string,
      p: Place, d: Dir)
    requires Splits(c.split) && Naming(c, under, segment) && SlashFree(d.name)
    ensures AllIn(CutAt(c, Enter(c, p, d)), segment, p.node, d.name)
  {
    var part := CutAt(c, Enter(c, p, d));
    forall s | s in part ensures segment(p.node, s.node) == d.name {
      PartSegment(c, under, segment, p.node, p.drop, d, s);
    }
  }

  lemma {:induction false} DifferentSegments(a: seq<Scope>, b: seq<Scope>, segment: (string, string) -> string,
      node: string, m: string, n: string)
    requires AllIn(a, segment, node, m) && AllIn(b, segment, node, n) && m != n
    ensures Apart(a, b)
  {
  }

  lemma {:induction false} UnclashedDiffer(c: Cutter, under: (string, string) -> bool,
      segment: (string, string) -> string, p: Place)
    requires Splits(c.split) && NamesNodes(c, under, segment) && NoClash(c, p)
    ensures DistinctNodes(CutAt(c, p))
    decreases Depth(p.files, p.drop), 1
  {
    if p.files != [] && !Stops(c, p) {
      CutBelowIs(c, p);
      NoClashHere(c, p);
      PartsDiffer(c, under, segment, p);
      var dirs, bound := c.split(p.files, p.drop), Depth(p.files, p.drop);
      var here, below := HereScope(c, p.node, p.drop, p.files), CutDirs(c, p.node, p.drop, dirs, |dirs|, bound);
      forall s, t | s in here && t in below ensures s.node != t.node {
        var i := PartHolding(PartsOf(c, p.node, p.drop, dirs, bound), |dirs|, t);
        EnteredPart(c, p, i);
        if s.node == t.node { HereMeetsPart(c, under, segment, p, i, s, t); }
      }
      DistinctTogether(here, below);
    }
  }

  lemma {:induction false} PartsDiffer(c: Cutter, under: (string, string) -> bool, segment: (string, string) -> string,
      p: Place)
    requires Splits(c.split) && NamesNodes(c, under, segment) && NoClash(c, p) && !Stops(c, p)
    requires Shallower(c.split(p.files, p.drop), p.drop, Depth(p.files, p.drop))
    ensures var dirs := c.split(p.files, p.drop);
      DistinctNodes(CutDirs(c, p.node, p.drop, dirs, |dirs|, Depth(p.files, p.drop)))
    decreases Depth(p.files, p.drop), 0
  {
    var dirs, bound := c.split(p.files, p.drop), Depth(p.files, p.drop);
    var part := PartsOf(c, p.node, p.drop, dirs, bound);
    forall i: nat {:trigger part(i)} | i < |dirs| ensures DistinctNodes(part(i)) {
      EnteredPart(c, p, i);
      NoClashBelow(c, p, dirs[i]);
      UnclashedDiffer(c, under, segment, Enter(c, p, dirs[i]));
    }
    forall i: nat, j: nat {:trigger Apart(part(i), part(j))} | i < j < |dirs| ensures Apart(part(i), part(j)) {
      EnteredPart(c, p, i);
      EnteredPart(c, p, j);
      PartsAreApart(c, under, segment, p, i, j);
    }
    JoinedDiffer(part, |dirs|);
  }

  // ------------------------------------------------------------------ when they repeat

  lemma {:induction false} RepeatsTogether(a: seq<Scope>, b: seq<Scope>, s: Scope, t: Scope)
    requires s in a && t in b && s.node == t.node
    ensures !DistinctNodes(a + b)
  {
    var i :| 0 <= i < |a| && a[i] == s;
    var j :| 0 <= j < |b| && b[j] == t;
    assert (a + b)[i] == s && (a + b)[|a| + j] == t;
  }

  lemma {:induction false} RepeatsWithin(a: seq<Scope>, b: seq<Scope>)
    requires !DistinctNodes(a) || !DistinctNodes(b)
    ensures !DistinctNodes(a + b)
  {
    if !DistinctNodes(a) {
      var i, j :| 0 <= i < j < |a| && a[i].node == a[j].node;
      assert (a + b)[i] == a[i] && (a + b)[j] == a[j];
    } else {
      var i, j :| 0 <= i < j < |b| && b[i].node == b[j].node;
      assert (a + b)[|a| + i] == b[i] && (a + b)[|a| + j] == b[j];
    }
  }

  lemma {:induction false} RepeatsInPart(part: nat -> seq<Scope>, n: nat, i: nat)
    requires i < n && !DistinctNodes(part(i))
    ensures !DistinctNodes(Joined(part, n))
  {
    if i < n - 1 { RepeatsInPart(part, n - 1, i); }
    RepeatsWithin(Joined(part, n - 1), part(n - 1));
  }

  lemma {:induction false} ClashRepeats(c: Cutter, under: (string, string) -> bool, segment: (string, string) -> string,
      p: Place)
    requires Splits(c.split) && NamesNodes(c, under, segment) && Clashes(c, p)
    ensures !DistinctNodes(CutAt(c, p))
  {
    var dirs, bound := c.split(p.files, p.drop), Depth(p.files, p.drop);
    var d :| d in dirs && d.name == "(files)" && IsWhole(c, Enter(c, p, d));
    var i :| 0 <= i < |dirs| && dirs[i] == d;
    CutBelowIs(c, p);
    EnteredPart(c, p, i);
    var whole := c.scope(c.child(p.node, "(files)"), d.files, !c.fits(d.files));
    assert CutAt(c, Enter(c, p, d)) == [whole];
    InJoined(PartsOf(c, p.node, p.drop, dirs, bound), |dirs|, i, whole);
    var here := HereScope(c, p.node, p.drop, p.files);
    RepeatsTogether(here, CutDirs(c, p.node, p.drop, dirs, |dirs|, bound), here[0], whole);
  }

  lemma {:induction false} ReachedClashRepeats(c: Cutter, under: (string, string) -> bool,
      segment: (string, string) -> string, p: Place, names: seq<string>, q: Place)
    requires Splits(c.split) && NamesNodes(c, under, segment) && p.files != []
    requires Reaches(c, p, names, q) && Clashes(c, q)
    ensures !DistinctNodes(CutAt(c, p))
    decreases |names|
  {
    if names == [] {
      ClashRepeats(c, under, segment, p);
    } else {
      CutBelowIs(c, p);
      var dirs, bound := c.split(p.files, p.drop), Depth(p.files, p.drop);
      var d :| d in dirs && d.name == names[0] && Reaches(c, Enter(c, p, d), names[1..], q);
      var i :| 0 <= i < |dirs| && dirs[i] == d;
      DirHasFiles(c.split, p.files, p.drop, i);
      ReachedClashRepeats(c, under, segment, Enter(c, p, d), names[1..], q);
      EnteredPart(c, p, i);
      RepeatsInPart(PartsOf(c, p.node, p.drop, dirs, bound), |dirs|, i);
      RepeatsWithin(HereScope(c, p.node, p.drop, p.files), CutDirs(c, p.node, p.drop, dirs, |dirs|, bound));
    }
  }

  /** The nodes of a cut differ exactly when it comes to no loose files beside a directory `(files)` that is one
  scope. */
  lemma {:induction false} NodesDifferExactly(c: Cutter, under: (string, string) -> bool,
      segment: (string, string) -> string, p: Place)
    requires Splits(c.split) && NamesNodes(c, under, segment) && p.files != []
    ensures DistinctNodes(CutAt(c, p)) <==> NoClash(c, p)
  {
    if NoClash(c, p) {
      UnclashedDiffer(c, under, segment, p);
    } else {
      var names, q :| Reaches(c, p, names, q) && Clashes(c, q);
      ReachedClashRepeats(c, under, segment, p, names, q);
    }
  }

  lemma {:induction false} CutterNames(c: Cutter, size: Sizes, b: Budget, moduleName: string)
    requires Cuts(c, size, b, moduleName)
    ensures NamesNodes(c, UnderFn(), SegmentFn())
  {
    var under := UnderFn();
    NodesAreNamed(c, size, b, moduleName);
    forall node, f, o {:trigger c.scope(node, f, o)} ensures c.scope(node, f, o).node == node {
      assert c.scope(node, f, o) == ScopeOf(size, node, moduleName, f, o);
    }
    forall node, name, x {:trigger under(c.child(node, name), x)} | under(c.child(node, name), x) ensures x != node {
      assert c.child(node, name) == Child(node, name);
      var tail :| IsBelow(Child(node, name), tail, x);
      assert |x| > |node|;
    }
  }

  /** The scope made of the directory has this node. */
  ghost predicate HasNode(c: Cutter, q: Place, x: string) {
    (IsWhole(c, q) && x == q.node) || (IsLoose(c, q) && x == c.child(q.node, "(files)"))
  }

  /** Some scope of the cut has this node. */
  ghost predicate IsLeafNode(c: Cutter, p: Place, x: string) {
    exists names, q :: Reaches(c, p, names, q) && HasNode(c, q, x)
  }

  lemma {:induction false} LeafNodesExactly(c: Cutter, under: (string, string) -> bool,
      segment: (string, string) -> string, p: Place, x: string)
    requires Splits(c.split) && NamesNodes(c, under, segment) && p.files != []
    ensures (exists s :: s in CutAt(c, p) && s.node == x) <==> IsLeafNode(c, p, x)
  {
    if s :| s in CutAt(c, p) && s.node == x {
      var names, q := ScopeHasPlace(c, p, s);
    }
    if IsLeafNode(c, p, x) {
      var names, q :| Reaches(c, p, names, q) && HasNode(c, q, x);
      var s := if IsWhole(c, q) then c.scope(q.node, q.files, !c.fits(q.files))
        else c.scope(c.child(q.node, "(files)"), HereFiles(q.files, q.drop), false);
      PlaceHasScope(c, p, names, q, s);
    }
  }

  // --------------------------------------------------------------- cuts put together

  lemma {:induction false} RepeatsAcross(part: nat -> seq<Scope>, n: nat, i: nat, j: nat)
    requires i < j < n && !Apart(part(i), part(j))
    ensures !DistinctNodes(Joined(part, n))
  {
    if j < n - 1 {
      RepeatsAcross(part, n - 1, i, j);
      RepeatsWithin(Joined(part, n - 1), part(n - 1));
    } else {
      var s, t :| s in part(i) && t in part(j) && s.node == t.node;
      InJoined(part, n - 1, i, s);
      RepeatsTogether(Joined(part, n - 1), part(n - 1), s, t);
    }
  }

  ghost predicate AllApart(part: nat -> seq<Scope>, n: nat) {
    && (forall i: nat {:trigger part(i)} :: i < n ==> DistinctNodes(part(i)))
    && (forall i: nat, j: nat {:trigger Apart(part(i), part(j))} :: i < j < n ==> Apart(part(i), part(j)))
  }

  lemma {:induction false} JoinedDifferExactly(part: nat -> seq<Scope>, n: nat)
    ensures DistinctNodes(Joined(part, n)) <==> AllApart(part, n)
  {
    if AllApart(part, n) {
      JoinedDiffer(part, n);
    } else if i: nat :| i < n && !DistinctNodes(part(i)) {
      RepeatsInPart(part, n, i);
    } else {
      var i: nat, j: nat :| i < j < n && !Apart(part(i), part(j));
      RepeatsAcross(part, n, i, j);
    }
  }
}
