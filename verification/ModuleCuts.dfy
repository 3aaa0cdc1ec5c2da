/** Cutting every module (cdp/partition.py:33-54), and exactly when two of the scopes share a node. */
module ModuleCuts {
  import opened Orders
  import opened Scopes
  import opened Cutting
  import opened CutScopes
  import opened CutNodes

  // -------------------------------------------------------------- cutting every module

  const ROOT_MODULE := "(root)"

  datatype Tracked = Tracked(path: string, moduleName: string)

  function PathsOf(inventory: seq<Tracked>, m: string, n: nat): seq<string>
    requires n <= |inventory|
  {
    if n == 0 then []
    else PathsOf(inventory, m, n - 1) + if inventory[n - 1].moduleName == m then [inventory[n - 1].path] else []
  }

  /** A module's files, sorted by path. */
  function ModuleFiles(inventory: seq<Tracked>, m: string): seq<string> {
    StableSort(PathsOf(inventory, m, |inventory|), StrLe)
  }

  function NodeOf(m: string): string {
    if m == ROOT_MODULE then "root" else "root/" + m
  }

  /** The length of the module's path prefix, with its slash. */
  function DropOf(pathOf: map<string, string>, m: string): nat {
    var path := if m in pathOf then pathOf[m] else if m == ROOT_MODULE then "" else m;
    if path == "" then 0 else |path| + 1
  }

  ghost function CutModule(size: Sizes, b: Budget, pathOf: map<string, string>, inventory: seq<Tracked>, m: string)
      : seq<Scope>
  {
    CutterCuts(size, b, m);
    CutOf(CutterOf(size, b, m), NodeOf(m), DropOf(pathOf, m), ModuleFiles(inventory, m))
  }

  ghost function CutPart(size: Sizes, b: Budget, pathOf: map<string, string>, inventory: seq<Tracked>,
      modules: seq<string>): nat -> seq<Scope>
  {
    (k: nat) => if k < |modules| then CutModule(size, b, pathOf, inventory, modules[k]) else []
  }

  /** The scopes before merging and packing: the cuts of the first `n` modules. */
  ghost function CutModules(size: Sizes, b: Budget, pathOf: map<string, string>, inventory: seq<Tracked>,
      modules: seq<string>, n: nat): seq<Scope>
    requires n <= |modules|
  {
    Joined(CutPart(size, b, pathOf, inventory, modules), n)
  }

  function TrackedModules(inventory: seq<Tracked>): set<string> {
    set f | f in inventory :: f.moduleName
  }

  ghost function AllCut(size: Sizes, b: Budget, pathOf: map<string, string>, inventory: seq<Tracked>): seq<Scope> {
    var modules := SortedSet(TrackedModules(inventory));
    CutModules(size, b, pathOf, inventory, modules, |modules|)
  }

  method CutEveryModule(size: Sizes, b: Budget, pathOf: map<string, string>, inventory: seq<Tracked>,
      modules: seq<string>) returns (out: seq<Scope>)
    ensures out == CutModules(size, b, pathOf, inventory, modules, |modules|)
  {
    out := [];
    for i := 0 to |modules|
      invariant out == CutModules(size, b, pathOf, inventory, modules, i)
    {
      var m := modules[i];
      CutterCuts(size, b, m);
      var scopes := Cut(size, b, CutterOf(size, b, m), NodeOf(m), m, DropOf(pathOf, m), ModuleFiles(inventory, m));
      out := out + scopes;
    }
  }

  function TrackedPaths(inventory: seq<Tracked>): set<string> {
    set f | f in inventory :: f.path
  }

  // ------------------------------------------------------------ when all nodes differ

  /** Where the cut of a module starts. */
  function Root(pathOf: map<string, string>, inventory: seq<Tracked>, m: string): Place {
    Place(NodeOf(m), DropOf(pathOf, m), ModuleFiles(inventory, m))
  }

  /** The nodes that leaves of the module's directory tree have. */
  ghost function NodesIn(size: Sizes, b: Budget, pathOf: map<string, string>, inventory: seq<Tracked>, m: string)
      : string -> bool
  {
    (x: string) => IsLeafNode(CutterOf(size, b, m), Root(pathOf, inventory, m), x)
  }

  ghost predicate NoneShared(f: string -> bool, g: string -> bool) {
    forall x {:trigger f(x)} {:trigger g(x)} :: f(x) ==> !g(x)
  }

  /** Which modules cut cleanly, and which two share no node. */
  ghost function CleanModule(size: Sizes, b: Budget, pathOf: map<string, string>, inventory: seq<Tracked>)
      : string -> bool
  {
    (m: string) => NoClash(CutterOf(size, b, m), Root(pathOf, inventory, m))
  }

  ghost function NodesApart(size: Sizes, b: Budget, pathOf: map<string, string>, inventory: seq<Tracked>)
      : (string, string) -> bool
  {
    (m: string, n: string) =>
      NoneShared(NodesIn(size, b, pathOf, inventory, m), NodesIn(size, b, pathOf, inventory, n))
  }

  ghost predicate EachClean(modules: set<string>, clean: string -> bool) {
    forall m {:trigger clean(m)} :: m in modules ==> clean(m)
  }

  ghost predicate EachApart(modules: set<string>, apart: (string, string) -> bool) {
    forall m, n {:trigger apart(m, n)} :: m in modules && n in modules && m != n ==> apart(m, n)
  }

  ghost predicate AllClean(modules: set<string>, clean: string -> bool, apart: (string, string) -> bool) {
    EachClean(modules, clean) && EachApart(modules, apart)
  }

  /** No module has loose files beside a directory `(files)` that is one scope, and no two modules have leaves of the
  same name. */
  ghost predicate LeavesDiffer(size: Sizes, b: Budget, pathOf: map<string, string>, inventory: seq<Tracked>) {
    AllClean(TrackedModules(inventory), CleanModule(size, b, pathOf, inventory), NodesApart(size, b, pathOf, inventory))
  }

  lemma {:induction false} PathIsListed(inventory: seq<Tracked>, m: string, n: nat, i: nat)
    requires i < n <= |inventory| && inventory[i].moduleName == m
    ensures inventory[i].path in PathsOf(inventory, m, n)
  {
    if i < n - 1 { PathIsListed(inventory, m, n - 1, i); }
  }

  lemma {:induction false} ModuleHasFiles(inventory: seq<Tracked>, m: string)
    requires m in TrackedModules(inventory)
    ensures ModuleFiles(inventory, m) != []
  {
    var f :| f in inventory && f.moduleName == m;
    var i :| 0 <= i < |inventory| && inventory[i] == f;
    PathIsListed(inventory, m, |inventory|, i);
  }

  lemma {:induction false} ModuleCutDiffers(size: Sizes, b: Budget, pathOf: map<string, string>, inventory: seq<Tracked>,
      m: string)
    requires m in TrackedModules(inventory)
    ensures DistinctNodes(CutModule(size, b, pathOf, inventory, m))
      <==> NoClash(CutterOf(size, b, m), Root(pathOf, inventory, m))
  {
    var c := CutterOf(size, b, m);
    CutterCuts(size, b, m);
    CutterNames(c, size, b, m);
    ModuleHasFiles(inventory, m);
    NodesDifferExactly(c, UnderFn(), SegmentFn(), Root(pathOf, inventory, m));
  }

  /** The scopes have exactly these nodes. */
  ghost predicate HaveNodes(scopes: seq<Scope>, nodes: string -> bool) {
    forall x {:trigger nodes(x)} :: nodes(x) <==> exists s :: s in scopes && s.node == x
  }

  lemma {:induction false} ApartExactly(a: seq<Scope>, c: seq<Scope>, f: string -> bool, g: string -> bool)
    requires HaveNodes(a, f) && HaveNodes(c, g)
    ensures Apart(a, c) <==> NoneShared(f, g)
  {
    if NoneShared(f, g) {
      forall s, t | s in a && t in c ensures s.node != t.node { assert f(s.node) && g(t.node); }
    }
  }

  lemma {:induction false} ModuleNodes(size: Sizes, b: Budget, pathOf: map<string, string>, inventory: seq<Tracked>,
      m: string)
    requires m in TrackedModules(inventory)
    ensures HaveNodes(CutModule(size, b, pathOf, inventory, m), NodesIn(size, b, pathOf, inventory, m))
  {
    var c := CutterOf(size, b, m);
    var nodes := NodesIn(size, b, pathOf, inventory, m);
    CutterCuts(size, b, m);
    CutterNames(c, size, b, m);
    ModuleHasFiles(inventory, m);
    forall x {:trigger nodes(x)}
      ensures nodes(x) <==> exists s :: s in CutModule(size, b, pathOf, inventory, m) && s.node == x
    {
      LeafNodesExactly(c, UnderFn(), SegmentFn(), Root(pathOf, inventory, m), x);
    }
  }

  lemma {:induction false} ModulesApart(size: Sizes, b: Budget, pathOf: map<string, string>, inventory: seq<Tracked>,
      m: string, n: string)
    requires m in TrackedModules(inventory) && n in TrackedModules(inventory)
    ensures Apart(CutModule(size, b, pathOf, inventory, m), CutModule(size, b, pathOf, inventory, n))
      <==> NodesApart(size, b, pathOf, inventory)(m, n)
  {
    ModuleNodes(size, b, pathOf, inventory, m);
    ModuleNodes(size, b, pathOf, inventory, n);
    ApartExactly(CutModule(size, b, pathOf, inventory, m), CutModule(size, b, pathOf, inventory, n),
                 NodesIn(size, b, pathOf, inventory, m), NodesIn(size, b, pathOf, inventory, n));
  }

  /** What is said of the parts is said of the modules they are cut from. */
  ghost predicate PartsFollow(part: nat -> seq<Scope>, modules: seq<string>, clean: string -> bool,
      apart: (string, string) -> bool)
  {
    && (forall i: nat {:trigger part(i)} :: i < |modules| ==> (DistinctNodes(part(i)) <==> clean(modules[i])))
    && (forall i: nat, j: nat {:trigger Apart(part(i), part(j))} {:trigger apart(modules[i], modules[j])} ::
          i < |modules| && j < |modules| ==> (Apart(part(i), part(j)) <==> apart(modules[i], modules[j])))
  }

  lemma {:induction false} ApartIsSymmetric(a: seq<Scope>, c: seq<Scope>)
    requires Apart(a, c)
    ensures Apart(c, a)
  {
  }

  lemma {:induction false} PartsAreClean(part: nat -> seq<Scope>, modules: seq<string>, all: set<string>,
      clean: string -> bool, apart: (string, string) -> bool)
    requires PartsFollow(part, modules, clean, apart) && AllApart(part, |modules|) && forall m :: m in modules <==> m in all
    ensures AllClean(all, clean, apart)
  {
    forall m {:trigger clean(m)} | m in all ensures clean(m) {
      var i: nat :| i < |modules| && modules[i] == m;
      assert DistinctNodes(part(i));
    }
    forall m, n {:trigger apart(m, n)} | m in all && n in all && m != n ensures apart(m, n) {
      var i: nat :| i < |modules| && modules[i] == m;
      var j: nat :| j < |modules| && modules[j] == n;
      PartsApart(part, |modules|, i, j);
    }
  }

  lemma {:induction false} PartsApart(part: nat -> seq<Scope>, n: nat, i: nat, j: nat)
    requires AllApart(part, n) && i < n && j < n && i != j
    ensures Apart(part(i), part(j))
  {
    if i < j {
      assert Apart(part(i), part(j));
    } else {
      assert Apart(part(j), part(i));
      ApartIsSymmetric(part(j), part(i));
    }
  }

  lemma {:induction false} CleanParts(part: nat -> seq<Scope>, modules: seq<string>, all: set<string>,
      clean: string -> bool, apart: (string, string) -> bool)
    requires PartsFollow(part, modules, clean, apart) && AllClean(all, clean, apart)
    requires (forall m :: m in modules ==> m in all) && forall i, j :: 0 <= i < j < |modules| ==> modules[i] != modules[j]
    ensures AllApart(part, |modules|)
  {
    forall i: nat {:trigger part(i)} | i < |modules| ensures DistinctNodes(part(i)) {
      assert modules[i] in modules && clean(modules[i]);
    }
    forall i: nat, j: nat {:trigger Apart(part(i), part(j))} | i < j < |modules| ensures Apart(part(i), part(j)) {
      assert modules[i] in modules && modules[j] in modules && apart(modules[i], modules[j]);
    }
  }

  /** All cut scopes have nodes of their own exactly when the leaves of the modules' directory trees do. */
  lemma {:induction false} AllCutDiffersExactly(size: Sizes, b: Budget, pathOf: map<string, string>,
      inventory: seq<Tracked>)
    ensures DistinctNodes(AllCut(size, b, pathOf, inventory)) <==> LeavesDiffer(size, b, pathOf, inventory)
  {
    var modules := SortedSet(TrackedModules(inventory));
    var part := CutPart(size, b, pathOf, inventory, modules);
    JoinedDifferExactly(part, |modules|);
    CutsDifferExactly(size, b, pathOf, inventory, modules);
  }

  lemma {:induction false} CutsDifferExactly(size: Sizes, b: Budget, pathOf: map<string, string>,
      inventory: seq<Tracked>, modules: seq<string>)
    requires modules == SortedSet(TrackedModules(inventory))
    ensures AllApart(CutPart(size, b, pathOf, inventory, modules), |modules|)
      <==> LeavesDiffer(size, b, pathOf, inventory)
  {
    if AllApart(CutPart(size, b, pathOf, inventory, modules), |modules|) {
      ApartCutsDiffer(size, b, pathOf, inventory, modules);
    }
    if LeavesDiffer(size, b, pathOf, inventory) { DifferingCutsApart(size, b, pathOf, inventory, modules); }
  }

  lemma {:induction false} ApartCutsDiffer(size: Sizes, b: Budget, pathOf: map<string, string>,
      inventory: seq<Tracked>, modules: seq<string>)
    requires modules == SortedSet(TrackedModules(inventory))
    requires AllApart(CutPart(size, b, pathOf, inventory, modules), |modules|)
    ensures LeavesDiffer(size, b, pathOf, inventory)
  {
    CutsFollow(size, b, pathOf, inventory, modules);
    PartsAreClean(CutPart(size, b, pathOf, inventory, modules), modules, TrackedModules(inventory),
                  CleanModule(size, b, pathOf, inventory), NodesApart(size, b, pathOf, inventory));
  }

  lemma {:induction false} DifferingCutsApart(size: Sizes, b: Budget, pathOf: map<string, string>,
      inventory: seq<Tracked>, modules: seq<string>)
    requires modules == SortedSet(TrackedModules(inventory)) && LeavesDiffer(size, b, pathOf, inventory)
    ensures AllApart(CutPart(size, b, pathOf, inventory, modules), |modules|)
  {
    CutsFollow(size, b, pathOf, inventory, modules);
    CleanParts(CutPart(size, b, pathOf, inventory, modules), modules, TrackedModules(inventory),
               CleanModule(size, b, pathOf, inventory), NodesApart(size, b, pathOf, inventory));
  }

  lemma {:induction false} CutsFollow(size: Sizes, b: Budget, pathOf: map<string, string>, inventory: seq<Tracked>,
      modules: seq<string>)
    requires forall m :: m in modules ==> m in TrackedModules(inventory)
    ensures PartsFollow(CutPart(size, b, pathOf, inventory, modules), modules,
                        CleanModule(size, b, pathOf, inventory), NodesApart(size, b, pathOf, inventory))
  {
    var all, cut := TrackedModules(inventory), ModuleCut(size, b, pathOf, inventory);
    var clean, apart := CleanModule(size, b, pathOf, inventory), NodesApart(size, b, pathOf, inventory);
    CleanIsDistinct(size, b, pathOf, inventory);
    ApartIsApart(size, b, pathOf, inventory);
    PartsAreCuts(size, b, pathOf, inventory, modules);
    CutsAreParts(CutPart(size, b, pathOf, inventory, modules), modules, all, cut, clean, apart);
  }

  ghost predicate CutFrom(part: nat -> seq<Scope>, modules: seq<string>, cut: string -> seq<Scope>) {
    forall i: nat {:trigger part(i)} :: i < |modules| ==> part(i) == cut(modules[i])
  }

  lemma {:induction false} PartsAreCuts(size: Sizes, b: Budget, pathOf: map<string, string>, inventory: seq<Tracked>,
      modules: seq<string>)
    ensures CutFrom(CutPart(size, b, pathOf, inventory, modules), modules, ModuleCut(size, b, pathOf, inventory))
  {
  }

  ghost predicate MeansDistinct(all: set<string>, cut: string -> seq<Scope>, clean: string -> bool) {
    forall m {:trigger MeansDistinctAt(cut, clean, m)} :: m in all ==> MeansDistinctAt(cut, clean, m)
  }

  ghost predicate MeansDistinctAt(cut: string -> seq<Scope>, clean: string -> bool, m: string) {
    DistinctNodes(cut(m)) <==> clean(m)
  }

  ghost predicate MeansApart(all: set<string>, cut: string -> seq<Scope>, apart: (string, string) -> bool) {
    forall m, n {:trigger apart(m, n)} {:trigger Apart(cut(m), cut(n))} ::
      m in all && n in all ==> (Apart(cut(m), cut(n)) <==> apart(m, n))
  }

  lemma {:induction false} CleanIsDistinct(size: Sizes, b: Budget, pathOf: map<string, string>, inventory: seq<Tracked>)
    ensures MeansDistinct(TrackedModules(inventory), ModuleCut(size, b, pathOf, inventory),
                          CleanModule(size, b, pathOf, inventory))
  {
    var cut, clean := ModuleCut(size, b, pathOf, inventory), CleanModule(size, b, pathOf, inventory);
    forall m {:trigger MeansDistinctAt(cut, clean, m)} | m in TrackedModules(inventory)
      ensures MeansDistinctAt(cut, clean, m)
    {
      CleanIsDistinctIn(size, b, pathOf, inventory, m);
    }
  }

  lemma {:induction false} CleanIsDistinctIn(size: Sizes, b: Budget, pathOf: map<string, string>,
      inventory: seq<Tracked>, m: string)
    requires m in TrackedModules(inventory)
    ensures MeansDistinctAt(ModuleCut(size, b, pathOf, inventory), CleanModule(size, b, pathOf, inventory), m)
  {
    ModuleCutDiffers(size, b, pathOf, inventory, m);
  }

  lemma {:induction false} ApartIsApart(size: Sizes, b: Budget, pathOf: map<string, string>, inventory: seq<Tracked>)
    ensures MeansApart(TrackedModules(inventory), ModuleCut(size, b, pathOf, inventory),
                       NodesApart(size, b, pathOf, inventory))
  {
    var cut, apart := ModuleCut(size, b, pathOf, inventory), NodesApart(size, b, pathOf, inventory);
    forall m, n {:trigger apart(m, n)} | m in TrackedModules(inventory) && n in TrackedModules(inventory)
      ensures Apart(cut(m), cut(n)) <==> apart(m, n)
    {
      ModulesApart(size, b, pathOf, inventory, m, n);
    }
  }

  ghost function ModuleCut(size: Sizes, b: Budget, pathOf: map<string, string>, inventory: seq<Tracked>)
      : string -> seq<Scope>
  {
    (m: string) => CutModule(size, b, pathOf, inventory, m)
  }

  lemma {:induction false} CutsAreParts(part: nat -> seq<Scope>, modules: seq<string>, all: set<string>,
      cut: string -> seq<Scope>, clean: string -> bool, apart: (string, string) -> bool)
    requires (forall m :: m in modules ==> m in all) && CutFrom(part, modules, cut)
    requires MeansDistinct(all, cut, clean) && MeansApart(all, cut, apart)
    ensures PartsFollow(part, modules, clean, apart)
  {
    forall i: nat {:trigger part(i)} | i < |modules| ensures DistinctNodes(part(i)) <==> clean(modules[i]) {
      assert modules[i] in modules && MeansDistinctAt(cut, clean, modules[i]);
    }
    forall i: nat, j: nat {:trigger Apart(part(i), part(j))} | i < |modules| && j < |modules|
      ensures Apart(part(i), part(j)) <==> apart(modules[i], modules[j])
    {
      assert modules[i] in modules && modules[j] in modules;
    }
  }

  // ---------------------------------------------------- module names, paths and nodes

  /** What a place's node adds to its start is what its files' paths add to the prefix. */
  ghost predicate GoesDown(p: Place, q: Place, tail: string) {
    && q.node == p.node + tail && (tail == "" || tail[0] == '/')
    && forall f :: f in q.files ==> f in p.files && PassesThrough(f, p.drop, tail)
  }

  /** The path goes through the directory `tail[1..]` below the prefix. */
  ghost predicate PassesThrough(path: string, drop: nat, tail: string) {
    tail != "" ==> drop + |tail| <= |path| && path[drop..drop + |tail|] == tail[1..] + "/"
  }

  lemma {:induction false} PassesOn(f: string, drop: nat, name: string, tail: string)
    requires Below(drop, name)(f) && PassesThrough(f, drop + |name| + 1, tail) && (tail == "" || tail[0] == '/')
    ensures PassesThrough(f, drop, "/" + name + tail)
  {
    var whole := "/" + name + tail;
    assert whole[1..] == name + tail;
    assert f[drop..drop + |name| + 1] == name + "/";
    var k := drop + |name| + 1;
    if tail != "" {
      assert f[drop..k + |tail|] == f[drop..k] + f[k..k + |tail|];
      assert tail == "/" + tail[1..];
      assert f[drop..k + |tail|] == name + "/" + (tail[1..] + "/") == whole[1..] + "/";
    }
  }

  lemma {:induction false} DirIsBelow(split: Split, files: seq<string>, drop: nat, d: Dir, f: string)
    requires Splits(split) && d in split(files, drop) && f in d.files
    ensures f in files && Below(drop, d.name)(f)
  {
    assert split(files, drop) == Dirs(files, drop);
    var i :| 0 <= i < |Dirs(files, drop)| && Dirs(files, drop)[i] == d;
    var name := DirAt(files, drop, i);
    SelectedFrom(files, Below(drop, name), |files|, f);
    assert files[..|files|] == files;
  }

  /** The source's way to name the children of a node. */
  ghost predicate ChildrenNamed(c: Cutter) {
    forall node, name {:trigger c.child(node, name)} :: c.child(node, name) == node + "/" + name
  }

  lemma {:induction false} ReachedGoesDown(c: Cutter, p: Place, names: seq<string>, q: Place) returns (tail: string)
    requires Splits(c.split) && ChildrenNamed(c) && Reaches(c, p, names, q)
    ensures GoesDown(p, q, tail)
    decreases |names|
  {
    if names == [] {
      tail := "";
    } else {
      var d :| d in c.split(p.files, p.drop) && d.name == names[0] && Reaches(c, Enter(c, p, d), names[1..], q);
      var rest := ReachedGoesDown(c, Enter(c, p, d), names[1..], q);
      tail := "/" + d.name + rest;
      EnteredGoesDown(c, p, d, q, rest);
    }
  }

  lemma {:induction false} EnteredGoesDown(c: Cutter, p: Place, d: Dir, q: Place, rest: string)
    requires Splits(c.split) && ChildrenNamed(c) && d in c.split(p.files, p.drop) && GoesDown(Enter(c, p, d), q, rest)
    ensures GoesDown(p, q, "/" + d.name + rest)
  {
    assert p.node + "/" + d.name + rest == p.node + ("/" + d.name + rest);
    forall f | f in q.files ensures f in p.files && PassesThrough(f, p.drop, "/" + d.name + rest) {
      DirIsBelow(c.split, p.files, p.drop, d, f);
      PassesOn(f, p.drop, d.name, rest);
    }
  }

  /** No directory is called like the leaf for loose files, and no module either. */
  ghost predicate PlainNames(inventory: seq<Tracked>) {
    && (forall f, k: nat {:trigger f in inventory, ReservedAt(f.path, k)} :: f in inventory ==> !ReservedAt(f.path, k))
    && forall m {:trigger NodeOf(m)} :: m in TrackedModules(inventory) ==> !IsFilesLeaf(NodeOf(m))
  }

  /** A module named below another has the directory of that name to itself. */
  ghost predicate OwnGround(pathOf: map<string, string>, inventory: seq<Tracked>) {
    forall m, n, tail, f {:trigger InsideModule(m, n, tail), PassesThrough(f, DropOf(pathOf, m), tail)} ::
      m in TrackedModules(inventory) && n in TrackedModules(inventory) && InsideModule(m, n, tail)
      && f in ModuleFiles(inventory, m)
      ==> !PassesThrough(f, DropOf(pathOf, m), tail)
  }

  ghost predicate PlainInventory(pathOf: map<string, string>, inventory: seq<Tracked>) {
    PlainNames(inventory) && OwnGround(pathOf, inventory)
  }

  predicate InsideModule(m: string, n: string, tail: string) {
    NodeOf(n) == NodeOf(m) + tail && tail != "" && tail[0] == '/'
  }

  lemma {:induction false} PathIsTracked(inventory: seq<Tracked>, m: string, n: nat, p: string)
    requires n <= |inventory| && p in PathsOf(inventory, m, n)
    ensures Tracked(p, m) in inventory
  {
    if p in PathsOf(inventory, m, n - 1) { PathIsTracked(inventory, m, n - 1, p); }
  }

  lemma {:induction false} FileIsTracked(inventory: seq<Tracked>, m: string, p: string)
    requires p in ModuleFiles(inventory, m)
    ensures Tracked(p, m) in inventory
  {
    SortMembers(PathsOf(inventory, m, |inventory|), StrLe);
    PathIsTracked(inventory, m, |inventory|, p);
  }

  lemma {:induction false} ReservedIsNotPlain(inventory: seq<Tracked>, m: string, p: string, k: nat)
    requires p in ModuleFiles(inventory, m) && ReservedAt(p, k)
    ensures !PlainNames(inventory)
  {
    FileIsTracked(inventory, m, p);
    assert ReservedAt(Tracked(p, m).path, k);
  }

  lemma {:induction false} CutterChildren(size: Sizes, b: Budget, m: string)
    ensures ChildrenNamed(CutterOf(size, b, m)) && Splits(CutterOf(size, b, m).split)
  {
    CutterCuts(size, b, m);
  }

  lemma {:induction false} ReservedSegment(f: string, drop: nat)
    requires Below(drop, "(files)")(f)
    ensures ReservedAt(f, drop)
  {
    SegmentIsOrdinary(f, drop);
  }

  lemma {:induction false} ClashIsNotPlain(size: Sizes, b: Budget, pathOf: map<string, string>,
      inventory: seq<Tracked>, m: string, names: seq<string>, q: Place)
    requires Reaches(CutterOf(size, b, m), Root(pathOf, inventory, m), names, q) && Clashes(CutterOf(size, b, m), q)
    ensures !PlainNames(inventory)
  {
    CutterChildren(size, b, m);
    var f := ClashHasReserved(CutterOf(size, b, m), Root(pathOf, inventory, m), names, q);
    ReservedIsNotPlain(inventory, m, f, q.drop);
  }

  lemma {:induction false} ClashHasReserved(c: Cutter, p: Place, names: seq<string>, q: Place) returns (f: string)
    requires Splits(c.split) && ChildrenNamed(c) && Reaches(c, p, names, q) && Clashes(c, q)
    ensures f in p.files && ReservedAt(f, q.drop)
  {
    var tail := ReachedGoesDown(c, p, names, q);
    var d :| d in c.split(q.files, q.drop) && d.name == "(files)" && IsWhole(c, Enter(c, q, d));
    f := d.files[0];
    DirIsBelow(c.split, q.files, q.drop, d, f);
    ReservedSegment(f, q.drop);
  }

  /** Where no directory is called `(files)`, loose files meet no scope of that name. */
  lemma {:induction false} PlainIsClean(size: Sizes, b: Budget, pathOf: map<string, string>, inventory: seq<Tracked>,
      m: string)
    requires PlainNames(inventory)
    ensures NoClash(CutterOf(size, b, m), Root(pathOf, inventory, m))
  {
    forall names, q | Reaches(CutterOf(size, b, m), Root(pathOf, inventory, m), names, q)
      ensures !Clashes(CutterOf(size, b, m), q)
    {
      if Clashes(CutterOf(size, b, m), q) { ClashIsNotPlain(size, b, pathOf, inventory, m, names, q); }
    }
  }

  // ------------------------------------------------------------------ two modules

  /** A leaf's node: the module's node, the directories below it, and `/(files)` if the files are loose. */
  ghost predicate LeafTail(pathOf: map<string, string>, inventory: seq<Tracked>, m: string, x: string, tail: string,
      loose: bool, f: string)
  {
    && x == NodeOf(m) + tail + (if loose then "/(files)" else "") && (tail == "" || tail[0] == '/')
    && f in ModuleFiles(inventory, m) && PassesThrough(f, DropOf(pathOf, m), tail)
  }

  lemma {:induction false} NodeHasTail(size: Sizes, b: Budget, pathOf: map<string, string>, inventory: seq<Tracked>,
      m: string, x: string) returns (tail: string, loose: bool, f: string)
    requires NodesIn(size, b, pathOf, inventory, m)(x)
    ensures LeafTail(pathOf, inventory, m, x, tail, loose, f)
  {
    var c, p := CutterOf(size, b, m), Root(pathOf, inventory, m);
    CutterChildren(size, b, m);
    var names, q :| Reaches(c, p, names, q) && HasNode(c, q, x);
    tail := ReachedGoesDown(c, p, names, q);
    loose := KindOfNode(c, q, x);
    f := q.files[0];
    DownHasTail(pathOf, inventory, m, q, x, tail, loose);
  }

  lemma {:induction false} KindOfNode(c: Cutter, q: Place, x: string) returns (loose: bool)
    requires ChildrenNamed(c) && HasNode(c, q, x)
    ensures q.files != [] && x == if loose then q.node + "/" + "(files)" else q.node
  {
    loose := x != q.node;
  }

  lemma {:induction false} DownHasTail(pathOf: map<string, string>, inventory: seq<Tracked>, m: string, q: Place,
      x: string, tail: string, loose: bool)
    requires GoesDown(Root(pathOf, inventory, m), q, tail) && q.files != []
    requires x == if loose then q.node + "/" + "(files)" else q.node
    ensures LeafTail(pathOf, inventory, m, x, tail, loose, q.files[0])
  {
    assert q.files[0] in q.files;
    assert "/" + "(files)" == "/(files)";
    assert q.node + "/" + "(files)" == q.node + ("/" + "(files)");
    assert q.node + "" == q.node;
  }

  lemma {:induction false} OneInsideOther(a: string, t: string, d: string, u: string) returns (rest: string)
    requires a + t == d + u && |a| <= |d| && (t == "" || t[0] == '/')
    ensures d == a + rest && t == rest + u && (rest == "" || rest[0] == '/')
  {
    rest := d[|a|..];
    assert d == (d + u)[..|d|] == (a + t)[..|d|];
    assert a == (a + t)[..|a|] == d[..|a|];
    assert t == (a + t)[|a|..] == (d + u)[|a|..] == rest + u;
  }

  lemma {:induction false} PassesFirst(f: string, drop: nat, tail: string, more: string)
    requires PassesThrough(f, drop, tail + more) && tail != "" && (more == "" || more[0] == '/')
    ensures PassesThrough(f, drop, tail)
  {
    var whole := tail + more;
    var read := f[drop..drop + |whole|];
    assert f[drop..drop + |tail|] == read[..|tail|];
    assert whole[1..] == tail[1..] + more;
    if more == "" {
      assert whole == tail;
    } else {
      assert more == "/" + more[1..];
      assert (tail[1..] + more + "/")[..|tail|] == tail[1..] + "/";
    }
  }

  /** Two leaves of one name lie in one module, or one module reaches into the other's directory. */
  lemma {:induction false} SameTailsMeet(pathOf: map<string, string>, inventory: seq<Tracked>, m: string, n: string,
      t: string, u: string, f: string)
    requires m in TrackedModules(inventory) && n in TrackedModules(inventory)
    requires NodeOf(m) + t == NodeOf(n) + u && (t == "" || t[0] == '/') && (u == "" || u[0] == '/')
    requires f in ModuleFiles(inventory, m) && PassesThrough(f, DropOf(pathOf, m), t) && |NodeOf(m)| <= |NodeOf(n)|
    ensures m == n || !OwnGround(pathOf, inventory)
  {
    var rest := OneInsideOther(NodeOf(m), t, NodeOf(n), u);
    if rest == "" {
      assert NodeOf(m) == NodeOf(n);
      NodesNameModules(m, n);
    } else {
      PassesFirst(f, DropOf(pathOf, m), rest, u);
      assert InsideModule(m, n, rest);
    }
  }

  lemma {:induction false} NodesNameModules(m: string, n: string)
    requires NodeOf(m) == NodeOf(n)
    ensures m == n
  {
    if m != ROOT_MODULE && n != ROOT_MODULE {
      assert m == NodeOf(m)[5..] && n == NodeOf(n)[5..];
    }
  }

  lemma {:induction false} TailIsLong(a: string, tail: string, y: string)
    requires a + tail == y + "/(files)" && tail != "" && tail[0] == '/'
    ensures |tail| >= 8 && tail[|tail| - 8..] == "/(files)"
  {
    var x := a + tail;
    assert x[|x| - |tail|] == tail[0];
    forall j | |x| - 7 <= j < |x| ensures x[j] != '/' { assert x[j] == "/(files)"[j - (|x| - 8)]; }
    assert tail[|tail| - 8..] == x[|x| - 8..] == "/(files)";
  }

  /** A directory's node ends like one of loose files only where a directory or a module is called so. */
  lemma {:induction false} WholeMeetsLoose(pathOf: map<string, string>, inventory: seq<Tracked>, m: string,
      tail: string, f: string, y: string)
    requires m in TrackedModules(inventory)
    requires NodeOf(m) + tail == y + "/(files)" && (tail == "" || tail[0] == '/')
    requires f in ModuleFiles(inventory, m) && PassesThrough(f, DropOf(pathOf, m), tail)
    ensures !PlainNames(inventory)
  {
    if tail == "" {
      assert NodeOf(m) == y + "/(files)";
      assert IsFilesLeaf(NodeOf(m));
    } else {
      TailIsLong(NodeOf(m), tail, y);
      EndsReserved(f, DropOf(pathOf, m), tail);
      ReservedIsNotPlain(inventory, m, f, DropOf(pathOf, m) + |tail| - 8);
    }
  }

  lemma {:induction false} EndsReserved(f: string, drop: nat, tail: string)
    requires |tail| >= 8 && tail[|tail| - 8..] == "/(files)" && PassesThrough(f, drop, tail)
    ensures ReservedAt(f, drop + |tail| - 8)
  {
    var read, k := f[drop..drop + |tail|], |tail| - 8;
    assert f[drop + k..drop + k + 8] == read[k..];
    assert read[k..] == tail[k + 1..] + "/";
    assert tail[k + 1..] == tail[k..][1..] == "(files)";
  }

  lemma {:induction false} LeavesMeet(pathOf: map<string, string>, inventory: seq<Tracked>, m: string, n: string,
      x: string, t: string, u: string, loose: bool, looseToo: bool, f: string, g: string)
    requires m in TrackedModules(inventory) && n in TrackedModules(inventory)
    requires LeafTail(pathOf, inventory, m, x, t, loose, f) && LeafTail(pathOf, inventory, n, x, u, looseToo, g)
    ensures m == n || !PlainNames(inventory) || !OwnGround(pathOf, inventory)
  {
    if loose == looseToo {
      SameWithoutEnd(NodeOf(m) + t, NodeOf(n) + u, if loose then "/(files)" else "");
      if |NodeOf(m)| <= |NodeOf(n)| {
        SameTailsMeet(pathOf, inventory, m, n, t, u, f);
      } else {
        SameTailsMeet(pathOf, inventory, n, m, u, t, g);
      }
    } else if loose {
      WholeMeetsLoose(pathOf, inventory, n, u, g, NodeOf(m) + t);
    } else {
      WholeMeetsLoose(pathOf, inventory, m, t, f, NodeOf(n) + u);
    }
  }

  lemma {:induction false} SameWithoutEnd(a: string, d: string, end: string)
    requires a + end == d + end
    ensures a == d
  {
    assert |a| == |d|;
    assert a == (a + end)[..|a|] && d == (d + end)[..|d|];
  }

  lemma {:induction false} SharedNodeMeets(size: Sizes, b: Budget, pathOf: map<string, string>, inventory: seq<Tracked>,
      m: string, n: string, x: string)
    requires m in TrackedModules(inventory) && n in TrackedModules(inventory)
    requires NodesIn(size, b, pathOf, inventory, m)(x) && NodesIn(size, b, pathOf, inventory, n)(x)
    ensures m == n || !PlainNames(inventory) || !OwnGround(pathOf, inventory)
  {
    var t, loose, f := NodeHasTail(size, b, pathOf, inventory, m, x);
    var u, looseToo, g := NodeHasTail(size, b, pathOf, inventory, n, x);
    LeavesMeet(pathOf, inventory, m, n, x, t, u, loose, looseToo, f, g);
  }

  /** An inventory that every caller can check: no directory or module is called `(files)`, and a module named below
  another has that directory to itself. Then all cut scopes have nodes of their own, whatever the budget. */
  lemma {:induction false} PlainInventoryCutsClean(size: Sizes, b: Budget, pathOf: map<string, string>,
      inventory: seq<Tracked>)
    requires PlainInventory(pathOf, inventory)
    ensures DistinctNodes(AllCut(size, b, pathOf, inventory))
  {
    PlainLeavesDiffer(size, b, pathOf, inventory);
    AllCutDiffersExactly(size, b, pathOf, inventory);
  }

  lemma {:induction false} PlainLeavesDiffer(size: Sizes, b: Budget, pathOf: map<string, string>,
      inventory: seq<Tracked>)
    requires PlainInventory(pathOf, inventory)
    ensures LeavesDiffer(size, b, pathOf, inventory)
  {
    PlainModulesClean(size, b, pathOf, inventory);
    var apart := NodesApart(size, b, pathOf, inventory);
    forall m, n {:trigger apart(m, n)} | m in TrackedModules(inventory) && n in TrackedModules(inventory) && m != n
      ensures apart(m, n)
    {
      PlainModulesApart(size, b, pathOf, inventory, m, n);
    }
  }

  lemma {:induction false} PlainModulesClean(size: Sizes, b: Budget, pathOf: map<string, string>,
      inventory: seq<Tracked>)
    requires PlainNames(inventory)
    ensures EachClean(TrackedModules(inventory), CleanModule(size, b, pathOf, inventory))
  {
    var clean := CleanModule(size, b, pathOf, inventory);
    forall m {:trigger clean(m)} | m in TrackedModules(inventory) ensures clean(m) {
      PlainIsClean(size, b, pathOf, inventory, m);
    }
  }

  lemma {:induction false} PlainModulesApart(size: Sizes, b: Budget, pathOf: map<string, string>,
      inventory: seq<Tracked>, m: string, n: string)
    requires PlainNames(inventory) && OwnGround(pathOf, inventory)
    requires m in TrackedModules(inventory) && n in TrackedModules(inventory) && m != n
    ensures NodesApart(size, b, pathOf, inventory)(m, n)
  {
    var f, g := NodesIn(size, b, pathOf, inventory, m), NodesIn(size, b, pathOf, inventory, n);
    forall x {:trigger f(x)} {:trigger g(x)} | f(x) ensures !g(x) {
      if g(x) { SharedNodeMeets(size, b, pathOf, inventory, m, n, x); }
    }
  }
}
