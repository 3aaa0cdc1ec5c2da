/** Repositories whose partition falls short of what is said of it. */
module PartitionExamples {
  import opened Orders
  import opened Scopes
  import opened Cutting
  import opened CutScopes
  import opened CutNodes
  import opened ModuleCuts

  // ---------------------------------------------------------------- a named directory

  lemma {:induction false} NamedDir(files: seq<string>, drop: nat, f: string) returns (i: nat)
    requires f in files && !IsHere(f, drop)
    ensures i < |Dirs(files, drop)|
    ensures Dirs(files, drop)[i] == Dir(Segment(f, drop), GroupFiles(files, drop, Segment(f, drop)))
  {
    var all := Names(files, drop, |files|);
    assert files[..|files|] == files;
    NameIsListed(files, drop, f, |files|);
    assert Segment(f, drop) in SortedSet(all);
    i :| 0 <= i < |SortedSet(all)| && SortedSet(all)[i] == Segment(f, drop);
  }

  lemma {:induction false} LooseIsHere(files: seq<string>, drop: nat, f: string)
    requires f in files && IsHere(f, drop)
    ensures f in HereFiles(files, drop)
  {
    assert files[..|files|] == files;
    SelectedFrom(files, Here(drop), |files|, f);
  }

  lemma {:induction false} BelowIsGrouped(files: seq<string>, drop: nat, name: string, f: string)
    requires f in files && Below(drop, name)(f)
    ensures f in GroupFiles(files, drop, name)
  {
    assert files[..|files|] == files;
    SelectedFrom(files, Below(drop, name), |files|, f);
  }

  /** A directory over budget with a loose file and, in a directory `(files)`, files that fit: two scopes of one
  node. */
  lemma {:induction false} FilesDirectoryClashes(c: Cutter, p: Place, loose: string, inside: string)
    requires Splits(c.split) && !c.fits(p.files) && loose in p.files && inside in p.files
    requires IsHere(loose, p.drop) && Below(p.drop, "(files)")(inside)
    requires c.fits(GroupFiles(p.files, p.drop, "(files)"))
    ensures Clashes(c, p)
  {
    var i := NamedDir(p.files, p.drop, inside);
    var dirs := c.split(p.files, p.drop);
    assert dirs == Dirs(p.files, p.drop);
    LooseIsHere(p.files, p.drop, loose);
    BelowIsGrouped(p.files, p.drop, "(files)", inside);
    assert dirs[i] in dirs && dirs[i].name == "(files)" && IsWhole(c, Enter(c, p, dirs[i]));
  }

  // -------------------------------------------------------------------- the examples

  const ONE_FILE := Budget(1, 10)

  function OneLine(): Sizes {
    (path: string) => 1
  }

  lemma {:induction false} OneLineEach(files: seq<string>)
    ensures TotalLoc(OneLine(), files) == |files|
  {
    if files != [] { OneLineEach(files[1..]); }
  }

  lemma {:induction false} SelectMisses(s: seq<string>, p: string -> bool, n: nat, i: nat)
    requires i < n <= |s| && !p(s[i])
    ensures |Select(s, p, n)| < n
  {
    if i < n - 1 { SelectMisses(s, p, n - 1, i); }
  }

  function InRoot(paths: seq<string>, n: nat): (r: seq<Tracked>)
    requires n <= |paths|
    ensures |r| == n && forall i :: 0 <= i < n ==> r[i] == Tracked(paths[i], ROOT_MODULE)
  {
    if n == 0 then [] else InRoot(paths, n - 1) + [Tracked(paths[n - 1], ROOT_MODULE)]
  }

  lemma {:induction false} RootPaths(paths: seq<string>, n: nat)
    requires n <= |paths|
    ensures PathsOf(InRoot(paths, |paths|), ROOT_MODULE, n) == paths[..n]
  {
    if n > 0 { RootPaths(paths, n - 1); }
  }

  /** A repository without modules: all files are the root's. */
  lemma {:induction false} RootFiles(paths: seq<string>)
    ensures var p := Root(map[], InRoot(paths, |paths|), ROOT_MODULE);
      p.drop == 0 && |p.files| == |paths| && forall f :: f in p.files <==> f in paths
  {
    RootPaths(paths, |paths|);
    assert paths[..|paths|] == paths;
    SortMembers(paths, StrLe);
  }

  lemma {:induction false} RootIsTracked(paths: seq<string>)
    requires paths != []
    ensures ROOT_MODULE in TrackedModules(InRoot(paths, |paths|))
  {
    assert InRoot(paths, |paths|)[0] in InRoot(paths, |paths|);
  }

  /** In a repository of the two files `(files)/x` and `y`, with a budget of one file per scope, both scopes get the
  node `root/(files)`, so the partition fails. */
  lemma {:induction false} FilesDirectoryFails()
    ensures !LeavesDiffer(OneLine(), ONE_FILE, map[], InRoot(["(files)/x", "y"], 2))
  {
    var inside, loose := "(files)/x", "y";
    SlashIs(loose, 0, 1);
    SlashIs(inside, 0, 7);
    assert inside[0..7] == "(files)";
    TwoFilesFail(inside, loose);
  }

  lemma {:induction false} TwoFilesFail(inside: string, loose: string)
    requires Below(0, "(files)")(inside) && IsHere(loose, 0)
    ensures !LeavesDiffer(OneLine(), ONE_FILE, map[], InRoot([inside, loose], 2))
  {
    var paths := [inside, loose];
    RootFiles(paths);
    RootIsTracked(paths);
    TwoFilesClash(OneLine(), Root(map[], InRoot(paths, 2), ROOT_MODULE), inside, loose);
    ClashFails(OneLine(), ONE_FILE, map[], InRoot(paths, 2), ROOT_MODULE);
  }

  lemma {:induction false} TwoFilesClash(size: Sizes, p: Place, inside: string, loose: string)
    requires size == OneLine() && p.drop == 0 && |p.files| == 2 && inside in p.files && loose in p.files
    requires Below(0, "(files)")(inside) && IsHere(loose, 0)
    ensures Clashes(CutterOf(size, ONE_FILE, ROOT_MODULE), p)
  {
    CutterCuts(size, ONE_FILE, ROOT_MODULE);
    var i :| 0 <= i < |p.files| && p.files[i] == loose;
    SelectMisses(p.files, Below(0, "(files)"), 2, i);
    OneLineEach(GroupFiles(p.files, 0, "(files)"));
    FilesDirectoryClashes(CutterOf(size, ONE_FILE, ROOT_MODULE), p, loose, inside);
  }

  /** A clash where a module's cut starts is enough. */
  lemma {:induction false} ClashFails(size: Sizes, b: Budget, pathOf: map<string, string>, inventory: seq<Tracked>,
      m: string)
    requires m in TrackedModules(inventory) && Clashes(CutterOf(size, b, m), Root(pathOf, inventory, m))
    ensures !LeavesDiffer(size, b, pathOf, inventory)
  {
    NoClashHere(CutterOf(size, b, m), Root(pathOf, inventory, m));
    assert !CleanModule(size, b, pathOf, inventory)(m);
  }

  lemma {:induction false} NoClashHere(c: Cutter, p: Place)
    ensures NoClash(c, p) ==> !Clashes(c, p)
  {
    assert Reaches(c, p, [], p);
  }

  // ------------------------------------------------------------------ loose files

  /** Where a module's own loose files exceed the budget and it has directories too, they become one scope that is over
  budget and not flagged. */
  lemma {:induction false} LooseFilesUnflagged(size: Sizes, b: Budget, pathOf: map<string, string>,
      inventory: seq<Tracked>, m: string) returns (s: Scope)
    requires m in TrackedModules(inventory)
    requires var p := Root(pathOf, inventory, m); var here := HereFiles(p.files, p.drop);
      !Fits(b, |p.files|, TotalLoc(size, p.files)) && Dirs(p.files, p.drop) != []
      && here != [] && !Fits(b, |here|, TotalLoc(size, here))
    ensures s in AllCut(size, b, pathOf, inventory) && !Fits(b, s.fileCount, s.loc) && !s.oversized
  {
    ModuleHasFiles(inventory, m);
    s := LooseScope(size, b, m, Root(pathOf, inventory, m));
    InEveryCut(size, b, pathOf, inventory, m, s);
  }

  lemma {:induction false} LooseScope(size: Sizes, b: Budget, m: string, p: Place) returns (s: Scope)
    requires !Fits(b, |p.files|, TotalLoc(size, p.files)) && Dirs(p.files, p.drop) != [] && p.files != []
    requires HereFiles(p.files, p.drop) != []
    ensures Splits(CutterOf(size, b, m).split) && s in CutAt(CutterOf(size, b, m), p)
    ensures var here := HereFiles(p.files, p.drop);
      s.fileCount == |here| && s.loc == TotalLoc(size, here) && !s.oversized
  {
    CutterCuts(size, b, m);
    s := LooseIsCut(CutterOf(size, b, m), size, b, m, p);
  }

  lemma {:induction false} LooseIsCut(c: Cutter, size: Sizes, b: Budget, m: string, p: Place) returns (s: Scope)
    requires Cuts(c, size, b, m) && IsLoose(c, p)
    ensures Splits(c.split) && s in CutAt(c, p)
    ensures var here := HereFiles(p.files, p.drop);
      s.fileCount == |here| && s.loc == TotalLoc(size, here) && !s.oversized
  {
    var node, here := c.child(p.node, "(files)"), HereFiles(p.files, p.drop);
    s := ScopeOf(size, node, m, here, false);
    assert s == c.scope(node, here, false);
    assert Reaches(c, p, [], p) && MakesScope(c, p, s);
    PlaceHasScope(c, p, [], p, s);
  }

  lemma {:induction false} InEveryCut(size: Sizes, b: Budget, pathOf: map<string, string>, inventory: seq<Tracked>,
      m: string, s: Scope)
    requires m in TrackedModules(inventory) && s in CutModule(size, b, pathOf, inventory, m)
    ensures s in AllCut(size, b, pathOf, inventory)
  {
    var modules := SortedSet(TrackedModules(inventory));
    assert m in modules;
    var k :| 0 <= k < |modules| && modules[k] == m;
    InJoined(CutPart(size, b, pathOf, inventory, modules), |modules|, k, s);
  }

  lemma {:induction false} TwoMembers(s: seq<string>, x: string, y: string)
    requires x in s && y in s && x != y
    ensures |s| >= 2
  {
  }

  /** In a repository of the files `d/z`, `x` and `y`, with a budget of one file per scope, `x` and `y` are one scope,
  not flagged. */
  lemma {:induction false} LooseFilesOverBudget() returns (s: Scope)
    ensures s in AllCut(OneLine(), ONE_FILE, map[], InRoot(["d/z", "x", "y"], 3))
    ensures !Fits(ONE_FILE, s.fileCount, s.loc) && !s.oversized
  {
    var inside, x, y := "d/z", "x", "y";
    SlashIs(x, 0, 1);
    SlashIs(y, 0, 1);
    SlashIs(inside, 0, 1);
    assert x[0] != y[0];
    s := ThreeFiles(inside, x, y);
  }

  lemma {:induction false} ThreeFiles(inside: string, x: string, y: string) returns (s: Scope)
    requires !IsHere(inside, 0) && IsHere(x, 0) && IsHere(y, 0) && x != y
    ensures s in AllCut(OneLine(), ONE_FILE, map[], InRoot([inside, x, y], 3))
    ensures !Fits(ONE_FILE, s.fileCount, s.loc) && !s.oversized
  {
    var paths := [inside, x, y];
    var inventory := InRoot(paths, 3);
    var p := Root(map[], inventory, ROOT_MODULE);
    RootFiles(paths);
    RootIsTracked(paths);
    assert inside in p.files && x in p.files && y in p.files;
    var i := NamedDir(p.files, 0, inside);
    LooseIsHere(p.files, 0, x);
    LooseIsHere(p.files, 0, y);
    TwoMembers(HereFiles(p.files, 0), x, y);
    s := LooseFilesUnflagged(OneLine(), ONE_FILE, map[], inventory, ROOT_MODULE);
  }
}
