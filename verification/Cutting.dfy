/** Top-down cutting of one module's files into scopes (cdp/partition.py:72-108, 273-289). */
module Cutting {
  import opened Orders
  import opened Scopes

  /** Lines of code of each tracked path. */
  type Sizes = string -> nat

  /** A leaf scope; languages and roles are not part of this model. */
  datatype Budget = Budget(maxFiles: int, maxLoc: int)

  function TotalLoc(size: Sizes, files: seq<string>): nat {
    if files == [] then 0 else size(files[0]) + TotalLoc(size, files[1..])
  }

  predicate Fits(b: Budget, files: nat, loc: nat) {
    files <= b.maxFiles && loc <= b.maxLoc
  }

  /** `_scope`. */
  function ScopeOf(size: Sizes, node: string, moduleName: string, files: seq<string>, oversized: bool): Scope {
    Scope(node, moduleName, StableSort(files, StrLe), |files|, TotalLoc(size, files), oversized)
  }

  // ------------------------------------------------------------------ path segments

  /** The first slash of `path[drop:]`, as an index of the whole path. */
  ghost predicate FirstSlash(path: string, drop: nat, i: nat) {
    drop <= i < |path| && path[i] == '/' && forall j :: drop <= j < i ==> path[j] != '/'
  }

  /** Where that slash is; the length of the path if there is none. */
  ghost function Slash(path: string, drop: nat): (i: nat)
    ensures i == |path| || drop <= i < |path|
  {
    if i: nat :| FirstSlash(path, drop, i) then i else |path|
  }

  /** How much of the path is left: `len(path[drop:])`. */
  function Left(path: string, drop: nat): nat {
    if drop <= |path| then |path| - drop else 0
  }

  /** The file lies directly here, not in a directory below. */
  ghost predicate IsHere(path: string, drop: nat) {
    Slash(path, drop) == |path|
  }

  /** The directory below that the file lies in. */
  ghost function Segment(path: string, drop: nat): string
    requires !IsHere(path, drop)
  {
    path[drop..Slash(path, drop)]
  }

  ghost function Here(drop: nat): string -> bool {
    (p: string) => IsHere(p, drop)
  }

  ghost function Below(drop: nat, name: string): string -> bool {
    (p: string) => !IsHere(p, drop) && Segment(p, drop) == name
  }

  ghost function HereFiles(files: seq<string>, drop: nat): seq<string> {
    Select(files, Here(drop), |files|)
  }

  ghost function GroupFiles(files: seq<string>, drop: nat, name: string): seq<string> {
    Select(files, Below(drop, name), |files|)
  }

  /** The names of the directories below, among the first `n` files. */
  ghost function Names(files: seq<string>, drop: nat, n: nat): set<string>
    requires n <= |files|
  {
    if n == 0 then {} else Names(files, drop, n - 1) + NameOf(files[n - 1], drop)
  }

  ghost function NameOf(path: string, drop: nat): set<string> {
    if IsHere(path, drop) then {} else {Segment(path, drop)}
  }

  // ------------------------------------------------------------------- termination

  /** The path depth still to be cut: the characters left in the first `n` paths. */
  ghost function DepthTo(files: seq<string>, drop: nat, n: nat): nat
    requires n <= |files|
  {
    if n == 0 then 0 else DepthTo(files, drop, n - 1) + Left(files[n - 1], drop)
  }

  ghost function Depth(files: seq<string>, drop: nat): nat {
    DepthTo(files, drop, |files|)
  }

  lemma {:induction false} DepthOfPrefix(files: seq<string>, p: string, drop: nat, n: nat)
    requires n <= |files|
    ensures DepthTo(files + [p], drop, n) == DepthTo(files, drop, n)
  {
    if n > 0 { DepthOfPrefix(files, p, drop, n - 1); }
  }

  lemma {:induction false} DepthPush(files: seq<string>, p: string, drop: nat)
    ensures Depth(files + [p], drop) == Depth(files, drop) + Left(p, drop)
  {
    DepthOfPrefix(files, p, drop, |files|);
  }

  lemma {:induction false} RestShrinks(p: string, drop: nat, name: string)
    requires Below(drop, name)(p)
    ensures Left(p, drop + |name| + 1) + |name| + 1 == Left(p, drop)
  {
  }

  lemma {:induction false} GroupIsShallower(files: seq<string>, drop: nat, name: string, n: nat)
    requires n <= |files|
    ensures var group := Select(files, Below(drop, name), n);
      Depth(group, drop + |name| + 1) + |group| <= DepthTo(files, drop, n)
  {
    if n > 0 {
      GroupIsShallower(files, drop, name, n - 1);
      var before := Select(files, Below(drop, name), n - 1);
      if Below(drop, name)(files[n - 1]) {
        RestShrinks(files[n - 1], drop, name);
        DepthPush(before, files[n - 1], drop + |name| + 1);
        assert Select(files, Below(drop, name), n) == before + [files[n - 1]];
      } else {
        assert before + [] == before;
      }
    }
  }

  lemma {:induction false} GroupIsInhabited(files: seq<string>, drop: nat, name: string, n: nat)
    requires n <= |files|
    ensures name in Names(files, drop, n) <==> Select(files, Below(drop, name), n) != []
  {
    if n > 0 { GroupIsInhabited(files, drop, name, n - 1); }
  }

  /** A directory below: its name and its files. */
  datatype Dir = Dir(name: string, files: seq<string>)

  ghost predicate IsShallow(d: Dir, drop: nat, bound: nat) {
    Depth(d.files, drop + |d.name| + 1) < bound
  }

  /** Each directory below is strictly shallower than the whole. */
  lemma {:induction false} GroupCuts(files: seq<string>, drop: nat, name: string)
    requires name in Names(files, drop, |files|)
    ensures IsShallow(Dir(name, GroupFiles(files, drop, name)), drop, Depth(files, drop))
  {
    GroupIsShallower(files, drop, name, |files|);
    GroupIsInhabited(files, drop, name, |files|);
  }

  // --------------------------------------------------------------------- the cut

  ghost function DirsNamed(files: seq<string>, drop: nat, names: seq<string>): (r: seq<Dir>)
    ensures |r| == |names|
    ensures forall i :: 0 <= i < |r| ==> r[i] == Dir(names[i], GroupFiles(files, drop, names[i]))
  {
    if names == [] then []
    else [Dir(names[0], GroupFiles(files, drop, names[0]))] + DirsNamed(files, drop, names[1..])
  }

  /** The directories below, in the order of their names. */
  ghost function Dirs(files: seq<string>, drop: nat): seq<Dir> {
    DirsNamed(files, drop, SortedSet(Names(files, drop, |files|)))
  }

  /** Every directory is strictly shallower than `bound`. */
  ghost predicate Shallower(dirs: seq<Dir>, drop: nat, bound: nat) {
    forall i :: 0 <= i < |dirs| ==> IsShallow(dirs[i], drop, bound)
  }

  lemma {:induction false} SortedMembers(s: set<string>, i: nat)
    requires i < |SortedSet(s)|
    ensures SortedSet(s)[i] in s
  {
    assert SortedSet(s)[i] in SortedSet(s);
  }

  lemma {:induction false} DirAt(files: seq<string>, drop: nat, i: nat) returns (name: string)
    requires i < |Dirs(files, drop)|
    ensures name in Names(files, drop, |files|) && Dirs(files, drop)[i] == Dir(name, GroupFiles(files, drop, name))
  {
    var all := Names(files, drop, |files|);
    name := SortedSet(all)[i];
    SortedMembers(all, i);
  }

  lemma {:induction false} DirIsShallow(files: seq<string>, drop: nat, i: nat)
    requires i < |Dirs(files, drop)|
    ensures IsShallow(Dirs(files, drop)[i], drop, Depth(files, drop))
  {
    var name := DirAt(files, drop, i);
    GroupCuts(files, drop, name);
  }

  lemma {:induction false} DirsAreShallower(files: seq<string>, drop: nat)
    ensures Shallower(Dirs(files, drop), drop, Depth(files, drop))
  {
    var dirs, bound := Dirs(files, drop), Depth(files, drop);
    forall i | 0 <= i < |dirs| ensures IsShallow(dirs[i], drop, bound) { DirIsShallow(files, drop, i); }
  }

  /** The directories of a file list, as a function value. */
  type Split = (seq<string>, nat) -> seq<Dir>

  ghost predicate Splits(split: Split) {
    forall files, drop {:trigger Dirs(files, drop)} :: split(files, drop) == Dirs(files, drop)
  }

  lemma {:induction false} SplitIsShallower(split: Split, files: seq<string>, drop: nat)
    requires Splits(split)
    ensures Shallower(split(files, drop), drop, Depth(files, drop))
  {
    DirsAreShallower(files, drop);
  }

  /** The node of a directory below, or of the loose files. */
  function Child(node: string, name: string): string {
    node + "/" + name
  }

  /** What a cut within one module depends on: which file lists fit the budget, how they split, how nodes are named
  and how scopes are made. */
  datatype Cutter = Cutter(fits: seq<string> -> bool, split: Split, child: (string, string) -> string,
                           scope: (string, seq<string>, bool) -> Scope)

  /** The functions of `c` are those of the source. */
  ghost predicate Cuts(c: Cutter, size: Sizes, b: Budget, moduleName: string) {
    && Splits(c.split)
    && (forall f {:trigger TotalLoc(size, f)} :: c.fits(f) == Fits(b, |f|, TotalLoc(size, f)))
    && (forall node, name {:trigger Child(node, name)} :: c.child(node, name) == Child(node, name))
    && (forall node, f, o {:trigger ScopeOf(size, node, moduleName, f, o)} ::
          c.scope(node, f, o) == ScopeOf(size, node, moduleName, f, o))
  }

  ghost function CutterOf(size: Sizes, b: Budget, moduleName: string): Cutter {
    Cutter((f: seq<string>) => Fits(b, |f|, TotalLoc(size, f)), (f: seq<string>, drop: nat) => Dirs(f, drop),
           (node: string, name: string) => Child(node, name),
           (node: string, f: seq<string>, o: bool) => ScopeOf(size, node, moduleName, f, o))
  }

  lemma {:induction false} CutterCuts(size: Sizes, b: Budget, moduleName: string)
    ensures Cuts(CutterOf(size, b, moduleName), size, b, moduleName)
  {
  }

  ghost function HereScope(c: Cutter, node: string, drop: nat, files: seq<string>): seq<Scope> {
    var here := HereFiles(files, drop);
    if here == [] then [] else [c.scope(c.child(node, "(files)"), here, false)]
  }

  /** What `_cut` appends. */
  ghost function CutOf(c: Cutter, node: string, drop: nat, files: seq<string>): seq<Scope>
    requires Splits(c.split)
    decreases Depth(files, drop), 1
  {
    if files == [] then []
    else if c.fits(files) then [c.scope(node, files, false)]
    else if c.split(files, drop) == [] then [c.scope(node, files, true)]
    else
      SplitIsShallower(c.split, files, drop);
      HereScope(c, node, drop, files)
      + Joined(PartsOf(c, node, drop, c.split(files, drop), Depth(files, drop)), |c.split(files, drop)|)
  }

  /** What is cut of each directory below; `bound` is the depth they stay under. */
  ghost function PartsOf(c: Cutter, node: string, drop: nat, dirs: seq<Dir>, bound: nat): nat -> seq<Scope>
    requires Splits(c.split)
    decreases bound, 0
  {
    (i: nat) =>
      if i < |dirs| && IsShallow(dirs[i], drop, bound) then
        CutOf(c, c.child(node, dirs[i].name), drop + |dirs[i].name| + 1, dirs[i].files)
      else
        []
  }

  /** One cut for each of the first `n` directories below. */
  ghost function CutDirs(c: Cutter, node: string, drop: nat, dirs: seq<Dir>, n: nat, bound: nat): seq<Scope>
    requires Splits(c.split) && n <= |dirs| && Shallower(dirs, drop, bound)
  {
    Joined(PartsOf(c, node, drop, dirs, bound), n)
  }

  /** What is cut of one directory. */
  ghost function PartOf(c: Cutter, node: string, drop: nat, d: Dir): seq<Scope>
    requires Splits(c.split)
  {
    CutOf(c, c.child(node, d.name), drop + |d.name| + 1, d.files)
  }

  lemma {:induction false} CutOneMore(c: Cutter, node: string, drop: nat, dirs: seq<Dir>, n: nat, bound: nat)
    requires Splits(c.split) && n < |dirs| && Shallower(dirs, drop, bound)
    ensures CutDirs(c, node, drop, dirs, n + 1, bound)
      == CutDirs(c, node, drop, dirs, n, bound) + PartOf(c, node, drop, dirs[n])
  {
    assert IsShallow(dirs[n], drop, bound);
  }

  // ------------------------------------------------------------------- the loops

  /** The files here and in each directory below, among the first `n`. */
  ghost predicate Grouped(files: seq<string>, drop: nat, n: nat, here: seq<string>, groups: map<string, seq<string>>) {
    && n <= |files| && here == Select(files, Here(drop), n) && groups.Keys == Names(files, drop, n)
    && forall m :: m in groups ==> groups[m] == Select(files, Below(drop, m), n)
  }

  lemma {:induction false} GroupOne(files: seq<string>, drop: nat, n: nat, here: seq<string>,
      groups: map<string, seq<string>>, name: string)
    requires n < |files| && Grouped(files, drop, n, here, groups)
    requires !IsHere(files[n], drop) && name == Segment(files[n], drop)
    ensures Grouped(files, drop, n + 1, here,
                    groups[name := (if name in groups then groups[name] else []) + [files[n]]])
  {
    GroupIsInhabited(files, drop, name, n);
  }

  /** `path[drop:].split("/", 1)`: where to split, or the length of the path when there is no slash. */
  method FindSlash(path: string, drop: nat) returns (i: nat)
    ensures i == Slash(path, drop)
  {
    i := drop;
    while i < |path| && path[i] != '/'
      invariant drop <= i && forall j :: drop <= j < i && j < |path| ==> path[j] != '/'
    {
      i := i + 1;
    }
    if i < |path| { assert FirstSlash(path, drop, i); } else { i := |path|; }
  }

  /** The loop that sorts the files into those here and those in each directory below. */
  method Group(files: seq<string>, drop: nat) returns (here: seq<string>, groups: map<string, seq<string>>)
    ensures Grouped(files, drop, |files|, here, groups)
  {
    here, groups := [], map[];
    for i := 0 to |files|
      invariant Grouped(files, drop, i, here, groups)
    {
      var slash := FindSlash(files[i], drop);
      if slash == |files[i]| {
        here := here + [files[i]];
      } else {
        var name := files[i][drop..slash];
        GroupOne(files, drop, i, here, groups, name);
        groups := groups[name := (if name in groups then groups[name] else []) + [files[i]]];
      }
    }
  }

  /** `sorted(groups)`, with the files of each group. */
  method SortedDirs(ghost files: seq<string>, ghost drop: nat, groups: map<string, seq<string>>, names: seq<string>)
      returns (dirs: seq<Dir>)
    requires forall i :: 0 <= i < |names| ==>
      names[i] in groups && groups[names[i]] == GroupFiles(files, drop, names[i])
    ensures dirs == DirsNamed(files, drop, names)
  {
    dirs := [];
    for i := 0 to |names|
      invariant |dirs| == i
      invariant forall j :: 0 <= j < i ==> dirs[j] == Dir(names[j], GroupFiles(files, drop, names[j]))
    {
      dirs := dirs + [Dir(names[i], groups[names[i]])];
    }
  }

  lemma {:induction false} SortedGroups(files: seq<string>, drop: nat, here: seq<string>,
      groups: map<string, seq<string>>, i: nat)
    requires Grouped(files, drop, |files|, here, groups) && i < |SortedSet(groups.Keys)|
    ensures var n := SortedSet(groups.Keys)[i]; n in groups && groups[n] == GroupFiles(files, drop, n)
  {
    SortedMembers(groups.Keys, i);
  }

  /** Split on the next path segment. */
  method SplitFiles(ghost split: Split, files: seq<string>, drop: nat) returns (here: seq<string>, dirs: seq<Dir>)
    requires Splits(split)
    ensures here == HereFiles(files, drop) && dirs == split(files, drop)
  {
    var groups;
    here, groups := Group(files, drop);
    var names := SortedSet(groups.Keys);
    forall i | 0 <= i < |names| ensures names[i] in groups && groups[names[i]] == GroupFiles(files, drop, names[i]) {
      SortedGroups(files, drop, here, groups, i);
    }
    dirs := SortedDirs(files, drop, groups, names);
    assert dirs == Dirs(files, drop);
  }

  /** `_cut`. */
  method Cut(size: Sizes, b: Budget, ghost c: Cutter, node: string, moduleName: string, drop: nat, files: seq<string>)
      returns (out: seq<Scope>)
    requires Cuts(c, size, b, moduleName)
    ensures out == CutOf(c, node, drop, files)
    decreases Depth(files, drop), 1, 0
  {
    var loc := TotalLoc(size, files);
    if files == [] { return []; }
    if |files| <= b.maxFiles && loc <= b.maxLoc {
      out := LeafScope(size, b, c, node, moduleName, files, false);
      return;
    }
    var here, dirs := SplitFiles(c.split, files, drop);
    if dirs == [] {
      out := LeafScope(size, b, c, node, moduleName, files, true);
      return;
    }
    out := [];
    if here != [] { out := LeafScope(size, b, c, Child(node, "(files)"), moduleName, here, false); }
    SplitIsShallower(c.split, files, drop);
    var below := CutBelow(size, b, c, node, moduleName, drop, dirs, Depth(files, drop));
    out := out + below;
  }

  method LeafScope(size: Sizes, ghost b: Budget, ghost c: Cutter, node: string, moduleName: string, files: seq<string>,
      oversized: bool) returns (out: seq<Scope>)
    requires Cuts(c, size, b, moduleName)
    ensures out == [c.scope(node, files, oversized)]
  {
    out := [ScopeOf(size, node, moduleName, files, oversized)];
  }

  /** The recursive calls, one for each directory below. */
  method CutBelow(size: Sizes, b: Budget, ghost c: Cutter, node: string, moduleName: string, drop: nat, dirs: seq<Dir>,
      ghost bound: nat) returns (out: seq<Scope>)
    requires Cuts(c, size, b, moduleName) && Shallower(dirs, drop, bound)
    ensures out == CutDirs(c, node, drop, dirs, |dirs|, bound)
    decreases bound, 0, 1
  {
    out := [];
    for i := 0 to |dirs|
      invariant out == CutDirs(c, node, drop, dirs, i, bound)
    {
      assert IsShallow(dirs[i], drop, bound);
      CutOneMore(c, node, drop, dirs, i, bound);
      var more := CutOne(size, b, c, node, moduleName, drop, dirs[i], bound);
      out := out + more;
    }
  }

  method CutOne(size: Sizes, b: Budget, ghost c: Cutter, node: string, moduleName: string, drop: nat, d: Dir,
      ghost bound: nat) returns (out: seq<Scope>)
    requires Cuts(c, size, b, moduleName) && IsShallow(d, drop, bound)
    ensures out == PartOf(c, node, drop, d)
    decreases bound, 0, 0
  {
    assert c.child(node, d.name) == Child(node, d.name);
    out := Cut(size, b, c, Child(node, d.name), moduleName, drop + |d.name| + 1, d.files);
  }

  // -------------------------------------------------------------- what a cut keeps

  ghost function CountIf(b: bool, n: nat): nat {
    if b then n else 0
  }

  /** The sum of `weight` over the first `n` scopes. */
  function Weigh(scopes: seq<Scope>, weight: Scope -> nat, n: nat): nat
    requires n <= |scopes|
  {
    if n == 0 then 0 else Weigh(scopes, weight, n - 1) + weight(scopes[n - 1])
  }

  lemma {:induction false} WeighOfPrefix(scopes: seq<Scope>, weight: Scope -> nat, n: nat, m: nat)
    requires m <= n <= |scopes|
    ensures Weigh(scopes[..n], weight, m) == Weigh(scopes, weight, m)
  {
    if m > 0 { WeighOfPrefix(scopes, weight, n, m - 1); }
  }

  lemma {:induction false} WeighAppend(s: seq<Scope>, t: seq<Scope>, weight: Scope -> nat, n: nat)
    requires n <= |t|
    ensures Weigh(s + t, weight, |s| + n) == Weigh(s, weight, |s|) + Weigh(t, weight, n)
  {
    if n > 0 {
      WeighAppend(s, t, weight, n - 1);
    } else {
      WeighOfPrefix(s + t, weight, |s|, |s|);
      assert (s + t)[..|s|] == s;
    }
  }

  /** How often the scopes of some modules list a path. */
  ghost function Listing(mods: string -> bool, path: string): Scope -> nat {
    (s: Scope) => CountIf(mods(s.moduleName), multiset(s.files)[path])
  }

  ghost function Held(scopes: seq<Scope>, mods: string -> bool, path: string): nat {
    Weigh(scopes, Listing(mods, path), |scopes|)
  }

  function Everywhere(): string -> bool {
    (m: string) => true
  }

  lemma {:induction false} SelectCount(files: seq<string>, p: string -> bool, n: nat, x: string)
    requires n <= |files|
    ensures multiset(Select(files, p, n))[x] == CountIf(p(x), multiset(files[..n])[x])
  {
    if n > 0 {
      SelectCount(files, p, n - 1, x);
      assert files[..n] == files[..n - 1] + [files[n - 1]];
      PushCount(files[..n - 1], files[n - 1], x);
      PushCount(Select(files, p, n - 1), files[n - 1], x);
    }
  }

  lemma {:induction false} PushCount(s: seq<string>, t: string, x: string)
    ensures multiset(s + [t])[x] == multiset(s)[x] + CountIf(t == x, 1)
    ensures s + [] == s
  {
  }

  /** One of the first `n` directories holds the file. */
  ghost predicate InDirs(dirs: seq<Dir>, n: nat, drop: nat, path: string)
    requires n <= |dirs|
  {
    exists i :: 0 <= i < n && Below(drop, dirs[i].name)(path)
  }

  ghost predicate DistinctNames(dirs: seq<Dir>) {
    forall i, j :: 0 <= i < j < |dirs| ==> dirs[i].name != dirs[j].name
  }

  /** A directory lists the file `total` times if it is below, and otherwise not at all. */
  ghost predicate Counts(d: Dir, drop: nat, path: string, total: nat) {
    multiset(d.files)[path] == CountIf(Below(drop, d.name)(path), total)
  }

  ghost predicate AllCount(dirs: seq<Dir>, drop: nat, path: string, total: nat) {
    forall i :: 0 <= i < |dirs| ==> Counts(dirs[i], drop, path, total)
  }

  lemma {:induction false} GroupCount(files: seq<string>, drop: nat, name: string, x: string)
    ensures multiset(GroupFiles(files, drop, name))[x] == CountIf(Below(drop, name)(x), multiset(files)[x])
  {
    SelectCount(files, Below(drop, name), |files|, x);
    assert files[..|files|] == files;
  }

  lemma {:induction false} PartOfDir(c: Cutter, node: string, drop: nat, dirs: seq<Dir>, n: nat, bound: nat,
      s: Scope) returns (i: nat)
    requires Splits(c.split) && n <= |dirs| && Shallower(dirs, drop, bound)
    requires s in CutDirs(c, node, drop, dirs, n, bound)
    ensures i < n && s in PartOf(c, node, drop, dirs[i])
  {
    i := PartHolding(PartsOf(c, node, drop, dirs, bound), n, s);
    assert IsShallow(dirs[i], drop, bound);
  }

  /** The sum of `count` over the files of the first `n` directories. */
  ghost function CountDirs(dirs: seq<Dir>, count: seq<string> -> nat, n: nat): nat
    requires n <= |dirs|
  {
    if n == 0 then 0 else CountDirs(dirs, count, n - 1) + count(dirs[n - 1].files)
  }

  /** A split neither loses nor doubles what `count` counts. */
  ghost predicate SplitAdds(split: Split, count: seq<string> -> nat, files: seq<string>, drop: nat) {
    count(files) == count(HereFiles(files, drop)) + CountDirs(split(files, drop), count, |split(files, drop)|)
  }

  ghost predicate SplitsAdd(split: Split, count: seq<string> -> nat) {
    forall files, drop {:trigger SplitAdds(split, count, files, drop)} :: SplitAdds(split, count, files, drop)
  }

  ghost predicate ScopesWeigh(c: Cutter, count: seq<string> -> nat, weight: Scope -> nat) {
    forall node, f, o {:trigger c.scope(node, f, o)} :: weight(c.scope(node, f, o)) == count(f)
  }

  /** A scope weighs what its files count, and splits add up. */
  ghost predicate Weighs(c: Cutter, count: seq<string> -> nat, weight: Scope -> nat) {
    count([]) == 0 && ScopesWeigh(c, count, weight) && SplitsAdd(c.split, count)
  }

  lemma {:induction false} HereWeighs(c: Cutter, count: seq<string> -> nat, weight: Scope -> nat, node: string,
      drop: nat, files: seq<string>)
    requires Weighs(c, count, weight)
    ensures var here := HereScope(c, node, drop, files);
      Weigh(here, weight, |here|) == count(HereFiles(files, drop))
  {
  }

  /** A cut weighs what its files count, whatever is counted. */
  lemma {:induction false} CutWeighs(c: Cutter, count: seq<string> -> nat, weight: Scope -> nat, node: string,
      drop: nat, files: seq<string>)
    requires Splits(c.split) && Weighs(c, count, weight)
    ensures var cut := CutOf(c, node, drop, files); Weigh(cut, weight, |cut|) == count(files)
    decreases Depth(files, drop), 1
  {
    if files != [] && !c.fits(files) && c.split(files, drop) != [] {
      SplitIsShallower(c.split, files, drop);
      var dirs, bound := c.split(files, drop), Depth(files, drop);
      var here, below := HereScope(c, node, drop, files), CutDirs(c, node, drop, dirs, |dirs|, bound);
      HereWeighs(c, count, weight, node, drop, files);
      PartsWeigh(c, count, weight, node, drop, dirs, |dirs|, bound);
      WeighAppend(here, below, weight, |below|);
      assert SplitAdds(c.split, count, files, drop);
    }
  }

  lemma {:induction false} PartsWeigh(c: Cutter, count: seq<string> -> nat, weight: Scope -> nat, node: string,
      drop: nat, dirs: seq<Dir>, n: nat, bound: nat)
    requires Splits(c.split) && Weighs(c, count, weight) && n <= |dirs| && Shallower(dirs, drop, bound)
    ensures var below := CutDirs(c, node, drop, dirs, n, bound); Weigh(below, weight, |below|) == CountDirs(dirs, count, n)
    decreases bound, 0, 1
  {
    var part := PartsOf(c, node, drop, dirs, bound);
    forall k: nat {:trigger part(k)} | k < n ensures Weigh(part(k), weight, |part(k)|) == count(dirs[k].files) {
      assert IsShallow(dirs[k], drop, bound);
      PartWeighs(c, count, weight, node, drop, dirs[k], bound);
    }
    JoinedWeighs(part, dirs, count, weight, n);
  }

  lemma {:induction false} JoinedWeighs(part: nat -> seq<Scope>, dirs: seq<Dir>, count: seq<string> -> nat,
      weight: Scope -> nat, n: nat)
    requires n <= |dirs|
    requires forall k: nat {:trigger part(k)} :: k < n ==> Weigh(part(k), weight, |part(k)|) == count(dirs[k].files)
    ensures Weigh(Joined(part, n), weight, |Joined(part, n)|) == CountDirs(dirs, count, n)
  {
    if n > 0 {
      JoinedWeighs(part, dirs, count, weight, n - 1);
      WeighAppend(Joined(part, n - 1), part(n - 1), weight, |part(n - 1)|);
    }
  }

  lemma {:induction false} PartWeighs(c: Cutter, count: seq<string> -> nat, weight: Scope -> nat, node: string,
      drop: nat, d: Dir, bound: nat)
    requires Splits(c.split) && Weighs(c, count, weight) && IsShallow(d, drop, bound)
    ensures var part := PartOf(c, node, drop, d); Weigh(part, weight, |part|) == count(d.files)
    decreases bound, 0, 0
  {
    CutWeighs(c, count, weight, c.child(node, d.name), drop + |d.name| + 1, d.files);
  }

  /** How often a list names the path. */
  ghost function Times(path: string): seq<string> -> nat {
    (files: seq<string>) => multiset(files)[path]
  }

  lemma {:induction false} TimesInDirs(dirs: seq<Dir>, n: nat, drop: nat, x: string, total: nat)
    requires n <= |dirs| && DistinctNames(dirs) && AllCount(dirs, drop, x, total)
    ensures CountDirs(dirs, Times(x), n) == CountIf(InDirs(dirs, n, drop, x), total)
  {
    if n > 0 {
      assert Counts(dirs[n - 1], drop, x, total);
      TimesInDirs(dirs, n - 1, drop, x, total);
      InDirsStep(dirs, n, drop, x);
    }
  }

  lemma {:induction false} InDirsStep(dirs: seq<Dir>, n: nat, drop: nat, x: string)
    requires 0 < n <= |dirs| && DistinctNames(dirs)
    ensures InDirs(dirs, n, drop, x) <==> Below(drop, dirs[n - 1].name)(x) || InDirs(dirs, n - 1, drop, x)
    ensures !(Below(drop, dirs[n - 1].name)(x) && InDirs(dirs, n - 1, drop, x))
  {
  }

  /** Every file is below some directory or here. */
  lemma {:induction false} HereOrBelow(files: seq<string>, drop: nat, x: string)
    requires x in files
    ensures IsHere(x, drop) <==> !InDirs(Dirs(files, drop), |Dirs(files, drop)|, drop, x)
  {
    if !IsHere(x, drop) {
      var name := Segment(x, drop);
      NameIsListed(files, drop, x, |files|);
      var all := Names(files, drop, |files|);
      assert name in SortedSet(all);
      var i :| 0 <= i < |SortedSet(all)| && SortedSet(all)[i] == name;
      assert Below(drop, Dirs(files, drop)[i].name)(x);
    }
  }

  lemma {:induction false} NameIsListed(files: seq<string>, drop: nat, x: string, n: nat)
    requires n <= |files| && x in files[..n] && !IsHere(x, drop)
    ensures Segment(x, drop) in Names(files, drop, n)
  {
    if x != files[n - 1] {
      assert files[..n] == files[..n - 1] + [files[n - 1]];
      NameIsListed(files, drop, x, n - 1);
    }
  }

  lemma {:induction false} DirsCount(files: seq<string>, drop: nat, x: string)
    ensures DistinctNames(Dirs(files, drop)) && AllCount(Dirs(files, drop), drop, x, multiset(files)[x])
  {
    var dirs := Dirs(files, drop);
    forall i | 0 <= i < |dirs| ensures Counts(dirs[i], drop, x, multiset(files)[x]) {
      var name := DirAt(files, drop, i);
      GroupCount(files, drop, name, x);
    }
    forall i, j | 0 <= i < j < |dirs| ensures dirs[i].name != dirs[j].name { NamesDiffer(files, drop, i, j); }
  }

  lemma {:induction false} NamesDiffer(files: seq<string>, drop: nat, i: nat, j: nat)
    requires i < j < |Dirs(files, drop)|
    ensures Dirs(files, drop)[i].name != Dirs(files, drop)[j].name
  {
  }

  /** A split keeps every path as often as it was named. */
  lemma {:induction false} SplitAddsTimes(split: Split, files: seq<string>, drop: nat, x: string)
    requires Splits(split)
    ensures SplitAdds(split, Times(x), files, drop)
  {
    var dirs := split(files, drop);
    SplitCounts(split, files, drop, x);
    HereFilesCount(files, drop, x);
    TimesInDirs(dirs, |dirs|, drop, x, multiset(files)[x]);
  }

  lemma {:induction false} SplitCounts(split: Split, files: seq<string>, drop: nat, x: string)
    requires Splits(split)
    ensures DistinctNames(split(files, drop)) && AllCount(split(files, drop), drop, x, multiset(files)[x])
    ensures x in files ==> (IsHere(x, drop) <==> !InDirs(split(files, drop), |split(files, drop)|, drop, x))
  {
    DirsCount(files, drop, x);
    if x in files { HereOrBelow(files, drop, x); }
  }

  lemma {:induction false} HereFilesCount(files: seq<string>, drop: nat, x: string)
    ensures multiset(HereFiles(files, drop))[x] == CountIf(IsHere(x, drop), multiset(files)[x])
  {
    SelectCount(files, Here(drop), |files|, x);
    assert files[..|files|] == files;
  }

  lemma {:induction false} CutterWeighs(c: Cutter, size: Sizes, b: Budget, moduleName: string, x: string)
    requires Cuts(c, size, b, moduleName)
    ensures Weighs(c, Times(x), Listing(Everywhere(), x))
  {
    CutterScopesWeigh(c, size, b, moduleName, x);
    SplitsAddTimes(c.split, x);
    NothingNamed(x);
  }

  lemma {:induction false} CutterScopesWeigh(c: Cutter, size: Sizes, b: Budget, moduleName: string, x: string)
    requires Cuts(c, size, b, moduleName)
    ensures ScopesWeigh(c, Times(x), Listing(Everywhere(), x))
  {
    var count, weight := Times(x), Listing(Everywhere(), x);
    forall node, f, o {:trigger c.scope(node, f, o)} ensures weight(c.scope(node, f, o)) == count(f) {
      assert c.scope(node, f, o) == ScopeOf(size, node, moduleName, f, o);
      ScopeLists(size, node, moduleName, f, o, x);
    }
  }

  lemma {:induction false} SplitsAddTimes(split: Split, x: string)
    requires Splits(split)
    ensures SplitsAdd(split, Times(x))
  {
    forall files, drop {:trigger SplitAdds(split, Times(x), files, drop)}
      ensures SplitAdds(split, Times(x), files, drop)
    {
      SplitAddsTimes(split, files, drop, x);
    }
  }

  lemma {:induction false} ScopeLists(size: Sizes, node: string, moduleName: string, f: seq<string>, o: bool, x: string)
    ensures Listing(Everywhere(), x)(ScopeOf(size, node, moduleName, f, o)) == Times(x)(f)
  {
  }

  lemma {:induction false} NothingNamed(x: string)
    ensures Times(x)([]) == 0
  {
  }

  /** The scopes of a cut list every file of the module as often as it was given, and nothing else. */
  lemma {:induction false} CutKeepsFiles(c: Cutter, size: Sizes, b: Budget, moduleName: string, node: string, drop: nat,
      files: seq<string>, x: string)
    requires Cuts(c, size, b, moduleName)
    ensures Held(CutOf(c, node, drop, files), Everywhere(), x) == multiset(files)[x]
  {
    CutterWeighs(c, size, b, moduleName, x);
    CutWeighs(c, Times(x), Listing(Everywhere(), x), node, drop, files);
  }
}
