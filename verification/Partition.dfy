/** The whole partition (cdp/partition.py:33-69, 180-230, 292-312): cut, merge, pack, and check that every tracked
file is in exactly one scope. */
module Partition {
  import opened Orders
  import opened Scopes
  import opened Cutting
  import opened CutScopes
  import opened ModuleCuts
  import opened Coalescing
  import opened Packing

  // ---------------------------------------------------------- packing, module by module

  function OfModule(m: string): Scope -> bool {
    (s: Scope) => s.moduleName == m
  }

  function MembersOf(scopes: seq<Scope>, m: string): seq<Scope> {
    Select(scopes, OfModule(m), |scopes|)
  }

  function ModulesOf(scopes: seq<Scope>): set<string> {
    set s | s in scopes :: s.moduleName
  }

  /** The packed scopes of one module after another. */
  function PackedPart(name: seq<Scope> -> string, b: Budget, scopes: seq<Scope>, modules: seq<string>)
      : nat -> seq<Scope>
  {
    (k: nat) => if k < |modules| then PackedModule(name, b, MembersOf(scopes, modules[k])) else []
  }

  /** The packed scopes of the first `n` modules. */
  function PackedModules(name: seq<Scope> -> string, b: Budget, scopes: seq<Scope>, modules: seq<string>, n: nat)
      : seq<Scope>
    requires n <= |modules|
  {
    Joined(PackedPart(name, b, scopes, modules), n)
  }

  ghost predicate GroupedByModule(scopes: seq<Scope>, n: nat, groups: map<string, seq<Scope>>) {
    && n <= |scopes| && (forall m :: m in groups <==> exists i :: 0 <= i < n && scopes[i].moduleName == m)
    && forall m :: m in groups ==> groups[m] == Select(scopes, OfModule(m), n)
  }

  lemma {:induction false} NoMembers(scopes: seq<Scope>, m: string, n: nat)
    requires n <= |scopes| && forall i :: 0 <= i < n ==> scopes[i].moduleName != m
    ensures Select(scopes, OfModule(m), n) == []
  {
    if n > 0 { NoMembers(scopes, m, n - 1); }
  }

  lemma {:induction false} GroupOneMore(scopes: seq<Scope>, n: nat, groups: map<string, seq<Scope>>)
    requires n < |scopes| && GroupedByModule(scopes, n, groups)
    ensures var m := scopes[n].moduleName;
      GroupedByModule(scopes, n + 1, groups[m := (if m in groups then groups[m] else []) + [scopes[n]]])
  {
    var m := scopes[n].moduleName;
    if m !in groups { NoMembers(scopes, m, n); }
  }

  /** The scopes by module. */
  method GroupScopes(scopes: seq<Scope>) returns (groups: map<string, seq<Scope>>)
    ensures GroupedByModule(scopes, |scopes|, groups)
  {
    groups := map[];
    for i := 0 to |scopes|
      invariant GroupedByModule(scopes, i, groups)
    {
      GroupOneMore(scopes, i, groups);
      var m := scopes[i].moduleName;
      groups := groups[m := (if m in groups then groups[m] else []) + [scopes[i]]];
    }
  }

  /** `_pack_siblings`. */
  method PackSiblings(name: seq<Scope> -> string, b: Budget, scopes: seq<Scope>) returns (out: seq<Scope>)
    ensures var modules := SortedSet(ModulesOf(scopes));
      out == PackedModules(name, b, scopes, modules, |modules|)
  {
    var groups := GroupScopes(scopes);
    KeysAreModules(scopes, groups);
    out := PackGroups(name, b, scopes, groups, SortedSet(groups.Keys));
  }

  lemma {:induction false} KeysAreModules(scopes: seq<Scope>, groups: map<string, seq<Scope>>)
    requires GroupedByModule(scopes, |scopes|, groups)
    ensures groups.Keys == ModulesOf(scopes)
    ensures forall m :: m in groups ==> groups[m] == MembersOf(scopes, m)
  {
    forall m ensures m in groups <==> m in ModulesOf(scopes) {
      if m in ModulesOf(scopes) {
        var s :| s in scopes && s.moduleName == m;
        var i :| 0 <= i < |scopes| && scopes[i] == s;
      }
      if m in groups {
        var i :| 0 <= i < |scopes| && scopes[i].moduleName == m;
        assert scopes[i] in scopes;
      }
    }
  }

  method PackGroups(name: seq<Scope> -> string, b: Budget, ghost scopes: seq<Scope>, groups: map<string, seq<Scope>>,
      modules: seq<string>) returns (out: seq<Scope>)
    requires forall m :: m in modules ==> m in groups && groups[m] == MembersOf(scopes, m)
    ensures out == PackedModules(name, b, scopes, modules, |modules|)
  {
    out := [];
    for i := 0 to |modules|
      invariant out == PackedModules(name, b, scopes, modules, i)
    {
      assert modules[i] in modules;
      var packed := PackModule(name, b, groups[modules[i]]);
      out := out + packed;
    }
  }

  // ---------------------------------------------------------------- what packing keeps

  lemma {:induction false} MembersAreOne(scopes: seq<Scope>, m: string)
    ensures OneModule(MembersOf(scopes, m), m)
    ensures forall s :: s in MembersOf(scopes, m) ==> s in scopes
  {
    var members := MembersOf(scopes, m);
    forall i | 0 <= i < |members| ensures members[i].moduleName == m && members[i] in scopes {
      assert members[i] in members;
      SelectedFrom(scopes, OfModule(m), |scopes|, members[i]);
      assert scopes[..|scopes|] == scopes;
    }
  }

  /** The modules among the first `n` named. */
  ghost function Among(mods: string -> bool, modules: seq<string>, n: nat): string -> bool
    requires n <= |modules|
  {
    (m: string) => mods(m) && m in modules[..n]
  }

  ghost function Only(mods: string -> bool, m: string): string -> bool {
    (x: string) => mods(x) && x == m
  }

  lemma {:induction false} ListingOf(mods: string -> bool, path: string, s: Scope)
    ensures Listing(mods, path)(s) == CountIf(mods(s.moduleName), multiset(s.files)[path])
  {
  }

  lemma {:induction false} MembersWeigh(scopes: seq<Scope>, m: string, mods: string -> bool, path: string, n: nat)
    requires n <= |scopes|
    ensures var members := Select(scopes, OfModule(m), n);
      Weigh(members, Listing(mods, path), |members|)
      == Weigh(scopes, Listing(Only(mods, m), path), n)
  {
    if n > 0 {
      MembersWeigh(scopes, m, mods, path, n - 1);
      ListingOf(mods, path, scopes[n - 1]);
      ListingOf(Only(mods, m), path, scopes[n - 1]);
      WeighPush(Select(scopes, OfModule(m), n - 1), scopes[n - 1], Listing(mods, path));
      assert Select(scopes, OfModule(m), n - 1) + [] == Select(scopes, OfModule(m), n - 1);
    }
  }

  lemma {:induction false} WeighsAdd(scopes: seq<Scope>, f: Scope -> nat, g: Scope -> nat, h: Scope -> nat, n: nat)
    requires n <= |scopes| && forall i :: 0 <= i < |scopes| ==> f(scopes[i]) + g(scopes[i]) == h(scopes[i])
    ensures Weigh(scopes, f, n) + Weigh(scopes, g, n) == Weigh(scopes, h, n)
  {
    if n > 0 { WeighsAdd(scopes, f, g, h, n - 1); }
  }

  predicate DistinctNamesOf(modules: seq<string>) {
    forall i, j :: 0 <= i < j < |modules| ==> modules[i] != modules[j]
  }

  /** How often the first parts list the path. */
  ghost function HeldBy(part: nat -> seq<Scope>, mods: string -> bool, path: string): nat -> nat {
    (k: nat) => Held(Joined(part, k), mods, path)
  }

  lemma {:induction false} HeldGrows(part: nat -> seq<Scope>, mods: string -> bool, path: string, k: nat)
    ensures HeldBy(part, mods, path)(k + 1) == HeldBy(part, mods, path)(k) + Held(part(k), mods, path)
  {
    HeldTogether(Joined(part, k), part(k), mods, path);
  }

  ghost function HeldAmong(scopes: seq<Scope>, modules: seq<string>, mods: string -> bool, path: string): nat -> nat {
    (k: nat) => if k <= |modules| then Held(scopes, Among(mods, modules, k), path) else 0
  }

  lemma {:induction false} PackedModulesHold(name: seq<Scope> -> string, b: Budget, scopes: seq<Scope>,
      modules: seq<string>, mods: string -> bool, path: string, n: nat)
    requires n <= |modules| && DistinctNamesOf(modules) && DistinctNodes(scopes)
    ensures Held(PackedModules(name, b, scopes, modules, n), mods, path) == Held(scopes, Among(mods, modules, n), path)
  {
    var f := HeldBy(PackedPart(name, b, scopes, modules), mods, path);
    var g := HeldAmong(scopes, modules, mods, path);
    WeighNothing(scopes, Among(mods, modules, 0), path, |scopes|);
    assert f(0) == 0 == g(0);
    forall k: nat | k < n ensures GrowsBy(f, g, k) { OneMorePacked(name, b, scopes, modules, mods, path, k); }
    GrowAlike(f, g, n);
  }

  lemma {:induction false} OneMorePacked(name: seq<Scope> -> string, b: Budget, scopes: seq<Scope>,
      modules: seq<string>, mods: string -> bool, path: string, k: nat)
    requires k < |modules| && DistinctNamesOf(modules) && DistinctNodes(scopes)
    ensures GrowsBy(HeldBy(PackedPart(name, b, scopes, modules), mods, path), HeldAmong(scopes, modules, mods, path), k)
  {
    HeldGrows(PackedPart(name, b, scopes, modules), mods, path, k);
    PackedMembersHold(name, b, scopes, modules[k], mods, path);
    OneMoreModule(scopes, modules, mods, path, k + 1);
  }

  lemma {:induction false} WeighNothing(scopes: seq<Scope>, mods: string -> bool, path: string, n: nat)
    requires n <= |scopes| && forall m :: !mods(m)
    ensures Weigh(scopes, Listing(mods, path), n) == 0
  {
    if n > 0 {
      WeighNothing(scopes, mods, path, n - 1);
      ListingOf(mods, path, scopes[n - 1]);
    }
  }

  lemma {:induction false} PackedMembersHold(name: seq<Scope> -> string, b: Budget, scopes: seq<Scope>, m: string,
      mods: string -> bool, path: string)
    requires DistinctNodes(scopes)
    ensures Held(PackedModule(name, b, MembersOf(scopes, m)), mods, path)
      == Held(scopes, Only(mods, m), path)
  {
    MembersAreOne(scopes, m);
    SelectKeepsDistinct(scopes, OfModule(m), |scopes|);
    PackedModuleHolds(name, b, MembersOf(scopes, m), m, mods, path);
    MembersWeigh(scopes, m, mods, path, |scopes|);
  }

  lemma {:induction false} OneMoreModule(scopes: seq<Scope>, modules: seq<string>, mods: string -> bool, path: string,
      n: nat)
    requires 0 < n <= |modules| && DistinctNamesOf(modules)
    ensures Held(scopes, Among(mods, modules, n), path)
      == Held(scopes, Among(mods, modules, n - 1), path)
         + Held(scopes, Only(mods, modules[n - 1]), path)
  {
    assert modules[..n] == modules[..n - 1] + [modules[n - 1]];
    assert modules[n - 1] !in modules[..n - 1];
    forall i | 0 <= i < |scopes|
      ensures Listing(Among(mods, modules, n - 1), path)(scopes[i]) + Listing(Only(mods, modules[n - 1]), path)(scopes[i])
        == Listing(Among(mods, modules, n), path)(scopes[i])
    {
      ListingOf(Among(mods, modules, n - 1), path, scopes[i]);
      ListingOf(Only(mods, modules[n - 1]), path, scopes[i]);
      ListingOf(Among(mods, modules, n), path, scopes[i]);
    }
    WeighsAdd(scopes, Listing(Among(mods, modules, n - 1), path),
              Listing(Only(mods, modules[n - 1]), path), Listing(Among(mods, modules, n), path), |scopes|);
  }

  lemma {:induction false} WeighAlike(scopes: seq<Scope>, f: Scope -> nat, g: Scope -> nat, n: nat)
    requires n <= |scopes| && forall i :: 0 <= i < |scopes| ==> f(scopes[i]) == g(scopes[i])
    ensures Weigh(scopes, f, n) == Weigh(scopes, g, n)
  {
    if n > 0 { WeighAlike(scopes, f, g, n - 1); }
  }

  /** Packing keeps every file in its module. */
  lemma {:induction false} PackingKeepsFiles(name: seq<Scope> -> string, b: Budget, scopes: seq<Scope>, out: seq<Scope>,
      modules: seq<string>)
    requires modules == SortedSet(ModulesOf(scopes)) && out == PackedModules(name, b, scopes, modules, |modules|)
    requires DistinctNodes(scopes)
    ensures SameFiles(scopes, out)
  {
    assert DistinctNamesOf(modules);
    forall i | 0 <= i < |scopes| ensures scopes[i].moduleName in modules { ModuleIsListed(scopes, i); }
    forall mods, path {:trigger Held(out, mods, path)} ensures Held(out, mods, path) == Held(scopes, mods, path) {
      PackedModulesHold(name, b, scopes, modules, mods, path, |modules|);
      EveryModule(scopes, modules, mods, path);
    }
  }

  lemma {:induction false} EveryModule(scopes: seq<Scope>, modules: seq<string>, mods: string -> bool, path: string)
    requires forall i :: 0 <= i < |scopes| ==> scopes[i].moduleName in modules
    ensures Held(scopes, Among(mods, modules, |modules|), path) == Held(scopes, mods, path)
  {
    forall i | 0 <= i < |scopes|
      ensures Listing(Among(mods, modules, |modules|), path)(scopes[i]) == Listing(mods, path)(scopes[i])
    {
      assert modules[..|modules|] == modules;
      ListingOf(Among(mods, modules, |modules|), path, scopes[i]);
      ListingOf(mods, path, scopes[i]);
    }
    WeighAlike(scopes, Listing(Among(mods, modules, |modules|), path), Listing(mods, path), |scopes|);
  }

  lemma {:induction false} ModuleIsListed(scopes: seq<Scope>, i: nat)
    requires i < |scopes|
    ensures scopes[i].moduleName in SortedSet(ModulesOf(scopes))
  {
    assert scopes[i] in scopes;
  }

  /** Every packed scope was there before, or fits and is not flagged. */
  lemma {:induction false} PackedScope(size: Sizes, name: seq<Scope> -> string, b: Budget, scopes: seq<Scope>,
      modules: seq<string>, n: nat, s: Scope)
    requires n <= |modules| && AllSized(size, scopes) && s in PackedModules(name, b, scopes, modules, n)
    ensures Sized(size, s) && (s in scopes || (Fits(b, s.fileCount, s.loc) && !s.oversized))
  {
    var k := PartHolding(PackedPart(name, b, scopes, modules), n, s);
    MembersAreOne(scopes, modules[k]);
    PackedModuleScope(size, name, b, MembersOf(scopes, modules[k]), modules[k], s);
  }

  // ------------------------------------------------------------------ assert_partition

  datatype Check = Sound | Doubled(path: string) | Drops | Invents

  ghost function Listed(scopes: seq<Scope>, path: string): nat {
    Held(scopes, Everywhere(), path)
  }

  /** Every tracked path is in exactly one scope, once, and nothing else is in any. */
  ghost predicate IsPartition(tracked: set<string>, scopes: seq<Scope>) {
    forall p {:trigger Listed(scopes, p)} :: Listed(scopes, p) == CountIf(p in tracked, 1)
  }

  ghost predicate SeenUpTo(scopes: seq<Scope>, n: nat, seen: set<string>) {
    n <= |scopes| && forall p :: Weigh(scopes, Listing(Everywhere(), p), n) == CountIf(p in seen, 1)
  }

  /** One scope's files: none may have been seen. */
  method SeeFiles(files: seq<string>, seen: set<string>) returns (ok: bool, now: set<string>, path: string)
    ensures ok ==> now == seen + set p | p in files
    ensures ok <==> forall p :: CountIf(p in seen, 1) + multiset(files)[p] <= 1
  {
    ok, now, path := true, seen, "";
    for i := 0 to |files|
      invariant ok && now == seen + set p | p in files[..i]
      invariant forall p :: CountIf(p in seen, 1) + multiset(files[..i])[p] == CountIf(p in now, 1)
    {
      assert files[..i + 1] == files[..i] + [files[i]];
      if files[i] in now {
        PrefixCount(files, i + 1, files[i]);
        return false, now, files[i];
      }
      now := now + {files[i]};
    }
    assert files[..|files|] == files;
  }

  lemma {:induction false} PrefixCount(files: seq<string>, n: nat, p: string)
    requires n <= |files|
    ensures multiset(files[..n])[p] <= multiset(files)[p]
  {
    assert files == files[..n] + files[n..];
  }

  lemma {:induction false} WeighMore(scopes: seq<Scope>, weight: Scope -> nat, n: nat, m: nat)
    requires n <= m <= |scopes|
    ensures Weigh(scopes, weight, n) <= Weigh(scopes, weight, m)
  {
    if n < m { WeighMore(scopes, weight, n, m - 1); }
  }

  /** `assert_partition` passes exactly when the scopes are a partition of the tracked files. */
  method AssertPartition(tracked: set<string>, scopes: seq<Scope>) returns (r: Check)
    ensures r == Sound <==> IsPartition(tracked, scopes)
  {
    var seen: set<string> := {};
    for i := 0 to |scopes|
      invariant SeenUpTo(scopes, i, seen)
    {
      var ok, now, path := SeeFiles(scopes[i].files, seen);
      if !ok {
        DoubledIsNoPartition(tracked, scopes, i, seen);
        return Doubled(path);
      }
      SeenFurther(scopes, i, seen, now);
      seen := now;
    }
    SeenIsPartition(tracked, scopes, seen);
    if tracked - seen != {} { return Drops; }
    if seen - tracked != {} { return Invents; }
    r := Sound;
  }

  lemma {:induction false} DoubledIsNoPartition(tracked: set<string>, scopes: seq<Scope>, i: nat, seen: set<string>)
    requires i < |scopes| && SeenUpTo(scopes, i, seen)
    requires exists p :: CountIf(p in seen, 1) + multiset(scopes[i].files)[p] > 1
    ensures !IsPartition(tracked, scopes)
  {
    var p :| CountIf(p in seen, 1) + multiset(scopes[i].files)[p] > 1;
    WeighMore(scopes, Listing(Everywhere(), p), i + 1, |scopes|);
    ListingOf(Everywhere(), p, scopes[i]);
    assert Weigh(scopes, Listing(Everywhere(), p), i) == CountIf(p in seen, 1);
    assert Listed(scopes, p) >= 2;
  }

  lemma {:induction false} SeenFurther(scopes: seq<Scope>, i: nat, seen: set<string>, now: set<string>)
    requires i < |scopes| && SeenUpTo(scopes, i, seen) && now == seen + set p | p in scopes[i].files
    requires forall p :: CountIf(p in seen, 1) + multiset(scopes[i].files)[p] <= 1
    ensures SeenUpTo(scopes, i + 1, now)
  {
    forall p ensures Weigh(scopes, Listing(Everywhere(), p), i + 1) == CountIf(p in now, 1) {
      assert CountIf(p in seen, 1) + multiset(scopes[i].files)[p] <= 1;
      assert p in scopes[i].files <==> p in multiset(scopes[i].files);
    }
  }

  lemma {:induction false} SeenIsPartition(tracked: set<string>, scopes: seq<Scope>, seen: set<string>)
    requires SeenUpTo(scopes, |scopes|, seen)
    ensures IsPartition(tracked, scopes) <==> seen == tracked
  {
    forall p ensures Listed(scopes, p) == CountIf(p in seen, 1) {}
    if IsPartition(tracked, scopes) {
      forall p ensures p in seen <==> p in tracked { assert Listed(scopes, p) == CountIf(p in tracked, 1); }
    }
  }

  // ---------------------------------------------------- what the cuts together list

  /** How often the module lists the path. */
  lemma {:induction false} CutModuleLists(size: Sizes, b: Budget, pathOf: map<string, string>, inventory: seq<Tracked>,
      m: string, path: string)
    ensures Listed(CutModule(size, b, pathOf, inventory, m), path)
      == multiset(PathsOf(inventory, m, |inventory|))[path]
  {
    var c := CutterOf(size, b, m);
    CutterCuts(size, b, m);
    CutKeepsFiles(c, size, b, m, NodeOf(m), DropOf(pathOf, m), ModuleFiles(inventory, m), path);
  }

  predicate DistinctTracked(inventory: seq<Tracked>) {
    forall i, j :: 0 <= i < j < |inventory| ==> inventory[i].path != inventory[j].path
  }

  ghost predicate TracksIn(inventory: seq<Tracked>, n: nat, m: string, path: string) {
    n <= |inventory| && Tracked(path, m) in inventory[..n]
  }

  lemma {:induction false} PathsCount(inventory: seq<Tracked>, m: string, path: string, n: nat)
    requires n <= |inventory| && DistinctTracked(inventory)
    ensures multiset(PathsOf(inventory, m, n))[path] == CountIf(TracksIn(inventory, n, m, path), 1)
  {
    if n > 0 {
      PathsCount(inventory, m, path, n - 1);
      TracksOneMore(inventory, n, m, path);
    }
  }

  lemma {:induction false} TracksOneMore(inventory: seq<Tracked>, n: nat, m: string, path: string)
    requires 0 < n <= |inventory| && DistinctTracked(inventory)
    ensures CountIf(TracksIn(inventory, n, m, path), 1)
      == CountIf(TracksIn(inventory, n - 1, m, path), 1) + CountIf(inventory[n - 1] == Tracked(path, m), 1)
  {
    assert inventory[..n] == inventory[..n - 1] + [inventory[n - 1]];
  }

  ghost predicate TracksAmong(inventory: seq<Tracked>, modules: seq<string>, n: nat, path: string) {
    n <= |modules| && exists i :: 0 <= i < n && TracksIn(inventory, |inventory|, modules[i], path)
  }

  lemma {:induction false} OneModuleOnly(inventory: seq<Tracked>, m: string, k: string, path: string)
    requires DistinctTracked(inventory)
    requires TracksIn(inventory, |inventory|, m, path) && TracksIn(inventory, |inventory|, k, path)
    ensures m == k
  {
    assert inventory[..|inventory|] == inventory;
    var i :| 0 <= i < |inventory| && inventory[i] == Tracked(path, m);
    var j :| 0 <= j < |inventory| && inventory[j] == Tracked(path, k);
    assert i == j;
  }

  ghost function CountAmong(inventory: seq<Tracked>, modules: seq<string>, path: string): nat -> nat {
    (k: nat) => CountIf(TracksAmong(inventory, modules, k, path), 1)
  }

  lemma {:induction false} CutModulesList(size: Sizes, b: Budget, pathOf: map<string, string>, inventory: seq<Tracked>,
      modules: seq<string>, path: string, n: nat)
    requires n <= |modules| && DistinctTracked(inventory) && DistinctNamesOf(modules)
    ensures Listed(CutModules(size, b, pathOf, inventory, modules, n), path)
      == CountIf(TracksAmong(inventory, modules, n, path), 1)
  {
    var f := HeldBy(CutPart(size, b, pathOf, inventory, modules), Everywhere(), path);
    var g := CountAmong(inventory, modules, path);
    assert f(0) == 0 == g(0);
    forall k: nat | k < n ensures GrowsBy(f, g, k) { OneMoreCut(size, b, pathOf, inventory, modules, path, k); }
    GrowAlike(f, g, n);
  }

  lemma {:induction false} AmongOneMore(inventory: seq<Tracked>, modules: seq<string>, path: string, n: nat)
    requires 0 < n <= |modules| && DistinctTracked(inventory) && DistinctNamesOf(modules)
    ensures CountIf(TracksAmong(inventory, modules, n, path), 1)
      == CountIf(TracksAmong(inventory, modules, n - 1, path), 1)
         + CountIf(TracksIn(inventory, |inventory|, modules[n - 1], path), 1)
  {
    if TracksAmong(inventory, modules, n - 1, path) {
      var i :| 0 <= i < n - 1 && TracksIn(inventory, |inventory|, modules[i], path);
      if TracksIn(inventory, |inventory|, modules[n - 1], path) {
        OneModuleOnly(inventory, modules[i], modules[n - 1], path);
      }
    }
  }

  lemma {:induction false} OneMoreCut(size: Sizes, b: Budget, pathOf: map<string, string>, inventory: seq<Tracked>,
      modules: seq<string>, path: string, k: nat)
    requires k < |modules| && DistinctTracked(inventory) && DistinctNamesOf(modules)
    ensures GrowsBy(HeldBy(CutPart(size, b, pathOf, inventory, modules), Everywhere(), path),
                    CountAmong(inventory, modules, path), k)
  {
    HeldGrows(CutPart(size, b, pathOf, inventory, modules), Everywhere(), path, k);
    CutModuleLists(size, b, pathOf, inventory, modules[k], path);
    PathsCount(inventory, modules[k], path, |inventory|);
    AmongOneMore(inventory, modules, path, k + 1);
  }

  /** The cuts of all modules together list every tracked file exactly once. */
  lemma {:induction false} AllCutIsPartition(size: Sizes, b: Budget, pathOf: map<string, string>,
      inventory: seq<Tracked>)
    requires DistinctTracked(inventory)
    ensures IsPartition(TrackedPaths(inventory), AllCut(size, b, pathOf, inventory))
  {
    var modules := SortedSet(TrackedModules(inventory));
    forall p {:trigger Listed(AllCut(size, b, pathOf, inventory), p)}
      ensures Listed(AllCut(size, b, pathOf, inventory), p) == CountIf(p in TrackedPaths(inventory), 1)
    {
      CutModulesList(size, b, pathOf, inventory, modules, p, |modules|);
      TrackedSomewhere(inventory, modules, p);
    }
  }

  lemma {:induction false} TrackedSomewhere(inventory: seq<Tracked>, modules: seq<string>, p: string)
    requires modules == SortedSet(TrackedModules(inventory))
    ensures p in TrackedPaths(inventory) <==> TracksAmong(inventory, modules, |modules|, p)
  {
    assert inventory[..|inventory|] == inventory;
    if p in TrackedPaths(inventory) {
      var f :| f in inventory && f.path == p;
      assert f.moduleName in modules;
      var i :| 0 <= i < |modules| && modules[i] == f.moduleName;
      assert f == Tracked(p, modules[i]);
      assert TracksIn(inventory, |inventory|, modules[i], p);
    }
    if TracksAmong(inventory, modules, |modules|, p) {
      var i :| 0 <= i < |modules| && TracksIn(inventory, |inventory|, modules[i], p);
      assert Tracked(p, modules[i]) in inventory;
    }
  }

  lemma {:induction false} CutModuleScope(size: Sizes, b: Budget, pathOf: map<string, string>, inventory: seq<Tracked>,
      modules: seq<string>, n: nat, s: Scope)
    requires n <= |modules| && s in CutModules(size, b, pathOf, inventory, modules, n)
    ensures Sized(size, s) && Flagged(b, s)
  {
    var k := PartHolding(CutPart(size, b, pathOf, inventory, modules), n, s);
    var m := modules[k];
    CutterCuts(size, b, m);
    CutIsGood(CutterOf(size, b, m), size, b, m, NodeOf(m), DropOf(pathOf, m), ModuleFiles(inventory, m), s);
  }

  // --------------------------------------------------------------------- the result

  datatype Result = Partitioned(scopes: seq<Scope>) | Failed(why: Check)

  /** The sort key of the result. */
  predicate NodeLe(s: Scope, t: Scope) {
    StrLe(s.node, t.node)
  }

  ghost predicate WellFormed(size: Sizes, b: Budget, scopes: seq<Scope>) {
    forall s :: s in scopes ==> Sized(size, s) && Flagged(b, s)
  }

  lemma {:induction false} AllCutIsWellFormed(size: Sizes, b: Budget, pathOf: map<string, string>,
      inventory: seq<Tracked>)
    ensures WellFormed(size, b, AllCut(size, b, pathOf, inventory))
    ensures AllSized(size, AllCut(size, b, pathOf, inventory))
  {
    var modules := SortedSet(TrackedModules(inventory));
    var cut := AllCut(size, b, pathOf, inventory);
    forall s | s in cut ensures Sized(size, s) && Flagged(b, s) {
      CutModuleScope(size, b, pathOf, inventory, modules, |modules|, s);
    }
  }

  /** Merging and packing leave every scope sized and flagged right. */
  lemma {:induction false} StaysWellFormed(size: Sizes, name: seq<Scope> -> string, b: Budget, start: seq<Scope>,
      merged: seq<Scope>, modules: seq<string>)
    requires WellFormed(size, b, start) && Kept(size, b, start, merged)
    ensures WellFormed(size, b, PackedModules(name, b, merged, modules, |modules|))
  {
    forall s | s in PackedModules(name, b, merged, modules, |modules|) ensures Sized(size, s) && Flagged(b, s) {
      PackedScope(size, name, b, merged, modules, |modules|, s);
    }
  }

  /** Merging and packing list every file as often as the dict of cut scopes does. */
  lemma {:induction false} StaysListed(size: Sizes, name: seq<Scope> -> string, b: Budget, start: seq<Scope>,
      merged: seq<Scope>, packed: seq<Scope>, path: string)
    requires Kept(size, b, start, merged) && SameFiles(merged, packed)
    ensures Listed(StableSort(packed, NodeLe), path) == Listed(start, path)
  {
    assert Held(merged, Everywhere(), path) == Held(start, Everywhere(), path);
    assert Held(packed, Everywhere(), path) == Held(merged, Everywhere(), path);
    WeighSorted(packed, NodeLe, Listing(Everywhere(), path));
  }

  /** The dict of cut scopes is a partition exactly when no node repeats. */
  lemma {:induction false} ByNodeIsPartitionExactly(size: Sizes, tracked: set<string>, cut: seq<Scope>)
    requires AllSized(size, cut) && IsPartition(tracked, cut)
    ensures IsPartition(tracked, ByNode(cut, |cut|)) <==> DistinctNodes(cut)
  {
    assert cut[..|cut|] == cut;
    if DistinctNodes(cut) {
      ByNodeOfDistinct(cut, |cut|);
    } else {
      var path := RepeatedNodeLosesFile(size, cut, |cut|);
      assert Listed(ByNode(cut, |cut|), path) < Listed(cut, path);
      assert Listed(cut, path) == CountIf(path in tracked, 1);
    }
  }

  lemma {:induction false} SameListing(tracked: set<string>, a: seq<Scope>, c: seq<Scope>)
    requires forall p :: Listed(a, p) == Listed(c, p)
    ensures IsPartition(tracked, a) <==> IsPartition(tracked, c)
  {
    if IsPartition(tracked, a) {
      forall p {:trigger Listed(c, p)} ensures Listed(c, p) == CountIf(p in tracked, 1) { assert Listed(a, p) == Listed(c, p); }
    }
    if IsPartition(tracked, c) {
      forall p {:trigger Listed(a, p)} ensures Listed(a, p) == CountIf(p in tracked, 1) { assert Listed(a, p) == Listed(c, p); }
    }
  }

  lemma {:induction false} SortedStaysWellFormed(size: Sizes, b: Budget, scopes: seq<Scope>)
    requires WellFormed(size, b, scopes)
    ensures WellFormed(size, b, StableSort(scopes, NodeLe))
  {
    SortMembers(scopes, NodeLe);
  }

  ghost predicate InNodeOrder(scopes: seq<Scope>) {
    forall i, j :: 0 <= i < j < |scopes| ==> StrLe(scopes[i].node, scopes[j].node)
  }

  lemma {:induction false} SortedInNodeOrder(scopes: seq<Scope>)
    ensures InNodeOrder(StableSort(scopes, NodeLe))
  {
    NodeLeIsOrder();
    SortSorts(scopes, NodeLe);
    var sorted := StableSort(scopes, NodeLe);
    forall i, j | 0 <= i < j < |sorted| ensures StrLe(sorted[i].node, sorted[j].node) {
      assert NodeLe(sorted[i], sorted[j]);
    }
  }

  lemma {:induction false} NodeLeIsOrder()
    ensures TotalPreorder(NodeLe)
  {
    forall s, t ensures NodeLe(s, t) || NodeLe(t, s) { StrLeTotal(s.node, t.node); }
    forall s, t, u | NodeLe(s, t) && NodeLe(t, u) ensures NodeLe(s, u) { StrLeTransitive(s.node, t.node, u.node); }
  }

  /** The scopes are the packed outcome of a whole run of merges on the cut, sorted by node. */
  ghost predicate Finishes(b: Budget, name: seq<Scope> -> string, cut: seq<Scope>, trace: seq<string>,
      scopes: seq<Scope>)
  {
    var start := ByNode(cut, |cut|);
    var merged := After(start, trace, |trace|);
    var modules := SortedSet(ModulesOf(merged));
    && IsRun(b, start, trace) && NothingMergeable(b, merged)
    && scopes == StableSort(PackedModules(name, b, merged, modules, |modules|), NodeLe)
  }

  lemma {:induction false} AllCutDiffers(size: Sizes, b: Budget, pathOf: map<string, string>, inventory: seq<Tracked>)
    ensures DistinctNodes(AllCut(size, b, pathOf, inventory)) <==> LeavesDiffer(size, b, pathOf, inventory)
    ensures PlainInventory(pathOf, inventory) ==> DistinctNodes(AllCut(size, b, pathOf, inventory))
  {
    AllCutDiffersExactly(size, b, pathOf, inventory);
    if PlainInventory(pathOf, inventory) { PlainInventoryCutsClean(size, b, pathOf, inventory); }
  }

  /** `partition`. It fails exactly when two leaves of the modules' directory trees share a node; otherwise every tracked
  file is in exactly one scope, and every scope over budget is flagged or holds the loose files of a directory. */
  method MakePartition(size: Sizes, b: Budget, name: seq<Scope> -> string, pathOf: map<string, string>,
      inventory: seq<Tracked>) returns (r: Result, ghost trace: seq<string>)
    requires DistinctTracked(inventory)
    ensures r.Partitioned? <==> LeavesDiffer(size, b, pathOf, inventory)
    ensures PlainInventory(pathOf, inventory) ==> r.Partitioned?
    ensures r.Partitioned? ==> Finishes(b, name, AllCut(size, b, pathOf, inventory), trace, r.scopes)
    ensures r.Partitioned? ==> IsPartition(TrackedPaths(inventory), r.scopes) && WellFormed(size, b, r.scopes)
    ensures r.Partitioned? ==> InNodeOrder(r.scopes)
  {
    var cut := CutEveryModule(size, b, pathOf, inventory, SortedSet(TrackedModules(inventory)));
    ghost var tracked := TrackedPaths(inventory);
    AllCutIsWellFormed(size, b, pathOf, inventory);
    AllCutIsPartition(size, b, pathOf, inventory);
    AllCutDiffers(size, b, pathOf, inventory);
    r, trace := FinishPartition(size, b, name, TrackedPaths(inventory), cut);
  }

  method FinishPartition(ghost size: Sizes, b: Budget, name: seq<Scope> -> string, tracked: set<string>,
      cut: seq<Scope>) returns (r: Result, ghost trace: seq<string>)
    requires AllSized(size, cut) && WellFormed(size, b, cut) && IsPartition(tracked, cut)
    ensures r.Partitioned? <==> DistinctNodes(cut)
    ensures r.Partitioned? ==> Finishes(b, name, cut, trace, r.scopes)
    ensures r.Partitioned? ==> IsPartition(tracked, r.scopes) && WellFormed(size, b, r.scopes)
    ensures r.Partitioned? ==> InNodeOrder(r.scopes)
  {
    ghost var start := ByNode(cut, |cut|);
    var merged;
    merged, trace := Coalesce(size, b, cut);
    var packed := PackSiblings(name, b, merged);
    ghost var modules := SortedSet(ModulesOf(merged));
    PackingKeepsFiles(name, b, merged, packed, modules);
    ByNodeIsDistinct(cut, |cut|);
    assert WellFormed(size, b, start);
    StaysWellFormed(size, name, b, start, merged, modules);
    var scopes := StableSort(packed, NodeLe);
    SortedStaysWellFormed(size, b, packed);
    SortedInNodeOrder(packed);
    forall p ensures Listed(scopes, p) == Listed(start, p) { StaysListed(size, name, b, start, merged, packed, p); }
    SameListing(tracked, scopes, start);
    ByNodeIsPartitionExactly(size, tracked, cut);
    var check := AssertPartition(tracked, scopes);
    r := if check == Sound then Partitioned(scopes) else Failed(check);
  }
}
