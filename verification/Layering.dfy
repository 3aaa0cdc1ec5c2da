/** Longest-path layering with cycles condensed: `_layer` (cdp/graph.py:234-278). */
module Layering {
  import opened Orders
  import opened Reachability
  import opened Cycles

  // ------------------------------------------------------------------- depth

  predicate SameGroup(cycles: seq<seq<string>>, u: string, v: string) {
    exists c :: c in cycles && u in c && v in c
  }

  /** An edge that adds a level: one that does not stay inside a cycle. */
  predicate Counted(g: Graph, cycles: seq<seq<string>>, u: string, v: string) {
    Edge(g, u, v) && !SameGroup(cycles, u, v)
  }

  /** A chain of counted dependencies. A node that depends on itself may end one. */
  ghost predicate ChainFrom(g: Graph, cycles: seq<seq<string>>, u: string, c: seq<string>) {
    && c != [] && c[0] == u && u in g
    && (forall i :: 0 <= i < |c| - 1 ==> Counted(g, cycles, c[i], c[i + 1]))
    && (forall i :: 0 <= i < |c| - 2 ==> c[i] != c[i + 1])
  }

  ghost predicate SomeChain(g: Graph, cycles: seq<seq<string>>, u: string, k: nat) {
    exists c :: ChainFrom(g, cycles, u, c) && |c| == k + 1
  }

  /** The longest chain from `u` makes `k` steps. */
  ghost predicate IsDepth(g: Graph, cycles: seq<seq<string>>, u: string, k: nat) {
    SomeChain(g, cycles, u, k) && forall c :: ChainFrom(g, cycles, u, c) ==> |c| <= k + 1
  }

  lemma {:induction false} DepthIsUnique(g: Graph, cycles: seq<seq<string>>, u: string, j: nat, k: nat)
    requires IsDepth(g, cycles, u, j) && IsDepth(g, cycles, u, k)
    ensures j == k
  {
    var c :| ChainFrom(g, cycles, u, c) && |c| == j + 1;
    var d :| ChainFrom(g, cycles, u, d) && |d| == k + 1;
  }

  ghost predicate Depths(g: Graph, cycles: seq<seq<string>>, level: map<string, nat>) {
    && level.Keys <= g.Keys
    && forall u {:trigger IsDepth(g, cycles, u, level[u])} :: u in level ==> IsDepth(g, cycles, u, level[u])
  }

  lemma {:induction false} DepthsUpdate(g: Graph, cycles: seq<seq<string>>, level: map<string, nat>, u: string, k: nat)
    requires Depths(g, cycles, level) && u in g && IsDepth(g, cycles, u, k)
    ensures Depths(g, cycles, level[u := k])
  {
    var grown := level[u := k];
    forall v | v in grown ensures IsDepth(g, cycles, v, grown[v]) {
      if v != u { assert IsDepth(g, cycles, v, level[v]); }
    }
  }

  ghost predicate Total(g: Graph) {
    forall u, v :: u in g && v in g[u] ==> v in g
  }

  ghost predicate NumbersGroups(cycles: seq<seq<string>>, inCycle: map<string, nat>) {
    && (forall u :: u in inCycle ==> inCycle[u] < |cycles| && u in cycles[inCycle[u]])
    && (forall i, u :: 0 <= i < |cycles| && u in cycles[i] ==> u in inCycle && inCycle[u] == i)
  }

  lemma {:induction false} NumberedAlike(cycles: seq<seq<string>>, inCycle: map<string, nat>, u: string, v: string)
    requires NumbersGroups(cycles, inCycle)
    ensures (u in inCycle && v in inCycle && inCycle[u] == inCycle[v]) <==> SameGroup(cycles, u, v)
  {
  }

  /** Strictly below: reachable, with no way back. */
  ghost predicate Below(g: Graph, u: string, v: string) {
    Reach(g, u, v) && !Reach(g, v, u)
  }

  lemma {:induction false} MutualShareGroup(g: Graph, cycles: seq<seq<string>>, u: string, v: string)
    requires IsCycleList(g, cycles) && u != v && Mutual(g, u, v)
    ensures SameGroup(cycles, u, v)
  {
    ReachStartsInGraph(g, u, v);
    assert Listed(cycles, u);
    var c :| c in cycles && u in c;
    assert IsComponent(g, c);
  }

  /** A counted edge to another node leaves the component, so it leads strictly below. */
  lemma {:induction false} CountedLeadsBelow(g: Graph, cycles: seq<seq<string>>, u: string, v: string)
    requires IsCycleList(g, cycles) && Counted(g, cycles, u, v) && u != v
    ensures Below(g, u, v)
  {
    ReachEdge(g, u, v);
    if Reach(g, v, u) {
      MutualShareGroup(g, cycles, u, v);
      assert false;
    }
  }

  lemma {:induction false} BelowTransitive(g: Graph, u: string, v: string, w: string)
    requires Below(g, u, v) && Below(g, v, w)
    ensures Below(g, u, w)
  {
    ReachTransitive(g, u, v, w);
    if Reach(g, w, u) {
      ReachTransitive(g, w, u, v);
    }
  }

  lemma {:induction false} ChainExtends(g: Graph, cycles: seq<seq<string>>, u: string, v: string, k: nat)
    requires Counted(g, cycles, u, v) && SomeChain(g, cycles, v, k)
    requires u != v
    ensures SomeChain(g, cycles, u, k + 1)
  {
    var c :| ChainFrom(g, cycles, v, c) && |c| == k + 1;
    assert ChainFrom(g, cycles, u, [u] + c);
  }

  ghost predicate BoundedVia(g: Graph, cycles: seq<seq<string>>, u: string, done: set<string>, best: nat) {
    forall c :: ChainFrom(g, cycles, u, c) && |c| > 1 && c[1] in done ==> |c| <= best + 1
  }

  lemma {:induction false} BoundGrows(g: Graph, cycles: seq<seq<string>>, u: string, done: set<string>, v: string, k: nat, best: nat, best': nat)
    requires BoundedVia(g, cycles, u, done, best) && best <= best' && k + 1 <= best'
    requires if v == u then k == 0 else forall c :: ChainFrom(g, cycles, v, c) ==> |c| <= k + 1
    ensures BoundedVia(g, cycles, u, done + {v}, best')
  {
    forall c | ChainFrom(g, cycles, u, c) && |c| > 1 && c[1] in done + {v} ensures |c| <= best' + 1 {
      if c[1] == v {
        if v == u {
          assert |c| - 2 <= 0;
        } else {
          assert Counted(g, cycles, c[0], c[0 + 1]);
          assert ChainFrom(g, cycles, v, c[1..]);
        }
      } else {
        assert c[1] in done;
      }
    }
  }

  lemma {:induction false} BoundSkips(g: Graph, cycles: seq<seq<string>>, u: string, done: set<string>, v: string, best: nat)
    requires BoundedVia(g, cycles, u, done, best) && SameGroup(cycles, u, v)
    ensures BoundedVia(g, cycles, u, done + {v}, best)
  {
    forall c | ChainFrom(g, cycles, u, c) && |c| > 1 && c[1] in done + {v} ensures |c| <= best + 1 {
      assert Counted(g, cycles, c[0], c[0 + 1]);
      assert c[1] in done;
    }
  }

  lemma {:induction false} BoundComplete(g: Graph, cycles: seq<seq<string>>, u: string, best: nat)
    requires u in g && BoundedVia(g, cycles, u, g[u], best) && SomeChain(g, cycles, u, best)
    ensures IsDepth(g, cycles, u, best)
  {
    forall c | ChainFrom(g, cycles, u, c) ensures |c| <= best + 1 {
      if |c| > 1 {
        assert Counted(g, cycles, c[0], c[0 + 1]);
      }
    }
  }

  /** Every node already on the recursion's path lies strictly above `node`, or is `node` itself. */
  ghost predicate PathAbove(g: Graph, seen: set<string>, node: string) {
    forall s :: s in seen && s != node ==> Below(g, s, node)
  }

  lemma {:induction false} PathExtends(g: Graph, cycles: seq<seq<string>>, seen: set<string>, node: string, dep: string)
    requires IsCycleList(g, cycles) && PathAbove(g, seen, node) && Counted(g, cycles, node, dep) && dep != node
    ensures PathAbove(g, seen + {node}, dep) && dep !in seen + {node}
  {
    CountedLeadsBelow(g, cycles, node, dep);
    forall s | s in seen + {node} ensures Below(g, s, dep) && s != dep {
      if s != node { BelowTransitive(g, s, node, dep); }
    }
  }

  ghost predicate Grows(g: Graph, node: string, level: map<string, nat>, level': map<string, nat>) {
    && level.Keys <= level'.Keys
    && forall u :: u in level' && u !in level ==> Reach(g, node, u)
  }

  lemma {:induction false} GrowsBelow(g: Graph, node: string, dep: string, level0: map<string, nat>, level: map<string, nat>, level': map<string, nat>)
    requires Grows(g, node, level0, level) && Grows(g, dep, level, level') && Below(g, node, dep)
    requires node !in level
    ensures Grows(g, node, level0, level') && node !in level'
  {
    forall u | u in level' && u !in level0 ensures Reach(g, node, u) {
      if u !in level { ReachTransitive(g, node, dep, u); }
    }
  }

  /** The recursive `depth`. Its `seen` guard answers only a node that depends on itself: the
  third precondition is discharged at every call. */
  method Depth(g: Graph, cycles: seq<seq<string>>, inCycle: map<string, nat>,
               node: string, seen: set<string>, level0: map<string, nat>)
    returns (best: nat, level: map<string, nat>)
    requires Total(g) && IsCycleList(g, cycles) && NumbersGroups(cycles, inCycle)
    requires node in g && seen <= g.Keys && Depths(g, cycles, level0) && PathAbove(g, seen, node)
    requires node in seen ==> node !in level0 && Counted(g, cycles, node, node)
    ensures Depths(g, cycles, level) && Grows(g, node, level0, level)
    ensures if node in seen then best == 0 && level == level0 else node in level && best == level[node]
    decreases g.Keys - seen
  {
    if node in level0 {
      return level0[node], level0;
    }
    if node in seen {
      return 0, level0;
    }
    best, level := 0, level0;
    var todo := g[node];
    assert ChainFrom(g, cycles, node, [node]);
    while todo != {}
      invariant todo <= g[node]
      invariant Depths(g, cycles, level) && Grows(g, node, level0, level) && node !in level
      invariant SomeChain(g, cycles, node, best)
      invariant BoundedVia(g, cycles, node, g[node] - todo, best)
      decreases todo
    {
      var dep :| dep in todo;
      assert g[node] - (todo - {dep}) == (g[node] - todo) + {dep};
      NumberedAlike(cycles, inCycle, dep, node);
      if dep in inCycle && node in inCycle && inCycle[dep] == inCycle[node] {
        BoundSkips(g, cycles, node, g[node] - todo, dep, best);
      } else {
        assert Counted(g, cycles, node, dep);
        ghost var level1 := level;
        var below;
        if dep == node {
          assert ChainFrom(g, cycles, node, [node, node]);
        } else {
          PathExtends(g, cycles, seen, node, dep);
        }
        below, level := Depth(g, cycles, inCycle, dep, seen + {node}, level);
        if dep != node {
          assert IsDepth(g, cycles, dep, level[dep]);
          CountedLeadsBelow(g, cycles, node, dep);
          GrowsBelow(g, node, dep, level0, level1, level);
          ChainExtends(g, cycles, node, dep, below);
        }
        ghost var done, old_best := g[node] - todo, best;
        best := if best < below + 1 then below + 1 else best;
        BoundGrows(g, cycles, node, done, dep, below, old_best, best);
      }
      todo := todo - {dep};
    }
    BoundComplete(g, cycles, node, best);
    ReachSelf(g, node);
    DepthsUpdate(g, cycles, level, node, best);
    level := level[node := best];
  }

  // ------------------------------------------------------------------ levels

  /** Dependencies restricted to edges between known modules. */
  function GraphOf(modules: seq<string>, edges: set<(string, string)>): (g: Graph)
    ensures Total(g)
    ensures forall u, v :: Edge(g, u, v) <==> u in modules && v in modules && (u, v) in edges
  {
    map m | m in modules :: set e | e in edges && e.0 == m && e.1 in modules :: e.1
  }

  ghost predicate IsMax(depth: map<string, nat>, c: seq<string>, top: nat)
    requires forall m :: m in c ==> m in depth
  {
    (exists m :: m in c && depth[m] == top) && forall m :: m in c ==> depth[m] <= top
  }

  /** The level map: depths, with every member of a cycle raised to the cycle's deepest. */
  ghost predicate Raised(g: Graph, cycles: seq<seq<string>>, depth: map<string, nat>, level: map<string, nat>) {
    && depth.Keys == g.Keys && level.Keys == g.Keys
    && (forall c, m :: c in cycles && m in c ==> m in g)
    && (forall u {:trigger level[u]} :: u in g && !Listed(cycles, u) ==> level[u] == depth[u])
    && (forall c, u :: c in cycles && u in c ==> IsMax(depth, c, level[u]))
  }

  ghost predicate IsLevelMap(g: Graph, cycles: seq<seq<string>>, depth: map<string, nat>, level: map<string, nat>) {
    IsCycleList(g, cycles) && Depths(g, cycles, depth) && Raised(g, cycles, depth, level)
  }

  method Highest(group: seq<string>, level: map<string, nat>) returns (top: nat)
    requires group != [] && forall m :: m in group ==> m in level
    ensures IsMax(level, group, top)
  {
    top := level[group[0]];
    for i := 1 to |group|
      invariant exists m :: m in group && level[m] == top
      invariant forall j :: 0 <= j < i ==> level[group[j]] <= top
    {
      if top < level[group[i]] { top := level[group[i]]; }
    }
  }

  ghost predicate RaisedUpTo(g: Graph, cycles: seq<seq<string>>, n: nat, depth: map<string, nat>, level: map<string, nat>)
    requires n <= |cycles| && depth.Keys == g.Keys
    requires forall c, m :: c in cycles && m in c ==> m in g
  {
    && level.Keys == g.Keys
    && (forall u :: u in g && (forall i :: 0 <= i < n ==> u !in cycles[i]) ==> level[u] == depth[u])
    && (forall i, u :: 0 <= i < n && u in cycles[i] ==> IsMax(depth, cycles[i], level[u]))
  }

  lemma {:induction false} CyclesInGraph(g: Graph, cycles: seq<seq<string>>)
    requires IsCycleList(g, cycles)
    ensures forall c, m :: c in cycles && m in c ==> m in g
  {
    forall c, m | c in cycles && m in c ensures m in g {
      assert IsComponent(g, c) && Mutual(g, m, m);
      ReachStartsInGraph(g, m, m);
    }
  }

  lemma {:induction false} CyclesDisjoint(g: Graph, cycles: seq<seq<string>>, i: nat, j: nat, u: string)
    requires IsCycleList(g, cycles) && i < |cycles| && j < |cycles| && u in cycles[i] && u in cycles[j]
    ensures i == j
  {
    assert IsCycle(g, cycles[i]) && IsCycle(g, cycles[j]);
    forall x ensures x in cycles[i] <==> x in cycles[j] {
      assert x in cycles[i] <==> Mutual(g, u, x);
      assert x in cycles[j] <==> Mutual(g, u, x);
    }
    StrictlySortedUnique(cycles[i], cycles[j]);
  }

  method RaiseGroup(group: seq<string>, top: nat, level0: map<string, nat>) returns (level: map<string, nat>)
    requires forall m :: m in group ==> m in level0
    ensures level.Keys == level0.Keys
    ensures forall u :: u in level ==> level[u] == if u in group then top else level0[u]
  {
    level := level0;
    for i := 0 to |group|
      invariant level.Keys == level0.Keys
      invariant forall u :: u in level ==> level[u] == if u in group[..i] then top else level0[u]
    {
      level := level[group[i] := top];
    }
  }

  lemma {:induction false} RaiseStep(g: Graph, cycles: seq<seq<string>>, n: nat, depth: map<string, nat>,
                  level: map<string, nat>, top: nat, level': map<string, nat>)
    requires IsCycleList(g, cycles) && n < |cycles| && depth.Keys == g.Keys
    requires forall c, m :: c in cycles && m in c ==> m in g
    requires RaisedUpTo(g, cycles, n, depth, level)
    requires IsMax(level, cycles[n], top)
    requires level'.Keys == level.Keys
    requires forall u :: u in level' ==> level'[u] == if u in cycles[n] then top else level[u]
    ensures RaisedUpTo(g, cycles, n + 1, depth, level')
  {
    forall u | u in cycles[n] ensures level[u] == depth[u] {
      forall i | 0 <= i < n ensures u !in cycles[i] {
        if u in cycles[i] { CyclesDisjoint(g, cycles, i, n, u); }
      }
    }
    forall i, u | 0 <= i < n + 1 && u in cycles[i] ensures IsMax(depth, cycles[i], level'[u]) {
      if i < n {
        if u in cycles[n] { CyclesDisjoint(g, cycles, i, n, u); }
        assert IsMax(depth, cycles[i], level[u]);
      } else {
        var m :| m in cycles[n] && level[m] == top;
        assert depth[m] == top;
      }
    }
  }

  /** `for group in cycles`: lifts each cycle to its deepest member. */
  method RaiseCycles(g: Graph, cycles: seq<seq<string>>, depth: map<string, nat>) returns (level: map<string, nat>)
    requires IsCycleList(g, cycles) && Depths(g, cycles, depth) && depth.Keys == g.Keys
    ensures IsLevelMap(g, cycles, depth, level)
  {
    CyclesInGraph(g, cycles);
    level := depth;
    for i := 0 to |cycles|
      invariant RaisedUpTo(g, cycles, i, depth, level)
    {
      assert cycles[i] in cycles;
      var top := Highest(cycles[i], level);
      var raised := RaiseGroup(cycles[i], top, level);
      RaiseStep(g, cycles, i, depth, level, top, raised);
      level := raised;
    }
    RaisedAll(g, cycles, depth, level);
  }

  lemma {:induction false} RaisedAll(g: Graph, cycles: seq<seq<string>>, depth: map<string, nat>, level: map<string, nat>)
    requires depth.Keys == g.Keys && forall c, m :: c in cycles && m in c ==> m in g
    requires RaisedUpTo(g, cycles, |cycles|, depth, level)
    ensures Raised(g, cycles, depth, level)
  {
    forall u | u in g && !Listed(cycles, u) ensures level[u] == depth[u] {
      assert forall i :: 0 <= i < |cycles| ==> cycles[i] in cycles;
    }
    forall c, u | c in cycles && u in c ensures IsMax(depth, c, level[u]) {
      var i :| 0 <= i < |cycles| && cycles[i] == c;
    }
  }

  ghost predicate NumbersUpTo(cycles: seq<seq<string>>, n: nat, inCycle: map<string, nat>)
    requires n <= |cycles|
  {
    && (forall u :: u in inCycle ==> inCycle[u] < n && u in cycles[inCycle[u]])
    && (forall i, u :: 0 <= i < n && u in cycles[i] ==> u in inCycle && inCycle[u] == i)
  }

  method NumberGroup(group: seq<string>, i: nat, inCycle0: map<string, nat>) returns (inCycle: map<string, nat>)
    ensures forall u :: u in inCycle <==> u in inCycle0 || u in group
    ensures forall u :: u in inCycle ==> inCycle[u] == if u in group then i else inCycle0[u]
  {
    inCycle := inCycle0;
    for k := 0 to |group|
      invariant forall u :: u in inCycle <==> u in inCycle0 || u in group[..k]
      invariant forall u :: u in inCycle ==> inCycle[u] == if u in group[..k] then i else inCycle0[u]
    {
      inCycle := inCycle[group[k] := i];
    }
  }

  lemma {:induction false} NumberStep(g: Graph, cycles: seq<seq<string>>, i: nat, inCycle0: map<string, nat>, inCycle: map<string, nat>)
    requires IsCycleList(g, cycles) && i < |cycles| && NumbersUpTo(cycles, i, inCycle0)
    requires forall u :: u in inCycle <==> u in inCycle0 || u in cycles[i]
    requires forall u :: u in inCycle ==> inCycle[u] == if u in cycles[i] then i else inCycle0[u]
    ensures NumbersUpTo(cycles, i + 1, inCycle)
  {
    forall j, u | 0 <= j < i && u in cycles[j] ensures u !in cycles[i] {
      if u in cycles[i] { CyclesDisjoint(g, cycles, i, j, u); }
    }
  }

  method NumberGroups(g: Graph, cycles: seq<seq<string>>) returns (inCycle: map<string, nat>)
    requires IsCycleList(g, cycles)
    ensures NumbersGroups(cycles, inCycle)
  {
    inCycle := map[];
    for i := 0 to |cycles|
      invariant NumbersUpTo(cycles, i, inCycle)
    {
      var numbered := NumberGroup(cycles[i], i, inCycle);
      NumberStep(g, cycles, i, inCycle, numbered);
      inCycle := numbered;
    }
  }

  function AtLevel(modules: seq<string>, level: map<string, nat>, k: nat): (r: seq<string>)
    ensures forall m :: m in r <==> m in modules && m in level && level[m] == k
  {
    if modules == [] then []
    else if modules[0] in level && level[modules[0]] == k then [modules[0]] + AtLevel(modules[1..], level, k)
    else AtLevel(modules[1..], level, k)
  }

  /** One sorted list of modules per level, from 0 up to but excluding `n`. */
  function LayersOf(modules: seq<string>, level: map<string, nat>, n: nat): (r: seq<seq<string>>)
    ensures |r| == n
    ensures forall k, m :: 0 <= k < n ==> (m in r[k] <==> m in modules && m in level && level[m] == k)
  {
    if n == 0 then []
    else
      var here := AtLevel(modules, level, n - 1);
      SortMembers(here, StrLe);
      LayersOf(modules, level, n - 1) + [StableSort(here, StrLe)]
  }

  function NonEmpty(layers: seq<seq<string>>): (r: seq<seq<string>>)
    ensures forall l :: l in r <==> l in layers && l != []
  {
    if layers == [] then []
    else if layers[0] != [] then [layers[0]] + NonEmpty(layers[1..])
    else NonEmpty(layers[1..])
  }

  lemma {:induction false} NothingDropped(layers: seq<seq<string>>)
    requires forall k :: 0 <= k < |layers| ==> layers[k] != []
    ensures NonEmpty(layers) == layers
  {
    if layers != [] { NothingDropped(layers[1..]); }
  }

  /** `deps` holds the edges of `done` between known modules. */
  ghost predicate HoldsEdges(deps: Graph, modules: seq<string>, done: set<(string, string)>) {
    && (forall m :: m in deps <==> m in modules)
    && (forall u, v :: u in deps ==> (v in deps[u] <==> (u, v) in done && v in modules))
  }

  lemma {:induction false} HeldEdgesAreGraph(deps: Graph, modules: seq<string>, edges: set<(string, string)>)
    requires HoldsEdges(deps, modules, edges)
    ensures deps == GraphOf(modules, edges)
  {
    var g := GraphOf(modules, edges);
    assert deps.Keys == g.Keys;
    forall u | u in deps ensures deps[u] == g[u] {
      forall v ensures v in deps[u] <==> v in g[u] {
        assert Edge(g, u, v) <==> u in modules && v in modules && (u, v) in edges;
      }
    }
  }

  method BuildDeps(modules: seq<string>, edges: set<(string, string)>) returns (deps: Graph)
    ensures deps == GraphOf(modules, edges)
  {
    deps := map m | m in modules :: {};
    var todo := edges;
    while todo != {}
      invariant todo <= edges
      invariant HoldsEdges(deps, modules, edges - todo)
      decreases todo
    {
      var e :| e in todo;
      if e.0 in deps && e.1 in deps {
        deps := deps[e.0 := deps[e.0] + {e.1}];
      }
      todo := todo - {e};
    }
    assert edges - todo == edges;
    HeldEdgesAreGraph(deps, modules, edges);
  }

  ghost predicate HighestLevel(level: map<string, nat>, n: nat) {
    && (forall m :: m in level ==> level[m] < n)
    && (if level.Keys == {} then n == 1 else exists m :: m in level && level[m] + 1 == n)
  }

  method CountLevels(level: map<string, nat>) returns (n: nat)
    ensures HighestLevel(level, n)
  {
    n := 1;
    var todo := level.Keys;
    while todo != {}
      invariant todo <= level.Keys
      invariant forall m :: m in level.Keys - todo ==> level[m] < n
      invariant (todo == level.Keys && n == 1) || exists m :: m in level && level[m] + 1 == n
      decreases todo
    {
      var m :| m in todo;
      if todo == level.Keys || n < level[m] + 1 { n := level[m] + 1; }
      todo := todo - {m};
    }
  }

  /** `depth(m, set())`. */
  method DepthFrom(g: Graph, cycles: seq<seq<string>>, inCycle: map<string, nat>, m: string, memo: map<string, nat>)
    returns (grown: map<string, nat>)
    requires Total(g) && IsCycleList(g, cycles) && NumbersGroups(cycles, inCycle)
    requires m in g && Depths(g, cycles, memo)
    ensures Depths(g, cycles, grown) && memo.Keys + {m} <= grown.Keys
  {
    var _, level := Depth(g, cycles, inCycle, m, {}, memo);
    grown := level;
  }

  /** `for m in sorted(modules): depth(m, set())`. */
  method AllDepths(g: Graph, cycles: seq<seq<string>>, modules: seq<string>) returns (memo: map<string, nat>)
    requires Total(g) && IsCycleList(g, cycles) && forall m :: m in g <==> m in modules
    ensures Depths(g, cycles, memo) && memo.Keys == g.Keys
  {
    var inCycle := NumberGroups(g, cycles);
    memo := map[];
    var names := StableSort(modules, StrLe);
    SortMembers(modules, StrLe);
    for i := 0 to |names|
      invariant Depths(g, cycles, memo)
      invariant forall j :: 0 <= j < i ==> names[j] in memo.Keys
    {
      assert names[i] in g;
      memo := DepthFrom(g, cycles, inCycle, names[i], memo);
    }
    assert memo.Keys == g.Keys by {
      forall m | m in g.Keys ensures m in memo.Keys { assert m in names; }
    }
  }

  /** The layers list the modules by some level map of the graph, and the cycles are the graph's. */
  ghost predicate IsLayering(modules: seq<string>, edges: set<(string, string)>, layers: seq<seq<string>>,
      cycles: seq<seq<string>>)
  {
    exists depth, level, n :: IsLevelMap(GraphOf(modules, edges), cycles, depth, level) && HighestLevel(level, n)
      && layers == NonEmpty(LayersOf(modules, level, n))
  }

  /** `_layer`: the levels and the cycles of the module graph. */
  method Layer(modules: seq<string>, edges: set<(string, string)>)
    returns (layers: seq<seq<string>>, cycles: seq<seq<string>>, ghost depth: map<string, nat>, ghost level: map<string, nat>)
    ensures IsLayering(modules, edges, layers, cycles)
    ensures IsLevelMap(GraphOf(modules, edges), cycles, depth, level)
    ensures exists n :: HighestLevel(level, n) && layers == NonEmpty(LayersOf(modules, level, n))
  {
    var g := BuildDeps(modules, edges);
    cycles := FindCycles(g);
    var memo := AllDepths(g, cycles, modules);
    var raised := RaiseCycles(g, cycles, memo);
    var n := CountLevels(raised);
    layers := NonEmpty(LayersOf(modules, raised, n));
    depth, level := memo, raised;
  }

  // ---------------------------------------------------------- what levels mean

  ghost predicate NoSelfEdges(g: Graph) {
    forall u :: !Edge(g, u, u)
  }

  lemma {:induction false} DeepestDependency(g: Graph, cycles: seq<seq<string>>, depth: map<string, nat>, u: string)
    requires IsCycleList(g, cycles) && NoSelfEdges(g) && Depths(g, cycles, depth) && depth.Keys == g.Keys
    requires u in g
    ensures forall d :: Counted(g, cycles, u, d) ==> d in depth && depth[d] < depth[u]
    ensures depth[u] > 0 ==> exists d :: Counted(g, cycles, u, d) && d in depth && depth[d] + 1 == depth[u]
  {
    assert IsDepth(g, cycles, u, depth[u]);
    forall d | Counted(g, cycles, u, d) ensures d in depth && depth[d] < depth[u] {
      assert IsDepth(g, cycles, d, depth[d]);
      ChainExtends(g, cycles, u, d, depth[d]);
    }
    if depth[u] > 0 {
      var c :| ChainFrom(g, cycles, u, c) && |c| == depth[u] + 1;
      assert Counted(g, cycles, c[0], c[0 + 1]);
      assert ChainFrom(g, cycles, c[1], c[1..]);
      assert IsDepth(g, cycles, c[1], depth[c[1]]);
    }
  }

  /** All members of a cycle end on one level. */
  lemma {:induction false} CycleSharesLevel(g: Graph, cycles: seq<seq<string>>, depth: map<string, nat>, level: map<string, nat>, u: string, v: string)
    requires Raised(g, cycles, depth, level) && SameGroup(cycles, u, v)
    ensures u in level && v in level && level[u] == level[v]
  {
    var c :| c in cycles && u in c && v in c;
    MaxIsUnique(depth, c, level[u], level[v]);
  }

  lemma {:induction false} MaxIsUnique(depth: map<string, nat>, c: seq<string>, a: nat, b: nat)
    requires (forall m :: m in c ==> m in depth) && IsMax(depth, c, a) && IsMax(depth, c, b)
    ensures a == b
  {
  }

  /** Raising never lowers, and some member of a module's own cycle sets its level. */
  lemma {:induction false} LevelHasWitness(g: Graph, cycles: seq<seq<string>>, depth: map<string, nat>, level: map<string, nat>, u: string)
    returns (w: string)
    requires IsLevelMap(g, cycles, depth, level) && u in g
    ensures w in g && (w == u || SameGroup(cycles, u, w)) && depth[w] == level[u]
    ensures depth[u] <= level[u]
  {
    w := u;
    if Listed(cycles, u) {
      var c :| c in cycles && u in c;
      assert IsMax(depth, c, level[u]);
      w :| w in c && depth[w] == level[u];
    }
  }

  /** A chain of counted dependencies that starts at `u` or elsewhere in the cycle of `u`. */
  ghost predicate LeavesCycleOf(g: Graph, cycles: seq<seq<string>>, u: string, c: seq<string>) {
    c != [] && (c[0] == u || SameGroup(cycles, u, c[0])) && ChainFrom(g, cycles, c[0], c)
  }

  ghost predicate LongerThanFrom(g: Graph, cycles: seq<seq<string>>, v: string, c: seq<string>) {
    forall d :: LeavesCycleOf(g, cycles, v, d) ==> |d| < |c|
  }

  /** The level of a module is the length of the longest chain out of its cycle. */
  lemma {:induction false} LevelIsLongestChain(g: Graph, cycles: seq<seq<string>>, depth: map<string, nat>, level: map<string, nat>, u: string)
    returns (c: seq<string>)
    requires IsLevelMap(g, cycles, depth, level) && u in g
    ensures LeavesCycleOf(g, cycles, u, c) && |c| == level[u] + 1
    ensures forall d :: LeavesCycleOf(g, cycles, u, d) ==> |d| <= |c|
  {
    var w := LevelHasWitness(g, cycles, depth, level, u);
    assert IsDepth(g, cycles, w, depth[w]);
    c :| ChainFrom(g, cycles, w, c) && |c| == depth[w] + 1;
    forall d | LeavesCycleOf(g, cycles, u, d) ensures |d| <= level[u] + 1 {
      assert IsDepth(g, cycles, d[0], depth[d[0]]);
      var _ := LevelHasWitness(g, cycles, depth, level, d[0]);
      if d[0] != u { CycleSharesLevel(g, cycles, depth, level, u, d[0]); }
    }
  }

  /** When a module stands strictly above another: exactly when some chain of dependencies out of
  its cycle is longer than every chain out of the other's cycle. A dependency of a lone module is
  not enough, because a chain may leave the dependency's cycle from another of its members. */
  lemma {:induction false} StrictExactly(g: Graph, cycles: seq<seq<string>>, depth: map<string, nat>, level: map<string, nat>, u: string, v: string)
    requires IsLevelMap(g, cycles, depth, level) && u in g && v in g
    ensures level[v] < level[u] <==> exists c :: LeavesCycleOf(g, cycles, u, c) && LongerThanFrom(g, cycles, v, c)
  {
    var a := LevelIsLongestChain(g, cycles, depth, level, u);
    var b := LevelIsLongestChain(g, cycles, depth, level, v);
    if level[v] < level[u] {
      assert LongerThanFrom(g, cycles, v, a);
    }
  }

  /** In particular, strictly above every other dependency that was not raised. */
  lemma {:induction false} StrictWhenNotRaised(g: Graph, cycles: seq<seq<string>>, depth: map<string, nat>, level: map<string, nat>, u: string, v: string)
    requires IsLevelMap(g, cycles, depth, level) && Counted(g, cycles, u, v) && u != v
    requires v in g && level[v] == depth[v]
    ensures level[v] < level[u]
  {
    assert IsDepth(g, cycles, u, depth[u]) && IsDepth(g, cycles, v, depth[v]);
    ChainExtends(g, cycles, u, v, depth[v]);
    var _ := LevelHasWitness(g, cycles, depth, level, u);
  }

  function ExampleGraph(): Graph {
    map["A" := {"B", "C"}, "B" := {"A"}, "C" := {}, "X" := {"B"}]
  }

  function ExampleDepth(): map<string, nat> {
    map["A" := 1, "B" := 0, "C" := 0, "X" := 1]
  }

  function ExampleLevel(): map<string, nat> {
    map["A" := 1, "B" := 1, "C" := 0, "X" := 1]
  }

  /** The failing case: A and B form a cycle, A needs C and X needs B. B is raised after X was
  placed, so X shares the level of the module it depends on. */
  lemma {:induction false} RaisedTargetNotStrict(g: Graph, cycles: seq<seq<string>>, depth: map<string, nat>, level: map<string, nat>)
    requires g == ExampleGraph() && cycles == [["A", "B"]] && depth == ExampleDepth() && level == ExampleLevel()
    ensures IsLevelMap(g, cycles, depth, level) && NoSelfEdges(g)
    ensures Counted(g, cycles, "X", "B") && level["X"] == level["B"]
  {
    ExampleCycle(g);
    ExampleDepths(g, cycles, depth);
    ExampleRaised(g, cycles, depth, level);
    MakesLevelMap(g, cycles, depth, level);
    ExampleEdges(g, cycles);
  }

  lemma {:induction false} MakesLevelMap(g: Graph, cycles: seq<seq<string>>, depth: map<string, nat>, level: map<string, nat>)
    requires IsCycleList(g, cycles) && Depths(g, cycles, depth) && Raised(g, cycles, depth, level)
    ensures IsLevelMap(g, cycles, depth, level)
  {
  }

  lemma {:induction false} ExampleEdges(g: Graph, cycles: seq<seq<string>>)
    requires g == ExampleGraph() && cycles == [["A", "B"]]
    ensures NoSelfEdges(g) && Counted(g, cycles, "X", "B")
  {
    assert forall c :: c in cycles ==> "X" !in c;
  }

  lemma {:induction false} ExampleRaised(g: Graph, cycles: seq<seq<string>>, depth: map<string, nat>, level: map<string, nat>)
    requires g == ExampleGraph() && cycles == [["A", "B"]] && depth == ExampleDepth() && level == ExampleLevel()
    ensures Raised(g, cycles, depth, level)
  {
    var c := ["A", "B"];
    assert cycles[0] in cycles && c[0] == "A" && c[1] == "B" && c[0] in c && c[1] in c;
    assert Listed(cycles, "A") && Listed(cycles, "B");
    assert IsMax(depth, c, 1);
  }

  lemma {:induction false} ExampleCycle(g: Graph)
    requires g == ExampleGraph()
    ensures IsCycleList(g, [["A", "B"]])
  {
    var cycle := ["A", "B"];
    ReachEdge(g, "A", "B");
    ReachEdge(g, "B", "A");
    ReachSelf(g, "A");
    ReachSelf(g, "B");
    assert Closed(g, {"C"}) && Closed(g, {"A", "B", "C"});
    forall x, y | x in cycle ensures y in cycle <==> Mutual(g, x, y) {
      if Mutual(g, x, y) {
        ReachStaysInClosed(g, {"A", "B", "C"}, x, y);
        if y == "C" { ReachStaysInClosed(g, {"C"}, y, x); }
      }
    }
    forall u | u in g && OnCycle(g, u) ensures Listed([cycle], u) {
      var w :| w != u && Mutual(g, u, w);
      if u == "C" {
        ReachStaysInClosed(g, {"C"}, u, w);
      } else if u == "X" {
        ReachStaysInClosed(g, {"A", "B", "C", "X"}, u, w);
        ReachStaysInClosed(g, {"A", "B", "C"}, w, u);
      } else {
        assert u in cycle && cycle in [cycle];
      }
    }
  }

  lemma {:induction false} ChainBoundedBy(g: Graph, cycles: seq<seq<string>>, depth: map<string, nat>, c: seq<string>)
    requires depth.Keys == g.Keys && c != [] && ChainFrom(g, cycles, c[0], c)
    requires forall u, d :: Counted(g, cycles, u, d) ==> depth[d] < depth[u]
    ensures |c| <= depth[c[0]] + 1
  {
    if |c| > 1 {
      assert Counted(g, cycles, c[0], c[0 + 1]);
      ChainBoundedBy(g, cycles, depth, c[1..]);
    }
  }

  lemma {:induction false} ExampleDepths(g: Graph, cycles: seq<seq<string>>, depth: map<string, nat>)
    requires g == ExampleGraph() && cycles == [["A", "B"]] && depth == ExampleDepth()
    ensures Depths(g, cycles, depth)
  {
    assert cycles[0] in cycles;
    assert ChainFrom(g, cycles, "C", ["C"]) && ChainFrom(g, cycles, "B", ["B"]);
    assert ChainFrom(g, cycles, "A", ["A", "C"]) && ChainFrom(g, cycles, "X", ["X", "B"]);
    assert forall u, v :: Counted(g, cycles, u, v) ==> (u == "A" && v == "C") || (u == "X" && v == "B");
    forall u, c | ChainFrom(g, cycles, u, c) ensures |c| <= depth[u] + 1 {
      ChainBoundedBy(g, cycles, depth, c);
    }
  }

  // ------------------------------------------------------- no gaps, no cycles

  ghost predicate Inhabited(level: map<string, nat>, k: nat) {
    exists m :: m in level && level[m] == k
  }

  ghost function Under(g: Graph, m: string): set<string> {
    set w | w in g && Reach(g, m, w)
  }

  /** Walking down from `m`, some node stands at each lower level, cycles notwithstanding. */
  lemma {:induction false} LowerLevelsInhabited(g: Graph, cycles: seq<seq<string>>, depth: map<string, nat>, level: map<string, nat>, m: string, k: nat)
    requires IsLevelMap(g, cycles, depth, level) && NoSelfEdges(g) && m in g && k <= depth[m]
    ensures Inhabited(level, k)
    decreases |Under(g, m)|
  {
    if k < depth[m] {
      DeepestDependency(g, cycles, depth, m);
      var d :| Counted(g, cycles, m, d) && d in depth && depth[d] + 1 == depth[m];
      CountedLeadsBelow(g, cycles, m, d);
      UnderShrinks(g, m, d);
      LowerLevelsInhabited(g, cycles, depth, level, d, k);
    } else if level[m] != depth[m] {
      var w := LevelHasWitness(g, cycles, depth, level, m);
      var c :| c in cycles && m in c && w in c;
      assert IsComponent(g, c) && Mutual(g, m, w);
      DeepestDependency(g, cycles, depth, w);
      var d :| Counted(g, cycles, w, d) && d in depth && depth[d] + 1 == depth[w];
      CountedLeadsBelow(g, cycles, w, d);
      BelowFromMutual(g, m, w, d);
      UnderShrinks(g, m, d);
      LowerLevelsInhabited(g, cycles, depth, level, d, k);
    }
  }

  lemma {:induction false} BelowFromMutual(g: Graph, m: string, w: string, d: string)
    requires Mutual(g, m, w) && Below(g, w, d)
    ensures Below(g, m, d)
  {
    ReachTransitive(g, m, w, d);
    if Reach(g, d, m) { ReachTransitive(g, d, m, w); }
  }

  lemma {:induction false} UnderShrinks(g: Graph, m: string, d: string)
    requires Below(g, m, d) && d in g && m in g
    ensures |Under(g, d)| < |Under(g, m)|
  {
    forall w | w in Under(g, d) ensures w in Under(g, m) { ReachTransitive(g, m, d, w); }
    ReachSelf(g, m);
    assert m in Under(g, m) && m !in Under(g, d);
    SmallerSubset(Under(g, d), Under(g, m));
  }

  lemma {:induction false} SmallerSubset(a: set<string>, b: set<string>)
    requires a < b
    ensures |a| < |b|
  {
    assert |b| == |a| + |b - a| by { assert b == a + (b - a); }
    assert b - a != {};
  }

  /** Without self-dependencies the levels have no gap: every list `_layer` drops as empty was
  dropped for an empty repository, so a module's level is its layer's position. */
  lemma {:induction false} LayersHaveNoGap(modules: seq<string>, edges: set<(string, string)>, cycles: seq<seq<string>>,
                        depth: map<string, nat>, level: map<string, nat>, n: nat)
    requires var g := GraphOf(modules, edges); IsLevelMap(g, cycles, depth, level) && NoSelfEdges(g)
    requires modules != [] && HighestLevel(level, n)
    ensures NonEmpty(LayersOf(modules, level, n)) == LayersOf(modules, level, n)
  {
    var g := GraphOf(modules, edges);
    assert modules[0] in level;
    var top :| top in level && level[top] + 1 == n;
    var w := LevelHasWitness(g, cycles, depth, level, top);
    var layers := LayersOf(modules, level, n);
    forall k | 0 <= k < n ensures layers[k] != [] {
      LowerLevelsInhabited(g, cycles, depth, level, w, k);
      var m :| m in level && level[m] == k;
      assert m in layers[k];
    }
    NothingDropped(layers);
  }

  ghost predicate Acyclic(g: Graph) {
    forall u, v :: Edge(g, u, v) ==> !Reach(g, v, u)
  }

  /** `k` is the number of edges of a longest walk from `u`. */
  ghost predicate LongestWalk(g: Graph, u: string, k: nat) {
    && (exists p :: IsWalk(g, p) && p[0] == u && |p| == k + 1)
    && forall p :: IsWalk(g, p) && p[0] == u ==> |p| <= k + 1
  }

  lemma {:induction false} AcyclicHasNoCycles(g: Graph, cycles: seq<seq<string>>)
    requires IsCycleList(g, cycles) && Acyclic(g)
    ensures cycles == [] && NoSelfEdges(g)
  {
    forall u ensures !Edge(g, u, u) {
      if Edge(g, u, u) { ReachSelf(g, u); }
    }
    if cycles != [] {
      var c := cycles[0];
      assert c in cycles && IsCycle(g, c);
      var u, v := c[0], c[1];
      assert u in c && v in c && Mutual(g, u, v) && u != v;
      var p :| Joins(g, p, u, v);
      assert Edge(g, p[0], p[0 + 1]);
      assert Joins(g, p[1..], p[1], v);
      ReachTransitive(g, p[1], v, u);
      assert false;
    }
  }

  /** On an acyclic graph nothing is raised and a level is the length of a longest
  dependency path. */
  lemma {:induction false} AcyclicLevels(g: Graph, cycles: seq<seq<string>>, depth: map<string, nat>, level: map<string, nat>, u: string)
    requires IsLevelMap(g, cycles, depth, level) && Acyclic(g) && u in g
    ensures cycles == [] && level == depth && LongestWalk(g, u, level[u])
  {
    AcyclicHasNoCycles(g, cycles);
    assert forall v :: !Listed(cycles, v);
    assert IsDepth(g, cycles, u, depth[u]);
    var c :| ChainFrom(g, cycles, u, c) && |c| == depth[u] + 1;
    assert IsWalk(g, c) by {
      assert forall i :: 0 <= i < |c| - 1 ==> Counted(g, cycles, c[i], c[i + 1]);
    }
    forall p | IsWalk(g, p) && p[0] == u ensures |p| <= depth[u] + 1 {
      assert forall i :: 0 <= i < |p| - 1 ==> Counted(g, cycles, p[i], p[i + 1]);
      assert ChainFrom(g, cycles, u, p);
    }
  }
}
