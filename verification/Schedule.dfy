/** Wave scheduling: `build_schedule` (cdp/schedule.py:23-98), and what it means end to end
together with the layering. */
module Schedule {
  import opened Orders
  import opened Scopes
  import opened Reachability
  import opened Cycles
  import opened Layering

  datatype Wave = Wave(wave: nat, level: nat, nodes: seq<string>, fileCount: nat, loc: nat)

  /** `range(0, n, 0)` raises a ValueError. */
  datatype Outcome = ValueError | Scheduled(waves: seq<Wave>, nodeWave: map<string, nat>)

  function LevelOf(levelOf: map<string, nat>, s: Scope): nat {
    if s.moduleName in levelOf then levelOf[s.moduleName] else 0
  }

  predicate ScopeLe(levelOf: map<string, nat>, a: Scope, b: Scope) {
    var la, lb := LevelOf(levelOf, a), LevelOf(levelOf, b);
    la < lb || (la == lb && StrLe(a.node, b.node))
  }

  /** `key=lambda s: (level_of.get(s["module"], 0), s["node"])`. */
  function ScopeOrder(levelOf: map<string, nat>): (Scope, Scope) -> bool {
    (a, b) => ScopeLe(levelOf, a, b)
  }

  lemma {:induction false} ScopeOrderIsOrder(levelOf: map<string, nat>)
    ensures TotalPreorder(ScopeOrder(levelOf))
  {
    StrLeIsOrder();
  }

  function Nodes(scopes: seq<Scope>): (r: seq<string>)
    ensures |r| == |scopes| && forall i :: 0 <= i < |r| ==> r[i] == scopes[i].node
  {
    if scopes == [] then [] else [scopes[0].node] + Nodes(scopes[1..])
  }

  function Files(scopes: seq<Scope>): nat {
    if scopes == [] then 0 else scopes[0].fileCount + Files(scopes[1..])
  }

  function Loc(scopes: seq<Scope>): nat {
    if scopes == [] then 0 else scopes[0].loc + Loc(scopes[1..])
  }

  // ---------------------------------------------------------------- the waves

  /** Wave `w` is numbered `i`, stands on one level and runs exactly the scopes of `chunk`. */
  ghost predicate Runs(levelOf: map<string, nat>, w: Wave, i: nat, chunk: seq<Scope>) {
    && chunk != [] && w.wave == i
    && (forall s :: s in chunk ==> LevelOf(levelOf, s) == w.level)
    && w.nodes == Nodes(chunk) && w.fileCount == Files(chunk) && w.loc == Loc(chunk)
  }

  function Flatten<T>(xs: seq<seq<T>>): seq<T> {
    if xs == [] then [] else Flatten(xs[..|xs| - 1]) + xs[|xs| - 1]
  }

  lemma {:induction false} FlattenAppend<T>(xs: seq<seq<T>>, x: seq<T>)
    ensures Flatten(xs + [x]) == Flatten(xs) + x
  {
    assert (xs + [x])[..|xs|] == xs;
  }

  /** A wave is full, or it is the last of its level. */
  ghost predicate FullOrLast(maxConcurrent: int, waves: seq<Wave>, chunks: seq<seq<Scope>>, i: nat)
    requires i < |chunks| == |waves|
  {
    |chunks[i]| == maxConcurrent || i + 1 == |waves| || waves[i].level < waves[i + 1].level
  }

  /** `chunks` cuts `scopes` into waves: nothing lost, nothing reordered, no wave over the cap or
  across levels, and as few waves per level as the cap allows. */
  ghost predicate CutsInto(levelOf: map<string, nat>, maxConcurrent: int, scopes: seq<Scope>,
                           waves: seq<Wave>, chunks: seq<seq<Scope>>) {
    && |chunks| == |waves| && Flatten(chunks) == scopes
    && (forall i :: 0 <= i < |waves| ==> Runs(levelOf, waves[i], i, chunks[i]) && |chunks[i]| <= maxConcurrent)
    && (forall i, j :: 0 <= i < j < |waves| ==> waves[i].level <= waves[j].level)
    && (forall i :: 0 <= i < |waves| ==> FullOrLast(maxConcurrent, waves, chunks, i))
  }

  ghost predicate AreWaves(levelOf: map<string, nat>, maxConcurrent: int, scopes: seq<Scope>, waves: seq<Wave>) {
    exists chunks :: CutsInto(levelOf, maxConcurrent, scopes, waves, chunks)
  }

  lemma {:induction false} AddWave(levelOf: map<string, nat>, maxConcurrent: int, scopes: seq<Scope>, waves: seq<Wave>,
                chunks: seq<seq<Scope>>, w: Wave, chunk: seq<Scope>)
    requires CutsInto(levelOf, maxConcurrent, scopes, waves, chunks)
    requires Runs(levelOf, w, |waves|, chunk) && |chunk| <= maxConcurrent
    requires forall i :: 0 <= i < |waves| ==> waves[i].level <= w.level
    requires waves != [] && waves[|waves| - 1].level == w.level ==> |chunks[|chunks| - 1]| == maxConcurrent
    ensures CutsInto(levelOf, maxConcurrent, scopes + chunk, waves + [w], chunks + [chunk])
  {
    FlattenAppend(chunks, chunk);
    var waves', chunks' := waves + [w], chunks + [chunk];
    forall i | 0 <= i < |waves'| ensures FullOrLast(maxConcurrent, waves', chunks', i) {
      if i < |waves| { assert FullOrLast(maxConcurrent, waves, chunks, i); }
    }
  }

  /** The state inside `flush`: `done` scheduled, and a further wave of this level may follow. */
  ghost predicate Flushing(levelOf: map<string, nat>, maxConcurrent: int, level: nat, done: seq<Scope>,
                           waves: seq<Wave>, chunks: seq<seq<Scope>>, more: bool) {
    && CutsInto(levelOf, maxConcurrent, done, waves, chunks)
    && (forall i :: 0 <= i < |waves| ==> waves[i].level <= level)
    && (more && waves != [] && waves[|waves| - 1].level == level ==> |chunks[|chunks| - 1]| == maxConcurrent)
  }

  function WaveFor(n: nat, level: nat, chunk: seq<Scope>): Wave {
    Wave(n, level, Nodes(chunk), Files(chunk), Loc(chunk))
  }

  lemma {:induction false} FlushChunk(levelOf: map<string, nat>, maxConcurrent: int, level: nat, done: seq<Scope>,
                   waves: seq<Wave>, chunks: seq<seq<Scope>>, chunk: seq<Scope>, more: bool)
    requires Flushing(levelOf, maxConcurrent, level, done, waves, chunks, true)
    requires chunk != [] && forall s :: s in chunk ==> LevelOf(levelOf, s) == level
    requires |chunk| <= maxConcurrent && (more ==> |chunk| == maxConcurrent)
    ensures Flushing(levelOf, maxConcurrent, level, done + chunk, waves + [WaveFor(|waves|, level, chunk)], chunks + [chunk], more)
  {
    assert Runs(levelOf, WaveFor(|waves|, level, chunk), |waves|, chunk);
    AddWave(levelOf, maxConcurrent, done, waves, chunks, WaveFor(|waves|, level, chunk), chunk);
  }

  /** The `flush` closure: the bucket of one level, cut into chunks and appended to the waves. */
  lemma {:induction false} ChunkExtends(done: seq<Scope>, bucket: seq<Scope>, start: nat, end: nat)
    requires start <= end <= |bucket|
    ensures done + bucket[..start] + bucket[start..end] == done + bucket[..end]
    ensures forall s :: s in bucket[start..end] ==> s in bucket
  {
  }

  method Flush(levelOf: map<string, nat>, maxConcurrent: int, level: nat, bucket: seq<Scope>,
               ghost done: seq<Scope>, waves0: seq<Wave>, ghost chunks0: seq<seq<Scope>>)
    returns (waves: seq<Wave>, ghost chunks: seq<seq<Scope>>)
    requires maxConcurrent > 0
    requires CutsInto(levelOf, maxConcurrent, done, waves0, chunks0)
    requires forall s :: s in bucket ==> LevelOf(levelOf, s) == level
    requires forall i :: 0 <= i < |waves0| ==> waves0[i].level < level
    ensures CutsInto(levelOf, maxConcurrent, done + bucket, waves, chunks)
    ensures forall i :: 0 <= i < |waves| ==> waves[i].level <= level
  {
    waves, chunks := waves0, chunks0;
    var start, end := 0, 0;
    assert done + bucket[..0] == done;
    while start < |bucket|
      invariant 0 <= end <= |bucket| && (start < |bucket| ==> start == end) && (start >= |bucket| ==> end == |bucket|)
      invariant Flushing(levelOf, maxConcurrent, level, done + bucket[..end], waves, chunks, end < |bucket|)
      decreases |bucket| - start
    {
      end := if start + maxConcurrent < |bucket| then start + maxConcurrent else |bucket|;
      var chunk := bucket[start..end];
      ChunkExtends(done, bucket, start, end);
      FlushChunk(levelOf, maxConcurrent, level, done + bucket[..start], waves, chunks, chunk, end < |bucket|);
      waves := waves + [WaveFor(|waves|, level, chunk)];
      chunks := chunks + [chunk];
      start := start + maxConcurrent;
    }
    assert bucket[..|bucket|] == bucket;
  }

  // ------------------------------------------------------------ the schedule

  /** Each module's level is the position of the last layer that lists it. */
  ghost predicate IndexesLayers(layers: seq<seq<string>>, n: nat, levelOf: map<string, nat>)
    requires n <= |layers|
  {
    && (forall m :: m in levelOf ==> levelOf[m] < n && m in layers[levelOf[m]])
    && (forall i, m :: 0 <= i < n && m in layers[i] ==> m in levelOf && i <= levelOf[m])
  }

  method IndexLayer(layer: seq<string>, i: nat, levelOf0: map<string, nat>) returns (levelOf: map<string, nat>)
    ensures forall m :: m in levelOf <==> m in levelOf0 || m in layer
    ensures forall m :: m in levelOf ==> levelOf[m] == if m in layer then i else levelOf0[m]
  {
    levelOf := levelOf0;
    for k := 0 to |layer|
      invariant forall m :: m in levelOf <==> m in levelOf0 || m in layer[..k]
      invariant forall m :: m in levelOf ==> levelOf[m] == if m in layer[..k] then i else levelOf0[m]
    {
      levelOf := levelOf[layer[k] := i];
    }
  }

  method IndexLayers(layers: seq<seq<string>>) returns (levelOf: map<string, nat>)
    ensures IndexesLayers(layers, |layers|, levelOf)
  {
    levelOf := map[];
    for i := 0 to |layers|
      invariant IndexesLayers(layers, i, levelOf)
    {
      levelOf := IndexLayer(layers[i], i, levelOf);
    }
  }

  /** `node_wave`: every scheduled node, with the last wave that runs it. */
  ghost predicate Assigns(waves: seq<Wave>, n: nat, nodeWave: map<string, nat>)
    requires n <= |waves|
  {
    && (forall x :: x in nodeWave ==> nodeWave[x] < n && x in waves[nodeWave[x]].nodes)
    && (forall i, x :: 0 <= i < n && x in waves[i].nodes ==> x in nodeWave && i <= nodeWave[x])
  }

  method AssignWaves(waves: seq<Wave>) returns (nodeWave: map<string, nat>)
    requires forall i :: 0 <= i < |waves| ==> waves[i].wave == i
    ensures Assigns(waves, |waves|, nodeWave)
  {
    nodeWave := map[];
    for i := 0 to |waves|
      invariant Assigns(waves, i, nodeWave)
    {
      nodeWave := IndexLayer(waves[i].nodes, waves[i].wave, nodeWave);
    }
  }

  ghost predicate LevelsAscend(levelOf: map<string, nat>, scopes: seq<Scope>) {
    forall i, j :: 0 <= i < j < |scopes| ==> LevelOf(levelOf, scopes[i]) <= LevelOf(levelOf, scopes[j])
  }

  lemma {:induction false} SortedLevels(levelOf: map<string, nat>, scopes: seq<Scope>)
    ensures LevelsAscend(levelOf, StableSort(scopes, ScopeOrder(levelOf)))
  {
    var order := ScopeOrder(levelOf);
    ScopeOrderIsOrder(levelOf);
    SortSorts(scopes, order);
    var sorted := StableSort(scopes, order);
    forall i, j | 0 <= i < j < |sorted| ensures LevelOf(levelOf, sorted[i]) <= LevelOf(levelOf, sorted[j]) {
      assert order(sorted[i], sorted[j]);
    }
  }

  /** The loop's state: `done` is scheduled, `bucket` waits on `level`. */
  ghost predicate Cutting(levelOf: map<string, nat>, maxConcurrent: int, done: seq<Scope>, bucket: seq<Scope>,
                          level: nat, waves: seq<Wave>, chunks: seq<seq<Scope>>) {
    && (forall s :: s in bucket ==> LevelOf(levelOf, s) == level)
    && CutsInto(levelOf, maxConcurrent, done, waves, chunks)
    && (forall k :: 0 <= k < |waves| ==> waves[k].level < level)
  }

  /** One scope: a change of level flushes the bucket first. */
  method Place(levelOf: map<string, nat>, maxConcurrent: int, scope: Scope, currentLevel: nat, bucket0: seq<Scope>,
               ghost done0: seq<Scope>, waves0: seq<Wave>, ghost chunks0: seq<seq<Scope>>)
    returns (bucket: seq<Scope>, ghost done: seq<Scope>, waves: seq<Wave>, ghost chunks: seq<seq<Scope>>)
    requires maxConcurrent > 0 && currentLevel <= LevelOf(levelOf, scope)
    requires Cutting(levelOf, maxConcurrent, done0, bucket0, currentLevel, waves0, chunks0)
    ensures Cutting(levelOf, maxConcurrent, done, bucket, LevelOf(levelOf, scope), waves, chunks)
    ensures done + bucket == done0 + bucket0 + [scope] && bucket != []
  {
    bucket, done, waves, chunks := bucket0, done0, waves0, chunks0;
    if LevelOf(levelOf, scope) != currentLevel {
      waves, chunks := Flush(levelOf, maxConcurrent, currentLevel, bucket, done, waves, chunks);
      done := done + bucket;
      bucket := [];
    }
    bucket := bucket + [scope];
  }

  /** Before scope `i`: the scopes so far are scheduled or wait in the bucket, which stands at the current level. */
  ghost predicate Underway(levelOf: map<string, nat>, maxConcurrent: int, scopes: seq<Scope>, i: nat, done: seq<Scope>,
                           bucket: seq<Scope>, level: nat, waves: seq<Wave>, chunks: seq<seq<Scope>>) {
    && i <= |scopes| && scopes[..i] == done + bucket
    && (i < |scopes| ==> level <= LevelOf(levelOf, scopes[i]))
    && Cutting(levelOf, maxConcurrent, done, bucket, level, waves, chunks)
  }

  method PlaceNth(levelOf: map<string, nat>, maxConcurrent: int, scopes: seq<Scope>, i: nat, currentLevel: nat,
                  bucket0: seq<Scope>, ghost done0: seq<Scope>, waves0: seq<Wave>, ghost chunks0: seq<seq<Scope>>)
    returns (bucket: seq<Scope>, ghost done: seq<Scope>, waves: seq<Wave>, ghost chunks: seq<seq<Scope>>)
    requires maxConcurrent > 0 && LevelsAscend(levelOf, scopes) && i < |scopes|
    requires Underway(levelOf, maxConcurrent, scopes, i, done0, bucket0, currentLevel, waves0, chunks0)
    ensures Underway(levelOf, maxConcurrent, scopes, i + 1, done, bucket, LevelOf(levelOf, scopes[i]), waves, chunks)
  {
    bucket, done, waves, chunks :=
      Place(levelOf, maxConcurrent, scopes[i], currentLevel, bucket0, done0, waves0, chunks0);
    assert scopes[..i + 1] == scopes[..i] + [scopes[i]];
  }

  /** The loop over the sorted scopes. */
  method CutWaves(levelOf: map<string, nat>, maxConcurrent: int, scopes: seq<Scope>)
    returns (waves: seq<Wave>, ghost chunks: seq<seq<Scope>>)
    requires maxConcurrent > 0 && LevelsAscend(levelOf, scopes)
    ensures AreWaves(levelOf, maxConcurrent, scopes, waves)
    ensures CutsInto(levelOf, maxConcurrent, scopes, waves, chunks)
  {
    waves, chunks := [], [];
    var currentLevel: nat := if scopes == [] then 0 else LevelOf(levelOf, scopes[0]);
    var bucket: seq<Scope> := [];
    ghost var done: seq<Scope> := [];
    for i := 0 to |scopes|
      invariant Underway(levelOf, maxConcurrent, scopes, i, done, bucket, currentLevel, waves, chunks)
    {
      bucket, done, waves, chunks :=
        PlaceNth(levelOf, maxConcurrent, scopes, i, currentLevel, bucket, done, waves, chunks);
      currentLevel := LevelOf(levelOf, scopes[i]);
    }
    waves, chunks := FlushLast(levelOf, maxConcurrent, scopes, currentLevel, bucket, done, waves, chunks);
  }

  method FlushLast(levelOf: map<string, nat>, maxConcurrent: int, ghost scopes: seq<Scope>, level: nat,
                   bucket: seq<Scope>, ghost done: seq<Scope>, waves0: seq<Wave>, ghost chunks0: seq<seq<Scope>>)
    returns (waves: seq<Wave>, ghost chunks: seq<seq<Scope>>)
    requires maxConcurrent > 0
    requires Underway(levelOf, maxConcurrent, scopes, |scopes|, done, bucket, level, waves0, chunks0)
    ensures AreWaves(levelOf, maxConcurrent, scopes, waves)
    ensures CutsInto(levelOf, maxConcurrent, scopes, waves, chunks)
  {
    assert scopes[..|scopes|] == scopes;
    waves, chunks := Flush(levelOf, maxConcurrent, level, bucket, done, waves0, chunks0);
  }

  /** `build_schedule`. With a cap of zero the first non-empty flush raises; with a negative cap
  `range` is empty and nothing is scheduled. */
  method BuildSchedule(scopes: seq<Scope>, layers: seq<seq<string>>, maxConcurrent: int)
    returns (out: Outcome, ghost levelOf: map<string, nat>, ghost chunks: seq<seq<Scope>>)
    ensures IndexesLayers(layers, |layers|, levelOf)
    ensures maxConcurrent > 0 ==>
      && out.Scheduled? && Assigns(out.waves, |out.waves|, out.nodeWave)
      && CutsInto(levelOf, maxConcurrent, StableSort(scopes, ScopeOrder(levelOf)), out.waves, chunks)
    ensures maxConcurrent == 0 && scopes != [] ==> out == ValueError
    ensures maxConcurrent < 0 || (maxConcurrent == 0 && scopes == []) ==> out == Scheduled([], map[])
  {
    var index := IndexLayers(layers);
    levelOf, chunks := index, [];
    var sorted := StableSort(scopes, ScopeOrder(index));
    if maxConcurrent == 0 && sorted != [] {
      assert |scopes| == |sorted|;
      out := ValueError;
    } else if maxConcurrent <= 0 {
      out := Scheduled([], map[]);
    } else {
      SortedLevels(index, scopes);
      var waves;
      waves, chunks := CutWaves(index, maxConcurrent, sorted);
      var nodeWave := AssignWaves(waves);
      out := Scheduled(waves, nodeWave);
    }
  }

  // --------------------------------------------------------------- end to end

  ghost predicate DistinctNodes(scopes: seq<Scope>) {
    forall i, j :: 0 <= i < j < |scopes| ==> scopes[i].node != scopes[j].node
  }

  lemma {:induction false} InSomeChunk<T>(chunks: seq<seq<T>>, x: T)
    requires x in Flatten(chunks)
    ensures exists i :: 0 <= i < |chunks| && x in chunks[i]
  {
    if x !in chunks[|chunks| - 1] {
      InSomeChunk(chunks[..|chunks| - 1], x);
      var i :| 0 <= i < |chunks| - 1 && x in chunks[..|chunks| - 1][i];
      assert x in chunks[i];
    }
  }

  lemma {:induction false} ChunkInFlatten<T>(chunks: seq<seq<T>>, i: nat, x: T)
    requires i < |chunks| && x in chunks[i]
    ensures x in Flatten(chunks)
  {
    if i < |chunks| - 1 {
      ChunkInFlatten(chunks[..|chunks| - 1], i, x);
    }
  }

  /** A scope's node runs in a wave of the scope's own level. */
  lemma {:induction false} NodeWaveHasLevel(levelOf: map<string, nat>, maxConcurrent: int, scopes: seq<Scope>, waves: seq<Wave>,
                         chunks: seq<seq<Scope>>, nodeWave: map<string, nat>, s: Scope)
    requires CutsInto(levelOf, maxConcurrent, scopes, waves, chunks) && Assigns(waves, |waves|, nodeWave)
    requires s in scopes && forall t :: t in scopes && t.node == s.node ==> t == s
    ensures s.node in nodeWave && nodeWave[s.node] < |waves| && waves[nodeWave[s.node]].level == LevelOf(levelOf, s)
  {
    InSomeChunk(chunks, s);
    var i :| 0 <= i < |chunks| && s in chunks[i];
    NodeInWave(levelOf, waves[i], i, chunks[i], s);
    var w := nodeWave[s.node];
    var t := ScopeOfNode(levelOf, waves[w], w, chunks[w], s.node);
    ChunkInFlatten(chunks, w, t);
  }

  lemma {:induction false} NodeInWave(levelOf: map<string, nat>, w: Wave, i: nat, chunk: seq<Scope>, s: Scope)
    requires Runs(levelOf, w, i, chunk) && s in chunk
    ensures s.node in w.nodes
  {
    var j :| 0 <= j < |chunk| && chunk[j] == s;
    assert w.nodes[j] == s.node;
  }

  lemma {:induction false} ScopeOfNode(levelOf: map<string, nat>, w: Wave, i: nat, chunk: seq<Scope>, x: string)
      returns (s: Scope)
    requires Runs(levelOf, w, i, chunk) && x in w.nodes
    ensures s in chunk && s.node == x && LevelOf(levelOf, s) == w.level
  {
    var j :| 0 <= j < |w.nodes| && w.nodes[j] == x;
    s := chunk[j];
  }

  lemma {:induction false} OneScopePerNode(levelOf: map<string, nat>, scopes: seq<Scope>, s: Scope)
    requires DistinctNodes(scopes) && s in scopes
    ensures var sorted := StableSort(scopes, ScopeOrder(levelOf));
            s in sorted && forall t :: t in sorted && t.node == s.node ==> t == s
  {
    SortMembers(scopes, ScopeOrder(levelOf));
  }

  lemma {:induction false} WavesAscend(levelOf: map<string, nat>, maxConcurrent: int, scopes: seq<Scope>, waves: seq<Wave>,
                    chunks: seq<seq<Scope>>, i: nat, j: nat)
    requires CutsInto(levelOf, maxConcurrent, scopes, waves, chunks)
    requires i < |waves| && j < |waves| && waves[i].level < waves[j].level
    ensures i < j
  {
  }

  /** Lower levels run in strictly earlier waves. */
  lemma {:induction false} LowerLevelRunsEarlier(levelOf: map<string, nat>, maxConcurrent: int, scopes: seq<Scope>, waves: seq<Wave>,
                              chunks: seq<seq<Scope>>, nodeWave: map<string, nat>, s: Scope, t: Scope)
    requires CutsInto(levelOf, maxConcurrent, StableSort(scopes, ScopeOrder(levelOf)), waves, chunks)
    requires Assigns(waves, |waves|, nodeWave) && DistinctNodes(scopes) && s in scopes && t in scopes
    requires LevelOf(levelOf, t) < LevelOf(levelOf, s)
    ensures s.node in nodeWave && t.node in nodeWave && nodeWave[t.node] < nodeWave[s.node]
  {
    var sorted := StableSort(scopes, ScopeOrder(levelOf));
    OneScopePerNode(levelOf, scopes, s);
    OneScopePerNode(levelOf, scopes, t);
    NodeWaveHasLevel(levelOf, maxConcurrent, sorted, waves, chunks, nodeWave, s);
    NodeWaveHasLevel(levelOf, maxConcurrent, sorted, waves, chunks, nodeWave, t);
    WavesAscend(levelOf, maxConcurrent, sorted, waves, chunks, nodeWave[t.node], nodeWave[s.node]);
  }

  /** Lower level first, and on one level in order of node. */
  ghost predicate InScheduleOrder(levelOf: map<string, nat>, scopes: seq<Scope>) {
    forall i, j :: 0 <= i < j < |scopes| ==> ComesBefore(levelOf, scopes[i], scopes[j])
  }

  predicate ComesBefore(levelOf: map<string, nat>, s: Scope, t: Scope) {
    var a := if s.moduleName in levelOf then levelOf[s.moduleName] else 0;
    var b := if t.moduleName in levelOf then levelOf[t.moduleName] else 0;
    a <= b && (a == b ==> StrLe(s.node, t.node))
  }

  /** The waves, one after another, run every scope as often as it is in the partition, level by level and by node. */
  lemma {:induction false} ScheduledInOrder(levelOf: map<string, nat>, maxConcurrent: int, scopes: seq<Scope>,
      waves: seq<Wave>, chunks: seq<seq<Scope>>)
    requires CutsInto(levelOf, maxConcurrent, StableSort(scopes, ScopeOrder(levelOf)), waves, chunks)
    ensures multiset(Flatten(chunks)) == multiset(scopes) && InScheduleOrder(levelOf, Flatten(chunks))
  {
    var order, sorted := ScopeOrder(levelOf), StableSort(scopes, ScopeOrder(levelOf));
    ScopeOrderIsOrder(levelOf);
    SortSorts(scopes, order);
    forall i, j | 0 <= i < j < |sorted| ensures ComesBefore(levelOf, sorted[i], sorted[j]) {
      assert order(sorted[i], sorted[j]);
    }
  }

  /** The scheduler reads back exactly the levels the layering computed. */
  lemma {:induction false} SchedulerSeesLevels(modules: seq<string>, edges: set<(string, string)>, cycles: seq<seq<string>>,
                            depth: map<string, nat>, level: map<string, nat>, n: nat,
                            layers: seq<seq<string>>, levelOf: map<string, nat>, m: string)
    requires IsLevelMap(GraphOf(modules, edges), cycles, depth, level) && NoSelfEdges(GraphOf(modules, edges))
    requires HighestLevel(level, n) && layers == NonEmpty(LayersOf(modules, level, n))
    requires IndexesLayers(layers, |layers|, levelOf) && m in modules
    ensures m in levelOf && levelOf[m] == level[m]
  {
    LayersHaveNoGap(modules, edges, cycles, depth, level, n);
    LayersAtLevels(modules, level, n);
    assert m in level;
    LevelIsIndex(layers, modules, level, levelOf, m);
  }

  /** Layer `k` holds modules of level `k`, and every module of that level. */
  ghost predicate HoldsLevels(layers: seq<seq<string>>, modules: seq<string>, level: map<string, nat>) {
    forall k, m :: 0 <= k < |layers| ==> (m in layers[k] <==> m in modules && m in level && level[m] == k)
  }

  lemma {:induction false} LayersAtLevels(modules: seq<string>, level: map<string, nat>, n: nat)
    ensures |LayersOf(modules, level, n)| == n && HoldsLevels(LayersOf(modules, level, n), modules, level)
  {
  }

  lemma {:induction false} LevelIsIndex(layers: seq<seq<string>>, modules: seq<string>, level: map<string, nat>,
                                        levelOf: map<string, nat>, m: string)
    requires HoldsLevels(layers, modules, level) && IndexesLayers(layers, |layers|, levelOf)
    requires m in modules && m in level && level[m] < |layers|
    ensures m in levelOf && levelOf[m] == level[m]
  {
    assert m in layers[level[m]];
    assert m in layers[levelOf[m]];
  }

  /** End to end: a scope waits for every scope of each dependency that lies outside its own
  cycle and was not raised. On an acyclic graph that is every dependency. */
  lemma {:induction false} DependenciesRunFirst(modules: seq<string>, edges: set<(string, string)>, cycles: seq<seq<string>>,
                             depth: map<string, nat>, level: map<string, nat>, n: nat,
                             layers: seq<seq<string>>, levelOf: map<string, nat>, maxConcurrent: int,
                             scopes: seq<Scope>, waves: seq<Wave>, chunks: seq<seq<Scope>>, nodeWave: map<string, nat>,
                             s: Scope, t: Scope)
    requires var g := GraphOf(modules, edges);
      && IsLevelMap(g, cycles, depth, level)
      && Counted(g, cycles, s.moduleName, t.moduleName)
      && (Acyclic(g) || (NoSelfEdges(g) && level[t.moduleName] == depth[t.moduleName]))
    requires HighestLevel(level, n) && layers == NonEmpty(LayersOf(modules, level, n))
    requires IndexesLayers(layers, |layers|, levelOf)
    requires CutsInto(levelOf, maxConcurrent, StableSort(scopes, ScopeOrder(levelOf)), waves, chunks)
    requires Assigns(waves, |waves|, nodeWave) && DistinctNodes(scopes) && s in scopes && t in scopes
    ensures s.node in nodeWave && t.node in nodeWave && nodeWave[t.node] < nodeWave[s.node]
  {
    var g := GraphOf(modules, edges);
    if Acyclic(g) {
      AcyclicLevels(g, cycles, depth, level, t.moduleName);
      AcyclicHasNoCycles(g, cycles);
    }
    StrictWhenNotRaised(g, cycles, depth, level, s.moduleName, t.moduleName);
    SchedulerSeesLevels(modules, edges, cycles, depth, level, n, layers, levelOf, s.moduleName);
    SchedulerSeesLevels(modules, edges, cycles, depth, level, n, layers, levelOf, t.moduleName);
    LowerLevelRunsEarlier(levelOf, maxConcurrent, scopes, waves, chunks, nodeWave, s, t);
  }

  /** The members of a cycle are scheduled on one level. */
  lemma {:induction false} CycleScheduledTogether(modules: seq<string>, edges: set<(string, string)>, cycles: seq<seq<string>>,
                               depth: map<string, nat>, level: map<string, nat>, n: nat,
                               layers: seq<seq<string>>, levelOf: map<string, nat>, u: string, v: string)
    requires IsLevelMap(GraphOf(modules, edges), cycles, depth, level) && NoSelfEdges(GraphOf(modules, edges))
    requires HighestLevel(level, n) && layers == NonEmpty(LayersOf(modules, level, n))
    requires IndexesLayers(layers, |layers|, levelOf)
    requires u != v && Mutual(GraphOf(modules, edges), u, v)
    ensures u in levelOf && v in levelOf && levelOf[u] == levelOf[v]
  {
    var g := GraphOf(modules, edges);
    MutualShareGroup(g, cycles, u, v);
    CycleSharesLevel(g, cycles, depth, level, u, v);
    SchedulerSeesLevels(modules, edges, cycles, depth, level, n, layers, levelOf, u);
    SchedulerSeesLevels(modules, edges, cycles, depth, level, n, layers, levelOf, v);
  }
}
