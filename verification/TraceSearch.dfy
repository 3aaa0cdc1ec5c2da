/** `_trace` and `_dedupe_paths` (cdp/dataflow.py:156-201, 250-267). */
module TraceSearch {
  import opened Orders
  import opened Trace

  // ------------------------------------------------------------------- the cap

  function Capped(paths: seq<Path>): seq<Path> {
    if |paths| <= MAX_PATHS then paths else paths[..MAX_PATHS]
  }

  lemma {:induction false} CapOnce(a: seq<Path>, b: seq<Path>)
    ensures Capped(Capped(a) + b) == Capped(a + b)
    ensures |Capped(a) + b| >= MAX_PATHS <==> |a + b| >= MAX_PATHS
  {
    if |a| > MAX_PATHS {
      assert (Capped(a) + b)[..MAX_PATHS] == a[..MAX_PATHS];
      assert (a + b)[..MAX_PATHS] == a[..MAX_PATHS];
    }
  }

  lemma {:induction false} CapForgets(a: seq<Path>, b: seq<Path>)
    requires |a| >= MAX_PATHS
    ensures Capped(a + b) == Capped(a)
  {
    assert (a + b)[..MAX_PATHS] == a[..MAX_PATHS];
  }

  // -------------------------------------------------------------- the search loops

  lemma {:induction false} BlocksStep<S, T>(items: seq<S>, f: S -> seq<T>, n: nat)
    requires n < |items|
    ensures Blocks(items[..n + 1], f) == Blocks(items[..n], f) + f(items[n])
  {
    assert items[..n + 1] == items[..n] + [items[n]];
    BlocksAppend(items[..n], [items[n]], f);
    assert [items[n]][1..] == [];
    assert Blocks([items[n]], f) == f(items[n]);
  }

  /** The functions say what every frontier entry expands to. */
  ghost predicate Expands(adjacency: Adjacency, source: Source, nextOf: Item -> seq<Item>, pathsOf: Item -> seq<Path>) {
    forall item {:trigger Expanded(adjacency, source, item)} ::
      Expanded(adjacency, source, item) == Expansion(nextOf(item), pathsOf(item))
  }

  lemma {:induction false} LevelExpands(adjacency: Adjacency, source: Source)
    ensures Expands(adjacency, source, NextItems(adjacency), ItemPaths(adjacency, source))
  {
  }

  /** What one edge of a frontier entry leads to. */
  function EdgeTaken(adjacency: Adjacency, source: Source, item: Item, e: Edge): Expansion {
    Expansion(NextBlock(adjacency, item)(e), PathBlock(source, item)(e))
  }

  ghost predicate TakesEdges(adjacency: Adjacency, source: Source, item: Item, nextOf: Edge -> seq<Item>,
      pathsOf: Edge -> seq<Path>) {
    forall e {:trigger EdgeTaken(adjacency, source, item, e)} ::
      EdgeTaken(adjacency, source, item, e) == Expansion(nextOf(e), pathsOf(e))
  }

  method TakeEdge(adjacency: Adjacency, source: Source, item: Item, e: Edge, paths: seq<Path>)
      returns (next: seq<Item>, more: seq<Path>, full: bool)
    requires |paths| <= MAX_PATHS
    ensures next == EdgeTaken(adjacency, source, item, e).next
    ensures more == Capped(paths + EdgeTaken(adjacency, source, item, e).paths)
    ensures full <==> |paths + EdgeTaken(adjacency, source, item, e).paths| > MAX_PATHS
  {
    next, more, full := [], paths, false;
    if e.channel !in TRAVERSABLE || IsLibrary(e.target) { return; }
    if e.target in item.visited { return; }
    var trail := item.walked + [e];
    if e.channel in SINK_CHANNELS {
      if |paths| >= MAX_PATHS { full := true; } else { more := paths + [PathRecord(source, trail)]; }
    }
    if EdgesAt(adjacency, e.target) != [] { next := [Item(e.target, trail, item.visited + {e.target})]; }
  }

  method TakeOne(adjacency: Adjacency, source: Source, item: Item, e: Edge, paths: seq<Path>,
      ghost nextOf: Edge -> seq<Item>, ghost pathsOf: Edge -> seq<Path>)
      returns (next: seq<Item>, more: seq<Path>, full: bool)
    requires |paths| <= MAX_PATHS && TakesEdges(adjacency, source, item, nextOf, pathsOf)
    ensures next == nextOf(e) && more == Capped(paths + pathsOf(e))
    ensures full <==> |paths + pathsOf(e)| > MAX_PATHS
  {
    next, more, full := TakeEdge(adjacency, source, item, e, paths);
  }

  /** The innermost loop: every edge from one frontier entry. */
  method ExpandEdges(adjacency: Adjacency, source: Source, item: Item, edges: seq<Edge>, paths: seq<Path>,
      ghost nextOf: Edge -> seq<Item>, ghost pathsOf: Edge -> seq<Path>)
      returns (next: seq<Item>, more: seq<Path>, full: bool)
    requires |paths| <= MAX_PATHS && TakesEdges(adjacency, source, item, nextOf, pathsOf)
    ensures next == Blocks(edges, nextOf) && more == Capped(paths + Blocks(edges, pathsOf))
    ensures full <==> |paths + Blocks(edges, pathsOf)| > MAX_PATHS
  {
    next, more, full := [], paths, false;
    ghost var found := [];
    for i := 0 to |edges|
      invariant next == Blocks(edges[..i], nextOf) && found == Blocks(edges[..i], pathsOf)
      invariant Recorded(paths + found, more, full)
    {
      BlocksStep(edges, nextOf, i);
      BlocksStep(edges, pathsOf, i);
      var nextHere, moreHere, fullHere := TakeOne(adjacency, source, item, edges[i], more, nextOf, pathsOf);
      RecordMore(paths, found, pathsOf(edges[i]), more, full, moreHere, fullHere);
      found := found + pathsOf(edges[i]);
      next, more, full := next + nextHere, moreHere, full || fullHere;
    }
    assert edges[..|edges|] == edges;
  }

  /** What the search holds of the paths it met: the first ones, and whether there were more. */
  ghost predicate Recorded(all: seq<Path>, kept: seq<Path>, full: bool) {
    kept == Capped(all) && (full <==> |all| > MAX_PATHS)
  }

  lemma {:induction false} RecordMore(paths: seq<Path>, found: seq<Path>, here: seq<Path>, kept: seq<Path>, full: bool,
      more: seq<Path>, fullHere: bool)
    requires Recorded(paths + found, kept, full) && Recorded(kept + here, more, fullHere)
    ensures Recorded(paths + (found + here), more, full || fullHere)
  {
    CapOnce(paths + found, here);
    assert paths + (found + here) == paths + found + here;
  }

  /** One frontier entry. */
  method ExpandItem(adjacency: Adjacency, source: Source, item: Item, paths: seq<Path>)
      returns (next: seq<Item>, more: seq<Path>, full: bool)
    requires |paths| <= MAX_PATHS
    ensures next == Expanded(adjacency, source, item).next
    ensures more == Capped(paths + Expanded(adjacency, source, item).paths)
    ensures full <==> |paths + Expanded(adjacency, source, item).paths| > MAX_PATHS
  {
    next, more, full := ExpandEdges(adjacency, source, item, EdgesAt(adjacency, item.node), paths,
                                    NextBlock(adjacency, item), PathBlock(source, item));
  }

  /** One hop from every frontier entry. */
  method ExpandFrontier(adjacency: Adjacency, source: Source, frontier: seq<Item>, paths: seq<Path>,
      ghost nextOf: Item -> seq<Item>, ghost pathsOf: Item -> seq<Path>)
      returns (next: seq<Item>, more: seq<Path>, full: bool)
    requires |paths| <= MAX_PATHS && Expands(adjacency, source, nextOf, pathsOf)
    ensures next == Blocks(frontier, nextOf)
    ensures more == Capped(paths + Blocks(frontier, pathsOf))
    ensures full <==> |paths + Blocks(frontier, pathsOf)| > MAX_PATHS
  {
    next, more, full := [], paths, false;
    ghost var found := [];
    for i := 0 to |frontier|
      invariant next == Blocks(frontier[..i], nextOf) && found == Blocks(frontier[..i], pathsOf)
      invariant Recorded(paths + found, more, full)
    {
      BlocksStep(frontier, nextOf, i);
      BlocksStep(frontier, pathsOf, i);
      var nextHere, moreHere, fullHere := ExpandOne(adjacency, source, frontier[i], more, nextOf, pathsOf);
      RecordMore(paths, found, pathsOf(frontier[i]), more, full, moreHere, fullHere);
      found := found + pathsOf(frontier[i]);
      next, more, full := next + nextHere, moreHere, full || fullHere;
    }
    assert frontier[..|frontier|] == frontier;
  }

  method ExpandOne(adjacency: Adjacency, source: Source, item: Item, paths: seq<Path>,
      ghost nextOf: Item -> seq<Item>, ghost pathsOf: Item -> seq<Path>)
      returns (next: seq<Item>, more: seq<Path>, full: bool)
    requires |paths| <= MAX_PATHS && Expands(adjacency, source, nextOf, pathsOf)
    ensures next == nextOf(item) && more == Capped(paths + pathsOf(item))
    ensures full <==> |paths + pathsOf(item)| > MAX_PATHS
  {
    next, more, full := ExpandItem(adjacency, source, item, paths);
  }

  // ------------------------------------------------------------------- the levels

  /** One pass of the level loop: the frontier before and after, and the sink walks it records. */
  datatype Stage = Stage(from: seq<Item>, next: seq<Item>, paths: seq<Path>)

  function StageOf(adjacency: Adjacency, source: Source, h: nat): Stage {
    Stage(Level(adjacency, source.node, h), Level(adjacency, source.node, h + 1), LevelPaths(adjacency, source)(h))
  }

  ghost predicate Stages(adjacency: Adjacency, source: Source, level: nat -> seq<Item>, pathsAt: nat -> seq<Path>) {
    && level(0) == [Item(source.node, [], {source.node})]
    && forall h: nat {:trigger StageOf(adjacency, source, h)} ::
         StageOf(adjacency, source, h) == Stage(level(h), level(h + 1), pathsAt(h))
  }

  function LevelsFrom(adjacency: Adjacency, start: string): nat -> seq<Item> {
    (h: nat) => Level(adjacency, start, h)
  }

  lemma {:induction false} SearchHasStages(adjacency: Adjacency, source: Source)
    ensures Stages(adjacency, source, LevelsFrom(adjacency, source.node), LevelPaths(adjacency, source))
  {
  }

  /** One hop from the frontier after `h` hops. */
  method ExpandLevel(adjacency: Adjacency, source: Source, ghost h: nat, frontier: seq<Item>, paths: seq<Path>)
      returns (next: seq<Item>, more: seq<Path>, full: bool)
    requires |paths| <= MAX_PATHS && frontier == StageOf(adjacency, source, h).from
    ensures next == StageOf(adjacency, source, h).next
    ensures more == Capped(paths + StageOf(adjacency, source, h).paths)
    ensures full <==> |paths + StageOf(adjacency, source, h).paths| > MAX_PATHS
  {
    LevelExpands(adjacency, source);
    next, more, full := ExpandFrontier(adjacency, source, frontier, paths, NextItems(adjacency),
                                       ItemPaths(adjacency, source));
  }

  method ExpandStage(adjacency: Adjacency, source: Source, ghost h: nat, frontier: seq<Item>, paths: seq<Path>,
      ghost level: nat -> seq<Item>, ghost pathsAt: nat -> seq<Path>)
      returns (next: seq<Item>, more: seq<Path>, full: bool)
    requires |paths| <= MAX_PATHS && Stages(adjacency, source, level, pathsAt) && frontier == level(h)
    ensures next == level(h + 1) && more == Capped(paths + pathsAt(h))
    ensures full <==> |paths + pathsAt(h)| > MAX_PATHS
  {
    assert StageOf(adjacency, source, h) == Stage(level(h), level(h + 1), pathsAt(h));
    next, more, full := ExpandLevel(adjacency, source, h, frontier, paths);
  }

  lemma {:induction false} EmptyStage(adjacency: Adjacency, source: Source, level: nat -> seq<Item>,
      pathsAt: nat -> seq<Path>, h: nat)
    requires Stages(adjacency, source, level, pathsAt) && level(h) == []
    ensures level(h + 1) == [] && pathsAt(h) == []
  {
    assert StageOf(adjacency, source, h) == Stage(level(h), level(h + 1), pathsAt(h));
  }

  /** Once a frontier is empty nothing more is found. */
  lemma {:induction false} SearchIsOver(adjacency: Adjacency, source: Source, level: nat -> seq<Item>,
      pathsAt: nat -> seq<Path>, h: nat, limit: nat)
    requires h <= limit && Stages(adjacency, source, level, pathsAt) && level(h) == []
    ensures level(limit) == [] && Joined(pathsAt, limit) == Joined(pathsAt, h)
  {
    if h < limit {
      SearchIsOver(adjacency, source, level, pathsAt, h, limit - 1);
      EmptyStage(adjacency, source, level, pathsAt, limit - 1);
    }
  }

  lemma {:induction false} PathsGrow(f: nat -> seq<Path>, h: nat, limit: nat) returns (rest: seq<Path>)
    requires h <= limit
    ensures Joined(f, limit) == Joined(f, h) + rest
  {
    if h < limit {
      rest := PathsGrow(f, h, limit - 1);
      rest := rest + f(limit - 1);
    } else {
      rest := [];
    }
  }

  function Hops(maxHops: int): nat {
    if maxHops < 0 then 0 else maxHops
  }

  lemma {:induction false} CapJoined(paths: seq<Path>, f: nat -> seq<Path>, h: nat)
    ensures Capped(Capped(paths + Joined(f, h)) + f(h)) == Capped(paths + Joined(f, h + 1))
    ensures |Capped(paths + Joined(f, h)) + f(h)| >= MAX_PATHS <==> |paths + Joined(f, h + 1)| >= MAX_PATHS
  {
    CapOnce(paths + Joined(f, h), f(h));
    assert paths + Joined(f, h) + f(h) == paths + Joined(f, h + 1);
  }

  lemma {:induction false} CutShort(paths: seq<Path>, f: nat -> seq<Path>, h: nat, limit: nat)
    requires h <= limit && |paths + Joined(f, h)| >= MAX_PATHS
    ensures Capped(paths + Joined(f, limit)) == Capped(paths + Joined(f, h))
    ensures |paths + Joined(f, limit)| >= MAX_PATHS
  {
    var rest := PathsGrow(f, h, limit);
    CapForgets(paths + Joined(f, h), rest);
    assert paths + Joined(f, limit) == paths + Joined(f, h) + rest;
  }

  /** The level loop of one source. */
  method TraceLevels(adjacency: Adjacency, source: Source, maxHops: int, paths: seq<Path>,
      ghost level: nat -> seq<Item>, ghost pathsAt: nat -> seq<Path>)
      returns (more: seq<Path>, truncated: bool)
    requires |paths| <= MAX_PATHS && Stages(adjacency, source, level, pathsAt)
    ensures more == Capped(paths + Joined(pathsAt, Hops(maxHops)))
    ensures truncated <==> maxHops > 0 && |paths + Joined(pathsAt, Hops(maxHops))| >= MAX_PATHS
  {
    var frontier := [Item(source.node, [], {source.node})];
    var hops := 0;
    more, truncated := paths, false;
    assert paths + [] == paths;
    while frontier != [] && hops < maxHops
      invariant 0 <= hops <= Hops(maxHops) && frontier == level(hops)
      invariant more == Capped(paths + Joined(pathsAt, hops)) && !truncated
      invariant hops > 0 ==> |paths + Joined(pathsAt, hops)| < MAX_PATHS
      invariant hops == 0 ==> frontier != []
      decreases maxHops - hops
    {
      CapJoined(paths, pathsAt, hops);
      frontier, more, truncated := ExpandStage(adjacency, source, hops, frontier, more, level, pathsAt);
      hops := hops + 1;
      if |more| >= MAX_PATHS {
        truncated := true;
        CutShort(paths, pathsAt, hops, maxHops);
        return;
      }
    }
    if hops < maxHops { SearchIsOver(adjacency, source, level, pathsAt, hops, maxHops); }
  }

  method TraceSource(adjacency: Adjacency, source: Source, maxHops: int, paths: seq<Path>)
      returns (more: seq<Path>, truncated: bool)
    requires |paths| <= MAX_PATHS
    ensures more == Capped(paths + SourcePaths(adjacency, source, Hops(maxHops)))
    ensures truncated <==> maxHops > 0 && |paths + SourcePaths(adjacency, source, Hops(maxHops))| >= MAX_PATHS
  {
    SearchHasStages(adjacency, source);
    more, truncated := TraceLevels(adjacency, source, maxHops, paths, LevelsFrom(adjacency, source.node),
                                   LevelPaths(adjacency, source));
  }

  // -------------------------------------------------------------------- all sources

  /** `f` says what every source finds. */
  ghost predicate Finds(adjacency: Adjacency, sources: seq<Source>, h: nat, f: nat -> seq<Path>) {
    forall i: nat {:trigger SourcePaths(adjacency, sources[i], h)} ::
      i < |sources| ==> SourcePaths(adjacency, sources[i], h) == f(i)
  }

  method TraceNth(adjacency: Adjacency, sources: seq<Source>, i: nat, maxHops: int, paths: seq<Path>,
      ghost f: nat -> seq<Path>) returns (more: seq<Path>, truncated: bool)
    requires |paths| <= MAX_PATHS && i < |sources| && Finds(adjacency, sources, Hops(maxHops), f)
    ensures more == Capped(paths + f(i)) && (truncated <==> maxHops > 0 && |paths + f(i)| >= MAX_PATHS)
  {
    more, truncated := TraceSource(adjacency, sources[i], maxHops, paths);
  }

  method TraceSources(adjacency: Adjacency, sources: seq<Source>, maxHops: int, ghost f: nat -> seq<Path>)
      returns (paths: seq<Path>, truncated: bool)
    requires Finds(adjacency, sources, Hops(maxHops), f)
    ensures paths == Capped(Joined(f, |sources|))
    ensures truncated <==> sources != [] && maxHops > 0 && |Joined(f, |sources|)| >= MAX_PATHS
  {
    paths, truncated := [], false;
    for i := 0 to |sources|
      invariant paths == Capped([] + Joined(f, i))
      invariant truncated <==> i > 0 && maxHops > 0 && |[] + Joined(f, i)| >= MAX_PATHS
    {
      CapJoined([], f, i);
      if |[] + Joined(f, i)| >= MAX_PATHS { CutShort([], f, i, i + 1); }
      var hit;
      paths, hit := TraceNth(adjacency, sources, i, maxHops, paths, f);
      truncated := truncated || hit;
    }
    assert [] + Joined(f, |sources|) == Joined(f, |sources|);
  }

  // ------------------------------------------------------------------ deduplication

  function PathKey(p: Path): seq<string> {
    [p.trigger, p.source, p.sink]
  }

  function HopKey(hops: seq<Edge>): seq<string> {
    if hops == [] then []
    else HopKey(hops[..|hops| - 1]) + [hops[|hops| - 1].source, hops[|hops| - 1].target, hops[|hops| - 1].channel]
  }

  /** `(len(hops), hop sequence)` is not greater. */
  predicate NoWorse(p: Path, q: Path) {
    |p.hops| < |q.hops| || (|p.hops| == |q.hops| && ListLe(HopKey(p.hops), HopKey(q.hops)))
  }

  function Triple(e: Edge): seq<string> {
    [e.source, e.target, e.channel]
  }

  /** Of two walks of one length, `q` has the smaller hop where they first differ, if they do. */
  ghost predicate NotAfter(q: seq<Edge>, p: seq<Edge>) {
    && |q| == |p|
    && forall k :: 0 <= k < |q| && Triple(q[k]) != Triple(p[k]) && (forall j :: 0 <= j < k ==> Triple(q[j]) == Triple(p[j]))
         ==> ListLe(Triple(q[k]), Triple(p[k]))
  }

  lemma {:induction false} HopKeySplit(hops: seq<Edge>)
    requires hops != []
    ensures HopKey(hops) == Triple(hops[0]) + HopKey(hops[1..])
  {
    var front, last, rest := hops[..|hops| - 1], hops[|hops| - 1], hops[1..];
    if front == [] {
      assert HopKey(front) == [] && rest == [];
    } else {
      HopKeySplit(front);
      assert rest[..|rest| - 1] == front[1..] && rest[|rest| - 1] == last;
      assert HopKey(rest) == HopKey(front[1..]) + Triple(last);
    }
  }

  lemma {:induction false} ListLeCommon(common: seq<string>, a: seq<string>, b: seq<string>)
    ensures ListLe(common + a, common + b) <==> ListLe(a, b)
  {
    if common == [] {
      assert common + a == a && common + b == b;
    } else {
      assert (common + a)[1..] == common[1..] + a && (common + b)[1..] == common[1..] + b;
      ListLeCommon(common[1..], a, b);
    }
  }

  lemma {:induction false} ListLeFronts(a: seq<string>, b: seq<string>, x: seq<string>, y: seq<string>)
    requires |a| == |b| && a != b && ListLe(a + x, b + y)
    ensures ListLe(a, b)
  {
    assert (a + x)[1..] == a[1..] + x && (b + y)[1..] == b[1..] + y;
    if a[0] == b[0] { ListLeFronts(a[1..], b[1..], x, y); }
  }

  lemma {:induction false} KeyNotAfter(q: seq<Edge>, p: seq<Edge>)
    requires |q| == |p| && ListLe(HopKey(q), HopKey(p))
    ensures NotAfter(q, p)
  {
    if q != [] {
      HopKeySplit(q);
      HopKeySplit(p);
      if Triple(q[0]) == Triple(p[0]) {
        ListLeCommon(Triple(q[0]), HopKey(q[1..]), HopKey(p[1..]));
        KeyNotAfter(q[1..], p[1..]);
        RestNotAfter(q, p);
      } else {
        ListLeFronts(Triple(q[0]), Triple(p[0]), HopKey(q[1..]), HopKey(p[1..]));
      }
    }
  }

  lemma {:induction false} RestNotAfter(q: seq<Edge>, p: seq<Edge>)
    requires |q| == |p| > 0 && Triple(q[0]) == Triple(p[0]) && NotAfter(q[1..], p[1..])
    ensures NotAfter(q, p)
  {
    forall k | 0 <= k < |q| && Triple(q[k]) != Triple(p[k]) && forall j :: 0 <= j < k ==> Triple(q[j]) == Triple(p[j])
      ensures ListLe(Triple(q[k]), Triple(p[k]))
    {
      assert q[1..][k - 1] == q[k] && p[1..][k - 1] == p[k];
      forall j | 0 <= j < k - 1 ensures Triple(q[1..][j]) == Triple(p[1..][j]) { assert Triple(q[j + 1]) == Triple(p[j + 1]); }
    }
  }

  lemma {:induction false} NoWorseTotal(p: Path, q: Path)
    ensures NoWorse(p, q) || NoWorse(q, p)
  {
    ListLeTotal(HopKey(p.hops), HopKey(q.hops));
  }

  lemma {:induction false} NoWorseTransitive(p: Path, q: Path, r: Path)
    requires NoWorse(p, q) && NoWorse(q, r)
    ensures NoWorse(p, r)
  {
    if |p.hops| == |r.hops| { ListLeTransitive(HopKey(p.hops), HopKey(q.hops), HopKey(r.hops)); }
  }

  /** `paths.sort(key=...)`: trigger, source, sink, number of hops. */
  function PathOrder(): (Path, Path) -> bool {
    (p, q) => if PathKey(p) == PathKey(q) then |p.hops| <= |q.hops| else ListLe(PathKey(p), PathKey(q))
  }

  type Best = map<seq<string>, Path>

  /** `best` holds, for every key among the first `n` paths, one of them that none of them beats. */
  ghost predicate BestSoFar(best: Best, keys: seq<seq<string>>, paths: seq<Path>, n: nat)
    requires n <= |paths|
  {
    && (forall k {:trigger k in best} :: k in best <==> k in keys)
    && (forall k {:trigger best[k]} :: k in best ==> PathKey(best[k]) == k && best[k] in paths)
    && (forall j :: 0 <= j < n ==> PathKey(paths[j]) in best && NoWorse(best[PathKey(paths[j])], paths[j]))
  }

  lemma {:induction false} ReplaceBest(best: Best, keys: seq<seq<string>>, paths: seq<Path>, n: nat)
    requires n < |paths| && BestSoFar(best, keys, paths, n) && PathKey(paths[n]) in best
    requires NoWorse(paths[n], best[PathKey(paths[n])])
    ensures BestSoFar(best[PathKey(paths[n]) := paths[n]], keys, paths, n + 1)
  {
    var p := paths[n];
    var longer := best[PathKey(p) := p];
    NoWorseTotal(p, p);
    forall j | 0 <= j < n + 1 ensures PathKey(paths[j]) in longer && NoWorse(longer[PathKey(paths[j])], paths[j]) {
      if j < n && PathKey(paths[j]) == PathKey(p) { NoWorseTransitive(p, best[PathKey(p)], paths[j]); }
    }
  }

  lemma {:induction false} AddBest(best: Best, keys: seq<seq<string>>, paths: seq<Path>, n: nat)
    requires n < |paths| && BestSoFar(best, keys, paths, n) && PathKey(paths[n]) !in best
    ensures BestSoFar(best[PathKey(paths[n]) := paths[n]], keys + [PathKey(paths[n])], paths, n + 1)
  {
    NoWorseTotal(paths[n], paths[n]);
  }

  predicate SameEnds(p: Path, q: Path) {
    p.trigger == q.trigger && p.source == q.source && p.sink == q.sink
  }

  /** Some reported path has the same trigger, source and sink and no more hops; with as many hops, its hop sequence
  is not after. */
  ghost predicate Represented(out: seq<Path>, p: Path) {
    exists i :: 0 <= i < |out| && StandsFor(out[i], p)
  }

  ghost predicate StandsFor(q: Path, p: Path) {
    SameEnds(q, p) && |q.hops| <= |p.hops| && (|q.hops| == |p.hops| ==> NotAfter(q.hops, p.hops))
  }

  lemma {:induction false} NoWorseStandsFor(q: Path, p: Path)
    requires PathKey(q) == PathKey(p) && NoWorse(q, p)
    ensures StandsFor(q, p)
  {
    assert PathKey(q)[0] == PathKey(p)[0] && PathKey(q)[1] == PathKey(p)[1] && PathKey(q)[2] == PathKey(p)[2];
    if |q.hops| == |p.hops| { KeyNotAfter(q.hops, p.hops); }
  }

  /** Every reported path was recorded, and every recorded path is represented. */
  ghost predicate Reports(out: seq<Path>, paths: seq<Path>) {
    && (forall i :: 0 <= i < |out| ==> out[i] in paths)
    && (forall j :: 0 <= j < |paths| ==> Represented(out, paths[j]))
  }

  /** One path per trigger, source and sink, in that order. */
  ghost predicate OnePerKey(out: seq<Path>) {
    forall i, j :: 0 <= i < j < |out| ==> EndsBefore(out[i], out[j])
  }

  predicate EndsBefore(p: Path, q: Path) {
    !SameEnds(p, q) && ListLe([p.trigger, p.source, p.sink], [q.trigger, q.source, q.sink])
  }

  /** `_dedupe_paths`. */
  method DedupePaths(paths: seq<Path>) returns (out: seq<Path>)
    ensures OnePerKey(out) && Reports(out, paths)
  {
    var best: Best, keys: seq<seq<string>> := map[], [];
    for n := 0 to |paths|
      invariant BestSoFar(best, keys, paths, n) && WithoutRepeats(keys)
    {
      var p := paths[n];
      if PathKey(p) !in best {
        AddBest(best, keys, paths, n);
        keys := keys + [PathKey(p)];
        best := best[PathKey(p) := p];
      } else {
        NoWorseTotal(p, best[PathKey(p)]);
        if !NoWorse(best[PathKey(p)], p) {
          ReplaceBest(best, keys, paths, n);
          best := best[PathKey(p) := p];
        }
      }
    }
    var sorted := SortedKeys(keys);
    out := ValuesOf(best, sorted);
    BestIsReported(best, keys, paths, sorted, out);
  }

  method ValuesOf(best: Best, keys: seq<seq<string>>) returns (out: seq<Path>)
    requires forall k :: k in keys ==> k in best
    ensures |out| == |keys| && forall i :: 0 <= i < |keys| ==> keys[i] in best && out[i] == best[keys[i]]
  {
    out := [];
    for i := 0 to |keys|
      invariant |out| == i && forall j :: 0 <= j < i ==> keys[j] in best && out[j] == best[keys[j]]
    {
      assert keys[i] in keys;
      out := out + [best[keys[i]]];
    }
  }

  lemma {:induction false} BestIsReported(best: Best, keys: seq<seq<string>>, paths: seq<Path>,
      sorted: seq<seq<string>>, out: seq<Path>)
    requires BestSoFar(best, keys, paths, |paths|) && forall k :: k in sorted <==> k in keys
    requires forall i, j :: 0 <= i < j < |sorted| ==> ListLe(sorted[i], sorted[j]) && sorted[i] != sorted[j]
    requires |out| == |sorted| && forall i :: 0 <= i < |sorted| ==> sorted[i] in best && out[i] == best[sorted[i]]
    ensures OnePerKey(out) && Reports(out, paths)
  {
    forall i | 0 <= i < |out| ensures PathKey(out[i]) == sorted[i] && out[i] in paths {}
    forall j | 0 <= j < |paths| ensures Represented(out, paths[j]) {
      var k := PathKey(paths[j]);
      assert k in sorted;
      var i :| 0 <= i < |sorted| && sorted[i] == k;
      NoWorseStandsFor(out[i], paths[j]);
    }
  }

  /** `sorted(best)`. */
  method SortedKeys(keys: seq<seq<string>>) returns (sorted: seq<seq<string>>)
    requires WithoutRepeats(keys)
    ensures forall k :: k in sorted <==> k in keys
    ensures forall i, j :: 0 <= i < j < |sorted| ==> ListLe(sorted[i], sorted[j]) && sorted[i] != sorted[j]
  {
    sorted := StableSort(keys, ListLe);
    ListLeIsOrder();
    SortSorts(keys, ListLe);
    SortMembers(keys, ListLe);
    PermutationWithoutRepeats(keys, sorted);
  }

  // ----------------------------------------------------------------------- the result

  /** `_trace`. */
  method TracePaths(sources: seq<Source>, adjacency: Adjacency, maxHops: int) returns (out: seq<Path>, truncated: bool)
    ensures var found := AllPaths(adjacency, sources, Hops(maxHops), |sources|);
      OnePerKey(out) && Reports(out, Capped(found)) && (truncated <==> |found| >= MAX_PATHS)
    ensures !truncated ==> ReportsEveryWalk(sources, adjacency, Hops(maxHops), out)
  {
    ghost var f := PathsOfSource(adjacency, sources, Hops(maxHops));
    SourcesFind(adjacency, sources, Hops(maxHops));
    var paths;
    paths, truncated := TraceSources(adjacency, sources, maxHops, f);
    if sources == [] || maxHops <= 0 { NothingToFind(adjacency, sources, Hops(maxHops), |sources|); }
    out := SortAndDedupe(paths);
    if !truncated { EveryWalkReported(sources, adjacency, Hops(maxHops), out); }
  }

  ghost predicate ReportsEveryWalk(sources: seq<Source>, adjacency: Adjacency, h: nat, out: seq<Path>) {
    forall s, p {:trigger Describes(adjacency, sources, h, s, p)} :: Describes(adjacency, sources, h, s, p) ==> Represented(out, p)
  }

  lemma {:induction false} EveryWalkReported(sources: seq<Source>, adjacency: Adjacency, h: nat, out: seq<Path>)
    requires |AllPaths(adjacency, sources, h, |sources|)| < MAX_PATHS
    requires Reports(out, Capped(AllPaths(adjacency, sources, h, |sources|)))
    ensures ReportsEveryWalk(sources, adjacency, h, out)
  {
    forall s, p {:trigger Describes(adjacency, sources, h, s, p)} | Describes(adjacency, sources, h, s, p)
      ensures Represented(out, p)
    {
      UntruncatedReportsEveryWalk(sources, adjacency, h, out, s, p);
    }
  }

  method SortAndDedupe(paths: seq<Path>) returns (out: seq<Path>)
    ensures OnePerKey(out) && Reports(out, paths)
  {
    var sorted := StableSort(paths, PathOrder());
    SortMembers(paths, PathOrder());
    out := DedupePaths(sorted);
    forall j | 0 <= j < |paths| ensures Represented(out, paths[j]) { FoundIsRepresented(out, sorted, paths[j]); }
  }

  lemma {:induction false} SourcesFind(adjacency: Adjacency, sources: seq<Source>, h: nat)
    ensures Finds(adjacency, sources, h, PathsOfSource(adjacency, sources, h))
  {
  }

  lemma {:induction false} NothingToFind(adjacency: Adjacency, sources: seq<Source>, h: nat, n: nat)
    requires h == 0 || n == 0
    ensures AllPaths(adjacency, sources, h, n) == []
  {
    if n > 0 { NothingToFind(adjacency, sources, h, n - 1); }
  }

  lemma {:induction false} FoundIsRepresented(out: seq<Path>, paths: seq<Path>, p: Path)
    requires Reports(out, paths) && p in paths
    ensures Represented(out, p)
  {
    var j :| 0 <= j < |paths| && paths[j] == p;
    assert Represented(out, paths[j]);
  }

  /** Truncated or not, whatever is reported is a simple walk within the hop limit from a source into a sink. */
  lemma {:induction false} ReportedIsWalk(sources: seq<Source>, adjacency: Adjacency, h: nat, out: seq<Path>, i: nat)
    requires i < |out| && Reports(out, Capped(AllPaths(adjacency, sources, h, |sources|)))
    ensures exists s :: Describes(adjacency, sources, h, s, out[i])
  {
    AllPathsExactly(adjacency, sources, h, out[i]);
    assert out[i] in Capped(AllPaths(adjacency, sources, h, |sources|));
  }

  /** When nothing was truncated, every such walk is represented by a reported one with the same trigger, source and
  sink and no more hops. */
  lemma {:induction false} UntruncatedReportsEveryWalk(sources: seq<Source>, adjacency: Adjacency, h: nat,
      out: seq<Path>, s: int, p: Path)
    requires |AllPaths(adjacency, sources, h, |sources|)| < MAX_PATHS
    requires Reports(out, Capped(AllPaths(adjacency, sources, h, |sources|)))
    requires Describes(adjacency, sources, h, s, p)
    ensures Represented(out, p)
  {
    AllPathsExactly(adjacency, sources, h, p);
    FoundIsRepresented(out, AllPaths(adjacency, sources, h, |sources|), p);
  }
}
