/** Bounded path tracing (cdp/dataflow.py:156-267): a breadth-first search with a cycle check per path. */
module Trace {
  import opened Orders

  const MAX_PATHS := 2000
  const SINK_CHANNELS := {"persist", "http_out", "ssh_exec", "event_publish", "metric_emit", "schema_own"}
  const TRAVERSABLE := {"call", "map", "persist", "read", "http_out", "ssh_exec", "event_publish", "metric_emit",
                        "config_read"}
  const LIBRARY_PREFIX := "library:"

  datatype Edge = Edge(source: string, target: string, channel: string, moduleName: string, anchor: string,
                       confidence: string)

  /** A trigger and the node the walk starts from. */
  datatype Source = Source(node: string, trigger: string, channel: string, moduleName: string)

  /** `hops` is the walk itself; the other fields describe it. */
  datatype Path = Path(trigger: string, triggerChannel: string, source: string, sink: string, modules: seq<string>,
                       hops: seq<Edge>, representationChain: seq<string>, fullyAnchored: bool, minConfidence: string)

  type Adjacency = map<string, seq<Edge>>

  /** A frontier entry: where a walk stands, its edges, and the nodes on it. */
  datatype Item = Item(node: string, walked: seq<Edge>, visited: set<string>)

  predicate IsLibrary(target: string) {
    LIBRARY_PREFIX <= target
  }

  function EdgesAt(adjacency: Adjacency, node: string): seq<Edge> {
    if node in adjacency then adjacency[node] else []
  }

  // ------------------------------------------------------------------ the record

  function Chain(hops: seq<Edge>): seq<string> {
    if hops == [] then []
    else
      var before, hop := Chain(hops[..|hops| - 1]), hops[|hops| - 1];
      if hop.channel != "map" then before else (if before == [] then [hop.source] else before) + [hop.target]
  }

  /** The modules the walk passes, its anchoring and its weakest confidence. */
  function Modules(first: string, hops: seq<Edge>): set<string> {
    if hops == [] then {first} else Modules(first, hops[..|hops| - 1]) + {hops[|hops| - 1].moduleName}
  }

  predicate Anchored(hops: seq<Edge>) {
    hops == [] || (hops[|hops| - 1].anchor != "" && Anchored(hops[..|hops| - 1]))
  }

  predicate AnyMedium(hops: seq<Edge>) {
    hops != [] && (hops[|hops| - 1].confidence == "medium" || AnyMedium(hops[..|hops| - 1]))
  }

  function PathRecord(source: Source, trail: seq<Edge>): Path
    requires trail != []
  {
    Path(source.trigger, source.channel, source.node, trail[|trail| - 1].target,
         SortedSet(Modules(source.moduleName, trail)), trail, Chain(trail), Anchored(trail),
         if AnyMedium(trail) then "medium" else "high")
  }

  predicate IsMap(e: Edge) {
    e.channel == "map"
  }

  /** Where the first mapping starts, and where each one leads. */
  ghost predicate IsChain(maps: seq<Edge>, chain: seq<string>) {
    if maps == [] then chain == []
    else |chain| == |maps| + 1 && chain[0] == maps[0].source && forall k :: 0 <= k < |maps| ==> chain[k + 1] == maps[k].target
  }

  /** What a record says of a walk. */
  ghost predicate Records(source: Source, p: Path) {
    && p.hops != [] && p.trigger == source.trigger && p.triggerChannel == source.channel
    && p.source == source.node && p.sink == p.hops[|p.hops| - 1].target
    && StrictlySorted(p.modules)
    && (forall m :: m in p.modules <==> m == source.moduleName || exists e :: e in p.hops && e.moduleName == m)
    && IsChain(Filter(p.hops, IsMap), p.representationChain)
    && (p.fullyAnchored <==> forall e :: e in p.hops ==> e.anchor != "")
    && p.minConfidence == if exists e :: e in p.hops && e.confidence == "medium" then "medium" else "high"
  }

  lemma {:induction false} ModulesAre(first: string, hops: seq<Edge>)
    ensures forall m :: m in Modules(first, hops) <==> m == first || exists e :: e in hops && e.moduleName == m
  {
    if hops != [] {
      var front, last := hops[..|hops| - 1], hops[|hops| - 1];
      ModulesAre(first, front);
      assert hops == front + [last];
      forall m ensures m in Modules(first, hops) <==> m == first || exists e :: e in hops && e.moduleName == m {
        if e :| e in front && e.moduleName == m { assert e in hops; }
        if m == last.moduleName { assert last in hops; }
      }
    }
  }

  lemma {:induction false} AnchoredIs(hops: seq<Edge>)
    ensures Anchored(hops) <==> forall e :: e in hops ==> e.anchor != ""
    ensures AnyMedium(hops) <==> exists e :: e in hops && e.confidence == "medium"
  {
    if hops != [] {
      var front, last := hops[..|hops| - 1], hops[|hops| - 1];
      AnchoredIs(front);
      assert hops == front + [last];
      assert forall e :: e in hops <==> e in front || e == last;
      if AnyMedium(front) {
        var e :| e in front && e.confidence == "medium";
        assert e in hops;
      }
      if last.confidence == "medium" { assert last in hops; }
    }
  }

  lemma {:induction false} ChainIs(hops: seq<Edge>)
    ensures IsChain(Filter(hops, IsMap), Chain(hops))
  {
    if hops != [] {
      var front, last := hops[..|hops| - 1], hops[|hops| - 1];
      ChainIs(front);
      assert hops == front + [last];
      FilterAppend(front, [last], IsMap);
      assert Filter([last], IsMap) == if IsMap(last) then [last] else [];
    }
  }

  lemma {:induction false} ChainIsUnique(maps: seq<Edge>, a: seq<string>, b: seq<string>)
    requires IsChain(maps, a) && IsChain(maps, b)
    ensures a == b
  {
    forall i | 0 <= i < |a| ensures a[i] == b[i] {
      if i > 0 { assert a[i - 1 + 1] == maps[i - 1].target && b[i - 1 + 1] == maps[i - 1].target; }
    }
  }

  lemma {:induction false} RecordSays(source: Source, hops: seq<Edge>)
    requires hops != []
    ensures Records(source, PathRecord(source, hops))
  {
    ModulesAre(source.moduleName, hops);
    AnchoredIs(hops);
    ChainIs(hops);
  }

  lemma {:induction false} RecordIsUnique(source: Source, p: Path, q: Path)
    requires Records(source, p) && Records(source, q) && p.hops == q.hops
    ensures p == q
  {
    StrictlySortedUnique(p.modules, q.modules);
    ChainIsUnique(Filter(p.hops, IsMap), p.representationChain, q.representationChain);
  }

  /** A record is what it says: one record describes a walk from a source. */
  lemma {:induction false} RecordsExactly(source: Source, p: Path)
    requires p.hops != []
    ensures Records(source, p) <==> p == PathRecord(source, p.hops)
  {
    RecordSays(source, p.hops);
    if Records(source, p) { RecordIsUnique(source, p, PathRecord(source, p.hops)); }
  }

  // ------------------------------------------------------------- what is looked for

  predicate Passable(e: Edge) {
    e.channel in TRAVERSABLE && !IsLibrary(e.target)
  }

  /** The node that hop `i` leaves. */
  function Origin(start: string, trail: seq<Edge>, i: nat): string
    requires i <= |trail|
  {
    if i == 0 then start else trail[i - 1].target
  }

  predicate Follows(adjacency: Adjacency, start: string, trail: seq<Edge>, i: nat)
    requires i < |trail|
  {
    Passable(trail[i]) && trail[i] in EdgesAt(adjacency, Origin(start, trail, i))
  }

  /** The walk's edges follow one another from `start`, each traversable and not into a library. */
  predicate IsTrail(adjacency: Adjacency, start: string, trail: seq<Edge>) {
    forall i :: 0 <= i < |trail| ==> Follows(adjacency, start, trail, i)
  }

  /** No node comes twice. */
  predicate IsSimple(start: string, trail: seq<Edge>) {
    forall i :: 0 <= i < |trail| ==>
      trail[i].target != start && forall j :: 0 <= j < i ==> trail[j].target != trail[i].target
  }

  /** A simple walk from `start` whose last edge enters a sink. */
  predicate IsSinkWalk(adjacency: Adjacency, start: string, trail: seq<Edge>) {
    trail != [] && IsTrail(adjacency, start, trail) && IsSimple(start, trail) && trail[|trail| - 1].channel in SINK_CHANNELS
  }

  // -------------------------------------------------------------- the search, by level

  predicate Usable(item: Item, e: Edge) {
    Passable(e) && e.target !in item.visited
  }

  function NextBlock(adjacency: Adjacency, item: Item): Edge -> seq<Item> {
    (e: Edge) =>
      if Usable(item, e) && EdgesAt(adjacency, e.target) != [] then
        [Item(e.target, item.walked + [e], item.visited + {e.target})]
      else []
  }

  function PathBlock(source: Source, item: Item): Edge -> seq<Path> {
    (e: Edge) =>
      if Usable(item, e) && e.channel in SINK_CHANNELS then [PathRecord(source, item.walked + [e])] else []
  }

  /** What one frontier entry leads to: the next entries, and the sink walks that end here. */
  datatype Expansion = Expansion(next: seq<Item>, paths: seq<Path>)

  function Expanded(adjacency: Adjacency, source: Source, item: Item): Expansion {
    var edges := EdgesAt(adjacency, item.node);
    Expansion(Blocks(edges, NextBlock(adjacency, item)), Blocks(edges, PathBlock(source, item)))
  }

  function NextItems(adjacency: Adjacency): Item -> seq<Item> {
    (item: Item) => Blocks(EdgesAt(adjacency, item.node), NextBlock(adjacency, item))
  }

  function ItemPaths(adjacency: Adjacency, source: Source): Item -> seq<Path> {
    (item: Item) => Blocks(EdgesAt(adjacency, item.node), PathBlock(source, item))
  }

  /** The frontier after `h` hops. */
  function Level(adjacency: Adjacency, start: string, h: nat): seq<Item> {
    if h == 0 then [Item(start, [], {start})] else Blocks(Level(adjacency, start, h - 1), NextItems(adjacency))
  }

  /** The sink walks found by one more hop from the frontier after `h` hops. */
  function LevelPaths(adjacency: Adjacency, source: Source): nat -> seq<Path> {
    (h: nat) => Blocks(Level(adjacency, source.node, h), ItemPaths(adjacency, source))
  }

  /** The sink walks of up to `h` hops from one source, level by level. */
  function SourcePaths(adjacency: Adjacency, source: Source, h: nat): seq<Path> {
    Joined(LevelPaths(adjacency, source), h)
  }

  function PathsOfSource(adjacency: Adjacency, sources: seq<Source>, h: nat): nat -> seq<Path> {
    (i: nat) => if i < |sources| then SourcePaths(adjacency, sources[i], h) else []
  }

  /** The sink walks of the first `n` sources. */
  function AllPaths(adjacency: Adjacency, sources: seq<Source>, h: nat, n: nat): seq<Path> {
    Joined(PathsOfSource(adjacency, sources, h), n)
  }

  // --------------------------------------------------------------- the levels are right

  function Visited(start: string, trail: seq<Edge>): set<string> {
    {start} + set e | e in trail :: e.target
  }

  function End(start: string, trail: seq<Edge>): string {
    Origin(start, trail, |trail|)
  }

  /** A frontier entry after `h` hops. */
  predicate OnFrontier(adjacency: Adjacency, start: string, h: nat, item: Item) {
    && |item.walked| == h && IsTrail(adjacency, start, item.walked) && IsSimple(start, item.walked)
    && item.node == End(start, item.walked) && item.visited == Visited(start, item.walked)
    && (h > 0 ==> EdgesAt(adjacency, item.node) != [])
  }

  lemma {:induction false} ExtendTrail(adjacency: Adjacency, start: string, trail: seq<Edge>, e: Edge)
    ensures IsTrail(adjacency, start, trail + [e])
      <==> IsTrail(adjacency, start, trail) && Passable(e) && e in EdgesAt(adjacency, End(start, trail))
  {
    var longer := trail + [e];
    assert Follows(adjacency, start, longer, |trail|) <==> Passable(e) && e in EdgesAt(adjacency, End(start, trail));
    forall i | 0 <= i < |trail| ensures Follows(adjacency, start, longer, i) == Follows(adjacency, start, trail, i) {}
  }

  lemma {:induction false} ExtendSimple(start: string, trail: seq<Edge>, e: Edge)
    ensures IsSimple(start, trail + [e]) <==> IsSimple(start, trail) && e.target !in Visited(start, trail)
  {
    var longer := trail + [e];
    assert longer[|trail|] == e;
    assert forall i :: 0 <= i < |trail| ==> longer[i] == trail[i];
    if e.target in Visited(start, trail) && e.target != start {
      var d :| d in trail && d.target == e.target;
      var i :| 0 <= i < |trail| && trail[i] == d;
      assert longer[i].target == longer[|trail|].target;
    }
    if IsSimple(start, longer) {
      forall i | 0 <= i < |trail| ensures trail[i].target != start && forall j :: 0 <= j < i ==> trail[j].target != trail[i].target {
        assert longer[i].target != start;
        forall j | 0 <= j < i ensures trail[j].target != trail[i].target { assert longer[j].target != longer[i].target; }
      }
    }
  }

  lemma {:induction false} ExtendVisited(start: string, trail: seq<Edge>, e: Edge)
    ensures Visited(start, trail + [e]) == Visited(start, trail) + {e.target}
  {
  }

  lemma {:induction false} StartsAlone(start: string)
    ensures Visited(start, []) == {start}
  {
  }

  /** One more hop from a frontier entry. */
  lemma {:induction false} StepExactly(adjacency: Adjacency, start: string, h: nat, item: Item, e: Edge)
    requires OnFrontier(adjacency, start, h, item)
    ensures Usable(item, e) && e in EdgesAt(adjacency, item.node)
      <==> IsTrail(adjacency, start, item.walked + [e]) && IsSimple(start, item.walked + [e])
  {
    ExtendTrail(adjacency, start, item.walked, e);
    ExtendSimple(start, item.walked, e);
  }

  lemma {:induction false} NextIsOnFrontier(adjacency: Adjacency, start: string, h: nat, item: Item, next: Item)
    requires OnFrontier(adjacency, start, h, item) && next in NextItems(adjacency)(item)
    ensures OnFrontier(adjacency, start, h + 1, next)
  {
    var e := BlockOf(EdgesAt(adjacency, item.node), NextBlock(adjacency, item), next);
    StepExactly(adjacency, start, h, item, e);
    ExtendVisited(start, item.walked, e);
  }

  lemma {:induction false} StartIsOnFrontier(adjacency: Adjacency, start: string, item: Item)
    requires item in Level(adjacency, start, 0)
    ensures OnFrontier(adjacency, start, 0, item)
  {
    StartsAlone(start);
  }

  lemma {:induction false} CameFrom(adjacency: Adjacency, start: string, h: nat, item: Item) returns (before: Item)
    requires h > 0 && item in Level(adjacency, start, h)
    ensures before in Level(adjacency, start, h - 1)
    ensures OnFrontier(adjacency, start, h - 1, before) ==> OnFrontier(adjacency, start, h, item)
  {
    before := BlockOf(Level(adjacency, start, h - 1), NextItems(adjacency), item);
    if OnFrontier(adjacency, start, h - 1, before) { NextIsOnFrontier(adjacency, start, h - 1, before, item); }
  }

  lemma {:induction false} FrontierSound(adjacency: Adjacency, start: string, h: nat, item: Item)
    requires item in Level(adjacency, start, h)
    ensures OnFrontier(adjacency, start, h, item)
  {
    if h == 0 {
      StartIsOnFrontier(adjacency, start, item);
    } else {
      var before := CameFrom(adjacency, start, h, item);
      FrontierSound(adjacency, start, h - 1, before);
    }
  }

  lemma {:induction false} FrontierComplete(adjacency: Adjacency, start: string, h: nat, item: Item)
    requires OnFrontier(adjacency, start, h, item)
    ensures item in Level(adjacency, start, h)
    decreases h
  {
    if h == 0 {
      StartsAlone(start);
      assert item == Item(start, [], {start});
    } else {
      var trail, e := item.walked[..h - 1], item.walked[h - 1];
      assert item.walked == trail + [e];
      ExtendTrail(adjacency, start, trail, e);
      ExtendSimple(start, trail, e);
      ExtendVisited(start, trail, e);
      var before := Item(End(start, trail), trail, Visited(start, trail));
      PrefixOnFrontier(adjacency, start, trail, e);
      FrontierComplete(adjacency, start, h - 1, before);
      assert item in NextBlock(adjacency, before)(e);
      InBlocks(EdgesAt(adjacency, before.node), NextBlock(adjacency, before), e, item);
      InBlocks(Level(adjacency, start, h - 1), NextItems(adjacency), before, item);
    }
  }

  /** A trail that goes on left an entry on the frontier. */
  lemma {:induction false} PrefixOnFrontier(adjacency: Adjacency, start: string, trail: seq<Edge>, e: Edge)
    requires IsTrail(adjacency, start, trail + [e]) && IsSimple(start, trail + [e])
    ensures OnFrontier(adjacency, start, |trail|, Item(End(start, trail), trail, Visited(start, trail)))
  {
    ExtendTrail(adjacency, start, trail, e);
    ExtendSimple(start, trail, e);
  }

  /** `p` describes a sink walk from the source. */
  ghost predicate SinkPath(adjacency: Adjacency, source: Source, p: Path) {
    IsSinkWalk(adjacency, source.node, p.hops) && Records(source, p)
  }

  lemma {:induction false} LevelPathSound(adjacency: Adjacency, source: Source, h: nat, p: Path)
    requires p in LevelPaths(adjacency, source)(h)
    ensures SinkPath(adjacency, source, p) && |p.hops| == h + 1
  {
    var item := BlockOf(Level(adjacency, source.node, h), ItemPaths(adjacency, source), p);
    FrontierSound(adjacency, source.node, h, item);
    var e := BlockOf(EdgesAt(adjacency, item.node), PathBlock(source, item), p);
    StepExactly(adjacency, source.node, h, item, e);
    RecordsExactly(source, p);
  }

  lemma {:induction false} LevelPathComplete(adjacency: Adjacency, source: Source, h: nat, p: Path)
    requires SinkPath(adjacency, source, p) && |p.hops| == h + 1
    ensures p in LevelPaths(adjacency, source)(h)
  {
    var trail, e := p.hops[..h], p.hops[h];
    assert p.hops == trail + [e];
    PrefixOnFrontier(adjacency, source.node, trail, e);
    var item := Item(End(source.node, trail), trail, Visited(source.node, trail));
    FrontierComplete(adjacency, source.node, h, item);
    StepExactly(adjacency, source.node, h, item, e);
    RecordsExactly(source, p);
    assert p in PathBlock(source, item)(e);
    InBlocks(EdgesAt(adjacency, item.node), PathBlock(source, item), e, p);
    InBlocks(Level(adjacency, source.node, h), ItemPaths(adjacency, source), item, p);
  }

  lemma {:induction false} SourcePathSound(adjacency: Adjacency, source: Source, h: nat, p: Path)
    requires p in SourcePaths(adjacency, source, h)
    ensures SinkPath(adjacency, source, p) && |p.hops| <= h
  {
    var k := PartHolding(LevelPaths(adjacency, source), h, p);
    LevelPathSound(adjacency, source, k, p);
  }

  lemma {:induction false} SourcePathComplete(adjacency: Adjacency, source: Source, h: nat, p: Path)
    requires SinkPath(adjacency, source, p) && |p.hops| <= h
    ensures p in SourcePaths(adjacency, source, h)
  {
    LevelPathComplete(adjacency, source, |p.hops| - 1, p);
    InJoined(LevelPaths(adjacency, source), h, |p.hops| - 1, p);
  }

  /** The paths of the first `h` levels are the sink walks of at most `h` hops. */
  lemma {:induction false} SourcePathsExactly(adjacency: Adjacency, source: Source, h: nat, p: Path)
    ensures p in SourcePaths(adjacency, source, h) <==> SinkPath(adjacency, source, p) && |p.hops| <= h
  {
    if p in SourcePaths(adjacency, source, h) {
      SourcePathSound(adjacency, source, h, p);
    } else if SinkPath(adjacency, source, p) && |p.hops| <= h {
      SourcePathComplete(adjacency, source, h, p);
    }
  }

  /** `p` describes a sink walk of at most `h` hops from source `i`. */
  ghost predicate Describes(adjacency: Adjacency, sources: seq<Source>, h: nat, i: int, p: Path) {
    0 <= i < |sources| && SinkPath(adjacency, sources[i], p) && |p.hops| <= h
  }

  /** The paths of all sources are exactly the simple walks of at most `h` hops from one of them into a sink. */
  lemma {:induction false} AllPathsExactly(adjacency: Adjacency, sources: seq<Source>, h: nat, p: Path)
    ensures p in AllPaths(adjacency, sources, h, |sources|) <==> exists i :: Describes(adjacency, sources, h, i, p)
  {
    if p in AllPaths(adjacency, sources, h, |sources|) {
      var i := PartHolding(PathsOfSource(adjacency, sources, h), |sources|, p);
      SourcePathsExactly(adjacency, sources[i], h, p);
      assert Describes(adjacency, sources, h, i, p);
    }
    if i :| Describes(adjacency, sources, h, i, p) {
      SourcePathsExactly(adjacency, sources[i], h, p);
      InJoined(PathsOfSource(adjacency, sources, h), |sources|, i, p);
    }
  }
}
