/** `_walk` (cdp/query.py:1032-1060): breadth-first search that keeps the first edge to reach each node. */
module BreadthFirst {
  import opened Orders
  import opened Walks

  datatype Link = Link(target: string, channel: string, file: string, line: int)

  type Links = map<string, seq<Link>>

  function LinksAt(adjacency: Links, node: string): seq<Link> {
    if node in adjacency then adjacency[node] else []
  }

  function Targets(adjacency: Links): Next {
    (u: string) => set e | e in LinksAt(adjacency, u) :: e.target
  }

  function LinkKey(e: Link): seq<string> {
    [e.channel, e.target, e.file]
  }

  /** The sort key of a node's edges: channel, target, anchor file, anchor line. */
  predicate LinkLe(a: Link, b: Link) {
    if LinkKey(a) == LinkKey(b) then a.line <= b.line else ListLe(LinkKey(a), LinkKey(b))
  }

  lemma {:induction false} LinkLeTransitive(a: Link, b: Link, c: Link)
    requires LinkLe(a, b) && LinkLe(b, c)
    ensures LinkLe(a, c)
  {
    var ka, kb, kc := LinkKey(a), LinkKey(b), LinkKey(c);
    if ka != kb && kb != kc {
      ListLeTransitive(ka, kb, kc);
      if ka == kc { ListLeAntisymmetric(ka, kb); }
    }
  }

  lemma {:induction false} LinkLeIsOrder()
    ensures TotalPreorder(LinkLe)
  {
    forall a, b ensures LinkLe(a, b) || LinkLe(b, a) { ListLeTotal(LinkKey(a), LinkKey(b)); }
    forall a, b, c | LinkLe(a, b) && LinkLe(b, c) ensures LinkLe(a, c) { LinkLeTransitive(a, b, c); }
  }

  // ------------------------------------------------------------------- the tree

  /** Of two edges into one node, `e` is of the lesser channel; of one channel, it is anchored in the lesser file; of one
  file, on no later line. */
  predicate ChosenOver(e: Link, d: Link) {
    if e.channel != d.channel then StrLe(e.channel, d.channel)
    else if e.file != d.file then StrLe(e.file, d.file)
    else e.line <= d.line
  }

  /** `e` is the least edge from `visited[j]` to `visited[i]`, and nothing visited before `j` has one. */
  ghost predicate Parent(adjacency: Links, visited: seq<string>, i: int, e: Link, j: int) {
    && 0 <= j < i < |visited| && e in LinksAt(adjacency, visited[j]) && e.target == visited[i]
    && (forall k :: 0 <= k < j ==> visited[i] !in Targets(adjacency)(visited[k]))
    && (forall d :: d in LinksAt(adjacency, visited[j]) && d.target == visited[i] ==> ChosenOver(e, d))
  }

  ghost predicate HasParent(adjacency: Links, visited: seq<string>, i: int, e: Link) {
    exists j :: Parent(adjacency, visited, i, e, j)
  }

  /** `reached` holds the first edge into every visited node but the start; the visited nodes are the start and the
  dict's keys in insertion order. */
  ghost predicate IsTree(adjacency: Links, visited: seq<string>, reached: map<string, Link>) {
    && visited != [] && WithoutRepeats(visited) && visited[0] !in reached
    && (forall v :: v in reached ==> v in visited)
    && (forall i {:trigger visited[i]} :: 0 < i < |visited| ==>
          visited[i] in reached && HasParent(adjacency, visited, i, reached[visited[i]]))
  }

  ghost predicate ExpandedTo(next: Next, visited: seq<string>, n: int) {
    0 <= n <= |visited| && forall k, v :: 0 <= k < n && v in next(visited[k]) ==> v in visited
  }

  lemma {:induction false} ParentStays(adjacency: Links, visited: seq<string>, more: seq<string>, i: int, e: Link)
    requires visited <= more && HasParent(adjacency, visited, i, e)
    ensures HasParent(adjacency, more, i, e)
  {
    var j :| Parent(adjacency, visited, i, e, j);
    assert Parent(adjacency, more, i, e, j);
  }

  /** A node seen for the first time joins the tree. */
  lemma {:induction false} GrowTree(adjacency: Links, visited: seq<string>, reached: map<string, Link>, x: nat, e: Link)
    requires IsTree(adjacency, visited, reached) && x < |visited| && ExpandedTo(Targets(adjacency), visited, x)
    requires e in LinksAt(adjacency, visited[x]) && e.target !in visited
    requires forall d :: d in LinksAt(adjacency, visited[x]) && d.target == e.target ==> ChosenOver(e, d)
    ensures IsTree(adjacency, visited + [e.target], reached[e.target := e])
  {
    var more, grown := visited + [e.target], reached[e.target := e];
    WithoutRepeatsPush(visited, e.target);
    forall i {:trigger more[i]} | 0 < i < |more| ensures more[i] in grown && HasParent(adjacency, more, i, grown[more[i]]) {
      GrownHasParent(adjacency, visited, reached, x, e, i);
    }
    assert forall v :: v in grown ==> v in more;
  }

  lemma {:induction false} GrownHasParent(adjacency: Links, visited: seq<string>, reached: map<string, Link>, x: nat,
      e: Link, i: int)
    requires IsTree(adjacency, visited, reached) && x < |visited| && ExpandedTo(Targets(adjacency), visited, x)
    requires e in LinksAt(adjacency, visited[x]) && e.target !in visited
    requires forall d :: d in LinksAt(adjacency, visited[x]) && d.target == e.target ==> ChosenOver(e, d)
    requires 0 < i <= |visited|
    ensures var more, grown := visited + [e.target], reached[e.target := e];
      more[i] in grown && HasParent(adjacency, more, i, grown[more[i]])
  {
    if i < |visited| {
      OldHasParent(adjacency, visited, reached, e, i);
    } else {
      NewHasParent(adjacency, visited, x, e);
    }
  }

  lemma {:induction false} WithoutRepeatsPush(s: seq<string>, x: string)
    requires WithoutRepeats(s) && x !in s
    ensures WithoutRepeats(s + [x])
  {
  }

  lemma {:induction false} OldHasParent(adjacency: Links, visited: seq<string>, reached: map<string, Link>, e: Link,
      i: int)
    requires IsTree(adjacency, visited, reached) && e.target !in visited && 0 < i < |visited|
    ensures visited[i] in reached && visited[i] != e.target
    ensures HasParent(adjacency, visited + [e.target], i, reached[visited[i]])
  {
    ParentStays(adjacency, visited, visited + [e.target], i, reached[visited[i]]);
  }

  lemma {:induction false} NewHasParent(adjacency: Links, visited: seq<string>, x: nat, e: Link)
    requires x < |visited| && ExpandedTo(Targets(adjacency), visited, x)
    requires e in LinksAt(adjacency, visited[x]) && e.target !in visited
    requires forall d :: d in LinksAt(adjacency, visited[x]) && d.target == e.target ==> ChosenOver(e, d)
    ensures HasParent(adjacency, visited + [e.target], |visited|, e)
  {
    var more := visited + [e.target];
    assert more[x] == visited[x];
    forall k | 0 <= k < x ensures e.target !in Targets(adjacency)(more[k]) { assert more[k] == visited[k]; }
    assert Parent(adjacency, more, |visited|, e, x);
  }

  ghost predicate SortedFrom(links: seq<Link>, sorted: seq<Link>) {
    Sorted(sorted, LinkLe) && forall e :: e in sorted <==> e in links
  }

  lemma {:induction false} SortsLinks(links: seq<Link>)
    ensures SortedFrom(links, StableSort(links, LinkLe))
  {
    LinkLeIsOrder();
    SortSorts(links, LinkLe);
    SortMembers(links, LinkLe);
  }

  /** After the first `i` edges of `visited[x]`. */
  ghost predicate Visiting(adjacency: Links, visited: seq<string>, x: int, sorted: seq<Link>, i: int, more: seq<string>,
      grown: map<string, Link>) {
    && 0 <= x < |visited| && 0 <= i <= |sorted|
    && IsTree(adjacency, more, grown) && visited <= more
    && (forall m :: 0 <= m < i ==> sorted[m].target in more)
    && (forall v {:trigger v in more} :: v in more ==> v in visited || v in Targets(adjacency)(visited[x]))
  }

  /** An edge into an unseen node is the least edge into it. */
  lemma {:induction false} FirstIsLeast(links: seq<Link>, sorted: seq<Link>, i: nat, more: seq<string>, d: Link)
    requires SortedFrom(links, sorted) && i < |sorted| && sorted[i].target !in more
    requires forall m :: 0 <= m < i ==> sorted[m].target in more
    requires d in links && d.target == sorted[i].target
    ensures ChosenOver(sorted[i], d)
  {
    assert d in sorted;
    var m :| 0 <= m < |sorted| && sorted[m] == d;
    ListLeTotal(LinkKey(d), LinkKey(d));
    LeastIsChosen(sorted[i], d);
  }

  lemma {:induction false} LeastIsChosen(e: Link, d: Link)
    requires LinkLe(e, d) && e.target == d.target
    ensures ChosenOver(e, d)
  {
    var k, l := LinkKey(e), LinkKey(d);
    if k != l && e.channel == d.channel {
      assert ListLe(k[1..], l[1..]) && k[1..][0] == e.target == l[1..][0];
      assert k[1..][1..] == [e.file] && l[1..][1..] == [d.file];
      assert ListLe([e.file], [d.file]);
    }
  }

  lemma {:induction false} StillExpanded(next: Next, visited: seq<string>, more: seq<string>, x: int)
    requires ExpandedTo(next, visited, x) && visited <= more
    ensures ExpandedTo(next, more, x)
  {
    forall k, v | 0 <= k < x && v in next(more[k]) ensures v in more {
      assert more[k] == visited[k] && v in visited;
    }
  }

  /** One edge whose target was seen before. */
  lemma {:induction false} PassEdge(adjacency: Links, visited: seq<string>, x: nat, sorted: seq<Link>, i: nat,
      more: seq<string>, grown: map<string, Link>)
    requires Visiting(adjacency, visited, x, sorted, i, more, grown) && i < |sorted| && sorted[i].target in more
    ensures Visiting(adjacency, visited, x, sorted, i + 1, more, grown)
  {
  }

  /** One edge whose target was not: it joins the tree. */
  lemma {:induction false} TakeEdge(adjacency: Links, visited: seq<string>, x: nat, sorted: seq<Link>, i: nat,
      more: seq<string>, grown: map<string, Link>)
    requires Visiting(adjacency, visited, x, sorted, i, more, grown) && i < |sorted| && sorted[i].target !in more
    requires SortedFrom(LinksAt(adjacency, visited[x]), sorted) && ExpandedTo(Targets(adjacency), visited, x)
    ensures Visiting(adjacency, visited, x, sorted, i + 1, more + [sorted[i].target],
                     grown[sorted[i].target := sorted[i]])
  {
    TreeTakesEdge(adjacency, visited, x, sorted, i, more, grown);
    var e := sorted[i];
    assert e in LinksAt(adjacency, visited[x]);
    forall v | v in more + [e.target] ensures v in visited || v in Targets(adjacency)(visited[x]) {
      if v in more {} else { assert v == e.target; }
    }
  }

  lemma {:induction false} TreeTakesEdge(adjacency: Links, visited: seq<string>, x: nat, sorted: seq<Link>, i: nat,
      more: seq<string>, grown: map<string, Link>)
    requires x < |visited| && i < |sorted| && IsTree(adjacency, more, grown) && visited <= more
    requires sorted[i].target !in more && forall m :: 0 <= m < i ==> sorted[m].target in more
    requires SortedFrom(LinksAt(adjacency, visited[x]), sorted) && ExpandedTo(Targets(adjacency), visited, x)
    ensures sorted[i] in LinksAt(adjacency, visited[x])
    ensures IsTree(adjacency, more + [sorted[i].target], grown[sorted[i].target := sorted[i]])
  {
    var e := sorted[i];
    assert e in sorted && more[x] == visited[x];
    StillExpanded(Targets(adjacency), visited, more, x);
    forall d | d in LinksAt(adjacency, more[x]) && d.target == e.target ensures ChosenOver(e, d) {
      FirstIsLeast(LinksAt(adjacency, visited[x]), sorted, i, more, d);
    }
    GrowTree(adjacency, more, grown, x, e);
  }

  lemma {:induction false} VisitedAll(adjacency: Links, visited: seq<string>, x: nat, sorted: seq<Link>,
      more: seq<string>, grown: map<string, Link>, v: string)
    requires Visiting(adjacency, visited, x, sorted, |sorted|, more, grown)
    requires SortedFrom(LinksAt(adjacency, visited[x]), sorted) && v in Targets(adjacency)(visited[x])
    ensures v in more
  {
    var e :| e in LinksAt(adjacency, visited[x]) && e.target == v;
    assert e in sorted;
    var m :| 0 <= m < |sorted| && sorted[m] == e;
    assert sorted[m].target in more;
  }

  /** The inner loop: every edge of `visited[x]`, in order. */
  method VisitEdges(adjacency: Links, visited: seq<string>, reached: map<string, Link>, x: nat)
      returns (more: seq<string>, grown: map<string, Link>)
    requires IsTree(adjacency, visited, reached) && x < |visited| && ExpandedTo(Targets(adjacency), visited, x)
    ensures IsTree(adjacency, more, grown) && visited <= more
    ensures forall v :: v in more <==> v in visited || v in Targets(adjacency)(visited[x])
  {
    var sorted := StableSort(LinksAt(adjacency, visited[x]), LinkLe);
    SortsLinks(LinksAt(adjacency, visited[x]));
    more, grown := visited, reached;
    for i := 0 to |sorted|
      invariant Visiting(adjacency, visited, x, sorted, i, more, grown)
    {
      var e := sorted[i];
      if e.target in more {
        PassEdge(adjacency, visited, x, sorted, i, more, grown);
      } else {
        TakeEdge(adjacency, visited, x, sorted, i, more, grown);
        more, grown := more + [e.target], grown[e.target := e];
      }
    }
    forall v | v in Targets(adjacency)(visited[x]) ensures v in more {
      VisitedAll(adjacency, visited, x, sorted, more, grown, v);
    }
  }

  // ------------------------------------------------------------------ the levels

  function Members(s: seq<string>): set<string> {
    set v | v in s
  }

  ghost predicate Holds(visited: seq<string>, s: set<string>) {
    Members(visited) == s
  }

  predicate Within(next: Next, start: string, h: nat, v: string) {
    v in Ball(next, start, h)
  }

  /** Nodes are visited in order of distance. */
  ghost predicate InOrder(next: Next, start: string, visited: seq<string>) {
    forall i, j, h: nat {:trigger visited[i], Within(next, start, h, visited[j])} ::
      0 <= i < j < |visited| && Within(next, start, h, visited[j]) ==> Within(next, start, h, visited[i])
  }

  /** Before level `hops`: the ball of that radius is visited, and the smaller one expanded. */
  ghost predicate AtLevel(adjacency: Links, start: string, visited: seq<string>, reached: map<string, Link>, lo: int,
      hops: nat) {
    && IsTree(adjacency, visited, reached) && visited[0] == start
    && ExpandedTo(Targets(adjacency), visited, lo) && InOrder(Targets(adjacency), start, visited)
    && Holds(visited, Ball(Targets(adjacency), start, hops))
    && (if hops == 0 then lo == 0 else Holds(visited[..lo], Ball(Targets(adjacency), start, hops - 1)))
  }

  /** After the first nodes of the frontier `visited[lo..hi]`, up to `x`. */
  ghost predicate InLevel(adjacency: Links, visited: seq<string>, more: seq<string>, grown: map<string, Link>, x: int) {
    && visited <= more && IsTree(adjacency, more, grown) && 0 <= x <= |visited|
    && ExpandedTo(Targets(adjacency), more, x)
    && forall v :: v in more ==> v in visited || exists k :: 0 <= k < |visited| && v in Targets(adjacency)(visited[k])
  }

  /** One level: every frontier node in turn. */
  method ExpandLevel(adjacency: Links, ghost start: string, visited: seq<string>, reached: map<string, Link>, lo: nat,
      ghost hops: nat) returns (more: seq<string>, grown: map<string, Link>)
    requires AtLevel(adjacency, start, visited, reached, lo, hops)
    ensures visited <= more && AtLevel(adjacency, start, more, grown, |visited|, hops + 1)
  {
    more, grown := visited, reached;
    for x := lo to |visited|
      invariant InLevel(adjacency, visited, more, grown, x)
    {
      ghost var before := more;
      var longer, larger := VisitEdges(adjacency, more, grown, x);
      ExpandsOneMore(adjacency, visited, more, longer, larger, x);
      more, grown := longer, larger;
    }
    LevelDone(adjacency, start, visited, reached, lo, hops, more, grown);
  }

  lemma {:induction false} ExpandsOneMore(adjacency: Links, visited: seq<string>, more: seq<string>,
      longer: seq<string>, larger: map<string, Link>, x: nat)
    requires x < |visited| && visited <= more <= longer && ExpandedTo(Targets(adjacency), more, x)
    requires forall v :: v in more ==> v in visited || exists k :: 0 <= k < |visited| && v in Targets(adjacency)(visited[k])
    requires IsTree(adjacency, longer, larger)
    requires forall v :: v in longer <==> v in more || v in Targets(adjacency)(more[x])
    ensures InLevel(adjacency, visited, longer, larger, x + 1)
  {
    StillExpanded(Targets(adjacency), more, longer, x);
    assert longer[x] == more[x] == visited[x];
  }

  lemma {:induction false} LevelDone(adjacency: Links, start: string, visited: seq<string>, reached: map<string, Link>,
      lo: nat, hops: nat, more: seq<string>, grown: map<string, Link>)
    requires AtLevel(adjacency, start, visited, reached, lo, hops)
    requires InLevel(adjacency, visited, more, grown, |visited|)
    ensures AtLevel(adjacency, start, more, grown, |visited|, hops + 1)
  {
    var next := Targets(adjacency);
    assert more[..|visited|] == visited;
    forall v ensures v in more <==> v in Ball(next, start, hops + 1) {
      if v in Successors(next, Ball(next, start, hops)) {
        var u :| u in Ball(next, start, hops) && v in next(u);
        var k :| 0 <= k < |visited| && visited[k] == u;
        assert more[k] == u;
      }
    }
    LevelKeepsOrder(next, start, visited, more, hops);
  }

  lemma {:induction false} BeyondPrefix(visited: seq<string>, more: seq<string>, j: nat)
    requires WithoutRepeats(more) && visited <= more && |visited| <= j < |more|
    ensures more[j] !in visited
  {
    forall k | 0 <= k < |visited| ensures visited[k] != more[j] { assert more[k] == visited[k]; }
  }

  lemma {:induction false} LevelKeepsOrder(next: Next, start: string, visited: seq<string>, more: seq<string>, hops: nat)
    requires InOrder(next, start, visited) && visited <= more && Holds(visited, Ball(next, start, hops))
    requires Holds(more, Ball(next, start, hops + 1)) && WithoutRepeats(more)
    ensures InOrder(next, start, more)
  {
    forall i, j, h: nat {:trigger more[i], Within(next, start, h, more[j])} |
      0 <= i < j < |more| && Within(next, start, h, more[j])
      ensures Within(next, start, h, more[i])
    {
      if j < |visited| {
        assert more[i] == visited[i] && Within(next, start, h, visited[j]);
      } else {
        BeyondPrefix(visited, more, j);
        if h <= hops { BallsGrow(next, start, h, hops); }
        BallsGrow(next, start, hops + 1, if h <= hops then hops + 1 else h);
        assert more[i] in more;
      }
    }
  }

  // ------------------------------------------------------------------- the search

  function Hops(maxHops: int): nat {
    if maxHops < 0 then 0 else maxHops
  }

  ghost predicate WalkResult(start: string, adjacency: Links, hops: nat, visited: seq<string>,
      reached: map<string, Link>, limited: bool) {
    && IsTree(adjacency, visited, reached) && visited[0] == start
    && Holds(visited, Ball(Targets(adjacency), start, hops)) && InOrder(Targets(adjacency), start, visited)
    && (limited <==> exists v :: AtDistance(Targets(adjacency), start, v, hops))
  }

  lemma {:induction false} StartLevel(start: string, adjacency: Links)
    ensures AtLevel(adjacency, start, [start], map[], 0, 0)
  {
  }

  lemma {:induction false} WalkDone(start: string, adjacency: Links, visited: seq<string>, reached: map<string, Link>,
      lo: nat, hops: nat, limit: nat)
    requires AtLevel(adjacency, start, visited, reached, lo, hops) && lo <= |visited| && hops <= limit
    requires lo < |visited| ==> hops == limit
    ensures WalkResult(start, adjacency, limit, visited, reached, lo < |visited|)
  {
    if lo < |visited| {
      FrontierAtLimit(adjacency, start, visited, reached, lo, hops);
    } else {
      NothingBeyond(adjacency, start, visited, reached, lo, hops, limit);
    }
  }

  /** `_walk`. `visited` is the start followed by the keys of `reached` in insertion order; the flag is True when
  nodes at exactly the hop limit were left unexpanded. */
  method Walk(start: string, adjacency: Links, maxHops: int)
      returns (visited: seq<string>, reached: map<string, Link>, limited: bool)
    ensures WalkResult(start, adjacency, Hops(maxHops), visited, reached, limited)
  {
    visited, reached := [start], map[];
    var lo, hops := 0, 0;
    StartLevel(start, adjacency);
    while lo < |visited| && hops < maxHops
      invariant 0 <= lo <= |visited| && 0 <= hops <= Hops(maxHops)
      invariant AtLevel(adjacency, start, visited, reached, lo, hops)
      decreases maxHops - hops
    {
      var more, grown := ExpandLevel(adjacency, start, visited, reached, lo, hops);
      lo, visited, reached, hops := |visited|, more, grown, hops + 1;
    }
    limited := lo < |visited|;
    WalkDone(start, adjacency, visited, reached, lo, hops, Hops(maxHops));
  }

  /** A frontier node is at exactly the current distance. */
  lemma {:induction false} FrontierAtLimit(adjacency: Links, start: string, visited: seq<string>,
      reached: map<string, Link>, lo: nat, hops: nat)
    requires AtLevel(adjacency, start, visited, reached, lo, hops) && lo < |visited|
    ensures AtDistance(Targets(adjacency), start, visited[lo], hops)
  {
    if hops > 0 { BeyondPrefix(visited[..lo], visited, lo); }
  }

  /** With an empty frontier the ball has stopped growing. */
  lemma {:induction false} NothingBeyond(adjacency: Links, start: string, visited: seq<string>,
      reached: map<string, Link>, lo: nat, hops: nat, limit: nat)
    requires AtLevel(adjacency, start, visited, reached, lo, hops) && lo == |visited| && hops <= limit
    ensures Ball(Targets(adjacency), start, limit) == Ball(Targets(adjacency), start, hops)
    ensures forall v :: !AtDistance(Targets(adjacency), start, v, limit)
  {
    assert visited[..lo] == visited;
    assert hops > 0;
    StoppedGrowing(Targets(adjacency), start, hops, limit);
    NoneAtLimit(Targets(adjacency), start, limit);
  }

  lemma {:induction false} StoppedGrowing(next: Next, start: string, hops: nat, limit: nat)
    requires 0 < hops <= limit && Ball(next, start, hops) == Ball(next, start, hops - 1)
    ensures Ball(next, start, limit) == Ball(next, start, hops) == Ball(next, start, limit - 1)
  {
    EachBallGrows(next, start);
    BallsStop(Balls(next, start), Growth(next), Ball(next, start, hops), Ball(next, start, hops - 1),
              Ball(next, start, limit), Ball(next, start, limit - 1), hops, limit);
  }

  lemma {:induction false} BallsStop<T>(ball: nat -> T, grow: T -> T, a: T, b: T, c: T, d: T, hops: nat, limit: nat)
    requires (forall h: nat :: Steps(ball, grow, h)) && 0 < hops <= limit && a == b
    requires a == ball(hops) && b == ball(hops - 1) && c == ball(limit) && d == ball(limit - 1)
    ensures c == a && d == a
  {
    StaysStopped(ball, grow, hops, limit);
  }

  function Balls(next: Next, start: string): nat -> set<string> {
    (h: nat) => Ball(next, start, h)
  }

  function Growth(next: Next): set<string> -> set<string> {
    (s: set<string>) => Grown(next, s)
  }

  lemma {:induction false} EachBallGrows(next: Next, start: string)
    ensures forall h: nat :: Steps(Balls(next, start), Growth(next), h)
  {
    forall h: nat ensures Steps(Balls(next, start), Growth(next), h) { BallGrows(next, start, h); }
  }

  lemma {:induction false} BallGrows(next: Next, start: string, h: nat)
    ensures Steps(Balls(next, start), Growth(next), h)
  {
  }

  ghost predicate Steps<T>(ball: nat -> T, grow: T -> T, h: nat) {
    ball(h + 1) == grow(ball(h))
  }

  /** A sequence that repeats a value when each one is made from the last repeats it for good. */
  lemma {:induction false} StaysStopped<T>(ball: nat -> T, grow: T -> T, hops: nat, limit: nat)
    requires (forall h: nat :: Steps(ball, grow, h)) && 0 < hops <= limit && ball(hops) == ball(hops - 1)
    ensures ball(limit) == ball(hops) == ball(limit - 1)
  {
    if hops < limit {
      StaysStopped(ball, grow, hops, limit - 1);
      assert Steps(ball, grow, limit - 1) && Steps(ball, grow, limit - 2);
    }
  }

  lemma {:induction false} NoneAtLimit(next: Next, start: string, limit: nat)
    requires limit > 0 && Ball(next, start, limit) == Ball(next, start, limit - 1)
    ensures forall v :: !AtDistance(next, start, v, limit)
  {
  }

  lemma {:induction false} SmallIsClosed(next: Next, start: string, hops: nat, small: set<string>)
    requires hops > 0 && small == Ball(next, start, hops - 1)
    requires forall v :: v in Ball(next, start, hops) ==> v in small
    ensures Closed(next, small)
  {
    forall u, v | u in small && v in next(u) ensures v in small { StepsOut(next, start, u, v, hops - 1); }
  }

  /** What `reached` holds: exactly the nodes that some path of 1 to `maxHops` hops, and no shorter one, leads to. */
  lemma {:induction false} ReachedExactly(adjacency: Links, start: string, visited: seq<string>,
      reached: map<string, Link>, hops: nat, v: string)
    requires IsTree(adjacency, visited, reached) && visited[0] == start
    requires Holds(visited, Ball(Targets(adjacency), start, hops))
    ensures v in reached <==>
      v != start && exists p :: Leads(Targets(adjacency), p, start, v) && |p| - 1 <= hops
  {
    WithinExactly(Targets(adjacency), start, hops, v);
    assert v in visited <==> v in Ball(Targets(adjacency), start, hops);
    if v in visited && v != start {
      var i :| 0 <= i < |visited| && visited[i] == v;
    }
  }

  /** When the flag is False, everything reachable was found. */
  lemma {:induction false} UnlimitedIsComplete(adjacency: Links, start: string, hops: nat, v: string)
    requires forall u :: !AtDistance(Targets(adjacency), start, u, hops)
    requires Reaches(Targets(adjacency), start, v)
    ensures v in Ball(Targets(adjacency), start, hops)
  {
    var next := Targets(adjacency);
    StartInBall(next, start, hops);
    assert !AtDistance(next, start, start, hops);
    assert hops > 0;
    var small := Ball(next, start, hops - 1);
    forall u | u in Ball(next, start, hops) ensures u in small { assert !AtDistance(next, start, u, hops); }
    SmallIsClosed(next, start, hops, small);
    StartInBall(next, start, hops - 1);
    ClosedHolds(next, start, small, v);
    BallsGrow(next, start, hops - 1, hops);
  }

  /** The stored edges form a shortest-path tree: the edge into a node at distance `d` leaves a node at distance
  `d - 1`. */
  lemma {:induction false} ParentsAreCloser(adjacency: Links, start: string, visited: seq<string>,
      reached: map<string, Link>, hops: nat, i: nat, d: nat) returns (j: nat)
    requires IsTree(adjacency, visited, reached) && visited[0] == start && InOrder(Targets(adjacency), start, visited)
    requires Holds(visited, Ball(Targets(adjacency), start, hops))
    requires 0 < i < |visited| && AtDistance(Targets(adjacency), start, visited[i], d)
    ensures d > 0 && Parent(adjacency, visited, i, reached[visited[i]], j)
    ensures AtDistance(Targets(adjacency), start, visited[j], d - 1)
  {
    j := ParentOf(adjacency, visited, reached, i);
    assert visited[i] != visited[0];
    EarliestIsCloser(Targets(adjacency), start, visited, hops, visited[i], d, j);
  }

  lemma {:induction false} ParentOf(adjacency: Links, visited: seq<string>, reached: map<string, Link>, i: nat)
      returns (j: nat)
    requires IsTree(adjacency, visited, reached) && 0 < i < |visited|
    ensures Parent(adjacency, visited, i, reached[visited[i]], j)
    ensures visited[i] in Targets(adjacency)(visited[j])
  {
    j :| Parent(adjacency, visited, i, reached[visited[i]], j);
  }

  /** The earliest visited node with an edge into a node at distance `d` is at distance `d - 1`. */
  lemma {:induction false} EarliestIsCloser(next: Next, start: string, visited: seq<string>, hops: nat, v: string, d: nat,
      j: nat)
    requires InOrder(next, start, visited) && Holds(visited, Ball(next, start, hops)) && v in visited
    requires d > 0 && AtDistance(next, start, v, d)
    requires j < |visited| && v in next(visited[j]) && forall k :: 0 <= k < j ==> v !in next(visited[k])
    ensures AtDistance(next, start, visited[j], d - 1)
  {
    EarliestIsNear(next, start, visited, hops, v, d, j);
    ParentDistance(next, start, visited[j], v, d);
  }

  lemma {:induction false} EarliestIsNear(next: Next, start: string, visited: seq<string>, hops: nat, v: string, d: nat,
      j: nat)
    requires InOrder(next, start, visited) && Holds(visited, Ball(next, start, hops)) && v in visited
    requires d > 0 && AtDistance(next, start, v, d)
    requires j < |visited| && forall k :: 0 <= k < j ==> v !in next(visited[k])
    ensures visited[j] in Ball(next, start, d - 1)
  {
    var w := NearVisited(next, start, visited, hops, v, d);
    EarlierIsCloser(next, start, visited, v, j, w, d - 1);
  }

  lemma {:induction false} NearVisited(next: Next, start: string, visited: seq<string>, hops: nat, v: string, d: nat)
      returns (w: string)
    requires Holds(visited, Ball(next, start, hops)) && v in visited && d > 0 && AtDistance(next, start, v, d)
    ensures w in visited && w in Ball(next, start, d - 1) && v in next(w)
  {
    assert v in Members(visited);
    DistanceAtMost(next, start, hops, v, d);
    w := NearParent(next, start, v, d);
    BallsGrow(next, start, d - 1, hops);
    assert w in Members(visited);
  }

  lemma {:induction false} ParentDistance(next: Next, start: string, u: string, v: string, d: nat)
    requires d > 0 && AtDistance(next, start, v, d) && u in Ball(next, start, d - 1) && v in next(u)
    ensures AtDistance(next, start, u, d - 1)
  {
    if d > 1 { StepsOut(next, start, u, v, d - 2); }
  }

  lemma {:induction false} NearParent(next: Next, start: string, v: string, d: nat) returns (w: string)
    requires d > 0 && AtDistance(next, start, v, d)
    ensures w in Ball(next, start, d - 1) && v in next(w)
  {
    w :| w in Ball(next, start, d - 1) && v in next(w);
  }

  lemma {:induction false} StepsOut(next: Next, start: string, u: string, v: string, h: nat)
    requires v in next(u)
    ensures u in Ball(next, start, h) ==> v in Ball(next, start, h + 1)
  {
  }

  lemma {:induction false} EarlierIsCloser(next: Next, start: string, visited: seq<string>, v: string, j: nat,
      w: string, h: nat)
    requires InOrder(next, start, visited) && w in visited && w in Ball(next, start, h) && v in next(w)
    requires j < |visited| && forall k :: 0 <= k < j ==> v !in next(visited[k])
    ensures visited[j] in Ball(next, start, h)
  {
    var m :| 0 <= m < |visited| && visited[m] == w;
    assert j <= m && Within(next, start, h, visited[m]);
  }

  lemma {:induction false} DistanceAtMost(next: Next, start: string, hops: nat, v: string, d: nat)
    requires v in Ball(next, start, hops) && AtDistance(next, start, v, d)
    ensures d <= hops
  {
    if d > hops { BallsGrow(next, start, hops, d - 1); }
  }
}
