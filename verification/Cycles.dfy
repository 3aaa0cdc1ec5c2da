/** Tarjan's strongly connected components, in the iterative form of `_find_cycles`
(cdp/graph.py:281-329). */
module Cycles {
  import opened Orders
  import opened Reachability

  /** One entry of the explicit call stack: a node and the children its iterator still holds. */
  datatype Frame = Frame(node: string, rest: seq<string>)

  /** The local variables of the search. */
  datatype Search = Search(
    index: map<string, nat>,
    low: map<string, nat>,
    stack: seq<string>,
    work: seq<Frame>,
    result: seq<seq<string>>,
    counter: nat)

  // ------------------------------------------------------------- the promise

  /** The members of `c` are exactly the nodes mutually reachable with any one of them. */
  ghost predicate IsComponent(g: Graph, c: seq<string>) {
    forall x, y :: x in c ==> (y in c <==> Mutual(g, x, y))
  }

  ghost predicate IsCycle(g: Graph, c: seq<string>) {
    StrictlySorted(c) && |c| > 1 && IsComponent(g, c)
  }

  ghost predicate OnCycle(g: Graph, u: string) {
    exists w :: w != u && Mutual(g, u, w)
  }

  ghost predicate Listed(cycles: seq<seq<string>>, u: string) {
    exists c :: c in cycles && u in c
  }

  ghost predicate Distinct(cycles: seq<seq<string>>) {
    forall i, j :: 0 <= i < j < |cycles| ==> cycles[i] != cycles[j]
  }

  /** What `_find_cycles` promises: each strongly connected component of two or more nodes
  once, its members sorted, and the components sorted among themselves. */
  ghost predicate IsCycleList(g: Graph, cycles: seq<seq<string>>) {
    && (forall c :: c in cycles ==> IsCycle(g, c))
    && (forall u {:trigger Listed(cycles, u)} :: u in g && OnCycle(g, u) ==> Listed(cycles, u))
    && Distinct(cycles)
    && Sorted(cycles, ListLe)
  }

  // --------------------------------------------------------------- invariant

  /** The edge has left its node's iterator. */
  ghost predicate Explored(work: seq<Frame>, u: string, v: string) {
    forall i :: 0 <= i < |work| && work[i].node == u ==> v !in work[i].rest
  }

  ghost predicate Shape(g: Graph, s: Search) {
    && s.index.Keys == s.low.Keys
    && s.index.Keys <= g.Keys
    && (forall u :: u in s.index ==> s.index[u] < s.counter)
    && (forall u :: u in s.stack ==> u in s.index)
    && (forall i, j :: 0 <= i < j < |s.stack| ==> s.index[s.stack[i]] < s.index[s.stack[j]])
    && (forall i :: 0 <= i < |s.work| ==> s.work[i].node in s.stack)
    && (forall i, j :: 0 <= i < j < |s.work| ==> s.index[s.work[i].node] < s.index[s.work[j].node])
  }

  /** Explored edges lead to visited nodes. */
  ghost predicate ExploredVisited(g: Graph, s: Search) {
    forall u, v :: u in s.index && Edge(g, u, v) && Explored(s.work, u, v) ==> v in s.index
  }

  ghost predicate Retired(s: Search, u: string) {
    u in s.index && u !in s.stack
  }

  ghost predicate RetiredClosed(g: Graph, s: Search) {
    forall u, v :: Retired(s, u) && Edge(g, u, v) ==> Retired(s, v)
  }

  /** An open node reaches everything above it on the stack. */
  ghost predicate OpenReachesUp(g: Graph, s: Search)
    requires Shape(g, s)
  {
    forall i, y :: 0 <= i < |s.work| && y in s.stack && s.index[s.work[i].node] <= s.index[y]
      ==> Reach(g, s.work[i].node, y)
  }

  ghost predicate OpenBelow(g: Graph, s: Search, y: string, i: int)
    requires Shape(g, s) && y in s.stack
  {
    0 <= i < |s.work| && s.index[s.work[i].node] <= s.index[y] && Reach(g, y, s.work[i].node)
  }

  ghost predicate Descends(g: Graph, s: Search, y: string)
    requires Shape(g, s) && y in s.stack
  {
    exists i :: OpenBelow(g, s, y, i)
  }

  /** Every node on the stack reaches an open node at or below it. */
  ghost predicate StackReachesDown(g: Graph, s: Search)
    requires Shape(g, s)
  {
    forall y {:trigger Descends(g, s, y)} :: y in s.stack ==> Descends(g, s, y)
  }

  /** The part of the stack between open node `i` and the next open node. */
  ghost predicate InSegment(g: Graph, s: Search, i: int, u: string)
    requires Shape(g, s)
  {
    && 0 <= i < |s.work| && u in s.stack
    && s.index[s.work[i].node] <= s.index[u]
    && (i + 1 < |s.work| ==> s.index[u] < s.index[s.work[i + 1].node])
  }

  /** `low` bounds below every stack node that an explored edge of the segment enters. */
  ghost predicate LowBounds(g: Graph, s: Search)
    requires Shape(g, s)
  {
    forall i, u, v :: InSegment(g, s, i, u) && Edge(g, u, v) && Explored(s.work, u, v) && v in s.stack
      ==> s.low[s.work[i].node] <= s.index[v]
  }

  ghost predicate LowWitness(g: Graph, s: Search, u: string, w: string)
    requires Shape(g, s) && u in s.stack
  {
    w in s.stack && s.index[w] == s.low[u] && Reach(g, u, w)
  }

  ghost predicate LowIsReached(g: Graph, s: Search, u: string)
    requires Shape(g, s) && u in s.stack
  {
    s.low[u] <= s.index[u] && exists w :: LowWitness(g, s, u, w)
  }

  /** `low` is the index of a stack node that the open node reaches. */
  ghost predicate LowReached(g: Graph, s: Search)
    requires Shape(g, s)
  {
    forall i {:trigger LowIsReached(g, s, s.work[i].node)} ::
      0 <= i < |s.work| ==> LowIsReached(g, s, s.work[i].node)
  }

  ghost predicate ResultSound(g: Graph, s: Search) {
    && (forall c :: c in s.result ==> IsCycle(g, c) && forall x :: x in c ==> Retired(s, x))
    && Distinct(s.result)
  }

  ghost predicate ResultComplete(g: Graph, s: Search) {
    forall u {:trigger Listed(s.result, u)} :: Retired(s, u) && OnCycle(g, u) ==> Listed(s.result, u)
  }

  ghost predicate Inv(g: Graph, s: Search) {
    && Shape(g, s)
    && ExploredVisited(g, s) && RetiredClosed(g, s)
    && OpenReachesUp(g, s) && StackReachesDown(g, s)
    && LowBounds(g, s) && LowReached(g, s)
    && ResultSound(g, s) && ResultComplete(g, s)
  }

  // ------------------------------------------------------------- search steps

  /** Numbers an unvisited node and opens a frame for it. */
  function Enter(g: Graph, s: Search, c: string): Search
    requires c in g
  {
    Search(s.index[c := s.counter], s.low[c := s.counter], s.stack + [c],
           s.work + [Frame(c, SortedSet(g[c]))], s.result, s.counter + 1)
  }

  /** Takes the next child from the top frame's iterator. */
  function Advance(s: Search): Search
    requires s.work != [] && s.work[|s.work| - 1].rest != []
  {
    var top := s.work[|s.work| - 1];
    s.(work := s.work[..|s.work| - 1] + [Frame(top.node, top.rest[1..])])
  }

  function Lower(s: Search, u: string, n: nat): Search
    requires u in s.low
  {
    s.(low := s.low[u := if n < s.low[u] then n else s.low[u]])
  }

  /** Pops the top frame and passes its `low` down to the frame below. */
  function Retreat(s: Search): Search
    requires s.work != [] && s.work[|s.work| - 1].node in s.low
    requires forall i :: 0 <= i < |s.work| ==> s.work[i].node in s.low
  {
    var rest := s.work[..|s.work| - 1];
    var popped := s.(work := rest);
    if rest == [] then popped
    else Lower(popped, rest[|rest| - 1].node, s.low[s.work[|s.work| - 1].node])
  }

  // ------------------------------------------------------- entering a node

  ghost predicate ExploredVisitedBut(g: Graph, s: Search, c: string) {
    forall u, v :: u in s.index && Edge(g, u, v) && Explored(s.work, u, v) ==> v in s.index || v == c
  }

  /** The state from which `c` is entered: everything holds, save that the edge just
  explored leads to the unvisited `c`. */
  ghost predicate Entering(g: Graph, s: Search, c: string) {
    && Shape(g, s) && c in g && c !in s.index
    && ExploredVisitedBut(g, s, c) && RetiredClosed(g, s)
    && OpenReachesUp(g, s) && StackReachesDown(g, s)
    && LowBounds(g, s) && LowReached(g, s)
    && ResultSound(g, s) && ResultComplete(g, s)
    && (s.work == [] ==> s.stack == [])
    && (s.work != [] ==> Edge(g, s.work[|s.work| - 1].node, c))
  }

  lemma {:induction false} EnterShape(g: Graph, s: Search, c: string)
    requires Shape(g, s) && c in g && c !in s.index
    ensures Shape(g, Enter(g, s, c))
    ensures forall u :: u in s.stack ==> s.index[u] < s.counter && Enter(g, s, c).index[u] == s.index[u]
  {
    EnteredShape(g, s, c, SortedSet(g[c]));
  }

  lemma {:induction false} EnteredShape(g: Graph, s: Search, c: string, children: seq<string>)
    requires Shape(g, s) && c in g && c !in s.index
    ensures Shape(g, Search(s.index[c := s.counter], s.low[c := s.counter], s.stack + [c],
                            s.work + [Frame(c, children)], s.result, s.counter + 1))
  {
  }

  lemma {:induction false} EnterExplored(g: Graph, s: Search, c: string, u: string, v: string)
    requires Shape(g, s) && c in g && c !in s.index && Edge(g, u, v)
    requires Explored(Enter(g, s, c).work, u, v)
    ensures u != c && Explored(s.work, u, v)
  {
    var t := Enter(g, s, c);
    assert t.work[|s.work|] == Frame(c, SortedSet(g[c]));
    forall i | 0 <= i < |s.work| && s.work[i].node == u ensures v !in s.work[i].rest {
      assert t.work[i] == s.work[i];
    }
  }

  lemma {:induction false} EnterRetired(g: Graph, s: Search, c: string)
    requires Entering(g, s, c)
    ensures ExploredVisited(g, Enter(g, s, c)) && RetiredClosed(g, Enter(g, s, c))
    ensures ResultSound(g, Enter(g, s, c)) && ResultComplete(g, Enter(g, s, c))
  {
    var t := Enter(g, s, c);
    assert forall u :: Retired(t, u) <==> Retired(s, u);
    forall u, v | u in t.index && Edge(g, u, v) && Explored(t.work, u, v) ensures v in t.index {
      EnterExplored(g, s, c, u, v);
    }
  }

  lemma {:induction false} EnterReach(g: Graph, s: Search, c: string)
    requires Entering(g, s, c)
    ensures Shape(g, Enter(g, s, c))
    ensures OpenReachesUp(g, Enter(g, s, c))
  {
    var t := Enter(g, s, c);
    EnterShape(g, s, c);
    ReachSelf(g, c);
    forall i, y | 0 <= i < |t.work| && y in t.stack && t.index[t.work[i].node] <= t.index[y]
      ensures Reach(g, t.work[i].node, y)
    {
      if i < |s.work| {
        assert t.work[i] == s.work[i];
        var top := s.work[|s.work| - 1].node;
        if y == c {
          assert i < |s.work| - 1 ==> s.index[s.work[i].node] < s.index[top];
          assert Reach(g, s.work[i].node, top);
          ReachEdge(g, top, c);
          ReachTransitive(g, s.work[i].node, top, c);
        }
      } else {
        assert t.work[i].node == c;
        assert y == c;
      }
    }
  }

  lemma {:induction false} EnterDown(g: Graph, s: Search, c: string)
    requires Entering(g, s, c)
    ensures Shape(g, Enter(g, s, c))
    ensures StackReachesDown(g, Enter(g, s, c))
  {
    var t := Enter(g, s, c);
    EnterShape(g, s, c);
    ReachSelf(g, c);
    forall y | y in t.stack ensures Descends(g, t, y) {
      if y in s.stack {
        assert Descends(g, s, y);
        var i :| OpenBelow(g, s, y, i);
        assert t.work[i] == s.work[i];
        assert OpenBelow(g, t, y, i);
      } else {
        assert y == c && t.work[|s.work|].node == c;
        assert OpenBelow(g, t, c, |s.work|);
      }
    }
  }

  lemma {:induction false} EnterLowReached(g: Graph, s: Search, c: string)
    requires Entering(g, s, c)
    ensures Shape(g, Enter(g, s, c))
    ensures LowReached(g, Enter(g, s, c))
  {
    var t := Enter(g, s, c);
    EnterShape(g, s, c);
    ReachSelf(g, c);
    forall i | 0 <= i < |t.work|
      ensures LowIsReached(g, t, t.work[i].node)
    {
      if i < |s.work| {
        assert t.work[i] == s.work[i];
        assert LowIsReached(g, s, s.work[i].node);
        var w :| LowWitness(g, s, s.work[i].node, w);
        assert LowWitness(g, t, t.work[i].node, w);
      } else {
        assert t.work[i].node == c;
        assert LowWitness(g, t, c, c);
      }
    }
  }

  lemma {:induction false} EnterLowBounds(g: Graph, s: Search, c: string)
    requires Entering(g, s, c)
    ensures Shape(g, Enter(g, s, c))
    ensures LowBounds(g, Enter(g, s, c))
  {
    var t := Enter(g, s, c);
    EnterShape(g, s, c);
    forall i, u, v | InSegment(g, t, i, u) && Edge(g, u, v) && Explored(t.work, u, v) && v in t.stack
      ensures t.low[t.work[i].node] <= t.index[v]
    {
      EnterExplored(g, s, c, u, v);
      assert u in s.stack;
      assert i < |s.work|;
      assert t.work[i] == s.work[i];
      assert LowIsReached(g, s, s.work[i].node);
      if v != c {
        assert i + 1 < |s.work| ==> t.work[i + 1] == s.work[i + 1];
        assert InSegment(g, s, i, u);
      }
    }
  }

  lemma {:induction false} EnterKeepsInv(g: Graph, s: Search, c: string)
    requires Entering(g, s, c)
    ensures Inv(g, Enter(g, s, c))
  {
    EnterRetired(g, s, c);
    EnterReach(g, s, c);
    EnterDown(g, s, c);
    EnterLowReached(g, s, c);
    EnterLowBounds(g, s, c);
  }

  // ------------------------------------------------------ advancing an iterator

  ghost predicate HasChild(s: Search) {
    s.work != [] && s.work[|s.work| - 1].rest != []
  }

  function Top(s: Search): string
    requires s.work != []
  {
    s.work[|s.work| - 1].node
  }

  ghost function NextChild(s: Search): string
    requires HasChild(s)
  {
    s.work[|s.work| - 1].rest[0]
  }

  ghost predicate LowBoundsBut(g: Graph, s: Search, a: string, b: string)
    requires Shape(g, s)
  {
    forall i, u, v :: InSegment(g, s, i, u) && Edge(g, u, v) && Explored(s.work, u, v) && v in s.stack && !(u == a && v == b)
      ==> s.low[s.work[i].node] <= s.index[v]
  }

  lemma {:induction false} AdvanceExplored(s: Search, u: string, v: string)
    requires HasChild(s) && Explored(Advance(s).work, u, v)
    ensures Explored(s.work, u, v) || (u == Top(s) && v == NextChild(s))
  {
    var t := Advance(s);
    var k := |s.work| - 1;
    forall i | 0 <= i < |s.work| && s.work[i].node == u && !(u == Top(s) && v == NextChild(s))
      ensures v !in s.work[i].rest
    {
      if i < k {
        assert t.work[i] == s.work[i];
      } else {
        assert t.work[k] == Frame(s.work[k].node, s.work[k].rest[1..]);
        assert s.work[k].rest == [s.work[k].rest[0]] + s.work[k].rest[1..];
      }
    }
  }

  /** Two states with the same stack of open nodes, which may differ in iterators and `low`. */
  ghost predicate SameNodes(s: Search, t: Search) {
    && t.index == s.index && t.stack == s.stack && t.result == s.result && t.counter == s.counter
    && |t.work| == |s.work| && forall i :: 0 <= i < |s.work| ==> t.work[i].node == s.work[i].node
  }

  lemma {:induction false} SameNodesKeep(g: Graph, s: Search, t: Search)
    requires SameNodes(s, t) && t.low.Keys == s.low.Keys
    requires Shape(g, s) && RetiredClosed(g, s) && OpenReachesUp(g, s) && StackReachesDown(g, s)
    requires ResultSound(g, s) && ResultComplete(g, s)
    ensures Shape(g, t) && RetiredClosed(g, t) && OpenReachesUp(g, t) && StackReachesDown(g, t)
    ensures ResultSound(g, t) && ResultComplete(g, t)
  {
    assert forall u :: Retired(t, u) <==> Retired(s, u);
    assert forall u :: Listed(t.result, u) <==> Listed(s.result, u);
    forall y | y in t.stack ensures Descends(g, t, y) {
      assert Descends(g, s, y);
      SameNodesDescend(g, s, t, y);
    }
  }

  lemma {:induction false} SameNodesDescend(g: Graph, s: Search, t: Search, y: string)
    requires SameNodes(s, t) && Shape(g, s) && Shape(g, t) && y in s.stack && Descends(g, s, y)
    ensures Descends(g, t, y)
  {
    var i :| OpenBelow(g, s, y, i);
    assert OpenBelow(g, t, y, i);
  }

  lemma {:induction false} AdvanceShape(g: Graph, s: Search)
    requires Shape(g, s) && HasChild(s)
    ensures SameNodes(s, Advance(s)) && Shape(g, Advance(s)) && Advance(s).low == s.low
  {
  }

  lemma {:induction false} AdvanceLowBounds(g: Graph, s: Search)
    requires Shape(g, s) && LowBounds(g, s) && HasChild(s)
    ensures Shape(g, Advance(s)) && LowBoundsBut(g, Advance(s), Top(s), NextChild(s))
  {
    var t := Advance(s);
    AdvanceShape(g, s);
    forall i, u, v | InSegment(g, t, i, u) && Edge(g, u, v) && Explored(t.work, u, v) && v in t.stack && !(u == Top(s) && v == NextChild(s))
      ensures t.low[t.work[i].node] <= t.index[v]
    {
      AdvanceExplored(s, u, v);
      assert InSegment(g, s, i, u);
    }
  }

  lemma {:induction false} AdvanceLowReached(g: Graph, s: Search)
    requires Shape(g, s) && LowReached(g, s) && HasChild(s)
    ensures Shape(g, Advance(s)) && LowReached(g, Advance(s))
  {
    var t := Advance(s);
    AdvanceShape(g, s);
    forall i | 0 <= i < |t.work| ensures LowIsReached(g, t, t.work[i].node) {
      assert LowIsReached(g, s, s.work[i].node);
      var w :| LowWitness(g, s, s.work[i].node, w);
      assert LowWitness(g, t, t.work[i].node, w);
    }
  }

  lemma {:induction false} AdvanceKeeps(g: Graph, s: Search)
    requires Inv(g, s) && HasChild(s)
    ensures SameNodes(s, Advance(s)) && Shape(g, Advance(s))
    ensures ExploredVisitedBut(g, Advance(s), NextChild(s))
    ensures LowBoundsBut(g, Advance(s), Top(s), NextChild(s))
    ensures LowReached(g, Advance(s))
  {
    var t := Advance(s);
    AdvanceShape(g, s);
    AdvanceLowBounds(g, s);
    AdvanceLowReached(g, s);
    forall u, v | u in t.index && Edge(g, u, v) && Explored(t.work, u, v)
      ensures v in t.index || v == NextChild(s)
    {
      AdvanceExplored(s, u, v);
    }
  }

  /** The child is not a node of the graph, or its component is already complete. */
  lemma {:induction false} PassOver(g: Graph, s: Search)
    requires Inv(g, s) && HasChild(s) && NextChild(s) !in s.stack
    requires NextChild(s) in g ==> NextChild(s) in s.index
    ensures Inv(g, Advance(s))
  {
    AdvanceKeeps(g, s);
    SameNodesKeep(g, s, Advance(s));
  }

  /** The child is new: the search descends into it. */
  lemma {:induction false} Descend(g: Graph, s: Search)
    requires Inv(g, s) && HasChild(s) && NextChild(s) in g && NextChild(s) !in s.index
    requires Edge(g, Top(s), NextChild(s))
    ensures Inv(g, Enter(g, Advance(s), NextChild(s)))
  {
    AdvanceKeeps(g, s);
    SameNodesKeep(g, s, Advance(s));
    EnterKeepsInv(g, Advance(s), NextChild(s));
  }

  lemma {:induction false} LowerReached(g: Graph, s: Search, n: string, c: string)
    requires Shape(g, s) && LowReached(g, s) && s.work != [] && n == Top(s)
    requires c in s.stack && Reach(g, n, c)
    ensures Shape(g, Lower(s, n, s.index[c])) && LowReached(g, Lower(s, n, s.index[c]))
  {
    var t := Lower(s, n, s.index[c]);
    LowerShape(g, s, n, s.index[c]);
    forall i | 0 <= i < |t.work| ensures LowIsReached(g, t, t.work[i].node) {
      assert LowIsReached(g, s, s.work[i].node);
      if i == |t.work| - 1 && s.index[c] < s.low[n] {
        assert LowWitness(g, t, n, c);
      } else {
        assert i < |s.work| - 1 ==> s.index[s.work[i].node] < s.index[n];
        LowerKeepsLow(g, s, n, s.index[c], s.work[i].node);
      }
    }
  }

  lemma {:induction false} LowerKeepsLow(g: Graph, s: Search, n: string, k: nat, u: string)
    requires Shape(g, s) && n in s.stack && u in s.stack && LowIsReached(g, s, u)
    requires u == n ==> s.low[n] <= k
    ensures Shape(g, Lower(s, n, k)) && LowIsReached(g, Lower(s, n, k), u)
  {
    LowerShape(g, s, n, k);
    var w :| LowWitness(g, s, u, w);
    assert LowWitness(g, Lower(s, n, k), u, w);
  }

  lemma {:induction false} LowerShape(g: Graph, s: Search, n: string, k: nat)
    requires Shape(g, s) && n in s.low
    ensures Shape(g, Lower(s, n, k))
    ensures forall u :: u in s.low ==> Lower(s, n, k).low[u] <= s.low[u]
    ensures Lower(s, n, k).low[n] <= k
  {
  }

  lemma {:induction false} LowerBounds(g: Graph, s: Search, n: string, c: string)
    requires Shape(g, s) && s.work != [] && n == Top(s) && c in s.stack
    requires LowBoundsBut(g, s, n, c)
    ensures Shape(g, Lower(s, n, s.index[c])) && LowBounds(g, Lower(s, n, s.index[c]))
  {
    var t := Lower(s, n, s.index[c]);
    LowerShape(g, s, n, s.index[c]);
    forall i, u, v | InSegment(g, t, i, u) && Edge(g, u, v) && Explored(t.work, u, v) && v in t.stack
      ensures t.low[t.work[i].node] <= t.index[v]
    {
      assert InSegment(g, s, i, u);
      if u == n && v == c {
        TopSegment(g, s, i);
      }
    }
  }

  lemma {:induction false} TopSegment(g: Graph, s: Search, i: int)
    requires Shape(g, s) && s.work != [] && InSegment(g, s, i, Top(s))
    ensures i == |s.work| - 1
  {
  }

  /** The child is still on the stack: its index may lower the node's `low`. */
  lemma {:induction false} MeetStack(g: Graph, s: Search)
    requires Inv(g, s) && HasChild(s) && NextChild(s) in s.stack
    requires Edge(g, Top(s), NextChild(s))
    ensures Inv(g, Lower(Advance(s), Top(s), s.index[NextChild(s)]))
  {
    var t := Advance(s);
    var n, c := Top(s), NextChild(s);
    AdvanceKeeps(g, s);
    ReachEdge(g, n, c);
    LowerReached(g, t, n, c);
    LowerBounds(g, t, n, c);
    SameNodesKeep(g, s, Lower(t, n, s.index[c]));
    assert ExploredVisited(g, Lower(t, n, s.index[c]));
  }

  // ---------------------------------------------------------- leaving a node

  ghost predicate Exhausted(s: Search) {
    s.work != [] && s.work[|s.work| - 1].rest == []
  }

  lemma {:induction false} RetreatShape(g: Graph, s: Search)
    requires Shape(g, s) && Exhausted(s)
    ensures Shape(g, Retreat(s))
    ensures forall u :: u in s.index && !(|s.work| > 1 && u == s.work[|s.work| - 2].node) ==> Retreat(s).low[u] == s.low[u]
  {
  }

  lemma {:induction false} RetreatExplored(g: Graph, s: Search, u: string, v: string)
    requires Shape(g, s) && Exhausted(s) && Explored(Retreat(s).work, u, v)
    ensures Explored(s.work, u, v)
  {
    var t := Retreat(s);
    forall i | 0 <= i < |s.work| && s.work[i].node == u ensures v !in s.work[i].rest {
      if i < |s.work| - 1 { assert t.work[i] == s.work[i]; }
    }
  }

  lemma {:induction false} RetreatVisited(g: Graph, s: Search)
    requires Inv(g, s) && Exhausted(s)
    ensures ExploredVisited(g, Retreat(s)) && RetiredClosed(g, Retreat(s))
    ensures ResultSound(g, Retreat(s)) && ResultComplete(g, Retreat(s))
  {
    var t := Retreat(s);
    assert forall u :: Retired(t, u) <==> Retired(s, u);
    assert forall u :: Listed(t.result, u) <==> Listed(s.result, u);
    forall u, v | u in t.index && Edge(g, u, v) && Explored(t.work, u, v) ensures v in t.index {
      RetreatExplored(g, s, u, v);
    }
  }

  lemma {:induction false} RetreatReach(g: Graph, s: Search)
    requires Shape(g, s) && OpenReachesUp(g, s) && Exhausted(s)
    ensures Shape(g, Retreat(s)) && OpenReachesUp(g, Retreat(s))
  {
    RetreatShape(g, s);
    var t := Retreat(s);
    forall i, y | 0 <= i < |t.work| && y in t.stack && t.index[t.work[i].node] <= t.index[y]
      ensures Reach(g, t.work[i].node, y)
    {
      assert t.work[i] == s.work[i];
    }
  }

  /** Where `low` differs from the index, the node reaches an open node below it. */
  lemma {:induction false} LowDescends(g: Graph, s: Search) returns (i: int)
    requires Shape(g, s) && StackReachesDown(g, s) && LowReached(g, s) && s.work != []
    requires s.low[Top(s)] != s.index[Top(s)]
    ensures 0 <= i < |s.work| - 1 && Reach(g, Top(s), s.work[i].node)
  {
    var n := Top(s);
    assert LowIsReached(g, s, s.work[|s.work| - 1].node);
    var w :| LowWitness(g, s, n, w);
    assert Descends(g, s, w);
    i :| OpenBelow(g, s, w, i);
    ReachTransitive(g, n, w, s.work[i].node);
  }

  lemma {:induction false} RetreatDown(g: Graph, s: Search)
    requires Shape(g, s) && StackReachesDown(g, s) && LowReached(g, s) && Exhausted(s)
    requires s.low[Top(s)] != s.index[Top(s)]
    ensures Shape(g, Retreat(s)) && StackReachesDown(g, Retreat(s))
  {
    RetreatShape(g, s);
    var t := Retreat(s);
    var k := LowDescends(g, s);
    forall y | y in t.stack ensures Descends(g, t, y) {
      assert Descends(g, s, y);
      RetreatDescends(g, s, y, k);
    }
  }

  lemma {:induction false} RetreatDescends(g: Graph, s: Search, y: string, k: int)
    requires Shape(g, s) && Exhausted(s) && Shape(g, Retreat(s)) && Retreat(s).stack == s.stack
    requires y in s.stack && Descends(g, s, y) && 0 <= k < |s.work| - 1 && Reach(g, Top(s), s.work[k].node)
    ensures Descends(g, Retreat(s), y)
  {
    var t := Retreat(s);
    var i :| OpenBelow(g, s, y, i);
    if i < |s.work| - 1 {
      assert t.work[i] == s.work[i];
      assert OpenBelow(g, t, y, i);
    } else {
      assert t.work[k] == s.work[k] && s.index[s.work[k].node] < s.index[s.work[i].node];
      ReachTransitive(g, y, Top(s), s.work[k].node);
      assert OpenBelow(g, t, y, k);
    }
  }

  lemma {:induction false} RetreatLowReached(g: Graph, s: Search)
    requires Shape(g, s) && OpenReachesUp(g, s) && LowReached(g, s) && Exhausted(s)
    ensures Shape(g, Retreat(s)) && LowReached(g, Retreat(s))
  {
    RetreatShape(g, s);
    var t := Retreat(s);
    var n := Top(s);
    forall i | 0 <= i < |t.work| ensures LowIsReached(g, t, t.work[i].node) {
      assert t.work[i] == s.work[i];
      var u := s.work[i].node;
      assert LowIsReached(g, s, s.work[i].node);
      if i == |t.work| - 1 && s.low[n] < s.low[u] {
        assert LowIsReached(g, s, s.work[|s.work| - 1].node);
        var w :| LowWitness(g, s, n, w);
        assert Reach(g, u, n);
        ReachTransitive(g, u, n, w);
        assert LowWitness(g, t, u, w);
      } else {
        var w :| LowWitness(g, s, u, w);
        assert i < |t.work| - 1 ==> s.index[u] < s.index[s.work[|t.work| - 1].node];
        assert LowWitness(g, t, u, w);
      }
    }
  }

  lemma {:induction false} RetreatLowBounds(g: Graph, s: Search)
    requires Shape(g, s) && LowBounds(g, s) && Exhausted(s)
    ensures Shape(g, Retreat(s)) && LowBounds(g, Retreat(s))
  {
    RetreatShape(g, s);
    var t := Retreat(s);
    forall i, u, v | InSegment(g, t, i, u) && Edge(g, u, v) && Explored(t.work, u, v) && v in t.stack
      ensures t.low[t.work[i].node] <= t.index[v]
    {
      RetreatExplored(g, s, u, v);
      assert t.work[i] == s.work[i];
      assert i + 1 < |t.work| ==> t.work[i + 1] == s.work[i + 1];
      if InSegment(g, s, i, u) {
        assert s.low[s.work[i].node] <= s.index[v];
      } else {
        assert InSegment(g, s, i + 1, u);
        assert s.low[s.work[i + 1].node] <= s.index[v];
      }
    }
  }

  /** The node is not the root of its component: its part of the stack joins the parent's. */
  lemma {:induction false} RetreatKeepsInv(g: Graph, s: Search)
    requires Inv(g, s) && Exhausted(s) && s.low[Top(s)] != s.index[Top(s)]
    ensures Inv(g, Retreat(s))
  {
    RetreatVisited(g, s);
    RetreatReach(g, s);
    RetreatDown(g, s);
    RetreatLowReached(g, s);
    RetreatLowBounds(g, s);
  }

  // ------------------------------------------------------ closing a component

  /** The state after the component at stack position `k` and above has been popped. */
  function Close(s: Search, k: nat, c: seq<string>): Search
    requires k <= |s.stack|
  {
    s.(stack := s.stack[..k], result := if |c| > 1 then s.result + [c] else s.result)
  }

  /** The top node is exhausted and is the root of its component, which is `c`. */
  ghost predicate Closing(g: Graph, s: Search, k: nat, c: seq<string>) {
    && Inv(g, s) && Exhausted(s) && s.low[Top(s)] == s.index[Top(s)]
    && k < |s.stack| && s.stack[k] == Top(s)
    && StrictlySorted(c) && forall x :: x in c <==> x in s.stack[k..]
  }

  lemma {:induction false} AboveRoot(g: Graph, s: Search, k: nat)
    requires Shape(g, s) && k < |s.stack|
    ensures forall x :: x in s.stack[k..] <==> x in s.stack && s.index[s.stack[k]] <= s.index[x]
    ensures forall x :: x in s.stack[..k] <==> x in s.stack && s.index[x] < s.index[s.stack[k]]
  {
  }

  lemma {:induction false} LastFrameAboveRoot(g: Graph, s: Search, u: string, v: string)
    requires Shape(g, s) && Exhausted(s) && u in s.stack && s.index[Top(s)] <= s.index[u]
    ensures Explored(s.work, u, v)
    ensures InSegment(g, s, |s.work| - 1, u)
  {
    assert forall i :: 0 <= i < |s.work| - 1 ==> s.index[s.work[i].node] < s.index[s.work[|s.work| - 1].node];
  }

  /** Edges out of the popped nodes stay among them or go to retired nodes. */
  lemma {:induction false} ComponentEdges(g: Graph, s: Search, u: string, v: string)
    requires Shape(g, s) && ExploredVisited(g, s) && LowBounds(g, s) && Exhausted(s)
    requires s.low[Top(s)] == s.index[Top(s)]
    requires u in s.stack && s.index[Top(s)] <= s.index[u] && Edge(g, u, v)
    ensures v in s.index && (v in s.stack ==> s.index[Top(s)] <= s.index[v])
  {
    LastFrameAboveRoot(g, s, u, v);
  }

  lemma {:induction false} RootReachesMember(g: Graph, s: Search, x: string)
    requires Shape(g, s) && OpenReachesUp(g, s) && StackReachesDown(g, s) && s.work != []
    requires x in s.stack && s.index[Top(s)] <= s.index[x]
    ensures Mutual(g, Top(s), x)
  {
    var last := |s.work| - 1;
    assert Reach(g, s.work[last].node, x);
    assert Descends(g, s, x);
    var i :| OpenBelow(g, s, x, i);
    if i < last {
      assert s.index[s.work[i].node] < s.index[s.work[last].node];
      assert Reach(g, s.work[i].node, s.work[last].node);
      ReachTransitive(g, x, s.work[i].node, s.work[last].node);
    }
  }

  lemma {:induction false} MembersMutual(g: Graph, s: Search, k: nat, c: seq<string>, x: string, y: string)
    requires Closing(g, s, k, c) && x in c && y in c
    ensures Mutual(g, x, y)
  {
    AboveRoot(g, s, k);
    RootReachesMember(g, s, x);
    RootReachesMember(g, s, y);
    ReachTransitive(g, x, Top(s), y);
    ReachTransitive(g, y, Top(s), x);
  }

  ghost function RetiredSet(s: Search): set<string> {
    s.index.Keys - (set u | u in s.stack)
  }

  lemma {:induction false} ComponentClosed(g: Graph, s: Search, k: nat, c: seq<string>)
    requires Closing(g, s, k, c)
    ensures Closed(g, RetiredSet(s))
    ensures Closed(g, RetiredSet(s) + (set u | u in c))
  {
    AboveRoot(g, s, k);
    forall u, v | u in RetiredSet(s) && Edge(g, u, v) ensures v in RetiredSet(s) {
      assert Retired(s, u);
      assert Retired(s, v);
    }
    forall u, v | u in c && Edge(g, u, v) ensures v in RetiredSet(s) || v in c {
      ComponentEdges(g, s, u, v);
    }
  }

  lemma {:induction false} NothingElseMutual(g: Graph, s: Search, k: nat, c: seq<string>, x: string, y: string)
    requires Closing(g, s, k, c) && x in c && Mutual(g, x, y)
    ensures y in c
  {
    ComponentClosed(g, s, k, c);
    AboveRoot(g, s, k);
    ReachStaysInClosed(g, RetiredSet(s) + (set u | u in c), x, y);
    if y !in c {
      ReachStaysInClosed(g, RetiredSet(s), y, x);
      assert false;
    }
  }

  lemma {:induction false} PoppedIsComponent(g: Graph, s: Search, k: nat, c: seq<string>)
    requires Closing(g, s, k, c)
    ensures IsComponent(g, c)
  {
    forall x, y | x in c ensures y in c <==> Mutual(g, x, y) {
      if y in c { MembersMutual(g, s, k, c, x, y); }
      if Mutual(g, x, y) { NothingElseMutual(g, s, k, c, x, y); }
    }
  }

  lemma {:induction false} CloseLowKept(g: Graph, s: Search)
    requires Shape(g, s) && LowReached(g, s) && Exhausted(s) && s.low[Top(s)] == s.index[Top(s)]
    ensures Retreat(s).low == s.low
  {
    if |s.work| > 1 {
      var parent := s.work[|s.work| - 2].node;
      assert LowIsReached(g, s, parent);
      assert s.index[parent] < s.index[Top(s)];
    }
  }

  lemma {:induction false} CloseShape(g: Graph, s: Search, k: nat, c: seq<string>)
    requires Closing(g, s, k, c)
    ensures Shape(g, Close(Retreat(s), k, c)) && Close(Retreat(s), k, c).low == s.low
    ensures forall u :: Retired(Close(Retreat(s), k, c), u) <==> Retired(s, u) || u in c
    ensures forall u :: u in s.stack[..k] <==> u in s.stack && u !in c
    ensures forall u :: u in s.stack[..k] ==> s.index[u] < s.index[Top(s)]
  {
    CloseLowKept(g, s);
    AboveRoot(g, s, k);
    CloseStackShape(g, s, k);
  }

  lemma {:induction false} CloseStackShape(g: Graph, s: Search, k: nat)
    requires Shape(g, s) && Exhausted(s) && k < |s.stack| && s.stack[k] == Top(s)
    requires Retreat(s).low == s.low
    ensures Shape(g, Retreat(s).(stack := s.stack[..k]))
  {
    var last := |s.work| - 1;
    var t := Retreat(s).(stack := s.stack[..k]);
    assert t.work == s.work[..last] && t.index == s.index;
    forall i | 0 <= i < last ensures t.work[i].node in t.stack {
      assert s.index[s.work[i].node] < s.index[s.work[last].node];
      AboveRoot(g, s, k);
    }
  }

  lemma {:induction false} CloseRetired(g: Graph, s: Search, k: nat, c: seq<string>)
    requires Closing(g, s, k, c)
    ensures ExploredVisited(g, Close(Retreat(s), k, c)) && RetiredClosed(g, Close(Retreat(s), k, c))
  {
    CloseShape(g, s, k, c);
    AboveRoot(g, s, k);
    var t := Close(Retreat(s), k, c);
    forall u, v | u in t.index && Edge(g, u, v) && Explored(t.work, u, v) ensures v in t.index {
      RetreatExplored(g, s, u, v);
    }
    forall u, v | Retired(t, u) && Edge(g, u, v) ensures Retired(t, v) {
      if Retired(s, u) {
        assert Retired(s, v);
      } else {
        ComponentEdges(g, s, u, v);
      }
    }
  }

  lemma {:induction false} CloseReach(g: Graph, s: Search, k: nat, c: seq<string>)
    requires Closing(g, s, k, c)
    ensures Shape(g, Close(Retreat(s), k, c))
    ensures OpenReachesUp(g, Close(Retreat(s), k, c)) && StackReachesDown(g, Close(Retreat(s), k, c))
  {
    CloseShape(g, s, k, c);
    var t := Close(Retreat(s), k, c);
    forall i, y | 0 <= i < |t.work| && y in t.stack && t.index[t.work[i].node] <= t.index[y]
      ensures Reach(g, t.work[i].node, y)
    {
      assert t.work[i] == s.work[i];
    }
    forall y | y in t.stack ensures Descends(g, t, y) { CloseDescends(g, s, k, c, y); }
  }

  lemma {:induction false} CloseDescends(g: Graph, s: Search, k: nat, c: seq<string>, y: string)
    requires Closing(g, s, k, c) && y in Close(Retreat(s), k, c).stack
    requires Shape(g, Close(Retreat(s), k, c))
    ensures Descends(g, Close(Retreat(s), k, c), y)
  {
    var t := Close(Retreat(s), k, c);
    assert Descends(g, s, y);
    var i :| OpenBelow(g, s, y, i);
    assert i < |s.work| - 1;
    assert t.work[i] == s.work[i];
    assert OpenBelow(g, t, y, i);
  }

  lemma {:induction false} CloseLowBounds(g: Graph, s: Search, t: Search)
    requires Shape(g, s) && LowBounds(g, s) && Exhausted(s) && Shape(g, t)
    requires t.index == s.index && t.low == s.low && t.work == s.work[..|s.work| - 1]
    requires forall u :: u in t.stack ==> u in s.stack && s.index[u] < s.index[Top(s)]
    ensures LowBounds(g, t)
  {
    forall i, u, v | InSegment(g, t, i, u) && Edge(g, u, v) && Explored(t.work, u, v) && v in t.stack
      ensures t.low[t.work[i].node] <= t.index[v]
    {
      RetreatExplored(g, s, u, v);
      assert InSegment(g, s, i, u);
    }
  }

  lemma {:induction false} CloseLowReached(g: Graph, s: Search, k: nat, c: seq<string>)
    requires Closing(g, s, k, c)
    ensures Shape(g, Close(Retreat(s), k, c)) && LowReached(g, Close(Retreat(s), k, c))
  {
    CloseShape(g, s, k, c);
    var t := Close(Retreat(s), k, c);
    forall i | 0 <= i < |t.work| ensures LowIsReached(g, t, t.work[i].node) {
      assert t.work[i] == s.work[i];
      assert LowIsReached(g, s, s.work[i].node);
      var w :| LowWitness(g, s, s.work[i].node, w);
      assert s.index[s.work[i].node] < s.index[s.work[|s.work| - 1].node];
      assert LowWitness(g, t, s.work[i].node, w);
    }
  }

  lemma {:induction false} TwoMembers(c: seq<string>, u: string, w: string)
    requires u in c && w in c && u != w
    ensures |c| > 1
  {
  }

  lemma {:induction false} CloseResult(g: Graph, s: Search, k: nat, c: seq<string>)
    requires Closing(g, s, k, c)
    ensures ResultSound(g, Close(Retreat(s), k, c)) && ResultComplete(g, Close(Retreat(s), k, c))
  {
    CloseShape(g, s, k, c);
    PoppedIsComponent(g, s, k, c);
    var t := Close(Retreat(s), k, c);
    assert Retreat(s).result == s.result;
    assert Top(s) in c && !Retired(s, Top(s)) by { assert s.stack[k] in s.stack[k..]; }
    assert c !in s.result;
    assert forall u :: Listed(s.result, u) ==> Listed(t.result, u);
    forall u | Retired(t, u) && OnCycle(g, u) ensures Listed(t.result, u) {
      if Retired(s, u) {
        assert Listed(s.result, u);
      } else {
        var w :| w != u && Mutual(g, u, w);
        TwoMembers(c, u, w);
        assert c in t.result;
      }
    }
  }

  lemma {:induction false} CloseKeepsInv(g: Graph, s: Search, k: nat, c: seq<string>)
    requires Closing(g, s, k, c)
    ensures Inv(g, Close(Retreat(s), k, c))
  {
    CloseShape(g, s, k, c);
    CloseRetired(g, s, k, c);
    CloseReach(g, s, k, c);
    CloseLowBounds(g, s, Close(Retreat(s), k, c));
    CloseLowReached(g, s, k, c);
    CloseResult(g, s, k, c);
  }

  // ------------------------------------------------------------- the search

  /** `stack.pop()` until `node` comes off, collecting what is popped. */
  method PopComponent(stack: seq<string>, node: string) returns (k: nat, component: seq<string>)
    requires node in stack
    requires forall i, j :: 0 <= i < j < |stack| ==> stack[i] != stack[j]
    ensures k < |stack| && stack[k] == node
    ensures multiset(component) == multiset(stack[k..])
  {
    k := |stack|;
    component := [];
    var m := "";
    while true
      invariant k <= |stack|
      invariant node in stack[..k]
      invariant multiset(component) == multiset(stack[k..])
      decreases k
    {
      assert stack[k - 1..] == [stack[k - 1]] + stack[k..];
      k := k - 1;
      m := stack[k];
      component := component + [m];
      if m == node { break; }
    }
  }

  /** The component the stack ends in, sorted. */
  method TakeComponent(stack: seq<string>, node: string) returns (k: nat, component: seq<string>)
    requires node in stack
    requires forall i, j :: 0 <= i < j < |stack| ==> stack[i] != stack[j]
    ensures k < |stack| && stack[k] == node
    ensures StrictlySorted(component)
    ensures forall x :: x in component <==> x in stack[k..]
  {
    var popped;
    k, popped := PopComponent(stack, node);
    component := StableSort(popped, StrLe);
    SortedPermutation(stack[k..], popped);
  }

  lemma {:induction false} SortedPermutation(distinct: seq<string>, s: seq<string>)
    requires multiset(distinct) == multiset(s)
    requires forall i, j :: 0 <= i < j < |distinct| ==> distinct[i] != distinct[j]
    ensures StrictlySorted(StableSort(s, StrLe))
    ensures forall x :: x in StableSort(s, StrLe) <==> x in distinct
  {
    var r := StableSort(s, StrLe);
    StrLeIsOrder();
    SortSorts(s, StrLe);
    SameMembers(r, distinct);
    forall i, j | 0 <= i < j < |r| ensures r[i] != r[j] {
      if r[i] == r[j] {
        TwiceInMultiset(r, i, j);
        CountWithoutRepeats(distinct, r[i]);
        assert false;
      }
    }
  }

  lemma {:induction false} TwiceInMultiset(s: seq<string>, i: nat, j: nat)
    requires i < j < |s| && s[i] == s[j]
    ensures multiset(s)[s[i]] >= 2
  {
    assert s == s[..i] + [s[i]] + s[i + 1..j] + [s[j]] + s[j + 1..];
  }

  ghost predicate RestsAreChildren(g: Graph, s: Search) {
    forall i :: 0 <= i < |s.work| ==>
      s.work[i].node in g && forall v :: v in s.work[i].rest ==> v in g[s.work[i].node]
  }

  lemma {:induction false} AdvanceRests(g: Graph, s: Search)
    requires RestsAreChildren(g, s) && HasChild(s)
    ensures RestsAreChildren(g, Advance(s))
    ensures NextChild(s) in g ==> Edge(g, Top(s), NextChild(s))
  {
    var k := |s.work| - 1;
    assert s.work[k].rest[0] in s.work[k].rest;
    assert Advance(s).work[k].rest == s.work[k].rest[1..];
    assert forall i :: 0 <= i < k ==> Advance(s).work[i] == s.work[i];
  }

  /** One child of the top frame: skipped, entered, or met again on the stack. */
  method ReadChild(g: Graph, s0: Search) returns (s: Search, advanced: bool)
    requires Inv(g, s0) && RestsAreChildren(g, s0) && HasChild(s0)
    ensures Inv(g, s) && RestsAreChildren(g, s) && s.work != []
    ensures advanced ==> s0.index.Keys < s.index.Keys
    ensures !advanced ==>
      && s.index == s0.index && |s.work| == |s0.work|
      && |s.work[|s.work| - 1].rest| < |s0.work[|s0.work| - 1].rest|
  {
    var node := Top(s0);
    var child := s0.work[|s0.work| - 1].rest[0];
    AdvanceRests(g, s0);
    s, advanced := Advance(s0), false;
    if child !in g {
      PassOver(g, s0);
    } else if child !in s0.index {
      Descend(g, s0);
      s := Enter(g, s, child);
      assert child in s.index.Keys;
      advanced := true;
    } else if child in s0.stack {
      MeetStack(g, s0);
      s := Lower(s, node, s0.index[child]);
    } else {
      PassOver(g, s0);
    }
  }

  /** The `for child in it` loop: reads the top frame's children until one is new. */
  method Scan(g: Graph, s0: Search) returns (s: Search, advanced: bool)
    requires Inv(g, s0) && RestsAreChildren(g, s0) && s0.work != []
    ensures Inv(g, s) && RestsAreChildren(g, s) && s.work != []
    ensures if advanced then s0.index.Keys < s.index.Keys else Exhausted(s) && s.index == s0.index && |s.work| == |s0.work|
  {
    s, advanced := s0, false;
    while !advanced && s.work[|s.work| - 1].rest != []
      invariant Inv(g, s) && RestsAreChildren(g, s) && s.work != []
      invariant if advanced then s0.index.Keys < s.index.Keys else s.index == s0.index && |s.work| == |s0.work|
      decreases !advanced, |s.work[|s.work| - 1].rest|
    {
      s, advanced := ReadChild(g, s);
    }
  }

  lemma {:induction false} StackDistinct(g: Graph, s: Search)
    requires Shape(g, s)
    ensures forall i, j :: 0 <= i < j < |s.stack| ==> s.stack[i] != s.stack[j]
  {
  }

  lemma {:induction false} RetreatRests(g: Graph, s: Search)
    requires Shape(g, s) && RestsAreChildren(g, s) && Exhausted(s)
    ensures RestsAreChildren(g, Retreat(s)) && Retreat(s).stack == s.stack && Retreat(s).index == s.index
    ensures |Retreat(s).work| == |s.work| - 1
  {
  }

  /** What follows an exhausted iterator: the frame is popped, and its component if it is a root. */
  method Leave(g: Graph, s0: Search) returns (s: Search)
    requires Inv(g, s0) && RestsAreChildren(g, s0) && Exhausted(s0)
    ensures Inv(g, s) && RestsAreChildren(g, s)
    ensures s.index == s0.index && |s.work| == |s0.work| - 1
  {
    var node := Top(s0);
    s := Retreat(s0);
    RetreatRests(g, s0);
    if s0.low[node] == s0.index[node] {
      StackDistinct(g, s0);
      var k, component := TakeComponent(s.stack, node);
      CloseKeepsInv(g, s0, k, component);
      s := Close(s, k, component);
    } else {
      RetreatKeepsInv(g, s0);
    }
  }

  /** The `while work` loop, from an unvisited root until the call stack is empty. */
  method Explore(g: Graph, s0: Search, root: string) returns (s: Search)
    requires Inv(g, s0) && s0.work == [] && root in g && root !in s0.index
    ensures Inv(g, s) && s.work == []
    ensures s0.index.Keys + {root} <= s.index.Keys
  {
    EnterRoot(g, s0, root);
    s := Enter(g, s0, root);
    while s.work != []
      invariant Inv(g, s) && RestsAreChildren(g, s)
      invariant s0.index.Keys + {root} <= s.index.Keys
      decreases g.Keys - s.index.Keys, |s.work|
    {
      var advanced;
      s, advanced := Scan(g, s);
      if !advanced {
        s := Leave(g, s);
      }
    }
  }

  lemma {:induction false} StackNeedsWork(g: Graph, s: Search, y: string)
    requires Shape(g, s) && StackReachesDown(g, s) && y in s.stack
    ensures s.work != []
  {
    assert Descends(g, s, y);
  }

  lemma {:induction false} EmptyWorkEmptyStack(g: Graph, s: Search)
    requires Inv(g, s) && s.work == []
    ensures s.stack == []
  {
    if s.stack != [] {
      StackNeedsWork(g, s, s.stack[0]);
      assert false;
    }
  }

  lemma {:induction false} EnterRoot(g: Graph, s: Search, c: string)
    requires Inv(g, s) && s.work == [] && c in g && c !in s.index
    ensures Inv(g, Enter(g, s, c)) && RestsAreChildren(g, Enter(g, s, c))
  {
    EmptyWorkEmptyStack(g, s);
    EnterKeepsInv(g, s, c);
  }

  function Start(): Search {
    Search(map[], map[], [], [], [], 0)
  }

  lemma {:induction false} StartInv(g: Graph)
    ensures Inv(g, Start())
  {
  }

  /** The loop over the roots. */
  method ExploreAll(deps: Graph, roots: seq<string>) returns (s: Search)
    requires forall root :: root in roots ==> root in deps
    ensures Inv(deps, s) && s.work == []
    ensures forall root :: root in roots ==> root in s.index
  {
    s := Start();
    StartInv(deps);
    for r := 0 to |roots|
      invariant Inv(deps, s) && s.work == []
      invariant forall j :: 0 <= j < r ==> roots[j] in s.index.Keys
    {
      if roots[r] !in s.index {
        s := Explore(deps, s, roots[r]);
      }
    }
  }

  /** `_find_cycles`: terminates on every finite graph and lists exactly its cycles. */
  method FindCycles(deps: Graph) returns (cycles: seq<seq<string>>)
    ensures IsCycleList(deps, cycles)
  {
    var s := ExploreAll(deps, SortedSet(deps.Keys));
    cycles := StableSort(s.result, ListLe);
    FinishedList(deps, s);
  }

  lemma {:induction false} FinishedList(g: Graph, s: Search)
    requires Inv(g, s) && s.work == []
    requires forall u :: u in SortedSet(g.Keys) ==> u in s.index
    ensures IsCycleList(g, StableSort(s.result, ListLe))
  {
    EmptyWorkEmptyStack(g, s);
    assert forall u :: u in g ==> Retired(s, u);
    SortedList(g, s);
  }

  lemma {:induction false} SortedList(g: Graph, s: Search)
    requires ResultSound(g, s) && ResultComplete(g, s)
    requires forall u :: u in g ==> Retired(s, u)
    ensures IsCycleList(g, StableSort(s.result, ListLe))
  {
    var cycles := StableSort(s.result, ListLe);
    ListLeIsOrder();
    SortSorts(s.result, ListLe);
    SortMembers(s.result, ListLe);
    forall u | u in g && OnCycle(g, u) ensures Listed(cycles, u) {
      assert Listed(s.result, u);
    }
    SortKeepsDistinct(s.result, cycles);
  }

  lemma {:induction false} SortKeepsDistinct(a: seq<seq<string>>, b: seq<seq<string>>)
    requires Distinct(a) && multiset(a) == multiset(b)
    ensures Distinct(b)
  {
    forall i, j | 0 <= i < j < |b| ensures b[i] != b[j] {
      if b[i] == b[j] {
        assert b == b[..i] + [b[i]] + b[i + 1..j] + [b[j]] + b[j + 1..];
        CountWithoutRepeats(a, b[i]);
        assert false;
      }
    }
  }

  /** Only one list keeps the promise, so the search has no freedom in what it returns. */
  lemma {:induction false} CycleListIsUnique(g: Graph, a: seq<seq<string>>, b: seq<seq<string>>)
    requires IsCycleList(g, a) && IsCycleList(g, b)
    ensures a == b
  {
    CyclesAmong(g, a, b);
    CyclesAmong(g, b, a);
    SortedDistinctUnique(a, b);
  }

  lemma {:induction false} CyclesAmong(g: Graph, a: seq<seq<string>>, b: seq<seq<string>>)
    requires IsCycleList(g, a) && IsCycleList(g, b)
    ensures forall c :: c in a ==> c in b
  {
    forall c | c in a ensures c in b {
      var u, w := c[0], c[1];
      assert u in c && w in c && u != w && Mutual(g, u, w);
      ReachStartsInGraph(g, u, w);
      assert Listed(b, u);
      var d :| d in b && u in d;
      forall x ensures x in c <==> x in d {
        assert x in c <==> Mutual(g, u, x);
        assert x in d <==> Mutual(g, u, x);
      }
      StrictlySortedUnique(c, d);
    }
  }

  lemma {:induction false} ReachStartsInGraph(g: Graph, u: string, v: string)
    requires Reach(g, u, v)
    ensures u in g
  {
  }

  lemma {:induction false} SortedDistinctUnique(a: seq<seq<string>>, b: seq<seq<string>>)
    requires Sorted(a, ListLe) && Sorted(b, ListLe) && Distinct(a) && Distinct(b)
    requires forall c :: c in a <==> c in b
    ensures a == b
  {
    assert |b| > 0 ==> b[0] in b;
    if a != [] {
      assert a[0] in a && b[0] in b;
      ListLeTotal(a[0], b[0]);
      assert ListLe(a[0], b[0]) && ListLe(b[0], a[0]);
      ListLeAntisymmetric(a[0], b[0]);
      forall c ensures c in a[1..] <==> c in b[1..] {
        assert c in a[1..] <==> c in a && c != a[0];
        assert c in b[1..] <==> c in b && c != b[0];
      }
      SortedDistinctUnique(a[1..], b[1..]);
      assert a == [a[0]] + a[1..] && b == [b[0]] + b[1..];
    }
  }
}
