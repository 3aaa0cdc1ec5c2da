/** Directed graphs of named nodes, walks through them and mutual reachability. */
module Reachability {

  /** Dependencies by module; an edge counts only when both ends are keys of the map. */
  type Graph = map<string, set<string>>

  predicate Edge(g: Graph, u: string, v: string) {
    u in g && v in g && v in g[u]
  }

  ghost predicate IsWalk(g: Graph, p: seq<string>) {
    && p != []
    && p[0] in g
    && forall i :: 0 <= i < |p| - 1 ==> Edge(g, p[i], p[i + 1])
  }

  ghost predicate Joins(g: Graph, p: seq<string>, u: string, v: string) {
    IsWalk(g, p) && p[0] == u && p[|p| - 1] == v
  }

  ghost predicate Reach(g: Graph, u: string, v: string) {
    exists p :: Joins(g, p, u, v)
  }

  ghost predicate Mutual(g: Graph, u: string, v: string) {
    Reach(g, u, v) && Reach(g, v, u)
  }

  lemma {:induction false} ReachSelf(g: Graph, u: string)
    requires u in g
    ensures Reach(g, u, u)
  {
    assert Joins(g, [u], u, u);
  }

  lemma {:induction false} ReachEdge(g: Graph, u: string, v: string)
    requires Edge(g, u, v)
    ensures Reach(g, u, v)
  {
    assert Joins(g, [u, v], u, v);
  }

  lemma {:induction false} ReachTransitive(g: Graph, u: string, v: string, w: string)
    requires Reach(g, u, v) && Reach(g, v, w)
    ensures Reach(g, u, w)
  {
    var p :| Joins(g, p, u, v);
    var q :| Joins(g, q, v, w);
    assert Joins(g, p + q[1..], u, w);
  }

  ghost predicate Closed(g: Graph, s: set<string>) {
    forall u, v :: u in s && Edge(g, u, v) ==> v in s
  }

  /** Nothing outside a closed set is reachable from inside it. */
  lemma {:induction false} ReachStaysInClosed(g: Graph, s: set<string>, u: string, v: string)
    requires Closed(g, s) && u in s && Reach(g, u, v)
    ensures v in s
  {
    var p :| Joins(g, p, u, v);
    WalkStaysInClosed(g, s, p, |p| - 1);
  }

  lemma {:induction false} WalkStaysInClosed(g: Graph, s: set<string>, p: seq<string>, i: nat)
    requires Closed(g, s) && IsWalk(g, p) && p[0] in s && i < |p|
    ensures p[i] in s
  {
    if i > 0 {
      WalkStaysInClosed(g, s, p, i - 1);
      assert Edge(g, p[i - 1], p[i - 1 + 1]);
    }
  }
}
