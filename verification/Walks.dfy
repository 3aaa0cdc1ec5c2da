/** Breadth-first walks (cdp/query.py:1032-1060) and transitive closures (cdp/dataflow.py:364-373). */
module Walks {
  import opened Orders

  /** A graph as its successor function. */
  type Next = string -> set<string>

  ghost predicate IsPath(next: Next, p: seq<string>) {
    p != [] && forall i :: 0 <= i < |p| - 1 ==> p[i + 1] in next(p[i])
  }

  ghost predicate Leads(next: Next, p: seq<string>, a: string, b: string) {
    IsPath(next, p) && p[0] == a && p[|p| - 1] == b
  }

  ghost predicate Reaches(next: Next, a: string, b: string) {
    exists p :: Leads(next, p, a, b)
  }

  function Successors(next: Next, s: set<string>): set<string> {
    set u, v | u in s && v in next(u) :: v
  }

  /** Everything within `h` hops of `start`. */
  function Ball(next: Next, start: string, h: nat): set<string> {
    if h == 0 then {start} else Grown(next, Ball(next, start, h - 1))
  }

  /** One hop further. */
  function Grown(next: Next, s: set<string>): set<string> {
    s + Successors(next, s)
  }

  lemma {:induction false} ExtendPath(next: Next, p: seq<string>, a: string, b: string, c: string)
    requires Leads(next, p, a, b) && c in next(b)
    ensures Leads(next, p + [c], a, c)
  {
    var q := p + [c];
    forall i | 0 <= i < |q| - 1 ensures q[i + 1] in next(q[i]) {
      if i < |p| - 1 { assert p[i + 1] in next(p[i]); }
    }
  }

  /** A ball holds exactly the nodes that a path of at most that many hops leads to. */
  lemma {:induction false} BallHasPath(next: Next, start: string, h: nat, v: string) returns (p: seq<string>)
    requires v in Ball(next, start, h)
    ensures Leads(next, p, start, v) && |p| - 1 <= h
  {
    if h == 0 {
      p := [start];
    } else if v in Ball(next, start, h - 1) {
      p := BallHasPath(next, start, h - 1, v);
    } else {
      var u :| u in Ball(next, start, h - 1) && v in next(u);
      p := BallHasPath(next, start, h - 1, u);
      ExtendPath(next, p, start, u, v);
      p := p + [v];
    }
  }

  lemma {:induction false} PathEndsInBall(next: Next, start: string, h: nat, p: seq<string>, i: nat)
    requires IsPath(next, p) && p[0] == start && i < |p| && i <= h
    ensures p[i] in Ball(next, start, h)
    decreases h, i
  {
    if i == 0 {
      StartInBall(next, start, h);
    } else {
      PathEndsInBall(next, start, h - 1, p, i - 1);
      assert p[i - 1 + 1] in next(p[i - 1]);
    }
  }

  lemma {:induction false} WithinExactly(next: Next, start: string, h: nat, v: string)
    ensures v in Ball(next, start, h) <==> exists p :: Leads(next, p, start, v) && |p| - 1 <= h
  {
    if v in Ball(next, start, h) { var p := BallHasPath(next, start, h, v); }
    if p :| Leads(next, p, start, v) && |p| - 1 <= h { PathEndsInBall(next, start, h, p, |p| - 1); }
  }

  lemma {:induction false} BallsGrow(next: Next, start: string, h: nat, k: nat)
    requires h <= k
    ensures Ball(next, start, h) <= Ball(next, start, k)
  {
    if h < k { BallsGrow(next, start, h, k - 1); }
  }

  lemma {:induction false} StartInBall(next: Next, start: string, h: nat)
    ensures start in Ball(next, start, h)
  {
    BallsGrow(next, start, 0, h);
  }

  ghost predicate Closed(next: Next, s: set<string>) {
    forall u, v :: u in s && v in next(u) ==> v in s
  }

  /** A closed set that holds the start holds every ball around it ... */
  lemma {:induction false} BallInClosed(next: Next, start: string, s: set<string>, h: nat)
    requires Closed(next, s) && start in s
    ensures Ball(next, start, h) <= s
  {
    if h > 0 { BallInClosed(next, start, s, h - 1); }
  }

  /** ... and everything reachable from it. */
  lemma {:induction false} ClosedHolds(next: Next, start: string, s: set<string>, v: string)
    requires Closed(next, s) && start in s && Reaches(next, start, v)
    ensures v in s
  {
    var p :| Leads(next, p, start, v);
    ClosedHoldsPath(next, s, p, |p| - 1);
  }

  lemma {:induction false} ClosedHoldsPath(next: Next, s: set<string>, p: seq<string>, i: nat)
    requires Closed(next, s) && IsPath(next, p) && p[0] in s && i < |p|
    ensures p[i] in s
  {
    if i > 0 {
      ClosedHoldsPath(next, s, p, i - 1);
      assert p[i - 1 + 1] in next(p[i - 1]);
    }
  }

  /** `v` is exactly `d` hops from `start`. */
  predicate AtDistance(next: Next, start: string, v: string, d: nat) {
    v in Ball(next, start, d) && (d > 0 ==> v !in Ball(next, start, d - 1))
  }

  lemma {:induction false} DistanceIsUnique(next: Next, start: string, v: string, d: nat, e: nat)
    requires AtDistance(next, start, v, d) && AtDistance(next, start, v, e)
    ensures d == e
  {
    if d < e { BallsGrow(next, start, d, e - 1); }
    if e < d { BallsGrow(next, start, e, d - 1); }
  }

  // ------------------------------------------------------------------- closure

  function DepsOf(deps: map<string, set<string>>): Next {
    (u: string) => if u in deps then deps[u] else {}
  }

  ghost function Universe(deps: map<string, set<string>>, start: string): set<string> {
    {start} + set u, v | u in deps && v in deps[u] :: v
  }

  ghost predicate ClosureSoFar(next: Next, start: string, seen: set<string>, frontier: seq<string>) {
    && start in seen
    && (forall u :: u in frontier ==> u in seen)
    && (forall v {:trigger Reaches(next, start, v)} :: v in seen ==> Reaches(next, start, v))
    && (forall u {:trigger next(u)} :: u in seen && u !in frontier ==> next(u) <= seen)
  }

  lemma {:induction false} UniverseHolds(deps: map<string, set<string>>, start: string, u: string)
    ensures DepsOf(deps)(u) <= Universe(deps, start)
  {
  }

  /** Pop one node and take in its dependencies. */
  method CloseOver(deps: map<string, set<string>>, ghost next: Next, ghost start: string, ghost all: set<string>,
      seen: set<string>, frontier: seq<string>) returns (found: set<string>, more: seq<string>)
    requires next == DepsOf(deps) && all == Universe(deps, start) && frontier != [] && seen <= all
    requires ClosureSoFar(next, start, seen, frontier)
    ensures ClosureSoFar(next, start, found, more) && seen <= found <= all
    ensures found == seen ==> |more| < |frontier|
  {
    var node := frontier[|frontier| - 1];
    var rest := frontier[..|frontier| - 1];
    assert frontier == rest + [node];
    found, more := AddUnseen(if node in deps then deps[node] else {}, seen, rest);
    StepClosure(next, start, seen, rest, node, found, more);
    UniverseHolds(deps, start, node);
  }

  /** `_closure`: exactly what the module reaches. */
  method Closure(start: string, deps: map<string, set<string>>) returns (seen: set<string>)
    ensures forall v :: v in seen <==> Reaches(DepsOf(deps), start, v)
  {
    ghost var next := DepsOf(deps);
    ghost var all := Universe(deps, start);
    seen := {start};
    var frontier := [start];
    assert Leads(next, [start], start, start);
    while frontier != []
      invariant ClosureSoFar(next, start, seen, frontier) && seen <= all
      decreases |all - seen|, |frontier|
    {
      var found, more := CloseOver(deps, next, start, all, seen, frontier);
      if found != seen { Shrinks(all, seen, found); }
      seen, frontier := found, more;
    }
    assert Closed(next, seen) by {
      forall u, v | u in seen && v in next(u) ensures v in seen { assert next(u) <= seen; }
    }
    forall v ensures v in seen <==> Reaches(next, start, v) {
      if Reaches(next, start, v) { ClosedHolds(next, start, seen, v); }
    }
  }

  lemma {:induction false} Shrinks(all: set<string>, before: set<string>, after: set<string>)
    requires before < after <= all
    ensures |all - after| < |all - before|
  {
    var x :| x in after && x !in before;
    assert x in all - before && x !in all - after;
    SubsetCount(all - after, all - before);
  }

  lemma {:induction false} SubsetCount(a: set<string>, b: set<string>)
    requires a < b
    ensures |a| < |b|
  {
    assert b == a + (b - a) && a !! (b - a);
    assert b - a != {};
  }

  /** The inner loop: every dependency not seen before joins the set and the stack, in any order. */
  method AddUnseen(deps: set<string>, seen: set<string>, stack: seq<string>)
      returns (found: set<string>, more: seq<string>)
    ensures found == seen + deps && stack <= more
    ensures forall u :: u in more <==> u in stack || u in deps - seen
    ensures found == seen ==> more == stack
  {
    found, more := seen, stack;
    var left := deps;
    while left != {}
      invariant left <= deps && found == seen + (deps - left) && stack <= more
      invariant forall u :: u in more <==> u in stack || u in deps - left - seen
      invariant found == seen ==> more == stack
      decreases left
    {
      var dep :| dep in left;
      left := left - {dep};
      if dep !in found {
        found := found + {dep};
        more := more + [dep];
      }
    }
  }

  lemma {:induction false} StepClosure(next: Next, start: string, seen: set<string>, rest: seq<string>, node: string,
      found: set<string>, frontier: seq<string>)
    requires ClosureSoFar(next, start, seen, rest + [node]) && found == seen + next(node)
    requires forall u :: u in frontier <==> u in rest || u in next(node) - seen
    ensures ClosureSoFar(next, start, found, frontier)
  {
    assert node in rest + [node];
    forall v | v in found ensures Reaches(next, start, v) {
      if v !in seen {
        assert Reaches(next, start, node);
        var p :| Leads(next, p, start, node);
        ExtendPath(next, p, start, node, v);
      }
    }
    forall u | u in found && u !in frontier ensures next(u) <= found {
      if u != node { assert u !in rest + [node]; }
    }
  }
}
