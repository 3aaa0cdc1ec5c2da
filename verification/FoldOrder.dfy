/** The log order does not matter: every part of the fold under every permutation of the log.

The source checks at most five permutations of one log (cdp/state.py:328-366). Here the claim is
proved for all of them, with the exact or sufficient conditions it needs. */
module FoldOrder {
  import opened Options
  import opened Orders
  import opened Merge
  import opened Fold
  import opened QuestionOrder

  ghost predicate Permuted<T(!new)>(a: seq<T>, b: seq<T>) {
    multiset(a) == multiset(b)
  }

  // ---------------------------------------------------------------- node status

  /** The best status that any of the node's patches carries. */
  ghost predicate IsBestStatus(ps: seq<Patch>, node: string, s: string) {
    && (exists p :: p in ps && p.node == node && p.status == s)
    && forall p :: p in ps && p.node == node ==> Rank(p.status) <= Rank(s)
  }

  lemma {:induction false} StatusIsBest(ps: seq<Patch>, n: nat, node: string)
    requires n <= |ps|
    ensures node in Statuses(ps, n) <==> exists p :: p in ps[..n] && p.node == node
    ensures node in Statuses(ps, n) ==> IsBestStatus(ps[..n], node, Statuses(ps, n)[node])
  {
    if n > 0 {
      StatusIsBest(ps, n - 1, node);
      var p := ps[n - 1];
      assert ps[..n] == ps[..n - 1] + [p];
      if p.node == node {
        assert p in ps[..n];
      }
      if node in Statuses(ps, n - 1) {
        var q :| q in ps[..n - 1] && q.node == node && q.status == Statuses(ps, n - 1)[node];
        assert q in ps[..n];
      }
    }
  }

  lemma {:induction false} BestStatusUnique(ps: seq<Patch>, node: string, s: string, t: string)
    requires IsBestStatus(ps, node, s) && IsBestStatus(ps, node, t) && Rank(s) > 0
    ensures s == t
  {
  }

  /** A node all of whose statuses are outside the ranked set has only one of them. */
  ghost predicate StatusesDetermined(ps: seq<Patch>) {
    forall p, q :: p in ps && q in ps && p.node == q.node && (forall r :: r in ps && r.node == p.node ==> Rank(r.status) == 0)
      ==> p.status == q.status
  }

  lemma {:induction false} FirstUnrankedWins(ps: seq<Patch>, n: nat)
    requires 0 < n <= |ps| && forall r :: r in ps && r.node == ps[0].node ==> Rank(r.status) == 0
    ensures ps[0].node in Statuses(ps, n) && Statuses(ps, n)[ps[0].node] == ps[0].status
  {
    if n > 1 {
      FirstUnrankedWins(ps, n - 1);
      assert ps[n - 1] in ps;
    } else {
      assert ps[0] in ps;
    }
  }

  lemma {:induction false} MovedToFront<T(!new)>(ps: seq<T>, p: T) returns (qs: seq<T>)
    requires p in ps
    ensures qs != [] && qs[0] == p && Permuted(ps, qs)
  {
    var i :| 0 <= i < |ps| && ps[i] == p;
    qs := [p] + ps[..i] + ps[i + 1..];
    assert ps == ps[..i] + [ps[i]] + ps[i + 1..];
  }

  /** Exactly when every reading order of the log yields the same node statuses. */
  lemma {:induction false} StatusOrderExactly(ps: seq<Patch>)
    ensures StatusesDetermined(ps) <==> forall qs :: Permuted(ps, qs) ==> Statuses(qs, |qs|) == Statuses(ps, |ps|)
  {
    if StatusesDetermined(ps) {
      forall qs | Permuted(ps, qs) ensures Statuses(qs, |qs|) == Statuses(ps, |ps|) {
        DeterminedStatuses(ps, qs);
      }
    }
    if forall qs :: Permuted(ps, qs) ==> Statuses(qs, |qs|) == Statuses(ps, |ps|) {
      forall p, q | p in ps && q in ps && p.node == q.node && (forall r :: r in ps && r.node == p.node ==> Rank(r.status) == 0)
        ensures p.status == q.status
      {
        var a := MovedToFront(ps, p);
        var b := MovedToFront(ps, q);
        SameMembers(ps, a);
        SameMembers(ps, b);
        FirstUnrankedWins(a, |a|);
        FirstUnrankedWins(b, |b|);
      }
    }
  }

  lemma {:induction false} DeterminedStatuses(a: seq<Patch>, b: seq<Patch>)
    requires Permuted(a, b) && StatusesDetermined(a)
    ensures Statuses(a, |a|) == Statuses(b, |b|)
  {
    SameMembers(a, b);
    assert a[..|a|] == a && b[..|b|] == b;
    var x, y := Statuses(a, |a|), Statuses(b, |b|);
    forall node ensures node in x <==> node in y {
      StatusIsBest(a, |a|, node);
      StatusIsBest(b, |b|, node);
    }
    forall node | node in x ensures x[node] == y[node] {
      StatusIsBest(a, |a|, node);
      StatusIsBest(b, |b|, node);
      assert IsBestStatus(a, node, y[node]);
      var p :| p in a && p.node == node && p.status == x[node];
      var q :| q in a && q.node == node && q.status == y[node];
      if Rank(x[node]) > 0 {
        BestStatusUnique(a, node, x[node], y[node]);
      } else {
        assert forall r :: r in a && r.node == node ==> Rank(r.status) == 0;
      }
    }
  }

  // ----------------------------------------------------------- the best attempt

  /** No two patches of the log share a hash. */
  ghost predicate NoCollisions(h: Patch -> string, ps: seq<Patch>) {
    forall p, q :: p in ps && q in ps && h(p) == h(q) ==> p == q
  }

  /** A complete patch of its node that no other complete patch of the node beats. */
  ghost predicate IsBestPatch(h: Patch -> string, ps: seq<Patch>, p: Patch) {
    && p in ps && p.status == COMPLETE
    && forall q :: q in ps && q.status == COMPLETE && q.node == p.node ==> NotAhead(h, q, p)
  }

  /** `q` has a smaller generation, or the same one and no greater hash. */
  predicate NotAhead(h: Patch -> string, q: Patch, p: Patch) {
    Generation(q) <= Generation(p) && (Generation(q) == Generation(p) ==> StrLe(h(q), h(p)))
  }

  ghost predicate DistinctPatchNodes(best: seq<Patch>) {
    forall i, j :: 0 <= i < j < |best| ==> best[i].node != best[j].node
  }

  lemma {:induction false} BetterTransitive(h: Patch -> string, p: Patch, q: Patch, r: Patch)
    requires !Better(h, q, p) && !Better(h, r, q)
    ensures !Better(h, r, p)
  {
    if Generation(p) == Generation(q) == Generation(r) {
      StrLeTransitive(h(r), h(q), h(p));
    }
  }

  lemma {:induction false} BetterAsymmetric(h: Patch -> string, p: Patch, q: Patch)
    requires Better(h, p, q)
    ensures !Better(h, q, p)
  {
    StrLeTotal(h(p), h(q));
  }

  /** `r` is `best` with the complete patch `p` taken in. */
  ghost predicate TakesIn(h: Patch -> string, best: seq<Patch>, p: Patch, r: seq<Patch>) {
    && DistinctPatchNodes(r)
    && (forall q :: q in r ==> q in best || (q == p && forall s :: s in best && s.node == p.node ==> Better(h, p, s)))
    && (forall q :: q in r && q.node == p.node && q != p ==> !Better(h, p, q))
    && (forall n :: Represented(r, n) <==> Represented(best, n) || n == p.node)
  }

  lemma {:induction false} TakesInBehind(h: Patch -> string, x: Patch, best: seq<Patch>, p: Patch, r: seq<Patch>)
    requires TakesIn(h, best, p, r) && x.node != p.node && !Represented(best, x.node)
    ensures TakesIn(h, [x] + best, p, [x] + r)
  {
    assert forall q :: q in [x] + r <==> q == x || q in r;
    assert forall q :: q in [x] + best <==> q == x || q in best;
    assert !Represented(r, x.node);
    forall n ensures Represented([x] + r, n) <==> Represented([x] + best, n) || n == p.node {
      RepresentedBehind(x, r, n);
      RepresentedBehind(x, best, n);
    }
  }

  lemma {:induction false} RepresentedBehind(x: Patch, best: seq<Patch>, n: string)
    ensures Represented([x] + best, n) <==> x.node == n || Represented(best, n)
  {
    assert forall q :: q in [x] + best <==> q == x || q in best;
  }

  lemma {:induction false} BestStepSpec(h: Patch -> string, best: seq<Patch>, p: Patch)
    requires DistinctPatchNodes(best) && p.status == COMPLETE
    ensures TakesIn(h, best, p, BestStep(h, best, p))
  {
    if best != [] {
      assert best == [best[0]] + best[1..];
      if best[0].node != p.node {
        BestStepSpec(h, best[1..], p);
        TakesInBehind(h, best[0], best[1..], p, BestStep(h, best[1..], p));
      } else {
        forall n ensures Represented(BestStep(h, best, p), n) <==> Represented(best, n) || n == p.node {
          RepresentedBehind(best[0], best[1..], n);
          RepresentedBehind(p, best[1..], n);
        }
      }
    } else {
      forall n ensures Represented([p], n) <==> Represented([], n) || n == p.node {
        RepresentedBehind(p, [], n);
      }
    }
  }

  ghost predicate Represented(best: seq<Patch>, node: string) {
    exists q :: q in best && q.node == node
  }

  ghost predicate HoldsBest(h: Patch -> string, ps: seq<Patch>, best: seq<Patch>) {
    && DistinctPatchNodes(best)
    && (forall q {:trigger IsBestPatch(h, ps, q)} :: q in best ==> IsBestPatch(h, ps, q))
    && (forall p {:trigger Represented(best, p.node)} :: p in ps && p.status == COMPLETE ==> Represented(best, p.node))
  }

  lemma {:induction false} StepKeepsBest(h: Patch -> string, ps: seq<Patch>, best: seq<Patch>, p: Patch)
    requires HoldsBest(h, ps, best)
    ensures HoldsBest(h, ps + [p], BestStep(h, best, p))
  {
    var r, all := BestStep(h, best, p), ps + [p];
    if p.status == COMPLETE {
      BestStepSpec(h, best, p);
    }
    forall q | q in r ensures IsBestPatch(h, all, q) {
      if q in best {
        assert IsBestPatch(h, ps, q);
        OldPatchStaysBest(h, ps, p, q);
      } else {
        NewPatchIsBest(h, ps, best, p);
      }
    }
    forall t | t in all && t.status == COMPLETE ensures Represented(r, t.node) {
      if t in ps { assert Represented(best, t.node); }
    }
  }

  lemma {:induction false} OldPatchStaysBest(h: Patch -> string, ps: seq<Patch>, p: Patch, q: Patch)
    requires IsBestPatch(h, ps, q)
    requires p.status == COMPLETE && p.node == q.node && p != q ==> !Better(h, p, q)
    ensures IsBestPatch(h, ps + [p], q)
  {
    StrLeTotal(h(p), h(p));
  }

  lemma {:induction false} NewPatchIsBest(h: Patch -> string, ps: seq<Patch>, best: seq<Patch>, p: Patch)
    requires HoldsBest(h, ps, best) && p.status == COMPLETE
    requires forall s :: s in best && s.node == p.node ==> Better(h, p, s)
    ensures IsBestPatch(h, ps + [p], p)
  {
    forall t | t in ps + [p] && t.status == COMPLETE && t.node == p.node ensures !Better(h, t, p) {
      if t in ps {
        assert Represented(best, t.node);
        var s :| s in best && s.node == t.node;
        assert IsBestPatch(h, ps, s);
        BetterAsymmetric(h, p, s);
        BetterTransitive(h, p, s, t);
      } else {
        StrLeTotal(h(p), h(p));
      }
    }
  }

  lemma {:induction false} BestIsBest(h: Patch -> string, ps: seq<Patch>, n: nat)
    requires n <= |ps|
    ensures HoldsBest(h, ps[..n], Best(h, ps, n))
  {
    if n > 0 {
      BestIsBest(h, ps, n - 1);
      StepKeepsBest(h, ps[..n - 1], Best(h, ps, n - 1), ps[n - 1]);
      assert ps[..n] == ps[..n - 1] + [ps[n - 1]];
    }
  }

  lemma {:induction false} BestPatchUnique(h: Patch -> string, ps: seq<Patch>, p: Patch, q: Patch)
    requires NoCollisions(h, ps) && IsBestPatch(h, ps, p) && IsBestPatch(h, ps, q) && p.node == q.node
    ensures p == q
  {
    assert !Better(h, p, q) && !Better(h, q, p);
    StrLeAntisymmetric(h(p), h(q));
  }

  lemma {:induction false} BestOfLog(h: Patch -> string, ps: seq<Patch>)
    ensures HoldsBest(h, ps, Best(h, ps, |ps|))
  {
    BestIsBest(h, ps, |ps|);
    assert ps[..|ps|] == ps;
  }

  /** Without hash collisions the selected patches are the same in any order of the log. */
  lemma {:induction false} BestIgnoresOrder(h: Patch -> string, a: seq<Patch>, b: seq<Patch>)
    requires Permuted(a, b) && NoCollisions(h, a)
    ensures Permuted(Best(h, a, |a|), Best(h, b, |b|))
  {
    SameMembers(a, b);
    BestOfLog(h, a);
    BestOfLog(h, b);
    var x, y := Best(h, a, |a|), Best(h, b, |b|);
    BestIncluded(h, a, b, x, y);
    BestIncluded(h, b, a, y, x);
    SameElementsPermuted(x, y);
  }

  lemma {:induction false} BestIncluded(h: Patch -> string, a: seq<Patch>, b: seq<Patch>, x: seq<Patch>, y: seq<Patch>)
    requires (forall p :: p in a <==> p in b) && NoCollisions(h, a) && HoldsBest(h, a, x) && HoldsBest(h, b, y)
    ensures forall q :: q in x ==> q in y
    ensures forall i, j :: 0 <= i < j < |x| ==> x[i] != x[j]
  {
    forall q | q in x ensures q in y {
      assert IsBestPatch(h, a, q);
      assert Represented(y, q.node);
      var r :| r in y && r.node == q.node;
      assert IsBestPatch(h, b, r);
      assert IsBestPatch(h, a, r);
      BestPatchUnique(h, a, q, r);
    }
  }

  // --------------------------------------------------------------- merged claims

  /** The rows of one patch that fall in one class of ties of one group. */
  function ClassRows(h: EvidenceHash, superseded: set<string>, key: seq<string>, k: Claim): Patch -> seq<Claim> {
    (p: Patch) => Ties(Group(LiveClaims(superseded, Sourced(p.claims, p.node)), key), k, ClaimOrder(h))
  }

  lemma {:induction false} ClassOfBlocks(h: EvidenceHash, superseded: set<string>, key: seq<string>, k: Claim, ps: seq<Patch>)
    ensures Ties(Group(LiveClaims(superseded, Blocks(ps, ClaimRows())), key), k, ClaimOrder(h))
         == Blocks(ps, ClassRows(h, superseded, key, k))
  {
    if ps != [] {
      var here, rest := ClaimRows()(ps[0]), Blocks(ps[1..], ClaimRows());
      ClassOfBlocks(h, superseded, key, k, ps[1..]);
      FilterAppend(here, rest, (c: Claim) => Alive(superseded, c));
      FilterAppend(LiveClaims(superseded, here), LiveClaims(superseded, rest), (c: Claim) => InGroup(key, c));
      TiesAppend(Group(LiveClaims(superseded, here), key), Group(LiveClaims(superseded, rest), key), k, ClaimOrder(h));
    }
  }

  /** The rows that two selected patches of different nodes bring to one class of ties read the same in either
  order. Superseded attempts do not matter, nor does how one patch orders its own rows. */
  ghost predicate ClaimsCommute(ctx: Context, ps: seq<Patch>) {
    forall p, q {:trigger RowsCommute(ctx, ps, p, q)} ::
      IsBestPatch(ctx.patchHash, ps, p) && IsBestPatch(ctx.patchHash, ps, q) && p.node != q.node
      ==> RowsCommute(ctx, ps, p, q)
  }

  ghost predicate RowsCommute(ctx: Context, ps: seq<Patch>, p: Patch, q: Patch) {
    forall key, k {:trigger ClassOf(ctx, ps, key, k)} ::
      Commute(ClassOf(ctx, ps, key, k)(p), ClassOf(ctx, ps, key, k)(q))
  }

  /** The rows of a patch in one class of ties, without those of superseded nodes. */
  function ClassOf(ctx: Context, ps: seq<Patch>, key: seq<string>, k: Claim): Patch -> seq<Claim> {
    ClassRows(ctx.evidenceHash, Superseded(Statuses(ps, |ps|)), key, k)
  }

  lemma {:induction false} ClassRowsMembers(h: EvidenceHash, superseded: set<string>, key: seq<string>, k: Claim, p: Patch)
    ensures forall c :: c in ClassRows(h, superseded, key, k)(p) ==>
              c in Sourced(p.claims, p.node) && GroupKey(c) == key && ClaimKey(h, c) == ClaimKey(h, k)
  {
    var rows := Sourced(p.claims, p.node);
    FilterMembers(rows, (c: Claim) => Alive(superseded, c));
    FilterMembers(LiveClaims(superseded, rows), (c: Claim) => InGroup(key, c));
    ClaimOrderIsOrder(h);
  }

  /** In particular the rows commute when tied claims of selected patches are equal ... */
  lemma {:induction false} EqualTiesCommute(ctx: Context, ps: seq<Patch>)
    requires forall p, q, a, b ::
      IsBestPatch(ctx.patchHash, ps, p) && IsBestPatch(ctx.patchHash, ps, q) && p.node != q.node
      && a in Sourced(p.claims, p.node) && b in Sourced(q.claims, q.node)
      && GroupKey(a) == GroupKey(b) && ClaimKey(ctx.evidenceHash, a) == ClaimKey(ctx.evidenceHash, b)
      ==> a == b
    ensures ClaimsCommute(ctx, ps)
  {
    forall p, q, key, k | IsBestPatch(ctx.patchHash, ps, p) && IsBestPatch(ctx.patchHash, ps, q) && p.node != q.node
      ensures Commute(ClassOf(ctx, ps, key, k)(p), ClassOf(ctx, ps, key, k)(q))
    {
      ClassRowsMembers(ctx.evidenceHash, Superseded(Statuses(ps, |ps|)), key, k, p);
      ClassRowsMembers(ctx.evidenceHash, Superseded(Statuses(ps, |ps|)), key, k, q);
      EqualElementsCommute(ClassOf(ctx, ps, key, k)(p), ClassOf(ctx, ps, key, k)(q));
    }
  }

  /** ... as when no claim names a source node of its own. */
  lemma {:induction false} OwnSourcesAgree(ctx: Context, ps: seq<Patch>)
    requires forall p, c :: IsBestPatch(ctx.patchHash, ps, p) && c in p.claims ==> c.sourceNode == None
    ensures ClaimsCommute(ctx, ps)
  {
    forall p, q, a, b | IsBestPatch(ctx.patchHash, ps, p) && IsBestPatch(ctx.patchHash, ps, q) && p.node != q.node
      && a in Sourced(p.claims, p.node) && b in Sourced(q.claims, q.node)
      ensures ClaimKey(ctx.evidenceHash, a) != ClaimKey(ctx.evidenceHash, b)
    {
      OwnSource(p, a);
      OwnSource(q, b);
      assert ClaimKey(ctx.evidenceHash, a)[0] == p.node && ClaimKey(ctx.evidenceHash, b)[0] == q.node;
    }
    EqualTiesCommute(ctx, ps);
  }

  lemma {:induction false} OwnSource(p: Patch, a: Claim)
    requires (forall c :: c in p.claims ==> c.sourceNode == None) && a in Sourced(p.claims, p.node)
    ensures a.sourceNode == Some(p.node)
  {
    var i :| 0 <= i < |p.claims| && Sourced(p.claims, p.node)[i] == a;
    assert p.claims[i] in p.claims;
  }

  /** One class of ties of the claims that reach the merge, patch by patch. */
  lemma {:induction false} ClassToMerge(ctx: Context, ps: seq<Patch>, key: seq<string>, k: Claim)
    ensures Ties(Group(ClaimsToMerge(ctx, ps), key), k, ClaimOrder(ctx.evidenceHash))
         == Blocks(Best(ctx.patchHash, ps, |ps|), ClassOf(ctx, ps, key, k))
  {
    ClassOfBlocks(ctx.evidenceHash, Superseded(Statuses(ps, |ps|)), key, k, Best(ctx.patchHash, ps, |ps|));
  }

  /** The merge sees, class by class, the same claims. */
  lemma {:induction false} ClaimsIgnoreOrder(ctx: Context, a: seq<Patch>, b: seq<Patch>)
    requires Permuted(a, b) && StatusesDetermined(a) && NoCollisions(ctx.patchHash, a) && ClaimsCommute(ctx, a)
    ensures Permuted(ClaimsToMerge(ctx, a), ClaimsToMerge(ctx, b))
    ensures SameGroups(ctx.evidenceHash, ClaimsToMerge(ctx, a), ClaimsToMerge(ctx, b))
  {
    DeterminedStatuses(a, b);
    var superseded := Superseded(Statuses(a, |a|));
    var x, y := Best(ctx.patchHash, a, |a|), Best(ctx.patchHash, b, |b|);
    BestIgnoresOrder(ctx.patchHash, a, b);
    PermutedBlocksMultiset(x, y, ClaimRows());
    FilterPermuted(Blocks(x, ClaimRows()), Blocks(y, ClaimRows()), (c: Claim) => Alive(superseded, c));
    forall key, k
      ensures Ties(Group(ClaimsToMerge(ctx, a), key), k, ClaimOrder(ctx.evidenceHash))
           == Ties(Group(ClaimsToMerge(ctx, b), key), k, ClaimOrder(ctx.evidenceHash))
    {
      ClassToMerge(ctx, a, key, k);
      ClassToMerge(ctx, b, key, k);
      SameClass(ctx, a, x, y, key, k);
    }
  }

  lemma {:induction false} SameClass(ctx: Context, ps: seq<Patch>, x: seq<Patch>, y: seq<Patch>, key: seq<string>, k: Claim)
    requires Permuted(x, y) && ClaimsCommute(ctx, ps) && NoCollisions(ctx.patchHash, ps)
    requires x == Best(ctx.patchHash, ps, |ps|)
    ensures Blocks(x, ClassOf(ctx, ps, key, k)) == Blocks(y, ClassOf(ctx, ps, key, k))
  {
    BestOfLog(ctx.patchHash, ps);
    var f := ClassOf(ctx, ps, key, k);
    forall p, q | p in x && q in x ensures Commute(f(p), f(q)) {
      assert IsBestPatch(ctx.patchHash, ps, p) && IsBestPatch(ctx.patchHash, ps, q);
      if p.node == q.node {
        BestPatchUnique(ctx.patchHash, ps, p, q);
      } else {
        assert RowsCommute(ctx, ps, p, q);
      }
    }
    PermutedBlocks(x, y, f);
  }

  lemma {:induction false} TwoToFront<T(!new)>(ps: seq<T>, p: T, q: T) returns (a: seq<T>, b: seq<T>)
    requires p in ps && q in ps && p != q
    ensures Permuted(ps, a) && |a| >= 2 && a[0] == p && a[1] == q
    ensures Permuted(ps, b) && |b| >= 2 && b[0] == q && b[1] == p
  {
    var first := MovedToFront(ps, p);
    SameMembers(ps, first);
    assert first == [p] + first[1..];
    var second := MovedToFront(first[1..], q);
    assert second == [q] + second[1..];
    a, b := [p, q] + second[1..], [q, p] + second[1..];
    FrontSwaps(ps, first[1..], second[1..], p, q);
  }

  lemma {:induction false} FrontSwaps<T(!new)>(ps: seq<T>, tail: seq<T>, rest: seq<T>, p: T, q: T)
    requires Permuted(ps, [p] + tail) && Permuted(tail, [q] + rest)
    ensures Permuted(ps, [p, q] + rest) && Permuted(ps, [q, p] + rest)
  {
    assert multiset([p, q] + rest) == multiset{p, q} + multiset(rest);
    assert multiset([q, p] + rest) == multiset{p, q} + multiset(rest);
  }

  /** A patch that nothing beats keeps its place in the selection. */
  lemma {:induction false} BestStepKeepsFront(h: Patch -> string, best: seq<Patch>, s: Patch)
    requires |best| >= 2
    requires s.status == COMPLETE && s.node == best[0].node ==> !Better(h, s, best[0])
    requires s.status == COMPLETE && s.node == best[1].node ==> !Better(h, s, best[1])
    ensures |BestStep(h, best, s)| >= 2 && BestStep(h, best, s)[..2] == best[..2]
  {
    if s.status == COMPLETE && s.node != best[0].node {
      assert BestStep(h, best, s) == [best[0]] + BestStep(h, best[1..], s);
    }
  }

  lemma {:induction false} BestKeepsFront(h: Patch -> string, ps: seq<Patch>, n: nat)
    requires 2 <= n <= |ps| && ps[0].node != ps[1].node
    requires IsBestPatch(h, ps, ps[0]) && IsBestPatch(h, ps, ps[1])
    ensures |Best(h, ps, n)| >= 2 && Best(h, ps, n)[..2] == ps[..2]
  {
    if n == 2 {
      assert Best(h, ps, 1) == BestStep(h, Best(h, ps, 0), ps[0]) == [ps[0]];
      assert Best(h, ps, 2) == BestStep(h, [ps[0]], ps[1]) == [ps[0]] + BestStep(h, [], ps[1]);
    } else {
      BestKeepsFront(h, ps, n - 1);
      var best, s := Best(h, ps, n - 1), ps[n - 1];
      assert best[0] == best[..2][0] == ps[0] && best[1] == best[..2][1] == ps[1];
      assert s in ps;
      BestStepKeepsFront(h, best, s);
    }
  }

  lemma {:induction false} FrontBlocks<S, T>(items: seq<S>, p: S, q: S, f: S -> seq<T>)
    requires |items| >= 2 && items[..2] == [p, q]
    ensures f(p) + f(q) <= Blocks(items, f)
  {
    assert items == [p, q] + items[2..];
    BlocksAppend([p, q], items[2..], f);
    BlocksOfTwo(p, q, f);
  }

  lemma {:induction false} PrefixesCommute<T>(a: seq<T>, b: seq<T>, all: seq<T>)
    requires a + b <= all && b + a <= all
    ensures Commute(a, b)
  {
    assert a + b == all[..|a| + |b|] == b + a;
  }

  lemma {:induction false} StaysBestPatch(h: Patch -> string, a: seq<Patch>, b: seq<Patch>, p: Patch)
    requires Permuted(a, b) && IsBestPatch(h, a, p)
    ensures IsBestPatch(h, b, p)
  {
    SameMembers(a, b);
  }

  /** A class of ties of a log that starts with two selected patches starts with their rows. */
  lemma {:induction false} FrontOfClass(ctx: Context, ps: seq<Patch>, qs: seq<Patch>, p: Patch, q: Patch,
      key: seq<string>, k: Claim)
    requires Permuted(ps, qs) && StatusesDetermined(ps) && |qs| >= 2 && qs[0] == p && qs[1] == q && p.node != q.node
    requires IsBestPatch(ctx.patchHash, ps, p) && IsBestPatch(ctx.patchHash, ps, q)
    ensures ClassOf(ctx, ps, key, k)(p) + ClassOf(ctx, ps, key, k)(q)
      <= Ties(Group(ClaimsToMerge(ctx, qs), key), k, ClaimOrder(ctx.evidenceHash))
  {
    FrontOfBest(ctx.patchHash, ps, qs, p, q);
    SameClassOf(ctx, ps, qs, key, k);
    ClassToMerge(ctx, qs, key, k);
    FrontBlocks(Best(ctx.patchHash, qs, |qs|), p, q, ClassOf(ctx, ps, key, k));
  }

  lemma {:induction false} FrontOfBest(h: Patch -> string, ps: seq<Patch>, qs: seq<Patch>, p: Patch, q: Patch)
    requires Permuted(ps, qs) && |qs| >= 2 && qs[0] == p && qs[1] == q && p.node != q.node
    requires IsBestPatch(h, ps, p) && IsBestPatch(h, ps, q)
    ensures |Best(h, qs, |qs|)| >= 2 && Best(h, qs, |qs|)[..2] == [p, q]
  {
    StaysBestPatch(h, ps, qs, p);
    StaysBestPatch(h, ps, qs, q);
    BestKeepsFront(h, qs, |qs|);
  }

  lemma {:induction false} SameClassOf(ctx: Context, ps: seq<Patch>, qs: seq<Patch>, key: seq<string>, k: Claim)
    requires Permuted(ps, qs) && StatusesDetermined(ps)
    ensures ClassOf(ctx, ps, key, k) == ClassOf(ctx, qs, key, k)
  {
    DeterminedStatuses(ps, qs);
  }

  function ToMerge(ctx: Context): seq<Patch> -> seq<Claim> {
    (ps: seq<Patch>) => ClaimsToMerge(ctx, ps)
  }

  /** Every reading order of the log shows the same claims, class by class. */
  ghost predicate SameInEveryOrder(h: EvidenceHash, ps: seq<Patch>, shown: seq<Patch> -> seq<Claim>) {
    forall qs :: Permuted(ps, qs) ==> SameGroups(h, shown(ps), shown(qs))
  }

  ghost predicate ShowsFirst(h: EvidenceHash, claims: seq<Claim>, key: seq<string>, k: Claim, rows: seq<Claim>) {
    rows <= Ties(Group(claims, key), k, ClaimOrder(h))
  }

  /** Two patches that stand first in either order commute when both orders show the same. */
  lemma {:induction false} FrontsCommute(h: EvidenceHash, ps: seq<Patch>, shown: seq<Patch> -> seq<Claim>, a: seq<Patch>,
      b: seq<Patch>, key: seq<string>, k: Claim, x: seq<Claim>, y: seq<Claim>)
    requires SameInEveryOrder(h, ps, shown) && Permuted(ps, a) && Permuted(ps, b)
    requires ShowsFirst(h, shown(a), key, k, x + y) && ShowsFirst(h, shown(b), key, k, y + x)
    ensures Commute(x, y)
  {
    assert SameGroups(h, shown(ps), shown(a)) && SameGroups(h, shown(ps), shown(b));
    PrefixesCommute(x, y, Ties(Group(shown(ps), key), k, ClaimOrder(h)));
  }

  lemma {:induction false} SameClaimsCommute(ctx: Context, ps: seq<Patch>, p: Patch, q: Patch)
    requires StatusesDetermined(ps) && SameInEveryOrder(ctx.evidenceHash, ps, ToMerge(ctx)) && p.node != q.node
    requires IsBestPatch(ctx.patchHash, ps, p) && IsBestPatch(ctx.patchHash, ps, q)
    ensures RowsCommute(ctx, ps, p, q)
  {
    var a, b := TwoToFront(ps, p, q);
    forall key, k {:trigger ClassOf(ctx, ps, key, k)}
      ensures Commute(ClassOf(ctx, ps, key, k)(p), ClassOf(ctx, ps, key, k)(q))
    {
      FrontOfClass(ctx, ps, a, p, q, key, k);
      FrontOfClass(ctx, ps, b, q, p, key, k);
      FrontsCommute(ctx.evidenceHash, ps, ToMerge(ctx), a, b, key, k,
                    ClassOf(ctx, ps, key, k)(p), ClassOf(ctx, ps, key, k)(q));
    }
  }

  /** Exactly when every reading order of the log brings the merge the same claims, class by class. */
  lemma {:induction false} ClaimOrderExactly(ctx: Context, ps: seq<Patch>)
    requires StatusesDetermined(ps) && NoCollisions(ctx.patchHash, ps)
    ensures ClaimsCommute(ctx, ps) <==> SameInEveryOrder(ctx.evidenceHash, ps, ToMerge(ctx))
  {
    if ClaimsCommute(ctx, ps) {
      forall qs | Permuted(ps, qs)
        ensures SameGroups(ctx.evidenceHash, ClaimsToMerge(ctx, ps), ClaimsToMerge(ctx, qs))
      {
        ClaimsIgnoreOrder(ctx, ps, qs);
      }
    }
    if SameInEveryOrder(ctx.evidenceHash, ps, ToMerge(ctx)) {
      forall p, q {:trigger RowsCommute(ctx, ps, p, q)} |
        IsBestPatch(ctx.patchHash, ps, p) && IsBestPatch(ctx.patchHash, ps, q) && p.node != q.node
        ensures RowsCommute(ctx, ps, p, q)
      {
        SameClaimsCommute(ctx, ps, p, q);
      }
    }
  }

  // ------------------------------------------------------------------ unknowns

  ghost predicate Failing(p: Patch, node: string) {
    p.node == node && p.error != ""
  }

  lemma {:induction false} ErrorIsSomeones(ps: seq<Patch>, n: nat, node: string)
    requires n <= |ps|
    ensures node in Errors(ps, n) <==> exists p :: p in ps[..n] && Failing(p, node)
    ensures node in Errors(ps, n) ==> exists p :: p in ps[..n] && Failing(p, node) && p.error == Errors(ps, n)[node]
  {
    if n > 0 {
      ErrorIsSomeones(ps, n - 1, node);
      assert ps[..n] == ps[..n - 1] + [ps[n - 1]];
      assert ps[n - 1] in ps[..n];
      assert forall p :: p in ps[..n - 1] ==> p in ps[..n];
    }
  }

  /** The node's failed attempts all report one text. */
  ghost predicate OneError(ps: seq<Patch>, node: string) {
    forall p, q :: p in ps && q in ps && Failing(p, node) && Failing(q, node) ==> p.error == q.error
  }

  lemma {:induction false} OneErrorAgrees(a: seq<Patch>, b: seq<Patch>, node: string)
    requires Permuted(a, b) && OneError(a, node)
    ensures node in Errors(a, |a|) <==> node in Errors(b, |b|)
    ensures node in Errors(a, |a|) ==> Errors(a, |a|)[node] == Errors(b, |b|)[node]
  {
    SameMembers(a, b);
    assert a[..|a|] == a && b[..|b|] == b;
    ErrorIsSomeones(a, |a|, node);
    ErrorIsSomeones(b, |b|, node);
  }

  lemma {:induction false} MovedToBack<T(!new)>(ps: seq<T>, p: T) returns (qs: seq<T>)
    requires p in ps
    ensures qs != [] && qs[|qs| - 1] == p && Permuted(ps, qs)
  {
    var i :| 0 <= i < |ps| && ps[i] == p;
    qs := ps[..i] + ps[i + 1..] + [p];
    assert ps == ps[..i] + [ps[i]] + ps[i + 1..];
  }

  lemma {:induction false} ErrorsAgree(ps: seq<Patch>, qs: seq<Patch>)
    requires Permuted(ps, qs) && forall node :: OneError(ps, node)
    ensures Errors(qs, |qs|) == Errors(ps, |ps|)
  {
    var x, y := Errors(qs, |qs|), Errors(ps, |ps|);
    forall node ensures (node in x <==> node in y) && (node in y ==> x[node] == y[node]) {
      OneErrorAgrees(ps, qs, node);
    }
  }

  lemma {:induction false} ErrorsDiffer(ps: seq<Patch>, p: Patch, q: Patch)
    requires p in ps && q in ps && Failing(p, q.node) && Failing(q, q.node) && p.error != q.error
    ensures exists qs :: Permuted(ps, qs) && Errors(qs, |qs|) != Errors(ps, |ps|)
  {
    var a := MovedToBack(ps, p);
    var b := MovedToBack(ps, q);
    assert Errors(a, |a|)[q.node] == p.error && Errors(b, |b|)[q.node] == q.error;
  }

  /** Exactly when every reading order of the log yields the same error texts. */
  lemma {:induction false} ErrorOrderExactly(ps: seq<Patch>)
    ensures (forall node :: OneError(ps, node)) <==> forall qs :: Permuted(ps, qs) ==> Errors(qs, |qs|) == Errors(ps, |ps|)
  {
    if forall node :: OneError(ps, node) {
      forall qs | Permuted(ps, qs) ensures Errors(qs, |qs|) == Errors(ps, |ps|) { ErrorsAgree(ps, qs); }
    } else {
      var node :| !OneError(ps, node);
      var p, q :| p in ps && q in ps && Failing(p, node) && Failing(q, node) && p.error != q.error;
      ErrorsDiffer(ps, p, q);
    }
  }

  lemma {:induction false} SameGaps(status: map<string, string>, x: map<string, string>, y: map<string, string>, nodes: seq<string>)
    requires forall n :: n in nodes ==> n in status
    requires forall n :: n in nodes ==> (n in x <==> n in y) && (n in x ==> x[n] == y[n])
    ensures Gaps(status, x, nodes) == Gaps(status, y, nodes)
  {
    if nodes != [] {
      assert nodes[0] in nodes;
      SameGaps(status, x, y, nodes[1..]);
    }
  }

  /** Complete patches that ask one question ask it first in the same words. */
  ghost predicate FirstRowsAgree(ps: seq<Patch>) {
    forall p, q, k {:trigger AskRows(k)(p), AskRows(k)(q)} :: p in ps && q in ps
      ==> AskRows(k)(p) == [] || AskRows(k)(q) == [] || AskRows(k)(p)[0] == AskRows(k)(q)[0]
  }

  /** Some patch asks what the node's gap would ask. */
  ghost predicate AskedAlready(ps: seq<Patch>, node: string) {
    exists p :: p in ps && AskRows(GapQuestion(node))(p) != []
  }

  /** A superseded node whose gap no patch asks already has one error text. */
  ghost predicate GapsDetermined(ps: seq<Patch>) {
    forall n {:trigger OneError(ps, n)} ::
      n in Superseded(Statuses(ps, |ps|)) && !AskedAlready(ps, n) ==> OneError(ps, n)
  }

  ghost predicate UnknownsDetermined(ps: seq<Patch>) {
    FirstRowsAgree(ps) && GapsDetermined(ps)
  }

  /** Every reading order of the log leaves the same unknowns. */
  ghost predicate SameUnknownsInEveryOrder(ps: seq<Patch>) {
    forall qs :: Permuted(ps, qs) ==> Dedupe(AllUnknowns(qs)) == Dedupe(AllUnknowns(ps))
  }

  lemma {:induction false} AskedAgrees(ps: seq<Patch>, qs: seq<Patch>, k: Unknown)
    requires Permuted(ps, qs) && FirstRowsAgree(ps)
    ensures FirstOf(Blocks(ps, AskRows(k))) == FirstOf(Blocks(qs, AskRows(k)))
  {
    SameMembers(ps, qs);
    if Blocks(ps, AskRows(k)) != [] {
      var p := HeadOfBlocks(ps, AskRows(k));
      NonEmptyBlock(qs, AskRows(k), p);
      var q := HeadOfBlocks(qs, AskRows(k));
      assert AskRows(k)(p)[0] == AskRows(k)(q)[0];
    } else if Blocks(qs, AskRows(k)) != [] {
      var q := HeadOfBlocks(qs, AskRows(k));
      NonEmptyBlock(ps, AskRows(k), q);
    }
  }

  lemma {:induction false} NobodyAsks(ps: seq<Patch>, k: Unknown, node: string)
    requires Blocks(ps, AskRows(k)) == [] && UnknownKey(k) == UnknownKey(GapQuestion(node))
    ensures !AskedAlready(ps, node)
  {
    forall p | p in ps ensures AskRows(GapQuestion(node))(p) == [] {
      SameKeySameAsk(p, k, GapQuestion(node));
      if AskRows(k)(p) != [] { NonEmptyBlock(ps, AskRows(k), p); }
    }
  }

  lemma {:induction false} GapsAgree(ps: seq<Patch>, qs: seq<Patch>, k: Unknown)
    requires Permuted(ps, qs) && GapsDetermined(ps) && Blocks(ps, AskRows(k)) == []
    ensures var status := Statuses(ps, |ps|);
      FirstLike(StatedGaps(status, Errors(ps, |ps|)), k) == FirstLike(StatedGaps(status, Errors(qs, |qs|)), k)
  {
    var status := Statuses(ps, |ps|);
    var nodes := SortedSet(Superseded(status));
    var x, y := Errors(ps, |ps|), Errors(qs, |qs|);
    forall n | n in nodes && UnknownKey(k) == UnknownKey(GapQuestion(n)) ensures AgreeAt(x, y, n) {
      NobodyAsks(ps, k, n);
      assert OneError(ps, n);
      OneErrorAgrees(ps, qs, n);
    }
    GapTiesAgree(status, x, y, nodes, k);
  }

  lemma {:induction false} FirstsAgree(ps: seq<Patch>, qs: seq<Patch>, k: Unknown)
    requires Permuted(ps, qs) && StatusesDetermined(ps) && UnknownsDetermined(ps)
    ensures FirstLike(AllUnknowns(ps), k) == FirstLike(AllUnknowns(qs), k)
  {
    DeterminedStatuses(ps, qs);
    FirstLikeOfAll(ps, k);
    FirstLikeOfAll(qs, k);
    AskedAgrees(ps, qs, k);
    if Blocks(ps, AskRows(k)) == [] { GapsAgree(ps, qs, k); }
  }

  lemma {:induction false} UnknownsAgree(ps: seq<Patch>, qs: seq<Patch>)
    requires Permuted(ps, qs) && StatusesDetermined(ps) && UnknownsDetermined(ps)
    ensures Dedupe(AllUnknowns(qs)) == Dedupe(AllUnknowns(ps))
  {
    forall k ensures FirstLike(AllUnknowns(qs), k) == FirstLike(AllUnknowns(ps), k) { FirstsAgree(ps, qs, k); }
    DedupeExactly(AllUnknowns(qs), AllUnknowns(ps));
  }

  /** The patch that is read first has the first word. */
  lemma {:induction false} FirstAsksFirst(ps: seq<Patch>, k: Unknown)
    requires ps != [] && AskRows(k)(ps[0]) != []
    ensures FirstLike(AllUnknowns(ps), k) == [AskRows(k)(ps[0])[0]]
  {
    FirstLikeOfAll(ps, k);
    assert AskRows(k)(ps[0]) <= Blocks(ps, AskRows(k));
  }

  lemma {:induction false} FirstRowsMustAgree(ps: seq<Patch>, p: Patch, q: Patch, k: Unknown)
    requires SameUnknownsInEveryOrder(ps) && p in ps && q in ps && AskRows(k)(p) != [] && AskRows(k)(q) != []
    ensures AskRows(k)(p)[0] == AskRows(k)(q)[0]
  {
    var a := MovedToFront(ps, p);
    var b := MovedToFront(ps, q);
    FirstAsksFirst(a, k);
    FirstAsksFirst(b, k);
    DedupeExactly(AllUnknowns(a), AllUnknowns(b));
  }

  lemma {:induction false} SomebodyAsks(ps: seq<Patch>, node: string)
    requires Blocks(ps, AskRows(GapQuestion(node))) != []
    ensures AskedAlready(ps, node)
  {
    var p := HeadOfBlocks(ps, AskRows(GapQuestion(node)));
  }

  /** Nobody else asks, so the unknowns hold the node's gap. */
  lemma {:induction false} GapHasFirstWord(ps: seq<Patch>, node: string)
    requires node in Superseded(Statuses(ps, |ps|)) && !AskedAlready(ps, node)
    ensures FirstLike(AllUnknowns(ps), GapQuestion(node))
      == [GapFor(Statuses(ps, |ps|), Errors(ps, |ps|), node)]
  {
    FirstLikeOfAll(ps, GapQuestion(node));
    if Blocks(ps, AskRows(GapQuestion(node))) != [] { SomebodyAsks(ps, node); }
    GapIsFirst(Statuses(ps, |ps|), Errors(ps, |ps|), node);
  }

  lemma {:induction false} GapStaysUnasked(ps: seq<Patch>, qs: seq<Patch>, node: string)
    requires Permuted(ps, qs) && StatusesDetermined(ps)
    requires node in Superseded(Statuses(ps, |ps|)) && !AskedAlready(ps, node)
    ensures node in Superseded(Statuses(qs, |qs|)) && !AskedAlready(qs, node)
    ensures FirstLike(AllUnknowns(qs), GapQuestion(node)) == [GapFor(Statuses(ps, |ps|), Errors(qs, |qs|), node)]
  {
    SameMembers(ps, qs);
    DeterminedStatuses(ps, qs);
    GapHasFirstWord(qs, node);
  }

  lemma {:induction false} GapsMustAgree(ps: seq<Patch>, node: string, p: Patch, q: Patch)
    requires StatusesDetermined(ps) && SameUnknownsInEveryOrder(ps)
    requires node in Superseded(Statuses(ps, |ps|)) && !AskedAlready(ps, node)
    requires p in ps && q in ps && Failing(p, node) && Failing(q, node)
    ensures p.error == q.error
  {
    var a := MovedToBack(ps, p);
    var b := MovedToBack(ps, q);
    GapStaysUnasked(ps, a, node);
    GapStaysUnasked(ps, b, node);
    DedupeExactly(AllUnknowns(a), AllUnknowns(b));
    var status, x, y := Statuses(ps, |ps|), Errors(a, |a|), Errors(b, |b|);
    assert x[node] == p.error && y[node] == q.error;
    if p.error != q.error { GapsDiffer(status, x, y, node); }
  }

  /** Exactly when every reading order of the log leaves the same unknowns. */
  lemma {:induction false} UnknownOrderExactly(ps: seq<Patch>)
    requires StatusesDetermined(ps)
    ensures UnknownsDetermined(ps) <==> SameUnknownsInEveryOrder(ps)
  {
    if UnknownsDetermined(ps) {
      forall qs | Permuted(ps, qs) ensures Dedupe(AllUnknowns(qs)) == Dedupe(AllUnknowns(ps)) {
        UnknownsAgree(ps, qs);
      }
    }
    if SameUnknownsInEveryOrder(ps) {
      forall p, q, k {:trigger AskRows(k)(p), AskRows(k)(q)} | p in ps && q in ps
        ensures AskRows(k)(p) == [] || AskRows(k)(q) == [] || AskRows(k)(p)[0] == AskRows(k)(q)[0]
      {
        if AskRows(k)(p) != [] && AskRows(k)(q) != [] { FirstRowsMustAgree(ps, p, q, k); }
      }
      forall n, p, q | n in Superseded(Statuses(ps, |ps|)) && !AskedAlready(ps, n) && p in ps && q in ps
        && Failing(p, n) && Failing(q, n)
        ensures p.error == q.error
      {
        GapsMustAgree(ps, n, p, q);
      }
    }
  }

  // ------------------------------------------------------------------ the theorem

  /** Two folds that agree on everything but unknowns and error texts. */
  ghost predicate SameView(x: Folded, y: Folded) {
    && x.Raised? == y.Raised?
    && (x.Folded? ==>
          && x.state.claims == y.state.claims && x.state.conflicts == y.state.conflicts
          && x.state.nearMisses == y.state.nearMisses && x.state.stats == y.state.stats
          && x.state.nodes == y.state.nodes && x.state.coverage == y.state.coverage)
  }

  lemma {:induction false} VerifiedFoldIgnoresOrder(ctx: Context, a: seq<Patch>, b: seq<Patch>)
    requires Permuted(a, b) && StatusesDetermined(a) && NoCollisions(ctx.patchHash, a) && ClaimsCommute(ctx, a)
    ensures SameView(FoldVerified(ctx, a), FoldVerified(ctx, b))
    ensures FoldVerified(ctx, a).Folded? && Dedupe(AllUnknowns(a)) == Dedupe(AllUnknowns(b))
            ==> FoldVerified(ctx, a).state.unknowns == FoldVerified(ctx, b).state.unknowns
  {
    DeterminedStatuses(a, b);
    ClaimsIgnoreOrder(ctx, a, b);
    MergeIgnoresOrder(ctx.evidenceHash, ctx.symbols, ClaimsToMerge(ctx, a), ClaimsToMerge(ctx, b));
  }

  /** For every permutation of the log the fold gives identical claims, conflicts, near misses,
  counts, nodes and coverage, and raises alike, when statuses and claims do not depend on the order;
  unknowns agree too when they do not. */
  lemma {:induction false} FoldIgnoresOrder(ctx: Context, log: seq<Patch>, permuted: seq<Patch>)
    requires Permuted(log, permuted)
    requires var ps := Verified(ctx, log);
      StatusesDetermined(ps) && NoCollisions(ctx.patchHash, ps) && ClaimsCommute(ctx, ps)
    ensures SameView(FoldSpec(ctx, log), FoldSpec(ctx, permuted))
    ensures var ps := Verified(ctx, log);
      FoldSpec(ctx, log).Folded? && UnknownsDetermined(ps)
      ==> FoldSpec(ctx, log).state.unknowns == FoldSpec(ctx, permuted).state.unknowns
  {
    var ps, qs := Verified(ctx, log), Verified(ctx, permuted);
    PermutedBlocksMultiset(log, permuted, VerifiedRow(ctx));
    if UnknownsDetermined(ps) { UnknownsAgree(ps, qs); }
    VerifiedFoldIgnoresOrder(ctx, ps, qs);
  }

  // ------------------------------------------------------------------- the hash

  /** The hashes of what the fold reads besides the log. */
  datatype OtherInputs = OtherInputs(symbols: string, nodes: string, extraction: Option<string>)

  function OtherParts(other: OtherInputs): seq<string> {
    [other.symbols, other.nodes] + match other.extraction case None => [] case Some(e) => [e]
  }

  /** What `fold_hash` digests. */
  function HashParts(h: Patch -> string, ps: seq<Patch>, other: OtherInputs): seq<string> {
    StableSort(Mapped(h, ps, |ps|), StrLe) + OtherParts(other)
  }

  /** With equal other inputs, `fold_hash` digests the same for two logs exactly when one is a permutation of the
  other. */
  lemma {:induction false} HashPartsExactly(h: Patch -> string, a: seq<Patch>, b: seq<Patch>, other: OtherInputs)
    requires NoCollisions(h, a + b)
    ensures HashParts(h, a, other) == HashParts(h, b, other) <==> Permuted(a, b)
  {
    var x, y, rest := Mapped(h, a, |a|), Mapped(h, b, |b|), OtherParts(other);
    StrLeIsOrder();
    if Permuted(a, b) {
      MappedPermutes(h, a, b);
      PermutationSortsAlike(x, y, StrLe);
    }
    if HashParts(h, a, other) == HashParts(h, b, other) {
      SameFront(StableSort(x, StrLe), StableSort(y, StrLe), rest);
      assert multiset(x) == multiset(y);
      SameMappedPermutes(h, a, b);
    }
  }

  lemma {:induction false} SameFront(x: seq<string>, y: seq<string>, rest: seq<string>)
    requires x + rest == y + rest
    ensures x == y
  {
    assert |x| == |y|;
    assert x == (x + rest)[..|x|] && y == (y + rest)[..|y|];
  }
}
