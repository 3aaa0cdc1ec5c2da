/** Inputs on which the fold and the history commands fall short of what is said of them. */
module Counterexamples {
  import opened Options
  import opened Orders
  import opened Text
  import opened Merge
  import opened Fold
  import opened FoldOrder
  import opened History

  // ------------------------------------------------------------------- one group

  /** All claims are about one subject and kind. */
  ghost predicate OneGroup(claims: seq<Claim>, key: seq<string>) {
    claims != [] && forall i :: 0 <= i < |claims| ==> GroupKey(claims[i]) == key
  }

  lemma {:induction false} DistinctOfOne<T(!new)>(s: seq<T>, x: T)
    requires s != [] && forall i :: 0 <= i < |s| ==> s[i] == x
    ensures Distinct(s) == [x]
  {
    if |s| > 1 {
      DistinctOfOne(s[..|s| - 1], x);
    } else {
      assert s == [x] && s[..0] == [];
    }
  }

  lemma {:induction false} GroupOfAll(claims: seq<Claim>, key: seq<string>)
    requires forall i :: 0 <= i < |claims| ==> GroupKey(claims[i]) == key
    ensures Group(claims, key) == claims
  {
    if claims != [] { GroupOfAll(claims[1..], key); }
  }

  lemma {:induction false} KeysOfOneGroup(claims: seq<Claim>, key: seq<string>)
    requires OneGroup(claims, key)
    ensures SortedKeys(claims) == [key] && Group(claims, key) == claims && ValidKeys(claims, [key])
  {
    DistinctOfOne(Keys(claims), key);
    GroupOfAll(claims, key);
    assert StableSort([key], ListLe) == [key];
    GroupsNonEmpty(claims);
  }

  /** One group whose signatures agree merges to one claim. */
  lemma {:induction false} UnanimousMerge(h: EvidenceHash, symbols: map<string, set<string>>, claims: seq<Claim>,
      key: seq<string>, sig: Signature)
    requires OneGroup(claims, key) && |key| == 2 && forall i :: 0 <= i < |claims| ==> claims[i].signature == sig
    ensures MergeSpec(h, symbols, claims).Merged?
    ensures MergeSpec(h, symbols, claims).claims == [Union(h, key, StableSort(claims, ClaimOrder(h)))]
  {
    KeysOfOneGroup(claims, key);
    var members := Members(h, claims, key);
    SortMembers(claims, ClaimOrder(h));
    forall i | 0 <= i < |members| ensures Signatures(members)[i] == sig {
      assert members[i] in members;
    }
    DistinctOfOne(Signatures(members), sig);
    assert GroupOutcome(h, symbols, key, members) == UnanimousOutcome(h, key, members);
    OneOutcome(Outcomes(h, symbols, claims, [key]));
  }

  lemma {:induction false} OneOutcome(outcomes: seq<Outcome>)
    requires |outcomes| == 1 && outcomes[0].Unanimous?
    ensures Finish(Accumulate(outcomes, 1)).Merged?
    ensures Finish(Accumulate(outcomes, 1)).claims == [outcomes[0].claim]
  {
    assert Accumulate(outcomes, 1) == Add(Accumulate(outcomes, 0), outcomes[0]);
    assert StableSort([outcomes[0].claim], MergedOrder()) == [outcomes[0].claim];
  }

  lemma {:induction false} NothingMerges(h: EvidenceHash, symbols: map<string, set<string>>)
    ensures MergeSpec(h, symbols, []) == Merged([], [], [], Zero())
  {
    assert Keys([]) == [] && Distinct<seq<string>>([]) == [] && SortedKeys([]) == [];
  }

  // ---------------------------------------------------------------- tied claims

  const KEY := ["subject", "kind"]

  /** A claim of the node `source`, without evidence. */
  function Row(statement: string, source: string, sig: Signature): Claim {
    Claim("subject", "kind", "id", statement, [], "high", sig, Some(source), "")
  }

  const PLAIN := Signature(None, None, None)

  lemma {:induction false} TiedPairStays(h: EvidenceHash, c: Claim, d: Claim)
    requires ClaimKey(h, c) == ClaimKey(h, d)
    ensures StableSort([c, d], ClaimOrder(h)) == [c, d]
  {
    ClaimOrderIsOrder(h);
    assert Tied(c, d, ClaimOrder(h));
    assert StableSort([d], ClaimOrder(h)) == [d] && [c, d][1..] == [d];
  }

  lemma {:induction false} FirstStatement(claims: seq<Claim>, text: Claim -> string, n: nat)
    requires 0 < n <= |claims| && text(claims[0]) != ""
    ensures TextsOf(claims, text, n) != [] && TextsOf(claims, text, n)[0] == text(claims[0])
  {
    if n > 1 {
      FirstStatement(claims, text, n - 1);
    } else {
      assert TextsOf(claims, text, 0) == [];
    }
  }

  /** Claims that stand in order and share subject, kind and signature. */
  ghost predicate InOneOrder(h: EvidenceHash, claims: seq<Claim>) {
    && OneGroup(claims, KEY) && StableSort(claims, ClaimOrder(h)) == claims
    && forall i :: 0 <= i < |claims| ==> claims[i].signature == PLAIN
  }

  lemma {:induction false} FirstStatementIsKept(h: EvidenceHash, claims: seq<Claim>)
    requires InOneOrder(h, claims) && Strip(claims[0].statement) != ""
    ensures Union(h, KEY, claims).statement == Strip(claims[0].statement)
  {
    FirstStatement(claims, Stripped(), |claims|);
  }

  lemma {:induction false} FirstIsMerged(h: EvidenceHash, symbols: map<string, set<string>>, claims: seq<Claim>,
      m: Merged)
    requires InOneOrder(h, claims) && Strip(claims[0].statement) != "" && m == MergeSpec(h, symbols, claims)
    ensures m.Merged? && |m.claims| == 1 && m.claims[0].statement == Strip(claims[0].statement)
  {
    UnanimousMerge(h, symbols, claims, KEY, PLAIN);
    FirstStatementIsKept(h, claims);
  }

  function OneClaim(node: string, runId: string, c: Claim): Patch {
    Patch(node, runId, COMPLETE, "", Some(1), [c], [], "")
  }

  lemma {:induction false} NothingSuperseded(ps: seq<Patch>, n: nat)
    requires n <= |ps| && forall p :: p in ps ==> p.status == COMPLETE
    ensures Superseded(Statuses(ps, n)) == {}
  {
    if n > 0 {
      assert ps[n - 1] in ps;
      NothingSuperseded(ps, n - 1);
      var before, after := Statuses(ps, n - 1), Statuses(ps, n);
      forall node | node in after ensures after[node] == COMPLETE {
        if node in before { assert before[node] == COMPLETE by { assert node !in Superseded(before); } }
      }
    }
  }

  lemma {:induction false} AllLive(claims: seq<Claim>)
    ensures LiveClaims({}, claims) == claims
  {
    FilterAll(claims, (c: Claim) => Alive({}, c));
  }

  lemma {:induction false} BestOfTwo(h: Patch -> string, p: Patch, q: Patch)
    requires p.status == COMPLETE && q.status == COMPLETE && p.node != q.node
    ensures Best(h, [p, q], 2) == [p, q]
  {
    assert Best(h, [p, q], 1) == BestStep(h, Best(h, [p, q], 0), p) == [p];
    assert BestStep(h, [p], q) == [p] + BestStep(h, [], q);
  }

  /** What the merge sees of two patches with one claim each. */
  lemma {:induction false} TwoToMerge(ctx: Context, p: Patch, q: Patch, c: Claim, d: Claim)
    requires p.status == COMPLETE && q.status == COMPLETE && p.node != q.node && p.claims == [c] && q.claims == [d]
    requires c.sourceNode.Some? && d.sourceNode.Some?
    ensures ClaimsToMerge(ctx, [p, q]) == [c, d]
  {
    NothingSuperseded([p, q], 2);
    BestOfTwo(ctx.patchHash, p, q);
    BlocksOfTwo(p, q, ClaimRows());
    assert ClaimRows()(p) == [c] && ClaimRows()(q) == [d];
    AllLive([c, d]);
  }

  /** Folds the log as it was recorded, and adds no verdicts. */
  ghost predicate FoldsPlainly(ctx: Context) {
    ctx.excluded == {} && (forall p {:trigger ctx.verify(p)} :: ctx.verify(p) == p)
    && forall claims {:trigger ctx.entail(claims)} :: ctx.entail(claims) == claims
  }

  /** Two patches with one claim each, tied but for the wording. */
  ghost predicate TiedPair(h: EvidenceHash, p: Patch, q: Patch, c: Claim, d: Claim) {
    && p == OneClaim(p.node, p.runId, c) && q == OneClaim(q.node, q.runId, d) && p.node != q.node
    && c == Row(c.statement, "shared", PLAIN) && d == Row(d.statement, "shared", PLAIN)
    && Strip(c.statement) != ""
  }

  lemma {:induction false} FirstReadWins(ctx: Context, p: Patch, q: Patch, c: Claim, d: Claim)
      returns (log: seq<Patch>, x: Folded)
    requires FoldsPlainly(ctx) && TiedPair(ctx.evidenceHash, p, q, c, d)
    ensures |log| == 2 && log[0] == p && log[1] == q && x == FoldSpec(ctx, log)
    ensures x.Folded? && |x.state.claims| == 1 && x.state.claims[0].statement == Strip(c.statement)
  {
    log := [p, q];
    x := FoldSpec(ctx, log);
    VerifiedUnchanged(ctx, log);
    TwoToMerge(ctx, p, q, c, d);
    var claims := ClaimsToMerge(ctx, log);
    PairInOneOrder(ctx.evidenceHash, claims);
    FirstIsMerged(ctx.evidenceHash, ctx.symbols, claims, MergeSpec(ctx.evidenceHash, ctx.symbols, claims));
  }

  lemma {:induction false} PairInOneOrder(h: EvidenceHash, claims: seq<Claim>)
    requires |claims| == 2 && claims[0] == Row(claims[0].statement, "shared", PLAIN)
    requires claims[1] == Row(claims[1].statement, "shared", PLAIN)
    ensures InOneOrder(h, claims)
  {
    assert claims == [claims[0], claims[1]];
    TiedPairStays(h, claims[0], claims[1]);
  }

  lemma {:induction false} SwappedIsPermuted(log: seq<Patch>, permuted: seq<Patch>)
    requires |log| == |permuted| == 2 && log[0] == permuted[1] && log[1] == permuted[0]
    ensures Permuted(log, permuted)
  {
    assert log == [log[0], log[1]] && permuted == [log[1], log[0]];
  }

  /** Such as "reads the config": no whitespace at either end. */
  predicate IsTrimmed(s: string) {
    s != "" && !IsSpace(s[0]) && !IsSpace(s[|s| - 1])
  }

  /** Two patches whose claims name one source node, id and evidence but differ in wording: the state says whatever
  the patch that is read first says. */
  lemma {:induction false} TiedClaimsShowOrder(ctx: Context, m: string, n: string, a: string, b: string)
      returns (log: seq<Patch>, permuted: seq<Patch>, x: Folded, y: Folded)
    requires FoldsPlainly(ctx) && m != n && IsTrimmed(a) && IsTrimmed(b) && a != b
    ensures |log| == 2 && log[0] == OneClaim(m, "run", Row(a, "shared", PLAIN))
      && log[1] == OneClaim(n, "run", Row(b, "shared", PLAIN))
    ensures Permuted(log, permuted) && x == FoldSpec(ctx, log) && y == FoldSpec(ctx, permuted)
    ensures x.Folded? && y.Folded? && x.state.claims != y.state.claims
  {
    NothingToStrip(a);
    NothingToStrip(b);
    var c, d := Row(a, "shared", PLAIN), Row(b, "shared", PLAIN);
    var p, q := OneClaim(m, "run", c), OneClaim(n, "run", d);
    log, x := FirstReadWins(ctx, p, q, c, d);
    permuted, y := FirstReadWins(ctx, q, p, d, c);
    SwappedIsPermuted(log, permuted);
  }

  // ------------------------------------------------------------- a merge that raises

  const WITH_CHANNEL := Signature(Some("http"), None, None)

  lemma {:induction false} NoEvidenceNoAnchors(members: seq<Claim>)
    requires forall c :: c in members ==> c.evidence == []
    ensures AnchorKeys(members) == {}
  {
  }

  lemma {:induction false} EveryoneLeads(members: seq<Claim>)
    requires forall c :: c in members ==> c.evidence == []
    ensures forall s {:trigger Leads(members, s)} :: Leads(members, s)
  {
    forall s ensures AnchorKeys(Signed(members, s)) == {} {
      FilterMembers(members, (c: Claim) => c.signature == s);
      NoEvidenceNoAnchors(Signed(members, s));
    }
  }

  /** Two claims with equal evidence, one with a channel and one without: the merge raises instead of escalating. */
  lemma {:induction false} MissingChannelRaises(h: EvidenceHash)
    ensures MergeSpec(h, map[], [Row("x", "a", PLAIN), Row("x", "a", WITH_CHANNEL)]).TypeError?
  {
    var c, d := Row("x", "a", PLAIN), Row("x", "a", WITH_CHANNEL);
    KeysOfOneGroup([c, d], KEY);
    TiedPairStays(h, c, d);
    assert Members(h, [c, d], KEY) == [c, d];
    PairIsTied(c, d);
    assert KEY in SortedKeys([c, d]);
    MergeRaisesExactly(h, map[], [c, d]);
  }

  lemma {:induction false} PairIsTied(c: Claim, d: Claim)
    requires c.evidence == [] && d.evidence == [] && c.signature != d.signature && !Comparable(c.signature, d.signature)
    ensures TiedUnorderably(map[], KEY[0], [c, d])
  {
    EveryoneLeads([c, d]);
    NoOwnersOwnNothing([c, d]);
    assert c in [c, d] && d in [c, d] && Rivals([c, d], c, d);
  }

  // ---------------------------------------------------------- the history commands

  /** The log of two runs, cut after the first. */
  lemma {:induction false} CutAfterFirst(p: Patch, q: Patch)
    requires p.runId != q.runId
    ensures IsCut([p, q], 0, Cut([p], {q.runId}, true)) && NoStraddler([p, q], 0)
  {
    assert [p, q][..1] == [p] && [p, q][1..] == [q];
    assert RunIds([q]) == {q.runId} && RunIds([p]) == {p.runId};
  }

  function Demoting(): Patch -> Patch {
    (p: Patch) => p.(claims := [])
  }

  lemma {:induction false} OneToMerge(ctx: Context, p: Patch, claims: seq<Claim>)
    requires p.status == COMPLETE && Sourced(p.claims, p.node) == claims
    ensures ClaimsToMerge(ctx, [p]) == claims && Statuses([p], 1) == map[p.node := COMPLETE]
  {
    NothingSuperseded([p], 1);
    assert Statuses([p], 0) == map[];
    assert Best(ctx.patchHash, [p], 0) == [];
    assert [p][1..] == [];
    assert Blocks([p], ClaimRows()) == claims;
    AllLive(claims);
  }

  lemma {:induction false} VerifiedPair(ctx: Context, p: Patch, q: Patch)
    requires q.runId in ctx.excluded
    ensures Verified(ctx, [p, q]) == if p.runId in ctx.excluded then [] else [ctx.verify(p)]
  {
    assert [p, q][1..] == [q] && [q][1..] == [];
    assert Blocks([q], VerifiedRow(ctx)) == [];
  }

  /** A claim that the tree no longer supports is in the state as of a run, and not in the state after a rollback to
  that run, though both read the same patches. */
  lemma {:induction false} StaleAnchorShows(ctx: Context)
    requires FoldsPlainly(ctx)
    ensures var p, q := OneClaim("a", "first", Row("x", "a", PLAIN)), OneClaim("b", "later", Row("y", "b", PLAIN));
      var now, cut := ctx.(verify := Demoting()), Cut([p], {"later"}, true);
      && IsCut([p, q], 0, cut) && NoStraddler([p, q], 0)
      && AsOf(now, cut).Folded? && |AsOf(now, cut).state.claims| == 1
      && RolledBack(now, [p, q], {}, cut).Folded? && RolledBack(now, [p, q], {}, cut).state.claims == []
  {
    var c := Row("x", "a", PLAIN);
    var p, q := OneClaim("a", "first", c), OneClaim("b", "later", Row("y", "b", PLAIN));
    var now, cut := ctx.(verify := Demoting()), Cut([p], {"later"}, true);
    CutAfterFirst(p, q);
    var recorded, rolled := now.(verify := AsRecorded(), excluded := {}), now.(excluded := AllExcluded({}, cut));
    VerifiedUnchanged(recorded, [p]);
    OneClaimFolds(recorded, p, c);
    VerifiedPair(rolled, p, q);
    NoClaimFolds(rolled, p.(claims := []));
  }

  lemma {:induction false} OneClaimFolds(ctx: Context, p: Patch, c: Claim)
    requires p.status == COMPLETE && Sourced(p.claims, p.node) == [c] && OneGroup([c], KEY) && c.signature == PLAIN
    requires forall claims {:trigger ctx.entail(claims)} :: ctx.entail(claims) == claims
    ensures FoldVerified(ctx, [p]).Folded? && |FoldVerified(ctx, [p]).state.claims| == 1
    ensures FoldVerified(ctx, [p]).state.nodes == map[p.node := COMPLETE]
  {
    OneToMerge(ctx, p, [c]);
    UnanimousMerge(ctx.evidenceHash, ctx.symbols, [c], KEY, PLAIN);
  }

  lemma {:induction false} NoClaimFolds(ctx: Context, p: Patch)
    requires p.status == COMPLETE && p.claims == []
    requires forall claims {:trigger ctx.entail(claims)} :: ctx.entail(claims) == claims
    ensures FoldVerified(ctx, [p]).Folded? && FoldVerified(ctx, [p]).state.claims == []
  {
    OneToMerge(ctx, p, []);
    NothingMerges(ctx.evidenceHash, ctx.symbols);
  }

  /** A run that was rolled back before is in the state as of that run, and missing after a rollback to it. */
  lemma {:induction false} EarlierRollbackShows(ctx: Context)
    requires FoldsPlainly(ctx)
    ensures var p, q := OneClaim("a", "first", Row("x", "a", PLAIN)), OneClaim("b", "later", Row("y", "b", PLAIN));
      var cut := Cut([p], {"later"}, true);
      && IsCut([p, q], 0, cut) && NoStraddler([p, q], 0)
      && AsOf(ctx, cut).Folded? && IsComplete(AsOf(ctx, cut).state.nodes, "a")
      && RolledBack(ctx, [p, q], {"first"}, cut).Folded? && RolledBack(ctx, [p, q], {"first"}, cut).state.nodes == map[]
  {
    var c := Row("x", "a", PLAIN);
    var p, q := OneClaim("a", "first", c), OneClaim("b", "later", Row("y", "b", PLAIN));
    var cut := Cut([p], {"later"}, true);
    CutAfterFirst(p, q);
    var recorded, rolled := ctx.(verify := AsRecorded(), excluded := {}), ctx.(excluded := AllExcluded({"first"}, cut));
    VerifiedUnchanged(recorded, [p]);
    OneClaimFolds(recorded, p, c);
    VerifiedPair(rolled, p, q);
    EmptyFolds(rolled);
  }

  lemma {:induction false} EmptyFolds(ctx: Context)
    ensures FoldVerified(ctx, []).Folded? && FoldVerified(ctx, []).state.nodes == map[]
  {
    assert ClaimsToMerge(ctx, []) == [];
    NothingMerges(ctx.evidenceHash, ctx.symbols);
  }
}
