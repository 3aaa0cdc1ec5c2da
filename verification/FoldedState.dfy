/** What the folded state says of the log, status by status and question by question (cdp/state.py:116-224, 246-284). */
module FoldedState {
  import opened Options
  import opened Orders
  import opened Merge
  import opened Fold
  import opened FoldOrder
  import opened History
  import opened QuestionOrder

  // ------------------------------------------------------------------------ statuses

  ghost predicate HasStatus(ps: seq<Patch>, node: string, status: string) {
    exists p :: p in ps && p.node == node && p.status == status
  }

  /** Complete over invalid over failed over pending over a status the fold does not know. */
  ghost predicate BestOf(ps: seq<Patch>, node: string, status: string) {
    && HasStatus(ps, node, status)
    && (HasStatus(ps, node, "complete") ==> status == "complete")
    && (HasStatus(ps, node, "invalid") ==> status in {"invalid", "complete"})
    && (HasStatus(ps, node, "failed") ==> status in {"failed", "invalid", "complete"})
    && (HasStatus(ps, node, "pending") ==> status in {"pending", "failed", "invalid", "complete"})
  }

  /** The last error text of the node's patches. */
  ghost predicate LastError(ps: seq<Patch>, node: string, error: string) {
    exists i :: 0 <= i < |ps| && ps[i].node == node && ps[i].error == error != ""
      && forall j :: i < j < |ps| && ps[j].node == node ==> ps[j].error == ""
  }

  lemma {:induction false} StatusesSay(ps: seq<Patch>, node: string)
    ensures var status := Statuses(ps, |ps|);
      && (node in status <==> exists p :: p in ps && p.node == node)
      && (node in status ==> BestOf(ps, node, status[node]))
  {
    assert ps[..|ps|] == ps;
    StatusIsBest(ps, |ps|, node);
    if node in Statuses(ps, |ps|) { BestRankIsBest(ps, node, Statuses(ps, |ps|)[node]); }
  }

  lemma {:induction false} BestRankIsBest(ps: seq<Patch>, node: string, status: string)
    requires IsBestStatus(ps, node, status)
    ensures BestOf(ps, node, status)
  {
    forall s | HasStatus(ps, node, s) ensures Rank(s) <= Rank(status) {}
  }

  lemma {:induction false} ErrorsSay(ps: seq<Patch>, n: nat, node: string)
    requires n <= |ps|
    ensures node in Errors(ps, n) <==> exists i :: 0 <= i < n && ps[i].node == node && ps[i].error != ""
    ensures node in Errors(ps, n) ==> LastError(ps[..n], node, Errors(ps, n)[node])
  {
    if n > 0 {
      ErrorsSay(ps, n - 1, node);
      var p := ps[n - 1];
      assert ps[..n][n - 1] == p;
      if p.node == node && p.error != "" {
        assert LastError(ps[..n], node, p.error);
      } else if node in Errors(ps, n - 1) {
        KeepsLastError(ps[..n - 1], ps[..n], node, Errors(ps, n - 1)[node]);
      }
    }
  }

  lemma {:induction false} KeepsLastError(before: seq<Patch>, ps: seq<Patch>, node: string, error: string)
    requires LastError(before, node, error) && |ps| == |before| + 1 && ps[..|before|] == before
    requires ps[|before|].node == node ==> ps[|before|].error == ""
    ensures LastError(ps, node, error)
  {
    var i :| 0 <= i < |before| && before[i].node == node && before[i].error == error != ""
      && forall j :: i < j < |before| && before[j].node == node ==> before[j].error == "";
    assert ps[i] == before[i];
    forall j | i < j < |ps| && ps[j].node == node ensures ps[j].error == "" {
      if j < |before| { assert ps[j] == before[j]; }
    }
  }

  // ------------------------------------------------------------------------ coverage

  /** The fold reads a complete patch of the node. */
  ghost predicate Completed(ctx: Context, log: seq<Patch>, node: string) {
    exists p :: p in log && p.runId !in ctx.excluded && ctx.verify(p).node == node && ctx.verify(p).status == "complete"
  }

  ghost function CompletedIn(ctx: Context, log: seq<Patch>): string -> bool {
    (node: string) => Completed(ctx, log, node)
  }

  /** The files of the scopes whose node `counted` admits. */
  function FileSum(scopes: seq<ScopeRow>, counted: string -> bool): nat {
    if scopes == [] then 0
    else (if counted(scopes[0].node) then scopes[0].fileCount else 0) + FileSum(scopes[1..], counted)
  }

  function NodesNot(scopes: seq<ScopeRow>, counted: string -> bool): seq<string> {
    if scopes == [] then []
    else (if counted(scopes[0].node) then [] else [scopes[0].node]) + NodesNot(scopes[1..], counted)
  }

  function Everything(): string -> bool {
    (node: string) => true
  }

  /** All files over all scopes, the files of exactly the completed scopes, and the nodes of the others in order. */
  ghost predicate Covers(scopes: seq<ScopeRow>, completed: string -> bool, c: Coverage) {
    && c.filesTotal == FileSum(scopes, Everything()) && c.filesComplete == FileSum(scopes, completed)
    && multiset(c.incomplete) == multiset(NodesNot(scopes, completed))
    && forall i, j :: 0 <= i < j < |c.incomplete| ==> StrLe(c.incomplete[i], c.incomplete[j])
  }

  lemma {:induction false} SumPush(scopes: seq<ScopeRow>, s: ScopeRow, counted: string -> bool)
    ensures FileSum(scopes + [s], counted) == FileSum(scopes, counted) + if counted(s.node) then s.fileCount else 0
    ensures NodesNot(scopes + [s], counted) == NodesNot(scopes, counted) + if counted(s.node) then [] else [s.node]
  {
    if scopes == [] {
      assert scopes + [s] == [s] && [s][1..] == [];
    } else {
      assert (scopes + [s])[1..] == scopes[1..] + [s];
      SumPush(scopes[1..], s, counted);
    }
  }

  lemma {:induction false} CoverageCounts(status: map<string, string>, scopes: seq<ScopeRow>, completed: string -> bool, n: nat)
    requires n <= |scopes| && forall node {:trigger completed(node)} :: completed(node) <==> IsComplete(status, node)
    ensures CoverageUpTo(status, scopes, n)
      == Coverage(FileSum(scopes[..n], completed), FileSum(scopes[..n], Everything()), NodesNot(scopes[..n], completed))
  {
    if n > 0 {
      CoverageCounts(status, scopes, completed, n - 1);
      assert scopes[..n] == scopes[..n - 1] + [scopes[n - 1]];
      SumPush(scopes[..n - 1], scopes[n - 1], completed);
      SumPush(scopes[..n - 1], scopes[n - 1], Everything());
    }
  }

  lemma {:induction false} CoverageOfCovers(status: map<string, string>, scopes: seq<ScopeRow>, completed: string -> bool)
    requires forall node {:trigger completed(node)} :: completed(node) <==> IsComplete(status, node)
    ensures Covers(scopes, completed, CoverageOf(status, scopes))
  {
    CoverageCounts(status, scopes, completed, |scopes|);
    assert scopes[..|scopes|] == scopes;
    StrLeIsOrder();
    SortSorts(NodesNot(scopes, completed), StrLe);
  }

  lemma {:induction false} CompleteExactly(ctx: Context, log: seq<Patch>, node: string)
    ensures var ps := Verified(ctx, log); IsComplete(Statuses(ps, |ps|), node) <==> Completed(ctx, log, node)
  {
    var ps := Verified(ctx, log);
    StatusesSay(ps, node);
    if Completed(ctx, log, node) {
      var p :| p in log && p.runId !in ctx.excluded && ctx.verify(p).node == node && ctx.verify(p).status == "complete";
      VerifiedMembers(ctx, log, ctx.verify(p));
      assert HasStatus(ps, node, "complete");
    }
    if IsComplete(Statuses(ps, |ps|), node) {
      var v :| v in ps && v.node == node && v.status == "complete";
      VerifiedMembers(ctx, log, v);
    }
  }

  lemma {:induction false} FoldedParts(ctx: Context, ps: seq<Patch>)
    requires FoldVerified(ctx, ps).Folded?
    ensures var state := FoldVerified(ctx, ps).state;
      && state.nodes == Statuses(ps, |ps|) && state.nodeErrors == Errors(ps, |ps|)
      && state.unknowns == ctx.settle(Dedupe(AllUnknowns(ps)), state.claims)
      && state.coverage == CoverageOf(Statuses(ps, |ps|), ctx.scopes)
  {
    var m := FoldedIsState(ctx, ps);
    StateParts(ctx, ps, m);
  }

  lemma {:induction false} FoldedIsState(ctx: Context, ps: seq<Patch>) returns (m: Merged)
    requires FoldVerified(ctx, ps).Folded?
    ensures m == MergeSpec(ctx.evidenceHash, ctx.symbols, ClaimsToMerge(ctx, ps)) && m.Merged?
    ensures FoldVerified(ctx, ps).state == StateOf(ctx, ps, m)
  {
    m := MergeSpec(ctx.evidenceHash, ctx.symbols, ClaimsToMerge(ctx, ps));
  }

  lemma {:induction false} StateParts(ctx: Context, ps: seq<Patch>, m: Merged)
    requires m.Merged?
    ensures var state := StateOf(ctx, ps, m);
      && state.nodes == Statuses(ps, |ps|) && state.nodeErrors == Errors(ps, |ps|)
      && state.unknowns == ctx.settle(Dedupe(AllUnknowns(ps)), state.claims)
      && state.coverage == CoverageOf(Statuses(ps, |ps|), ctx.scopes)
      && state.claims == ctx.entail(m.claims) && state.conflicts == m.conflicts && state.nearMisses == m.nearMisses
      && state.stats == m.stats
  {
  }

  /** The folded state counts exactly the scopes whose node has a complete patch in the log, rolled back runs aside, and
  gives each node the best status and the last error of the patches it has. */
  lemma {:induction false} StateSays(ctx: Context, log: seq<Patch>)
    requires FoldSpec(ctx, log).Folded?
    ensures var state := FoldSpec(ctx, log).state;
      && Covers(ctx.scopes, CompletedIn(ctx, log), state.coverage)
      && forall node :: SaysOf(Verified(ctx, log), state, node)
  {
    var ps := Verified(ctx, log);
    var completed := CompletedIn(ctx, log);
    FoldedParts(ctx, ps);
    forall node {:trigger completed(node)} ensures completed(node) <==> IsComplete(Statuses(ps, |ps|), node) {
      CompleteExactly(ctx, log, node);
    }
    CoverageOfCovers(Statuses(ps, |ps|), ctx.scopes, completed);
    forall node ensures SaysOf(ps, FoldSpec(ctx, log).state, node) { NodeSays(ps, FoldSpec(ctx, log).state, node); }
  }

  lemma {:induction false} NodeSays(ps: seq<Patch>, state: State, node: string)
    requires state.nodes == Statuses(ps, |ps|) && state.nodeErrors == Errors(ps, |ps|)
    ensures SaysOf(ps, state, node)
  {
    StatusesSay(ps, node);
    ErrorsSay(ps, |ps|, node);
    assert ps[..|ps|] == ps;
  }

  ghost predicate SaysOf(ps: seq<Patch>, state: State, node: string) {
    && (node in state.nodes <==> exists p :: p in ps && p.node == node)
    && (node in state.nodes ==> BestOf(ps, node, state.nodes[node]))
    && (node in state.nodeErrors <==> exists p :: p in ps && p.node == node && p.error != "")
    && (node in state.nodeErrors ==> LastError(ps, node, state.nodeErrors[node]))
  }

  // -------------------------------------------------------------------------- claims

  /** No node, or one with no patch, or one with a complete patch. */
  ghost predicate SourceCounts(ps: seq<Patch>, source: string) {
    HasStatus(ps, source, "complete") || forall p :: p in ps ==> p.node != source
  }

  /** A claim of the patch, with the patch's node as source unless it names one. */
  ghost predicate Brings(p: Patch, c: Claim) {
    exists raw :: raw in p.claims && c == SourcedFrom(raw, p.node)
  }

  function SourcedFrom(c: Claim, node: string): Claim {
    c.(sourceNode := Some(match c.sourceNode case None => node case Some(n) => n))
  }

  lemma {:induction false} SourcedAre(claims: seq<Claim>, rows: seq<Claim>, node: string, c: Claim)
    requires |rows| == |claims| && forall i :: 0 <= i < |rows| ==> rows[i] == SourcedFrom(claims[i], node)
    ensures c in rows <==> exists raw :: raw in claims && c == SourcedFrom(raw, node)
  {
    if c in rows {
      var i :| 0 <= i < |rows| && rows[i] == c;
      assert claims[i] in claims;
    }
    if raw :| raw in claims && c == SourcedFrom(raw, node) {
      var i :| 0 <= i < |claims| && claims[i] == raw;
      assert rows[i] == c;
    }
  }

  lemma {:induction false} RowsAreBrought(p: Patch, c: Claim)
    ensures c in ClaimRows()(p) <==> Brings(p, c)
  {
    SourcedAre(p.claims, Sourced(p.claims, p.node), p.node, c);
  }

  lemma {:induction false} AliveExactly(ps: seq<Patch>, source: string)
    ensures source !in Superseded(Statuses(ps, |ps|)) <==> SourceCounts(ps, source)
  {
    StatusesSay(ps, source);
  }

  ghost predicate BroughtByBest(ctx: Context, ps: seq<Patch>, c: Claim) {
    exists p :: IsBestPatch(ctx.patchHash, ps, p) && Brings(p, c)
  }

  /** What reaches the merge: of each node's patch with the greatest generation, and the greatest hash among equals, the
  claims whose source was not superseded. Where two such patches collide in hash, one of them is read. */
  lemma {:induction false} ClaimsComeFrom(ctx: Context, ps: seq<Patch>, c: Claim)
    ensures c in ClaimsToMerge(ctx, ps) ==> SourceCounts(ps, SourceOf(c)) && BroughtByBest(ctx, ps, c)
    ensures NoCollisions(ctx.patchHash, ps) && SourceCounts(ps, SourceOf(c)) && BroughtByBest(ctx, ps, c)
            ==> c in ClaimsToMerge(ctx, ps)
  {
    var best, superseded := Best(ctx.patchHash, ps, |ps|), Superseded(Statuses(ps, |ps|));
    BestOfLog(ctx.patchHash, ps);
    AliveExactly(ps, SourceOf(c));
    FilterMembers(Blocks(best, ClaimRows()), (c: Claim) => Alive(superseded, c));
    if c in ClaimsToMerge(ctx, ps) {
      var p := BlockOf(best, ClaimRows(), c);
      RowsAreBrought(p, c);
    }
    if NoCollisions(ctx.patchHash, ps) && SourceCounts(ps, SourceOf(c)) && BroughtByBest(ctx, ps, c) {
      var p :| IsBestPatch(ctx.patchHash, ps, p) && Brings(p, c);
      RowsAreBrought(p, c);
      BestIsHeld(ctx.patchHash, ps, best, p);
      InBlocks(best, ClaimRows(), p, c);
    }
  }

  lemma {:induction false} BestIsHeld(h: Patch -> string, ps: seq<Patch>, best: seq<Patch>, p: Patch)
    requires HoldsBest(h, ps, best) && NoCollisions(h, ps) && IsBestPatch(h, ps, p)
    ensures p in best
  {
    assert Represented(best, p.node);
    var q :| q in best && q.node == p.node;
    assert IsBestPatch(h, ps, q) && NotAhead(h, p, q) && NotAhead(h, q, p);
    StrLeAntisymmetric(h(p), h(q));
  }

  // ----------------------------------------------------------------------- questions

  ghost predicate Asked(rows: seq<Unknown>, key: seq<string>) {
    exists u :: u in rows && UnknownKey(u) == key
  }

  lemma {:induction false} FirstOfKeyAsks(rows: seq<Unknown>, seen: set<seq<string>>, key: seq<string>)
    requires Asked(rows, key) && key !in seen
    ensures Asked(FirstOfKey(rows, seen), key)
  {
    var out := FirstOfKey(rows, seen);
    if UnknownKey(rows[0]) == key {
      assert rows[0] in out;
    } else {
      assert Asked(rows[1..], key);
      if UnknownKey(rows[0]) in seen {
        FirstOfKeyAsks(rows[1..], seen, key);
      } else {
        FirstOfKeyAsks(rows[1..], seen + {UnknownKey(rows[0])}, key);
        var u :| u in out[1..] && UnknownKey(u) == key;
        assert u in out;
      }
    }
  }

  /** Deduplication never drops a question. */
  lemma {:induction false} DedupeKeepsQuestions(rows: seq<Unknown>, key: seq<string>)
    requires Asked(rows, key)
    ensures Asked(Dedupe(rows), key)
  {
    SortMembers(rows, UnknownOrder());
    FirstOfKeyAsks(StableSort(rows, UnknownOrder()), {}, key);
  }

  function GapKey(node: string): seq<string> {
    [node, "What does " + node + " contain? Its scope was not successfully examined."]
  }

  lemma {:induction false} GapNamesNode(status: map<string, string>, errors: map<string, string>, node: string)
    requires node in status
    ensures UnknownKey(GapFor(status, errors, node)) == GapKey(node)
  {
  }

  lemma {:induction false} GapStated(ps: seq<Patch>, node: string)
    requires node in Superseded(Statuses(ps, |ps|))
    ensures Asked(AllUnknowns(ps), GapKey(node))
  {
    var status, errors := Statuses(ps, |ps|), Errors(ps, |ps|);
    var nodes := SortedSet(Superseded(status));
    var gaps := Gaps(status, errors, nodes);
    var i :| 0 <= i < |nodes| && nodes[i] == node;
    GapNamesNode(status, errors, node);
    assert gaps[i] in gaps;
    assert gaps[i] in AllUnknowns(ps);
  }

  lemma {:induction false} CompleteIsBest(ps: seq<Patch>, p: Patch, s: string)
    requires p in ps && p.status == COMPLETE && IsBestStatus(ps, p.node, s)
    ensures s == COMPLETE
  {
  }

  /** A node with a patch in the log is complete or has its gap stated. */
  lemma {:induction false} ExaminedOrGap(ps: seq<Patch>, p: Patch)
    requires p in ps
    ensures IsComplete(Statuses(ps, |ps|), p.node) || Asked(AllUnknowns(ps), GapKey(p.node))
    ensures p.status == COMPLETE ==> IsComplete(Statuses(ps, |ps|), p.node)
  {
    assert ps[..|ps|] == ps;
    StatusIsBest(ps, |ps|, p.node);
    if p.status == COMPLETE {
      CompleteIsBest(ps, p, Statuses(ps, |ps|)[p.node]);
    } else if !IsComplete(Statuses(ps, |ps|), p.node) {
      GapStated(ps, p.node);
    }
  }

  /** Discharge and clustering annotate questions; they neither drop nor reword one. */
  ghost predicate KeepsQuestions(settle: (seq<Unknown>, seq<MergedClaim>) -> seq<Unknown>) {
    forall rows, claims, key {:trigger Asked(settle(rows, claims), key)} :: Asked(rows, key) ==> Asked(settle(rows, claims), key)
  }

  /** `u` is an unknown of a complete patch, with the patch's node as source unless it names one. */
  ghost predicate AskedBy(p: Patch, u: Unknown) {
    p.status == "complete" && exists v :: v in p.unknowns && u == AskedOf(v, p.node)
  }

  function AskedOf(v: Unknown, node: string): Unknown {
    v.(sourceNode := Some(match v.sourceNode case None => node case Some(n) => n))
  }

  /** `u` is the stated gap of a node that has patches and no complete one. */
  ghost predicate StatesGap(ps: seq<Patch>, node: string, u: Unknown) {
    && !HasStatus(ps, node, "complete") && u.sourceNode == Some(node) && u.needs == "needs_human" && u.extra == ""
    && u.question == "What does " + node + " contain? Its scope was not successfully examined."
    && exists status :: BestOf(ps, node, status) && GivesReason(ps, node, status, u.why)
  }

  ghost predicate GivesReason(ps: seq<Patch>, node: string, status: string, why: string) {
    if exists p :: p in ps && p.node == node && p.error != ""
    then exists e :: LastError(ps, node, e) && why == "Node status is '" + status + "'" + (": " + e) + "."
    else why == "Node status is '" + status + "'" + "" + "."
  }

  lemma {:induction false} SourcesDefault(unknowns: seq<Unknown>, node: string, u: Unknown)
    ensures u in UnknownSource(unknowns, node) <==> exists v :: v in unknowns && u == AskedOf(v, node)
  {
    if unknowns != [] {
      SourcesDefault(unknowns[1..], node, u);
      var v := unknowns[0];
      assert UnknownSource(unknowns, node) == [AskedOf(v, node)] + UnknownSource(unknowns[1..], node);
      assert forall x :: x in unknowns <==> x == v || x in unknowns[1..];
    }
  }

  lemma {:induction false} PatchAsks(p: Patch, u: Unknown)
    ensures u in UnknownRows()(p) <==> AskedBy(p, u)
  {
    SourcesDefault(p.unknowns, p.node, u);
  }

  lemma {:induction false} GapSays(ps: seq<Patch>, node: string)
    requires node in Statuses(ps, |ps|) && Statuses(ps, |ps|)[node] != COMPLETE
    ensures StatesGap(ps, node, GapFor(Statuses(ps, |ps|), Errors(ps, |ps|), node))
  {
    var status, errors := Statuses(ps, |ps|), Errors(ps, |ps|);
    assert ps[..|ps|] == ps;
    StatusesSay(ps, node);
    ErrorsSay(ps, |ps|, node);
    var u := GapFor(status, errors, node);
    if node in errors {
      assert u.why == "Node status is '" + status[node] + "'" + (": " + errors[node]) + ".";
    } else {
      assert u.why == "Node status is '" + status[node] + "'" + "" + ".";
    }
    assert GivesReason(ps, node, status[node], u.why);
  }

  /** The rows before deduplication: what complete patches ask, and the gap of each node without one. */
  lemma {:induction false} RowsSay(ps: seq<Patch>, u: Unknown)
    ensures u in AllUnknowns(ps) ==> (exists p :: p in ps && AskedBy(p, u)) || exists n :: StatesGap(ps, n, u)
    ensures (exists p :: p in ps && AskedBy(p, u)) ==> u in AllUnknowns(ps)
  {
    BlocksMembers(ps, UnknownRows());
    if u in Blocks(ps, UnknownRows()) {
      var p :| p in ps && u in UnknownRows()(p);
      PatchAsks(p, u);
    } else if u in AllUnknowns(ps) {
      var status, errors := Statuses(ps, |ps|), Errors(ps, |ps|);
      var nodes := SortedSet(Superseded(status));
      var i :| 0 <= i < |nodes| && Gaps(status, errors, nodes)[i] == u;
      assert nodes[i] in Superseded(status);
      GapSays(ps, nodes[i]);
    }
    if p :| p in ps && AskedBy(p, u) {
      PatchAsks(p, u);
      InBlocks(ps, UnknownRows(), p, u);
    }
  }

  /** `u` is the first row that asks its question of its source. */
  ghost predicate AsksFirst(rows: seq<Unknown>, u: Unknown) {
    exists i :: 0 <= i < |rows| && rows[i] == u && forall j :: 0 <= j < i ==> AskKey(rows[j]) != AskKey(u)
  }

  function AskKey(u: Unknown): seq<string> {
    [match u.sourceNode case None => "" case Some(n) => n, u.question]
  }

  lemma {:induction false} FirstTie(rows: seq<Unknown>, k: Unknown)
    requires Ties(rows, k, UnknownOrder()) != []
    ensures AsksFirst(rows, Ties(rows, k, UnknownOrder())[0])
  {
    UnknownOrderIsOrder();
    if !Tied(rows[0], k, UnknownOrder()) {
      FirstTie(rows[1..], k);
      var u := Ties(rows, k, UnknownOrder())[0];
      var i :| 0 <= i < |rows[1..]| && rows[1..][i] == u && forall j :: 0 <= j < i ==> AskKey(rows[1..][j]) != AskKey(u);
      assert Tied(u, k, UnknownOrder()) && AskKey(rows[0]) != AskKey(u);
      forall j | 0 <= j < i + 1 ensures AskKey(rows[j]) != AskKey(u) {
        if j > 0 { assert rows[j] == rows[1..][j - 1]; }
      }
      assert rows[i + 1] == u;
    } else {
      assert rows[0] == Ties(rows, k, UnknownOrder())[0];
    }
  }

  /** Deduplication keeps the first row of every question, in order of source and question, and nothing else. */
  lemma {:induction false} DedupeSays(rows: seq<Unknown>)
    ensures forall u :: u in rows ==> Asked(Dedupe(rows), AskKey(u))
    ensures forall u :: u in Dedupe(rows) ==> AsksFirst(rows, u)
    ensures forall i, j :: 0 <= i < j < |Dedupe(rows)| ==> ListLe(AskKey(Dedupe(rows)[i]), AskKey(Dedupe(rows)[j]))
  {
    var out := Dedupe(rows);
    UnknownOrderIsOrder();
    DedupeSorted(rows);
    forall u | u in rows ensures Asked(out, AskKey(u)) {
      assert UnknownKey(u) == AskKey(u);
      DedupeKeepsQuestions(rows, AskKey(u));
    }
    forall u | u in out ensures AsksFirst(rows, u) {
      DedupeTies(rows, u);
      assert Tied(u, u, UnknownOrder()) && u in Ties(out, u, UnknownOrder());
      FirstTie(rows, u);
    }
    forall i, j | 0 <= i < j < |out| ensures ListLe(AskKey(out[i]), AskKey(out[j])) {
      assert UnknownOrder()(out[i], out[j]);
    }
  }

  /** A question that a complete patch asks is asked in the folded state, unless its run was rolled back. */
  lemma {:induction false} QuestionsReachState(ctx: Context, log: seq<Patch>, p: Patch, u: Unknown)
    requires FoldSpec(ctx, log).Folded? && KeepsQuestions(ctx.settle)
    requires p in log && p.runId !in ctx.excluded && AskedBy(ctx.verify(p), u)
    ensures Asked(FoldSpec(ctx, log).state.unknowns, AskKey(u))
  {
    var ps := Verified(ctx, log);
    VerifiedMembers(ctx, log, ctx.verify(p));
    RowsSay(ps, u);
    DedupeSays(AllUnknowns(ps));
    FoldedParts(ctx, ps);
    SettledAsks(ctx, Dedupe(AllUnknowns(ps)), FoldSpec(ctx, log).state.claims, AskKey(u));
  }

  lemma {:induction false} SettledAsks(ctx: Context, rows: seq<Unknown>, claims: seq<MergedClaim>, key: seq<string>)
    requires KeepsQuestions(ctx.settle) && Asked(rows, key)
    ensures Asked(ctx.settle(rows, claims), key)
  {
  }
}
