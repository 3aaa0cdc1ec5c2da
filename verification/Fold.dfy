/** The fold of the patch log (cdp/state.py:46-224, 254-281) and its independence of log order. */
module Fold {
  import opened Options
  import opened Orders
  import opened Merge

  /** An open question; `extra` stands for the fields the fold only copies. */
  datatype Unknown = Unknown(question: string, why: string, sourceNode: Option<string>, needs: string, extra: string)

  /** A patch of the log. A missing error is empty, a missing generation is None. */
  datatype Patch = Patch(
    node: string, runId: string, status: string, error: string, generation: Option<int>,
    claims: seq<Claim>, unknowns: seq<Unknown>, extra: string)

  datatype ScopeRow = ScopeRow(node: string, fileCount: nat)

  datatype Coverage = Coverage(filesComplete: nat, filesTotal: nat, incomplete: seq<string>)

  /** What the fold reads besides the log. `verify` is the per-patch anchor check, `entail` assigns
  verdicts to merged claims, and `settle` is grandfathering, discharge and clustering of the
  deduplicated unknowns; all three are arbitrary functions here. */
  datatype Context = Context(
    patchHash: Patch -> string, evidenceHash: EvidenceHash, symbols: map<string, set<string>>,
    excluded: set<string>, scopes: seq<ScopeRow>, verify: Patch -> Patch,
    entail: seq<MergedClaim> -> seq<MergedClaim>,
    settle: (seq<Unknown>, seq<MergedClaim>) -> seq<Unknown>)

  datatype State = State(
    claims: seq<MergedClaim>, unknowns: seq<Unknown>, conflicts: seq<Conflict>, nearMisses: seq<NearMiss>,
    stats: Stats, nodes: map<string, string>, nodeErrors: map<string, string>, coverage: Coverage)

  /** The fold raises when the merge does. */
  datatype Folded = Raised | Folded(state: State)

  // ------------------------------------------------------------------ the log

  const COMPLETE := "complete"

  /** `STATUS_RANK.get(status, 0)`. */
  function Rank(status: string): nat {
    if status == COMPLETE then 4 else if status == "invalid" then 3
    else if status == "failed" then 2 else if status == "pending" then 1 else 0
  }

  function VerifiedRow(ctx: Context): Patch -> seq<Patch> {
    (p: Patch) => if p.runId in ctx.excluded then [] else [ctx.verify(p)]
  }

  /** The log without excluded runs, each patch verified. */
  function Verified(ctx: Context, patches: seq<Patch>): seq<Patch> {
    Blocks(patches, VerifiedRow(ctx))
  }

  // ----------------------------------------------------------- status and error

  function StatusStep(status: map<string, string>, p: Patch): map<string, string> {
    if Rank(p.status) > Rank(if p.node in status then status[p.node] else "pending") then status[p.node := p.status]
    else if p.node in status then status
    else status[p.node := p.status]
  }

  function Statuses(ps: seq<Patch>, n: nat): map<string, string>
    requires n <= |ps|
  {
    if n == 0 then map[] else StatusStep(Statuses(ps, n - 1), ps[n - 1])
  }

  function Errors(ps: seq<Patch>, n: nat): map<string, string>
    requires n <= |ps|
  {
    if n == 0 then map[]
    else if ps[n - 1].error != "" then Errors(ps, n - 1)[ps[n - 1].node := ps[n - 1].error]
    else Errors(ps, n - 1)
  }

  // -------------------------------------------------------------- best attempts

  function Generation(p: Patch): int {
    match p.generation case None => 1 case Some(g) => if g == 0 then 1 else g
  }

  /** A later generation, or the greater hash within one generation. */
  predicate Better(h: Patch -> string, p: Patch, q: Patch) {
    Generation(p) > Generation(q) || (Generation(p) == Generation(q) && !StrLe(h(p), h(q)))
  }

  predicate HasNode(best: seq<Patch>, node: string) {
    exists i :: 0 <= i < |best| && best[i].node == node
  }

  /** `best_complete` with one patch taken in; the list is the dict's values in key order. */
  function BestStep(h: Patch -> string, best: seq<Patch>, p: Patch): seq<Patch> {
    if p.status != COMPLETE then best
    else if best == [] then [p]
    else if best[0].node == p.node then (if Better(h, p, best[0]) then [p] + best[1..] else best)
    else [best[0]] + BestStep(h, best[1..], p)
  }

  function Best(h: Patch -> string, ps: seq<Patch>, n: nat): seq<Patch>
    requires n <= |ps|
  {
    if n == 0 then [] else BestStep(h, Best(h, ps, n - 1), ps[n - 1])
  }

  // -------------------------------------------------------------------- rows

  function WithSource(c: Claim, node: string): Claim {
    if c.sourceNode.None? then c.(sourceNode := Some(node)) else c
  }

  function Sourced(claims: seq<Claim>, node: string): (r: seq<Claim>)
    ensures |r| == |claims| && forall i :: 0 <= i < |r| ==> r[i] == WithSource(claims[i], node)
  {
    if claims == [] then [] else [WithSource(claims[0], node)] + Sourced(claims[1..], node)
  }

  function ClaimRows(): Patch -> seq<Claim> {
    (p: Patch) => Sourced(p.claims, p.node)
  }

  function UnknownSource(unknowns: seq<Unknown>, node: string): seq<Unknown> {
    if unknowns == [] then []
    else
      var u := unknowns[0];
      [if u.sourceNode.None? then u.(sourceNode := Some(node)) else u] + UnknownSource(unknowns[1..], node)
  }

  /** Unknowns are sticky: every complete patch contributes its own. */
  function UnknownRows(): Patch -> seq<Unknown> {
    (p: Patch) => if p.status == COMPLETE then UnknownSource(p.unknowns, p.node) else []
  }

  function Superseded(status: map<string, string>): set<string> {
    set n | n in status && status[n] != COMPLETE
  }

  predicate Alive(superseded: set<string>, c: Claim) {
    SourceOf(c) !in superseded
  }

  function LiveClaims(superseded: set<string>, claims: seq<Claim>): seq<Claim> {
    Filter(claims, (c: Claim) => Alive(superseded, c))
  }

  /** The stated gap for a node that was not successfully examined. */
  function GapFor(status: map<string, string>, errors: map<string, string>, node: string): Unknown
    requires node in status
  {
    Unknown(
      "What does " + node + " contain? Its scope was not successfully examined.",
      "Node status is '" + status[node] + "'" + (if node in errors then ": " + errors[node] else "") + ".",
      Some(node), "needs_human", "")
  }

  function Gaps(status: map<string, string>, errors: map<string, string>, nodes: seq<string>): (r: seq<Unknown>)
    requires forall n :: n in nodes ==> n in status
    ensures |r| == |nodes| && forall i :: 0 <= i < |r| ==> r[i] == GapFor(status, errors, nodes[i])
  {
    if nodes == [] then [] else [GapFor(status, errors, nodes[0])] + Gaps(status, errors, nodes[1..])
  }

  function UnknownKey(u: Unknown): seq<string> {
    [match u.sourceNode case None => "" case Some(n) => n, u.question]
  }

  function UnknownOrder(): (Unknown, Unknown) -> bool {
    KeyOrder((u: Unknown) => UnknownKey(u))
  }

  /** The first row of each key. */
  function FirstOfKey(rows: seq<Unknown>, seen: set<seq<string>>): seq<Unknown> {
    if rows == [] then []
    else if UnknownKey(rows[0]) in seen then FirstOfKey(rows[1..], seen)
    else [rows[0]] + FirstOfKey(rows[1..], seen + {UnknownKey(rows[0])})
  }

  /** `_dedupe_unknowns`. */
  function Dedupe(rows: seq<Unknown>): seq<Unknown> {
    FirstOfKey(StableSort(rows, UnknownOrder()), {})
  }

  // ---------------------------------------------------------------- coverage

  predicate IsComplete(status: map<string, string>, node: string) {
    node in status && status[node] == COMPLETE
  }

  function CoverageUpTo(status: map<string, string>, scopes: seq<ScopeRow>, n: nat): Coverage
    requires n <= |scopes|
  {
    if n == 0 then Coverage(0, 0, [])
    else
      var c, s := CoverageUpTo(status, scopes, n - 1), scopes[n - 1];
      if IsComplete(status, s.node) then Coverage(c.filesComplete + s.fileCount, c.filesTotal + s.fileCount, c.incomplete)
      else Coverage(c.filesComplete, c.filesTotal + s.fileCount, c.incomplete + [s.node])
  }

  /** `_coverage`; the stated fraction is `filesComplete` over `filesTotal`. */
  function CoverageOf(status: map<string, string>, scopes: seq<ScopeRow>): Coverage {
    var c := CoverageUpTo(status, scopes, |scopes|);
    c.(incomplete := StableSort(c.incomplete, StrLe))
  }

  // ---------------------------------------------------------------- the fold

  function ClaimsToMerge(ctx: Context, ps: seq<Patch>): seq<Claim> {
    LiveClaims(Superseded(Statuses(ps, |ps|)), Blocks(Best(ctx.patchHash, ps, |ps|), ClaimRows()))
  }

  /** The stated gaps of the superseded nodes, in node order. */
  function StatedGaps(status: map<string, string>, errors: map<string, string>): seq<Unknown> {
    Gaps(status, errors, SortedSet(Superseded(status)))
  }

  function AllUnknowns(ps: seq<Patch>): seq<Unknown> {
    Blocks(ps, UnknownRows()) + StatedGaps(Statuses(ps, |ps|), Errors(ps, |ps|))
  }

  function FoldVerified(ctx: Context, ps: seq<Patch>): Folded {
    var m := MergeSpec(ctx.evidenceHash, ctx.symbols, ClaimsToMerge(ctx, ps));
    if m.TypeError? then Raised else Folded(StateOf(ctx, ps, m))
  }

  function StateOf(ctx: Context, ps: seq<Patch>, m: Merged): State
    requires m.Merged?
  {
    var status, entailed := Statuses(ps, |ps|), ctx.entail(m.claims);
    State(entailed, ctx.settle(Dedupe(AllUnknowns(ps)), entailed), m.conflicts, m.nearMisses, m.stats,
          status, Errors(ps, |ps|), CoverageOf(status, ctx.scopes))
  }

  /** What the fold of a log is. */
  function FoldSpec(ctx: Context, patches: seq<Patch>): Folded {
    FoldVerified(ctx, Verified(ctx, patches))
  }

  // -------------------------------------------------------- the fold, step by step

  /** Drops excluded runs and verifies the rest, patch by patch. */
  method VerifyLog(ctx: Context, patches: seq<Patch>) returns (ps: seq<Patch>)
    ensures ps == Verified(ctx, patches)
  {
    ps := [];
    for i := 0 to |patches|
      invariant ps == Verified(ctx, patches[..i])
    {
      assert patches[..i + 1] == patches[..i] + [patches[i]];
      BlocksAppend(patches[..i], [patches[i]], VerifiedRow(ctx));
      assert Verified(ctx, [patches[i]]) == VerifiedRow(ctx)(patches[i]);
      if patches[i].runId !in ctx.excluded {
        ps := ps + [ctx.verify(patches[i])];
      }
    }
    assert patches[..|patches|] == patches;
  }

  /** The loop that keeps each node's best status and last error. */
  method CollectStatuses(ps: seq<Patch>) returns (status: map<string, string>, errors: map<string, string>)
    ensures status == Statuses(ps, |ps|) && errors == Errors(ps, |ps|)
  {
    status, errors := map[], map[];
    for i := 0 to |ps|
      invariant status == Statuses(ps, i) && errors == Errors(ps, i)
    {
      var p := ps[i];
      var current := if p.node in status then status[p.node] else "pending";
      if Rank(p.status) > Rank(current) {
        status := status[p.node := p.status];
      } else if p.node !in status {
        status := status[p.node := p.status];
      }
      if p.error != "" {
        errors := errors[p.node := p.error];
      }
    }
  }

  /** The step changes the node's own entry, or adds one at the end. */
  lemma {:induction false} StepLands(h: Patch -> string, best: seq<Patch>, k: nat, p: Patch)
    requires k <= |best| && (k < |best| ==> best[k].node == p.node) && p.status == COMPLETE
    requires forall j :: 0 <= j < k ==> best[j].node != p.node
    ensures BestStep(h, best, p)
      == if k == |best| then best + [p] else if Better(h, p, best[k]) then best[k := p] else best
  {
    if k > 0 {
      StepLands(h, best[1..], k - 1, p);
      assert best == [best[0]] + best[1..];
    }
  }

  /** `best_complete[node] = patch` when the node is new or the patch beats its holder. */
  method TakeBest(h: Patch -> string, best0: seq<Patch>, p: Patch) returns (best: seq<Patch>)
    ensures best == BestStep(h, best0, p)
  {
    if p.status != COMPLETE { return best0; }
    var k := 0;
    while k < |best0| && best0[k].node != p.node
      invariant k <= |best0|
      invariant forall j :: 0 <= j < k ==> best0[j].node != p.node
    {
      k := k + 1;
    }
    StepLands(h, best0, k, p);
    if k == |best0| {
      best := best0 + [p];
    } else if Better(h, p, best0[k]) {
      best := best0[k := p];
    } else {
      best := best0;
    }
  }

  method CollectBest(h: Patch -> string, ps: seq<Patch>) returns (best: seq<Patch>)
    ensures best == Best(h, ps, |ps|)
  {
    best := [];
    for i := 0 to |ps|
      invariant best == Best(h, ps, i)
    {
      best := TakeBest(h, best, ps[i]);
    }
  }

  /** The claims of the best patches, each given its node as source unless it names one. */
  method CollectClaims(best: seq<Patch>) returns (claims: seq<Claim>)
    ensures claims == Blocks(best, ClaimRows())
  {
    claims := [];
    for i := 0 to |best|
      invariant claims == Blocks(best[..i], ClaimRows())
    {
      assert best[..i + 1] == best[..i] + [best[i]];
      BlocksAppend(best[..i], [best[i]], ClaimRows());
      assert Blocks([best[i]], ClaimRows()) == Sourced(best[i].claims, best[i].node);
      claims := claims + Sourced(best[i].claims, best[i].node);
    }
    assert best[..|best|] == best;
  }

  method CollectUnknowns(ps: seq<Patch>) returns (rows: seq<Unknown>)
    ensures rows == Blocks(ps, UnknownRows())
  {
    rows := [];
    for i := 0 to |ps|
      invariant rows == Blocks(ps[..i], UnknownRows())
    {
      assert ps[..i + 1] == ps[..i] + [ps[i]];
      BlocksAppend(ps[..i], [ps[i]], UnknownRows());
      assert Blocks([ps[i]], UnknownRows()) == UnknownRows()(ps[i]);
      if ps[i].status == COMPLETE {
        rows := rows + UnknownSource(ps[i].unknowns, ps[i].node);
      }
    }
    assert ps[..|ps|] == ps;
  }

  method MeasureCoverage(status: map<string, string>, scopes: seq<ScopeRow>) returns (c: Coverage)
    ensures c == CoverageOf(status, scopes)
  {
    var total: nat, complete: nat := 0, 0;
    var incomplete := [];
    for i := 0 to |scopes|
      invariant Coverage(complete, total, incomplete) == CoverageUpTo(status, scopes, i)
    {
      total := total + scopes[i].fileCount;
      if IsComplete(status, scopes[i].node) {
        complete := complete + scopes[i].fileCount;
      } else {
        incomplete := incomplete + [scopes[i].node];
      }
    }
    c := Coverage(complete, total, StableSort(incomplete, StrLe));
  }

  /** `fold`. */
  method FoldLog(ctx: Context, patches: seq<Patch>) returns (out: Folded)
    ensures out == FoldSpec(ctx, patches)
  {
    var ps := VerifyLog(ctx, patches);
    var status, errors := CollectStatuses(ps);
    var best := CollectBest(ctx.patchHash, ps);
    var claims := CollectClaims(best);
    var unknowns := CollectUnknowns(ps);
    var superseded := Superseded(status);
    var merged := MergeClaims(ctx.evidenceHash, ctx.symbols, LiveClaims(superseded, claims));
    if merged.TypeError? { return Raised; }
    var entailed := ctx.entail(merged.claims);
    var coverage := MeasureCoverage(status, ctx.scopes);
    unknowns := unknowns + Gaps(status, errors, SortedSet(superseded));
    out := Folded(State(entailed, ctx.settle(Dedupe(unknowns), entailed), merged.conflicts, merged.nearMisses,
                        merged.stats, status, errors, coverage));
  }
}
