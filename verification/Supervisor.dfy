/** Supervised runs: the retry loop over an arbitrary runner (cdp/supervisor.py:103-247), what its
results append to the log (cdp/cli.py:1463-1520), and what the fold then says of each scope. */
module Supervisor {
  import opened Options
  import opened Orders
  import opened Merge
  import opened Fold
  import opened FoldOrder
  import opened FoldedState
  import opened History

  datatype TaskState =
    | Pending | Dispatched | ReturnedOk | Validated | FoldedIn | Expired | Invalid | AnchorsFailed | Empty | Abandoned

  /** What the environment does in one attempt: refuse the lease, fail in the runner, or return
  something that is accepted or rejected for one of three reasons. */
  datatype Attempt =
    | LeaseHeld
    | RunnerFailed(error: string)
    | Rejected(state: TaskState, error: string)
    | Accepted(patch: Patch)

  predicate WellFormed(a: Attempt) {
    a.Rejected? ==> a.state in {Invalid, AnchorsFailed, Empty}
  }

  predicate RetryState(s: TaskState) {
    s in {Expired, Invalid, AnchorsFailed, Empty}
  }

  datatype Task = Task(state: TaskState, attempts: nat, lastError: Option<string>)

  /** One row of a wave's results. */
  datatype Row = Row(node: string, scopeHash: string, state: TaskState, attempts: nat, lastError: Option<string>, patch: Option<Patch>)

  datatype HashedScope = HashedScope(node: string, scopeHash: string)

  /** The task table, keyed by run and scope hash. */
  class Backend {
    var tasks: map<(string, string), Task>

    constructor ()
      ensures tasks == map[]
    {
      tasks := map[];
    }

    /** `upsert_task(..., state=, attempts=, last_error=None)` at dispatch. */
    method Dispatch(key: (string, string), attempt: nat)
      modifies this
      ensures tasks == old(tasks)[key := Task(Dispatched, attempt, None)]
    {
      tasks := tasks[key := Task(Dispatched, attempt, None)];
    }

    /** `upsert_task(..., state=)`, leaving the other fields of the row. */
    method SetState(key: (string, string), state: TaskState)
      requires key in tasks
      modifies this
      ensures tasks == old(tasks)[key := old(tasks)[key].(state := state)]
    {
      tasks := tasks[key := tasks[key].(state := state)];
    }

    /** `upsert_task(..., state=, last_error=)`. */
    method SetOutcome(key: (string, string), state: TaskState, lastError: Option<string>)
      requires key in tasks
      modifies this
      ensures tasks == old(tasks)[key := old(tasks)[key].(state := state, lastError := lastError)]
    {
      tasks := tasks[key := tasks[key].(state := state, lastError := lastError)];
    }
  }

  // --------------------------------------------------------------- one attempt

  function ErrorText(error: string): string {
    if error == "" then "runner reported failure with no message" else error
  }

  /** The state, error and patch after one attempt that got its lease. */
  function After(a: Attempt): (TaskState, Option<string>, Option<Patch>)
    requires !a.LeaseHeld?
  {
    match a
    case RunnerFailed(error) => (Expired, Some(ErrorText(error)), None)
    case Rejected(state, error) => (state, Some(error), None)
    case Accepted(patch) => (Validated, None, Some(patch))
  }

  /** How a dispatch ends, from attempt `n` on: `world(n)` is what attempt `n` meets. */
  datatype Ending = Dropped | Ended(state: TaskState, attempts: nat, lastError: Option<string>, patch: Option<Patch>)

  ghost function EndingFrom(world: nat -> Attempt, n: nat, maxAttempts: nat): Ending
    requires 1 <= n <= maxAttempts
    decreases maxAttempts - n
  {
    if world(n).LeaseHeld? then Dropped
    else
      var (state, error, patch) := After(world(n));
      if !RetryState(state) then Ended(state, n, error, patch)
      else if n == maxAttempts then Ended(Abandoned, n, error, None)
      else EndingFrom(world, n + 1, maxAttempts)
  }

  /** The error of the attempt: the runner's message, or why the result was rejected. */
  predicate TellsWhy(a: Attempt, error: Option<string>) {
    match a
    case RunnerFailed(message) => error == Some(if message != "" then message else "runner reported failure with no message")
    case Rejected(_, why) => error == Some(why)
    case _ => false
  }

  /** The dispatch in closed form: the first attempt that is not retried decides it. */
  lemma {:induction false} EndingCharacterised(world: nat -> Attempt, n: nat, maxAttempts: nat)
    requires 1 <= n <= maxAttempts && forall k :: WellFormed(world(k))
    ensures var e := EndingFrom(world, n, maxAttempts);
      match e
      case Dropped => exists k :: n <= k <= maxAttempts && world(k).LeaseHeld? && forall j :: n <= j < k ==> !world(j).Accepted?
      case Ended(state, attempts, error, patch) =>
        && n <= attempts <= maxAttempts
        && (forall j :: n <= j < attempts ==> !world(j).Accepted? && !world(j).LeaseHeld?)
        && (if world(attempts).Accepted? then state == Validated && patch == Some(world(attempts).patch) && error == None
            else state == Abandoned && attempts == maxAttempts && patch == None && TellsWhy(world(attempts), error))
    decreases maxAttempts - n
  {
    assert WellFormed(world(n));
    if !world(n).LeaseHeld? && RetryState(After(world(n)).0) && n < maxAttempts {
      EndingCharacterised(world, n + 1, maxAttempts);
    }
  }

  // ------------------------------------------------------------------ dispatch

  /** The row belongs to the scope and says what the task table says. */
  ghost predicate Recorded(row: Row, scope: HashedScope, runId: string, tasks: map<(string, string), Task>) {
    && row.node == scope.node && row.scopeHash == scope.scopeHash
    && (runId, scope.scopeHash) in tasks
    && tasks[(runId, scope.scopeHash)] == Task(row.state, row.attempts, row.lastError)
  }

  /** The row that a dispatch returns, if any. */
  ghost function DispatchRow(scope: HashedScope, world: nat -> Attempt, maxAttempts: int): Option<Row> {
    if maxAttempts <= 0 then Some(Row(scope.node, scope.scopeHash, Pending, 0, None, None))
    else
      match EndingFrom(world, 1, maxAttempts)
      case Dropped => None
      case Ended(state, attempts, error, patch) => Some(Row(scope.node, scope.scopeHash, state, attempts, error, patch))
  }

  /** `dispatch_scope`. With no attempt allowed the loop body never runs. */
  method DispatchScope(backend: Backend, runId: string, scope: HashedScope, world: nat -> Attempt, maxAttempts: int)
    returns (row: Option<Row>)
    requires forall k :: WellFormed(world(k))
    modifies backend
    ensures forall key :: key != (runId, scope.scopeHash) ==>
              (key in backend.tasks <==> key in old(backend.tasks)) && (key in backend.tasks ==> backend.tasks[key] == old(backend.tasks)[key])
    ensures row == DispatchRow(scope, world, maxAttempts)
    ensures maxAttempts > 0 && row.Some? ==> Recorded(row.value, scope, runId, backend.tasks)
    ensures maxAttempts <= 0 ==> backend.tasks == old(backend.tasks)
  {
    var key := (runId, scope.scopeHash);
    var state, lastError, patch := Pending, None, None;
    var attempt := 0;
    while attempt < maxAttempts
      invariant 0 <= attempt && (attempt > 0 ==> attempt <= maxAttempts)
      invariant attempt == 0 ==> state == Pending && lastError == None && patch == None && backend.tasks == old(backend.tasks)
      invariant 0 < attempt ==> RetryState(state) && patch == None && key in backend.tasks && backend.tasks[key] == Task(state, attempt, lastError)
      invariant 0 < attempt < maxAttempts ==> EndingFrom(world, 1, maxAttempts) == EndingFrom(world, attempt + 1, maxAttempts)
      invariant 0 < attempt == maxAttempts ==> EndingFrom(world, 1, maxAttempts) == Ended(Abandoned, attempt, lastError, None)
      invariant forall k :: k != key ==>
        (k in backend.tasks <==> k in old(backend.tasks)) && (k in backend.tasks ==> backend.tasks[k] == old(backend.tasks)[k])
    {
      attempt := attempt + 1;
      var met := world(attempt);
      assert WellFormed(met);
      if met.LeaseHeld? { return None; }
      backend.Dispatch(key, attempt);
      if !met.RunnerFailed? {
        backend.SetState(key, ReturnedOk);
      }
      var after := After(met);
      state, lastError, patch := after.0, after.1, after.2;
      backend.SetOutcome(key, state, lastError);
      if !RetryState(state) {
        return Some(Row(scope.node, scope.scopeHash, state, attempt, lastError, patch));
      }
    }
    if RetryState(state) {
      state, patch := Abandoned, None;
      backend.SetOutcome(key, state, lastError);
    }
    row := Some(Row(scope.node, scope.scopeHash, state, attempt, lastError, patch));
  }

  // ---------------------------------------------------------------------- a wave

  predicate Chosen(scope: HashedScope, nodes: set<string>, skip: set<string>) {
    scope.node in nodes && scope.scopeHash !in skip
  }

  /** The rows of the first `n` scopes, in order; `worlds(i)` is the environment of scope `i`. */
  ghost function WaveRows(scopes: seq<HashedScope>, nodes: set<string>, skip: set<string>,
                          worlds: nat -> nat -> Attempt, maxAttempts: int, n: nat): seq<Row>
    requires n <= |scopes|
  {
    if n == 0 then []
    else
      var rows := WaveRows(scopes, nodes, skip, worlds, maxAttempts, n - 1);
      if !Chosen(scopes[n - 1], nodes, skip) then rows
      else
        match DispatchRow(scopes[n - 1], worlds(n - 1), maxAttempts)
        case None => rows
        case Some(row) => rows + [row]
  }

  /** `run_wave`. */
  method RunWave(backend: Backend, runId: string, scopes: seq<HashedScope>, nodes: set<string>, skip: set<string>,
                 worlds: nat -> nat -> Attempt, maxAttempts: int) returns (results: seq<Row>)
    requires forall i, k :: WellFormed(worlds(i)(k))
    modifies backend
    ensures results == WaveRows(scopes, nodes, skip, worlds, maxAttempts, |scopes|)
  {
    results := [];
    for i := 0 to |scopes|
      invariant results == WaveRows(scopes, nodes, skip, worlds, maxAttempts, i)
    {
      if Chosen(scopes[i], nodes, skip) {
        var row := DispatchScope(backend, runId, scopes[i], worlds(i), maxAttempts);
        if row.Some? { results := results + [row.value]; }
      }
    }
  }

  /** What scope `i` contributes: its row, if it was asked for, is not to be skipped, and no lease stood in the way. */
  ghost function RowsOfScope(scopes: seq<HashedScope>, nodes: set<string>, skip: set<string>,
                             worlds: nat -> nat -> Attempt, maxAttempts: int): nat -> seq<Row> {
    (i: nat) =>
      if i < |scopes| && scopes[i].node in nodes && scopes[i].scopeHash !in skip then
        match DispatchRow(scopes[i], worlds(i), maxAttempts) case None => [] case Some(row) => [row]
      else []
  }

  /** A wave returns the rows of exactly those scopes, in the order of the partition. */
  lemma {:induction false} WaveReturns(scopes: seq<HashedScope>, nodes: set<string>, skip: set<string>,
                                       worlds: nat -> nat -> Attempt, maxAttempts: int, n: nat)
    requires n <= |scopes|
    ensures WaveRows(scopes, nodes, skip, worlds, maxAttempts, n)
         == Joined(RowsOfScope(scopes, nodes, skip, worlds, maxAttempts), n)
  {
    if n > 0 {
      WaveReturns(scopes, nodes, skip, worlds, maxAttempts, n - 1);
      var before := WaveRows(scopes, nodes, skip, worlds, maxAttempts, n - 1);
      assert before + [] == before;
    }
  }

  /** `mark_folded`: exactly the validated rows move on. */
  method MarkFolded(backend: Backend, runId: string, results: seq<Row>)
    requires forall row :: row in results && row.state == Validated ==> (runId, row.scopeHash) in backend.tasks
    modifies backend
    ensures backend.tasks.Keys == old(backend.tasks).Keys
    ensures forall key :: key in backend.tasks ==>
      backend.tasks[key] == if exists row :: row in results && row.state == Validated && key == (runId, row.scopeHash)
                            then old(backend.tasks)[key].(state := FoldedIn) else old(backend.tasks)[key]
  {
    for i := 0 to |results|
      invariant backend.tasks.Keys == old(backend.tasks).Keys
      invariant forall key :: key in backend.tasks ==>
        backend.tasks[key] == if exists row :: row in results[..i] && row.state == Validated && key == (runId, row.scopeHash)
                              then old(backend.tasks)[key].(state := FoldedIn) else old(backend.tasks)[key]
    {
      assert results[i] in results;
      assert forall row :: row in results[..i + 1] <==> row in results[..i] || row == results[i];
      if results[i].state == Validated {
        backend.SetState((runId, results[i].scopeHash), FoldedIn);
      }
    }
    assert results[..|results|] == results;
  }

  /** Terminal: validated with a patch, or abandoned without one, within the attempt limit. */
  ghost predicate Terminal(row: Row, maxAttempts: nat) {
    && 1 <= row.attempts <= maxAttempts
    && ((row.state == Validated && row.patch.Some? && row.lastError == None)
        || (row.state == Abandoned && row.patch == None && row.lastError.Some?))
  }

  /** Every row a wave returns is terminal, whatever the runner and the leases do. */
  lemma {:induction false} RowsAreTerminal(scopes: seq<HashedScope>, nodes: set<string>, skip: set<string>,
                                           worlds: nat -> nat -> Attempt, maxAttempts: nat, n: nat)
    requires n <= |scopes| && maxAttempts >= 1 && forall i, k :: WellFormed(worlds(i)(k))
    ensures forall row :: row in WaveRows(scopes, nodes, skip, worlds, maxAttempts, n) ==>
              Terminal(row, maxAttempts) && exists s :: s in scopes && Chosen(s, nodes, skip) && s.node == row.node && s.scopeHash == row.scopeHash
  {
    if n > 0 {
      RowsAreTerminal(scopes, nodes, skip, worlds, maxAttempts, n - 1);
      EndingCharacterised(worlds(n - 1), 1, maxAttempts);
      assert scopes[n - 1] in scopes;
    }
  }

  // ------------------------------------------------------------ results to the log

  /** Steps between a validated patch and the log that only rewrite its claims and unknowns:
  claim stamping and the unknown gates. */
  datatype Gates = Gates(stamp: seq<Claim> -> seq<Claim>, unknowns: (seq<Unknown>, string) -> seq<Unknown>)

  function CompletePatch(row: Row, runId: string, known: seq<Patch>, gates: Gates): Patch
    requires row.patch.Some?
  {
    var p := row.patch.value;
    p.(node := row.node, runId := runId, status := COMPLETE,
       generation := Some(NextGeneration(known, row.node)),
       claims := gates.stamp(p.claims), unknowns := gates.unknowns(p.unknowns, row.node))
  }

  /** The record of a scope that was given up: no claims, and an error. */
  function FailedPatch(row: Row, runId: string): Patch {
    Patch(row.node, runId, "failed",
          if row.lastError.Some? && row.lastError.value != "" then row.lastError.value
          else "abandoned after " + Decimal(row.attempts) + " attempts",
          None, [], [], "")
  }

  function Decimal(n: nat): string {
    if n < 10 then ["0123456789"[n]] else Decimal(n / 10) + ["0123456789"[n % 10]]
  }

  /** The log and the list the generations are read from, after the first `n` rows. */
  ghost function Applied(log: seq<Patch>, results: seq<Row>, runId: string, gates: Gates, n: nat): (seq<Patch>, seq<Patch>)
    requires n <= |results|
  {
    if n == 0 then (log, log)
    else
      var (out, known) := Applied(log, results, runId, gates, n - 1);
      var row := results[n - 1];
      if row.state == Validated && row.patch.Some? then
        var p := CompletePatch(row, runId, known, gates);
        (out + [p], known + [p])
      else if row.state == Abandoned then (out + [FailedPatch(row, runId)], known)
      else (out, known)
  }

  /** `_apply_wave_results`, up to its fold. Failed patches are appended to the log but not to the
  list that generations are read from. */
  method ApplyWaveResults(log0: seq<Patch>, results: seq<Row>, runId: string, gates: Gates) returns (log: seq<Patch>)
    ensures log == Applied(log0, results, runId, gates, |results|).0
  {
    log := log0;
    var known := log0;
    for i := 0 to |results|
      invariant (log, known) == Applied(log0, results, runId, gates, i)
    {
      var row := results[i];
      if row.state == Validated && row.patch.Some? {
        var p := CompletePatch(row, runId, known, gates);
        known := known + [p];
        log := log + [p];
      } else if row.state == Abandoned {
        log := log + [FailedPatch(row, runId)];
      }
    }
  }

  /** Applying a wave only appends, and keeps complete generations strictly increasing. */
  lemma {:induction false} ApplyKeepsGenerations(log: seq<Patch>, results: seq<Row>, runId: string, gates: Gates, n: nat)
    requires n <= |results| && GenerationsAscend(log)
    ensures var (out, known) := Applied(log, results, runId, gates, n);
      && log <= out && GenerationsAscend(out)
      && forall q :: q in out && q.status == COMPLETE ==> q in known
  {
    if n > 0 {
      ApplyKeepsGenerations(log, results, runId, gates, n - 1);
      var (out, known) := Applied(log, results, runId, gates, n - 1);
      var row := results[n - 1];
      if row.state == Validated && row.patch.Some? {
        var p := CompletePatch(row, runId, known, gates);
        StampKeepsAscending(out, known, p);
        assert p.(generation := Some(NextGeneration(known, p.node))) == p;
      } else if row.state == Abandoned {
        StampKeepsAscending(out, known, FailedPatch(row, runId));
      }
    }
  }

  lemma {:induction false} RowInLog(log: seq<Patch>, results: seq<Row>, runId: string, gates: Gates, n: nat, i: nat)
    requires i < n <= |results|
    requires (results[i].state == Validated && results[i].patch.Some?) || results[i].state == Abandoned
    ensures exists p :: p in Applied(log, results, runId, gates, n).0 && p.node == results[i].node && p.runId == runId
                        && p.status == (if results[i].state == Validated then COMPLETE else "failed")
  {
    var (out, known) := Applied(log, results, runId, gates, n - 1);
    if i < n - 1 {
      RowInLog(log, results, runId, gates, n - 1, i);
      var p :| p in out && p.node == results[i].node && p.runId == runId && p.status == (if results[i].state == Validated then COMPLETE else "failed");
      assert p in Applied(log, results, runId, gates, n).0;
    } else if results[i].state == Validated {
      var p := CompletePatch(results[i], runId, known, gates);
      assert p in out + [p];
    } else {
      var p := FailedPatch(results[i], runId);
      assert p in out + [p];
    }
  }

  // ------------------------------------------------------------------ end to end

  /** End to end: after a wave is applied and the log folded, each returned scope's node is
  complete, or the state carries the unknown that names it. */
  lemma {:induction false} EveryRowAccounted(ctx: Context, log: seq<Patch>, results: seq<Row>, runId: string, gates: Gates, maxAttempts: nat, i: nat)
    requires KeepsHeader(ctx.verify) && KeepsQuestions(ctx.settle) && runId !in ctx.excluded
    requires i < |results| && Terminal(results[i], maxAttempts)
    ensures var after := Applied(log, results, runId, gates, |results|).0;
      match FoldSpec(ctx, after)
      case Raised => true
      case Folded(state) =>
        && (IsComplete(state.nodes, results[i].node) || Asked(state.unknowns, GapKey(results[i].node)))
        && (results[i].state == Validated ==> IsComplete(state.nodes, results[i].node))
  {
    var after := Applied(log, results, runId, gates, |results|).0;
    RowInLog(log, results, runId, gates, |results|, i);
    var p :| p in after && p.node == results[i].node && p.runId == runId
             && p.status == (if results[i].state == Validated then COMPLETE else "failed");
    var ps := Verified(ctx, after);
    BlocksMembers(after, VerifiedRow(ctx));
    assert ctx.verify(p) in VerifiedRow(ctx)(p);
    ExaminedOrGap(ps, ctx.verify(p));
    if FoldVerified(ctx, ps).Folded? {
      NodeAccounted(ctx, ps, results[i].node);
    }
  }

  lemma {:induction false} NodeAccounted(ctx: Context, ps: seq<Patch>, node: string)
    requires KeepsQuestions(ctx.settle) && FoldVerified(ctx, ps).Folded?
    requires IsComplete(Statuses(ps, |ps|), node) || Asked(AllUnknowns(ps), GapKey(node))
    ensures var state := FoldVerified(ctx, ps).state;
      && state.nodes == Statuses(ps, |ps|)
      && (IsComplete(state.nodes, node) || Asked(state.unknowns, GapKey(node)))
  {
    var state := FoldVerified(ctx, ps).state;
    FoldedParts(ctx, ps);
    if !IsComplete(state.nodes, node) {
      DedupeKeepsQuestions(AllUnknowns(ps), GapKey(node));
      SettledAsks(ctx, Dedupe(AllUnknowns(ps)), state.claims, GapKey(node));
    }
  }
}
