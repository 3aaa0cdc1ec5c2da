/** What applying a wave puts into the log, and what of it reaches the merge (cdp/cli.py:1455-1520). */
module AppliedWaves {
  import opened Options
  import opened Orders
  import opened Merge
  import opened Fold
  import opened FoldOrder
  import opened FoldedState
  import opened History
  import opened Supervisor

  /** A row that leaves a record: validated with a patch, or abandoned. */
  predicate LeavesRecord(row: Row) {
    (row.state == Validated && row.patch.Some?) || row.state == Abandoned
  }

  /** What is appended for a row: its patch, stamped and gated, or the error it was given up with. */
  ghost predicate IsRecordOf(runId: string, gates: Gates, row: Row, p: Patch) {
    && p.node == row.node && p.runId == runId
    && (row.state == Validated ==> row.patch.Some? && IsCompleteRecord(gates, row.node, row.patch.value, p))
    && (row.state != Validated ==> IsFailedRecord(row, p))
  }

  predicate IsFailedRecord(row: Row, p: Patch) {
    && p.status == "failed" && p.claims == [] && p.unknowns == [] && p.generation == None && p.extra == ""
    && p.error == if row.lastError.Some? && row.lastError.value != "" then row.lastError.value
                  else "abandoned after " + Decimal(row.attempts) + " attempts"
  }

  predicate IsCompleteRecord(gates: Gates, node: string, from: Patch, p: Patch) {
    && p.status == "complete" && p.generation.Some? && p.claims == gates.stamp(from.claims)
    && p.unknowns == gates.unknowns(from.unknowns, node) && p.error == from.error && p.extra == from.extra
  }

  /** The log and the rows of a wave: what was there, and then one record per row that leaves one, in order. */
  ghost predicate Appends(runId: string, gates: Gates, log0: seq<Patch>, rows: seq<Row>, log: seq<Patch>) {
    && |log| == |log0| + |rows| && log[..|log0|] == log0
    && forall k :: 0 <= k < |rows| ==> IsRecordOf(runId, gates, rows[k], log[|log0| + k])
  }

  lemma {:induction false} AppendsOne(runId: string, gates: Gates, log0: seq<Patch>, rows: seq<Row>, log: seq<Patch>,
      row: Row, p: Patch)
    requires Appends(runId, gates, log0, rows, log) && IsRecordOf(runId, gates, row, p)
    ensures Appends(runId, gates, log0, rows + [row], log + [p])
  {
    var more := log + [p];
    assert more[..|log0|] == log[..|log0|];
    forall k | 0 <= k < |rows| + 1 ensures IsRecordOf(runId, gates, (rows + [row])[k], more[|log0| + k]) {
      if k < |rows| { assert more[|log0| + k] == log[|log0| + k]; }
    }
  }

  /** The log grows by exactly one record per validated or abandoned row, in order. */
  lemma {:induction false} WaveAppends(log: seq<Patch>, results: seq<Row>, runId: string, gates: Gates, n: nat)
    requires n <= |results|
    ensures Appends(runId, gates, log, Filter(results[..n], LeavesRecord), Applied(log, results, runId, gates, n).0)
  {
    if n > 0 {
      WaveAppends(log, results, runId, gates, n - 1);
      var (out, known) := Applied(log, results, runId, gates, n - 1);
      var rows, row := Filter(results[..n - 1], LeavesRecord), results[n - 1];
      assert results[..n] == results[..n - 1] + [row];
      FilterAppend(results[..n - 1], [row], LeavesRecord);
      if LeavesRecord(row) {
        assert Filter([row], LeavesRecord) == [row];
        var p := if row.state == Validated then CompletePatch(row, runId, known, gates) else FailedPatch(row, runId);
        AppendsOne(runId, gates, log, rows, out, row, p);
      } else {
        assert Filter([row], LeavesRecord) == [] && rows + [] == rows;
      }
    }
  }

  /** Where a row's record stands: only records of later rows come after it. */
  ghost predicate StandsAt(runId: string, gates: Gates, results: seq<Row>, n: nat, i: nat, log: seq<Patch>, k: nat)
    requires i < n <= |results|
  {
    && k < |log| && IsRecordOf(runId, gates, results[i], log[k])
    && forall m :: k < m < |log| ==> IsLaterRecord(runId, gates, results, n, i, log[m])
  }

  ghost predicate IsLaterRecord(runId: string, gates: Gates, results: seq<Row>, n: nat, i: nat, p: Patch)
    requires n <= |results|
  {
    exists j :: i < j < n && LeavesRecord(results[j]) && IsRecordOf(runId, gates, results[j], p)
  }

  lemma {:induction false} RecordStands(log: seq<Patch>, results: seq<Row>, runId: string, gates: Gates, n: nat, i: nat)
      returns (k: nat)
    requires i < n <= |results| && LeavesRecord(results[i])
    ensures StandsAt(runId, gates, results, n, i, Applied(log, results, runId, gates, n).0, k)
  {
    var (out, known) := Applied(log, results, runId, gates, n - 1);
    var row, all := results[n - 1], Applied(log, results, runId, gates, n).0;
    if i < n - 1 {
      k := RecordStands(log, results, runId, gates, n - 1, i);
      StillStands(runId, gates, results, n, i, out, all, k);
    } else {
      k := |out|;
    }
  }

  lemma {:induction false} StillStands(runId: string, gates: Gates, results: seq<Row>, n: nat, i: nat, out: seq<Patch>,
      all: seq<Patch>, k: nat)
    requires i < n - 1 < |results| && StandsAt(runId, gates, results, n - 1, i, out, k)
    requires all == out || (|all| == |out| + 1 && all[..|out|] == out && LeavesRecord(results[n - 1])
                            && IsRecordOf(runId, gates, results[n - 1], all[|out|]))
    ensures StandsAt(runId, gates, results, n, i, all, k)
  {
    assert all[k] == out[k];
    forall m | k < m < |all| ensures IsLaterRecord(runId, gates, results, n, i, all[m]) {
      if m < |out| {
        assert all[m] == out[m] && IsLaterRecord(runId, gates, results, n - 1, i, out[m]);
        var j :| i < j < n - 1 && LeavesRecord(results[j]) && IsRecordOf(runId, gates, results[j], out[m]);
      } else {
        assert LeavesRecord(results[n - 1]) && IsRecordOf(runId, gates, results[n - 1], all[m]);
      }
    }
  }

  // ------------------------------------------------------------------ end to end

  /** No later row of the wave validates the node again. */
  ghost predicate LastValidated(results: seq<Row>, i: nat) {
    && i < |results| && results[i].state == Validated && results[i].patch.Some?
    && forall j :: i < j < |results| && results[j].node == results[i].node ==> results[j].state != Validated
  }

  lemma {:induction false} LastRowIsLast(ctx: Context, log: seq<Patch>, results: seq<Row>, runId: string, gates: Gates,
      i: nat, k: nat)
    requires LastValidated(results, i) && runId !in ctx.excluded
    requires StandsAt(runId, gates, results, |results|, i, log, k)
    ensures IsLastComplete(ctx, log, k)
  {
    forall m | k < m < |log| && log[m].node == log[k].node ensures !History.Counts(ctx, log[m]) {
      assert IsLaterRecord(runId, gates, results, |results|, i, log[m]);
      var j :| i < j < |results| && LeavesRecord(results[j]) && IsRecordOf(runId, gates, results[j], log[m]);
      assert results[j].node == results[i].node;
    }
  }

  /** Every claim of a node's last validated row, stamped, reaches the merge of the fold, with the node as its source
  unless it names one, as long as verification keeps the patch and no source it names was superseded. */
  lemma {:induction false} ValidatedClaimsReachMerge(ctx: Context, log: seq<Patch>, results: seq<Row>, runId: string,
      gates: Gates, i: nat, c: Claim)
    requires GenerationsAscend(log) && KeepsStamp(ctx.verify) && runId !in ctx.excluded
    requires LastValidated(results, i) && c in gates.stamp(results[i].patch.value.claims)
    requires var after := Applied(log, results, runId, gates, |results|).0;
      && (forall p :: p in after && IsRecordOf(runId, gates, results[i], p) ==> ctx.verify(p) == p)
      && (c.sourceNode.Some? && c.sourceNode.value != results[i].node ==> SourceCounts(Verified(ctx, after), c.sourceNode.value))
    ensures var after := Applied(log, results, runId, gates, |results|).0;
      SourcedFrom(c, results[i].node) in ClaimsToMerge(ctx, Verified(ctx, after))
  {
    var after := Applied(log, results, runId, gates, |results|).0;
    var node, d := results[i].node, SourcedFrom(c, results[i].node);
    ApplyKeepsGenerations(log, results, runId, gates, |results|);
    var k := RecordStands(log, results, runId, gates, |results|, i);
    LastRowIsLast(ctx, after, results, runId, gates, i, k);
    var p := after[k];
    assert p in after && ctx.verify(p) == p;
    VerifiedMembers(ctx, after, p);
    assert HasStatus(Verified(ctx, after), node, "complete");
    AliveExactly(Verified(ctx, after), SourceOf(d));
    assert Brings(p, d);
    RowsAreBrought(p, d);
    LastCompleteWins(ctx, after, after, d);
    assert FromLast(ctx, after, Superseded(Statuses(Verified(ctx, after), |Verified(ctx, after)|)), d);
  }

  /** Every unknown of a validated row that passed the gates is asked in the folded state, later rows or not. */
  lemma {:induction false} ValidatedQuestionsReachState(ctx: Context, log: seq<Patch>, results: seq<Row>, runId: string,
      gates: Gates, i: nat, u: Unknown)
    requires runId !in ctx.excluded && KeepsQuestions(ctx.settle)
    requires i < |results| && results[i].state == Validated && results[i].patch.Some?
    requires u in gates.unknowns(results[i].patch.value.unknowns, results[i].node)
    requires var after := Applied(log, results, runId, gates, |results|).0;
      && FoldSpec(ctx, after).Folded?
      && (forall p :: p in after && IsRecordOf(runId, gates, results[i], p) ==> ctx.verify(p) == p)
    ensures var after := Applied(log, results, runId, gates, |results|).0;
      Asked(FoldSpec(ctx, after).state.unknowns, AskKey(AskedOf(u, results[i].node)))
  {
    var after := Applied(log, results, runId, gates, |results|).0;
    var k := RecordStands(log, results, runId, gates, |results|, i);
    var p := after[k];
    assert p in after && ctx.verify(p) == p;
    assert AskedBy(p, AskedOf(u, p.node));
    QuestionsReachState(ctx, after, p, AskedOf(u, p.node));
  }
}
