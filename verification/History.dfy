/** How the log grows: generations stamped at append time (cdp/cli.py:648-654), what a failed
attempt can change, and the two history cuts (cdp/rollback.py:47-76). */
module History {
  import opened Options
  import opened Orders
  import opened Merge
  import opened Fold
  import opened FoldOrder

  // ---------------------------------------------------------------- generations

  /** `_next_generation`. */
  function NextGeneration(log: seq<Patch>, node: string): (g: int)
    ensures forall p :: p in log && p.node == node ==> Generation(p) < g
  {
    if log == [] then 1
    else
      var front, last := log[..|log| - 1], log[|log| - 1];
      assert log == front + [last];
      var g := NextGeneration(front, node);
      if last.node != node then g
      else if !SeenNode(front, node) then Generation(last) + 1
      else if Generation(last) >= g then Generation(last) + 1 else g
  }

  predicate SeenNode(log: seq<Patch>, node: string) {
    exists p :: p in log && p.node == node
  }

  lemma {:induction false} FirstGeneration(log: seq<Patch>, node: string)
    requires !SeenNode(log, node)
    ensures NextGeneration(log, node) == 1
  {
    if log != [] {
      assert log[|log| - 1] in log;
      assert forall p :: p in log[..|log| - 1] ==> p in log;
      FirstGeneration(log[..|log| - 1], node);
    }
  }

  /** It is one more than the greatest generation, not just above it. */
  lemma {:induction false} NextIsGreatestPlusOne(log: seq<Patch>, node: string)
    requires SeenNode(log, node)
    ensures exists p :: p in log && p.node == node && NextGeneration(log, node) == Generation(p) + 1
  {
    var front, last := log[..|log| - 1], log[|log| - 1];
    assert log == front + [last] && last in log;
    assert forall p :: p in front ==> p in log;
    if SeenNode(front, node) {
      NextIsGreatestPlusOne(front, node);
    } else {
      FirstGeneration(front, node);
    }
  }

  /** Complete patches of one node carry strictly increasing generations along the log. */
  ghost predicate GenerationsAscend(log: seq<Patch>) {
    forall i, j :: 0 <= i < j < |log| && log[i].status == COMPLETE && log[j].status == COMPLETE && log[i].node == log[j].node
      ==> Generation(log[i]) < Generation(log[j])
  }

  /** Stamping keeps the order: `known` is what the stamp was computed from, and holds at least
  the log's complete patches. */
  lemma {:induction false} StampKeepsAscending(log: seq<Patch>, known: seq<Patch>, p: Patch)
    requires GenerationsAscend(log) && forall q :: q in log && q.status == COMPLETE ==> q in known
    ensures GenerationsAscend(log + [p.(generation := Some(NextGeneration(known, p.node)))])
    ensures p.status != COMPLETE ==> GenerationsAscend(log + [p])
  {
    assert forall i :: 0 <= i < |log| ==> log[i] in log;
  }

  /** Verification leaves what a patch was stamped with. */
  ghost predicate KeepsStamp(verify: Patch -> Patch) {
    forall p {:trigger verify(p)} :: verify(p).node == p.node && verify(p).status == p.status
      && verify(p).generation == p.generation
  }

  /** A complete patch that the fold reads. */
  ghost predicate Counts(ctx: Context, p: Patch) {
    p.status == COMPLETE && p.runId !in ctx.excluded
  }

  /** The node's last complete patch among those that are not rolled back. */
  ghost predicate IsLastComplete(ctx: Context, log: seq<Patch>, i: nat) {
    && i < |log| && Counts(ctx, log[i])
    && forall j :: i < j < |log| && log[j].node == log[i].node ==> !Counts(ctx, log[j])
  }

  lemma {:induction false} VerifiedMembers(ctx: Context, log: seq<Patch>, v: Patch)
    ensures v in Verified(ctx, log) <==> exists p :: p in log && p.runId !in ctx.excluded && v == ctx.verify(p)
  {
    BlocksMembers(log, VerifiedRow(ctx));
    if p :| p in log && p.runId !in ctx.excluded && v == ctx.verify(p) {
      assert v in VerifiedRow(ctx)(p);
    }
  }

  lemma {:induction false} LaterBeats(ctx: Context, log: seq<Patch>, i: nat, j: nat)
    requires GenerationsAscend(log) && KeepsStamp(ctx.verify) && i < j < |log| && log[i].node == log[j].node
    requires Counts(ctx, log[i]) && Counts(ctx, log[j])
    ensures Better(ctx.patchHash, ctx.verify(log[j]), ctx.verify(log[i]))
  {
  }

  /** A selected patch is the verified form of its node's last complete one. */
  lemma {:induction false} SelectedIsLast(ctx: Context, log: seq<Patch>, read: seq<Patch>, q: Patch) returns (i: nat)
    requires GenerationsAscend(log) && Permuted(log, read) && KeepsStamp(ctx.verify)
    requires IsBestPatch(ctx.patchHash, Verified(ctx, read), q)
    ensures IsLastComplete(ctx, log, i) && q == ctx.verify(log[i])
  {
    SameMembers(log, read);
    VerifiedMembers(ctx, read, q);
    var p :| p in read && p.runId !in ctx.excluded && q == ctx.verify(p);
    i :| 0 <= i < |log| && log[i] == p;
    forall j | i < j < |log| && log[j].node == log[i].node ensures !Counts(ctx, log[j]) {
      if Counts(ctx, log[j]) {
        assert log[j] in read;
        VerifiedMembers(ctx, read, ctx.verify(log[j]));
        LaterBeats(ctx, log, i, j);
      }
    }
  }

  lemma {:induction false} LastIsSelected(ctx: Context, log: seq<Patch>, read: seq<Patch>, i: nat)
    requires GenerationsAscend(log) && Permuted(log, read) && KeepsStamp(ctx.verify) && IsLastComplete(ctx, log, i)
    ensures var ps := Verified(ctx, read); ctx.verify(log[i]) in Best(ctx.patchHash, ps, |ps|)
  {
    var ps := Verified(ctx, read);
    var best := Best(ctx.patchHash, ps, |ps|);
    SameMembers(log, read);
    assert log[i] in read;
    VerifiedMembers(ctx, read, ctx.verify(log[i]));
    BestOfLog(ctx.patchHash, ps);
    assert Represented(best, ctx.verify(log[i]).node);
    var q :| q in best && q.node == log[i].node;
    assert IsBestPatch(ctx.patchHash, ps, q);
    var j := SelectedIsLast(ctx, log, read, q);
    assert log[j].node == log[i].node;
  }

  /** The claim is a live row of some node's last complete patch. */
  ghost predicate FromLast(ctx: Context, log: seq<Patch>, superseded: set<string>, c: Claim) {
    Alive(superseded, c) && exists i: nat :: IsLastComplete(ctx, log, i) && c in ClaimRows()(ctx.verify(log[i]))
  }

  /** Whatever order an ascending log is read in, and whatever the hashes, the claims that reach the merge are exactly
  the live ones of each node's last complete patch, as verified, among the runs that were not rolled back. */
  lemma {:induction false} LastCompleteWins(ctx: Context, log: seq<Patch>, read: seq<Patch>, c: Claim)
    requires GenerationsAscend(log) && Permuted(log, read) && KeepsStamp(ctx.verify)
    ensures var ps := Verified(ctx, read);
      c in ClaimsToMerge(ctx, ps) <==> FromLast(ctx, log, Superseded(Statuses(ps, |ps|)), c)
  {
    var ps := Verified(ctx, read);
    var best, superseded := Best(ctx.patchHash, ps, |ps|), Superseded(Statuses(ps, |ps|));
    FilterMembers(Blocks(best, ClaimRows()), (c: Claim) => Alive(superseded, c));
    if c in Blocks(best, ClaimRows()) {
      var i := RowIsFromLast(ctx, log, read, best, c);
    }
    if FromLast(ctx, log, superseded, c) {
      var i: nat :| IsLastComplete(ctx, log, i) && c in ClaimRows()(ctx.verify(log[i]));
      LastIsSelected(ctx, log, read, i);
      InBlocks(best, ClaimRows(), ctx.verify(log[i]), c);
    }
  }

  lemma {:induction false} RowIsFromLast(ctx: Context, log: seq<Patch>, read: seq<Patch>, best: seq<Patch>, c: Claim)
      returns (i: nat)
    requires GenerationsAscend(log) && Permuted(log, read) && KeepsStamp(ctx.verify)
    requires var ps := Verified(ctx, read); best == Best(ctx.patchHash, ps, |ps|)
    requires c in Blocks(best, ClaimRows())
    ensures IsLastComplete(ctx, log, i) && c in ClaimRows()(ctx.verify(log[i]))
  {
    var q := BlockOf(best, ClaimRows(), c);
    BestOfLog(ctx.patchHash, Verified(ctx, read));
    assert IsBestPatch(ctx.patchHash, Verified(ctx, read), q);
    i := SelectedIsLast(ctx, log, read, q);
  }

  // ------------------------------------------------------------ failed attempts

  ghost predicate KeepsHeader(verify: Patch -> Patch) {
    forall p :: verify(p).node == p.node && verify(p).status == p.status && verify(p).error == p.error
  }

  lemma {:induction false} PrefixUnchanged(ps: seq<Patch>, p: Patch, h: Patch -> string, n: nat)
    requires n <= |ps|
    ensures Statuses(ps + [p], n) == Statuses(ps, n) && Errors(ps + [p], n) == Errors(ps, n) && Best(h, ps + [p], n) == Best(h, ps, n)
  {
    if n > 0 { PrefixUnchanged(ps, p, h, n - 1); }
  }

  lemma {:induction false} CompleteStands(status: map<string, string>, p: Patch)
    requires p.status != COMPLETE && IsComplete(status, p.node)
    ensures StatusStep(status, p) == status
  {
  }

  lemma {:induction false} FailureKeepsStatus(ps: seq<Patch>, p: Patch, h: Patch -> string)
    requires p.status != COMPLETE && IsComplete(Statuses(ps, |ps|), p.node)
    ensures Statuses(ps + [p], |ps| + 1) == Statuses(ps, |ps|)
    ensures Best(h, ps + [p], |ps| + 1) == Best(h, ps, |ps|)
    ensures Errors(ps + [p], |ps| + 1) == if p.error != "" then Errors(ps, |ps|)[p.node := p.error] else Errors(ps, |ps|)
  {
    PrefixUnchanged(ps, p, h, |ps|);
    CompleteStands(Statuses(ps, |ps|), p);
    AppendedFolds(ps, p, h);
  }

  lemma {:induction false} AppendedFolds(ps: seq<Patch>, p: Patch, h: Patch -> string)
    ensures var qs, n := ps + [p], |ps|;
      && Statuses(qs, n + 1) == StatusStep(Statuses(qs, n), p)
      && Best(h, qs, n + 1) == BestStep(h, Best(h, qs, n), p)
      && Errors(qs, n + 1) == if p.error != "" then Errors(qs, n)[p.node := p.error] else Errors(qs, n)
  {
    assert (ps + [p])[|ps|] == p;
  }

  lemma {:induction false} UnnamedErrorKeepsGaps(status: map<string, string>, x: map<string, string>, y: map<string, string>, node: string)
    requires IsComplete(status, node) && forall n :: n != node ==> (n in x <==> n in y) && (n in x ==> x[n] == y[n])
    ensures StatedGaps(status, y) == StatedGaps(status, x)
  {
    SameGaps(status, x, y, SortedSet(Superseded(status)));
  }

  lemma {:induction false} FailureAddsNoRows(ps: seq<Patch>, p: Patch)
    requires p.status != COMPLETE
    ensures Blocks(ps + [p], UnknownRows()) == Blocks(ps, UnknownRows())
  {
    BlocksAppend(ps, [p], UnknownRows());
    assert Blocks([p], UnknownRows()) == [];
  }

  lemma {:induction false} SameUnknowns(a: seq<Patch>, b: seq<Patch>)
    requires Blocks(a, UnknownRows()) == Blocks(b, UnknownRows())
    requires StatedGaps(Statuses(a, |a|), Errors(a, |a|)) == StatedGaps(Statuses(b, |b|), Errors(b, |b|))
    ensures AllUnknowns(a) == AllUnknowns(b)
  {
  }

  lemma {:induction false} FailureKeepsUnknowns(ps: seq<Patch>, p: Patch, h: Patch -> string)
    requires p.status != COMPLETE && IsComplete(Statuses(ps, |ps|), p.node)
    ensures AllUnknowns(ps + [p]) == AllUnknowns(ps)
  {
    FailureKeepsStatus(ps, p, h);
    UnnamedErrorKeepsGaps(Statuses(ps, |ps|), Errors(ps, |ps|), Errors(ps + [p], |ps| + 1), p.node);
    FailureAddsNoRows(ps, p);
    SameUnknowns(ps, ps + [p]);
  }

  lemma {:induction false} SameInputsSameFold(ctx: Context, a: seq<Patch>, b: seq<Patch>)
    requires Statuses(a, |a|) == Statuses(b, |b|) && AllUnknowns(a) == AllUnknowns(b)
    requires Best(ctx.patchHash, a, |a|) == Best(ctx.patchHash, b, |b|)
    ensures SameView(FoldVerified(ctx, a), FoldVerified(ctx, b))
    ensures FoldVerified(ctx, a).Folded? ==> FoldVerified(ctx, a).state.unknowns == FoldVerified(ctx, b).state.unknowns
  {
    assert ClaimsToMerge(ctx, a) == ClaimsToMerge(ctx, b);
  }

  /** Appending a failed, invalid or pending patch to a node that is already complete changes no
  claim, conflict, unknown, status or coverage figure. */
  lemma {:induction false} LateFailureChangesNothing(ctx: Context, log: seq<Patch>, p: Patch)
    requires KeepsHeader(ctx.verify) && p.status != COMPLETE
    requires var ps := Verified(ctx, log); IsComplete(Statuses(ps, |ps|), p.node)
    ensures SameView(FoldSpec(ctx, log), FoldSpec(ctx, log + [p]))
    ensures FoldSpec(ctx, log).Folded? ==> FoldSpec(ctx, log).state.unknowns == FoldSpec(ctx, log + [p]).state.unknowns
  {
    var ps, qs := Verified(ctx, log), Verified(ctx, log + [p]);
    BlocksAppend(log, [p], VerifiedRow(ctx));
    assert Verified(ctx, [p]) == VerifiedRow(ctx)(p);
    if p.runId in ctx.excluded {
      assert qs == ps;
    } else {
      assert qs == ps + [ctx.verify(p)];
      VerifiedFailureChangesNothing(ctx, ps, ctx.verify(p));
    }
  }

  lemma {:induction false} VerifiedFailureChangesNothing(ctx: Context, ps: seq<Patch>, p: Patch)
    requires p.status != COMPLETE && IsComplete(Statuses(ps, |ps|), p.node)
    ensures SameView(FoldVerified(ctx, ps), FoldVerified(ctx, ps + [p]))
    ensures FoldVerified(ctx, ps).Folded? ==> FoldVerified(ctx, ps).state.unknowns == FoldVerified(ctx, ps + [p]).state.unknowns
  {
    FailureKeepsStatus(ps, p, ctx.patchHash);
    FailureKeepsUnknowns(ps, p, ctx.patchHash);
    SameInputsSameFold(ctx, ps, ps + [p]);
  }

  // ------------------------------------------------------------------ rollback

  /** The patches up to the run's last one, the run ids after it, and whether the run was found. */
  datatype Cut = Cut(kept: seq<Patch>, excluded: set<string>, found: bool)

  function RunIds(patches: seq<Patch>): set<string> {
    set p | p in patches :: p.runId
  }

  ghost predicate IsLastOf(patches: seq<Patch>, runId: string, i: nat) {
    && i < |patches| && patches[i].runId == runId
    && forall j :: i < j < |patches| ==> patches[j].runId != runId
  }

  /** `patches_up_to_run`. */
  method PatchesUpToRun(patches: seq<Patch>, runId: string) returns (cut: Cut)
    ensures cut.found <==> runId in RunIds(patches)
    ensures !cut.found ==> cut.kept == patches && cut.excluded == {}
    ensures cut.found ==> exists i :: IsLastOf(patches, runId, i) && IsCut(patches, i, cut)
  {
    var last := -1;
    for i := 0 to |patches|
      invariant -1 <= last < i
      invariant last == -1 ==> forall j :: 0 <= j < i ==> patches[j].runId != runId
      invariant last != -1 ==> patches[last].runId == runId && forall j :: last < j < i ==> patches[j].runId != runId
    {
      if patches[i].runId == runId { last := i; }
    }
    if last == -1 { return Cut(patches, {}, false); }
    cut := Cut(patches[..last + 1], RunIds(patches[last + 1..]), true);
    assert IsLastOf(patches, runId, last) && IsCut(patches, last, cut);
  }

  ghost predicate IsCut(patches: seq<Patch>, i: nat, cut: Cut) {
    i < |patches| && cut == Cut(patches[..i + 1], RunIds(patches[i + 1..]), true)
  }

  /** `fold`'s filter by excluded run ids. */
  function Selected(patches: seq<Patch>, excluded: set<string>): seq<Patch> {
    Filter(patches, (p: Patch) => p.runId !in excluded)
  }

  ghost predicate Subsequence<T(!new)>(a: seq<T>, b: seq<T>) {
    a == [] || (b != [] && (if a[0] == b[0] then Subsequence(a[1..], b[1..]) || Subsequence(a, b[1..]) else Subsequence(a, b[1..])))
  }

  lemma {:induction false} FilterIsSubsequence<T(!new)>(s: seq<T>, p: T -> bool)
    ensures Subsequence(Filter(s, p), s)
  {
    if s != [] {
      FilterIsSubsequence(s[1..], p);
      if p(s[0]) { assert Filter(s, p)[1..] == Filter(s[1..], p); }
    }
  }

  lemma {:induction false} FilterAll<T(!new)>(s: seq<T>, p: T -> bool)
    ensures Filter(s, p) == s <==> forall x :: x in s ==> p(x)
    ensures |Filter(s, p)| <= |s|
  {
    if s != [] {
      FilterAll(s[1..], p);
      if p(s[0]) {
        assert Filter(s, p)[1..] == Filter(s[1..], p);
        assert s == [s[0]] + s[1..];
        assert Filter(s, p) == [s[0]] + Filter(s[1..], p);
      } else {
        assert s[0] in s;
      }
    }
  }

  /** No run has patches on both sides of the cut. */
  ghost predicate NoStraddler(patches: seq<Patch>, i: nat)
    requires i < |patches|
  {
    RunIds(patches[..i + 1]) !! RunIds(patches[i + 1..])
  }

  lemma {:induction false} NothingSelected(patches: seq<Patch>, excluded: set<string>)
    requires RunIds(patches) <= excluded
    ensures Selected(patches, excluded) == []
  {
    if patches != [] {
      assert patches[0] in patches;
      NothingSelected(patches[1..], excluded);
    }
  }

  /** The runs that a rollback excludes: those of the ledger so far and those after the cut. */
  function AllExcluded(prior: set<string>, cut: Cut): set<string> {
    prior + cut.excluded
  }

  /** The two history cuts. Filtering the whole log by all excluded run ids selects a subsequence of the kept prefix,
  and the whole prefix exactly when no run straddles the cut and no kept run was rolled back before. */
  lemma {:induction false} CutsAgreeExactly(patches: seq<Patch>, i: nat, cut: Cut, prior: set<string>)
    requires IsCut(patches, i, cut)
    ensures Subsequence(Selected(patches, AllExcluded(prior, cut)), cut.kept)
    ensures Selected(patches, AllExcluded(prior, cut)) == cut.kept
      <==> NoStraddler(patches, i) && RunIds(cut.kept) !! prior
  {
    SelectedIsKept(patches, i, AllExcluded(prior, cut));
    SelectedAll(cut.kept, AllExcluded(prior, cut));
    ApartFromBoth(RunIds(cut.kept), prior, cut.excluded);
  }

  lemma {:induction false} SelectedIsKept(patches: seq<Patch>, i: nat, excluded: set<string>)
    requires i < |patches| && RunIds(patches[i + 1..]) <= excluded
    ensures Selected(patches, excluded) == Selected(patches[..i + 1], excluded)
  {
    assert patches == patches[..i + 1] + patches[i + 1..];
    FilterAppend(patches[..i + 1], patches[i + 1..], (p: Patch) => p.runId !in excluded);
    NothingSelected(patches[i + 1..], excluded);
  }

  lemma {:induction false} SelectedAll(patches: seq<Patch>, excluded: set<string>)
    ensures Subsequence(Selected(patches, excluded), patches)
    ensures Selected(patches, excluded) == patches <==> RunIds(patches) !! excluded
  {
    FilterIsSubsequence(patches, (p: Patch) => p.runId !in excluded);
    FilterAll(patches, (p: Patch) => p.runId !in excluded);
    RunsApart(patches, excluded);
  }

  lemma {:induction false} ApartFromBoth(runs: set<string>, a: set<string>, b: set<string>)
    ensures runs !! a + b <==> runs !! a && runs !! b
  {
  }

  lemma {:induction false} RunsApart(patches: seq<Patch>, excluded: set<string>)
    ensures RunIds(patches) !! excluded <==> forall p :: p in patches ==> p.runId !in excluded
  {
    if RunIds(patches) !! excluded {
      forall p | p in patches ensures p.runId !in excluded { assert p.runId in RunIds(patches); }
    }
  }

  lemma {:induction false} VerifiedSelects(ctx: Context, patches: seq<Patch>)
    ensures Verified(ctx, patches) == Verified(ctx.(excluded := {}), Selected(patches, ctx.excluded))
  {
    if patches != [] {
      VerifiedSelects(ctx, patches[1..]);
      var rest := Selected(patches[1..], ctx.excluded);
      if patches[0].runId !in ctx.excluded {
        assert Selected(patches, ctx.excluded)[1..] == rest;
      }
    }
  }

  /** Without a repository the fold takes every patch as it was recorded. */
  function AsRecorded(): Patch -> Patch {
    (p: Patch) => p
  }

  /** `--as-of`: the kept prefix, unverified, whatever was rolled back since. */
  function AsOf(ctx: Context, cut: Cut): Folded {
    FoldSpec(ctx.(verify := AsRecorded(), excluded := {}), cut.kept)
  }

  /** `rollback --to-snapshot`: the whole log, verified against the tree, without the excluded runs. */
  function RolledBack(ctx: Context, patches: seq<Patch>, prior: set<string>, cut: Cut): Folded {
    FoldSpec(ctx.(excluded := AllExcluded(prior, cut)), patches)
  }

  lemma {:induction false} VerifiedUnchanged(ctx: Context, patches: seq<Patch>)
    requires ctx.excluded == {} && forall p :: p in patches ==> ctx.verify(p) == p
    ensures Verified(ctx, patches) == patches
  {
    if patches != [] {
      assert patches[0] in patches;
      VerifiedUnchanged(ctx, patches[1..]);
    }
  }

  /** The two commands show one state when they read the same patches and verification leaves those as they were
  recorded. */
  lemma {:induction false} AsOfMatchesRollback(ctx: Context, patches: seq<Patch>, i: nat, cut: Cut, prior: set<string>)
    requires IsCut(patches, i, cut) && NoStraddler(patches, i) && RunIds(cut.kept) !! prior
    requires forall p :: p in cut.kept ==> ctx.verify(p) == p
    ensures AsOf(ctx, cut) == RolledBack(ctx, patches, prior, cut)
  {
    var recorded, rolled := ctx.(verify := AsRecorded(), excluded := {}), ctx.(excluded := AllExcluded(prior, cut));
    CutsAgreeExactly(patches, i, cut, prior);
    VerifiedSelects(rolled, patches);
    VerifiedUnchanged(recorded, cut.kept);
    VerifiedUnchanged(rolled.(excluded := {}), cut.kept);
    SameLogSameFold(recorded, rolled, cut.kept);
  }

  lemma {:induction false} SameLogSameFold(a: Context, b: Context, ps: seq<Patch>)
    requires a == b.(verify := a.verify, excluded := a.excluded)
    ensures FoldVerified(a, ps) == FoldVerified(b, ps)
  {
  }
}
