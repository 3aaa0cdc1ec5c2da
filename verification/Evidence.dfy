/** Evidence or drop (cdp/verify.py:49-154): each claim of a patch is kept with the anchors that were found again,
or demoted to an unknown. */
module Evidence {
  import opened Options
  import opened Orders
  import opened Anchors
  import opened Citations
  import opened Merge
  import opened Text

  datatype Mode = Strict | Lenient

  /** What a patch is verified against: the lines of each file, renames, really edited files, and the commit that
  is stamped on kept claims ("" stamps none). */
  datatype Tree = Tree(lines: string -> seq<string>, renames: map<string, string>, edited: set<string>, head: string)

  /** A kept claim, its stamp, and whether its review was invalidated. */
  datatype Kept = Kept(claim: Claim, verifiedAt: string, reviewCleared: bool)

  datatype Failure = Failure(anchor: Anchor, fault: Fault)

  /** The unknown a demoted claim becomes. */
  datatype Demotion = Demotion(id: string, statement: string, fault: Fault, anchor: Option<Anchor>)

  datatype Counts = Counts(claimsIn: nat, claimsKept: nat, claimsDemoted: nat, anchorsChecked: nat, anchorsOk: nat,
                           anchorsRelocated: nat, wouldSurviveLenient: nat, reasons: map<Fault, nat>)

  // ------------------------------------------------------------------- anchors

  function ReadFile(tree: Tree, file: string): string {
    if file in tree.renames then tree.renames[file] else file
  }

  /** What is found for each anchor. */
  type Judge = Anchor -> Finding

  ghost predicate Judges(tree: Tree, judge: Judge) {
    forall a: Anchor {:trigger IsFinding(tree.lines(ReadFile(tree, a.file)), a, judge(a))} ::
      IsFinding(tree.lines(ReadFile(tree, a.file)), a, judge(a))
  }

  /** There is one: the finding of each anchor in its file. */
  lemma {:induction false} TreeHasJudge(tree: Tree) returns (judge: Judge)
    ensures Judges(tree, judge)
  {
    judge := (a: Anchor) => FindingOf(tree.lines(ReadFile(tree, a.file)), a);
  }

  function Corrected(tree: Tree, a: Anchor, line: int): Anchor {
    Anchor(ReadFile(tree, a.file), line, a.text)
  }

  /** The corrected anchors of the first `n` that were found. */
  ghost function Good(tree: Tree, judge: Judge, evidence: seq<Anchor>, n: nat): (r: seq<Anchor>)
    requires n <= |evidence|
    ensures |r| + |Failures(tree, judge, evidence, n)| == n
  {
    if n == 0 then []
    else
      var v := judge(evidence[n - 1]);
      Good(tree, judge, evidence, n - 1) + if v.ok then [Corrected(tree, evidence[n - 1], v.line)] else []
  }

  ghost function Failures(tree: Tree, judge: Judge, evidence: seq<Anchor>, n: nat): seq<Failure>
    requires n <= |evidence|
  {
    if n == 0 then []
    else
      var v := judge(evidence[n - 1]);
      Failures(tree, judge, evidence, n - 1)
      + if v.ok then [] else [Failure(evidence[n - 1], if v.reason.Some? then v.reason.value else NotFound)]
  }

  ghost function Relocated(tree: Tree, judge: Judge, evidence: seq<Anchor>, n: nat): nat
    requires n <= |evidence|
  {
    if n == 0 then 0
    else
      var a, v := evidence[n - 1], judge(evidence[n - 1]);
      Relocated(tree, judge, evidence, n - 1) + if v.ok && Corrected(tree, a, v.line) != a then 1 else 0
  }

  predicate TouchesEdited(tree: Tree, evidence: seq<Anchor>) {
    exists i :: 0 <= i < |evidence| && ReadFile(tree, evidence[i].file) in tree.edited
  }

  /** The inner loop: check every anchor of one claim. */
  method CheckAnchors(tree: Tree, ghost judge: Judge, evidence: seq<Anchor>)
      returns (good: seq<Anchor>, failures: seq<Failure>, relocated: nat, touchesEdited: bool)
    requires Judges(tree, judge)
    ensures good == Good(tree, judge, evidence, |evidence|) && failures == Failures(tree, judge, evidence, |evidence|)
    ensures relocated == Relocated(tree, judge, evidence, |evidence|) && touchesEdited == TouchesEdited(tree, evidence)
  {
    good, failures, relocated, touchesEdited := [], [], 0, false;
    for i := 0 to |evidence|
      invariant good == Good(tree, judge, evidence, i) && failures == Failures(tree, judge, evidence, i)
      invariant relocated == Relocated(tree, judge, evidence, i)
      invariant touchesEdited <==> exists j :: 0 <= j < i && ReadFile(tree, evidence[j].file) in tree.edited
    {
      var file := ReadFile(tree, evidence[i].file);
      if file in tree.edited { touchesEdited := true; }
      var v := CheckAnchor(tree, judge, evidence[i]);
      if v.ok {
        if v.line != evidence[i].line || file != evidence[i].file { relocated := relocated + 1; }
        good := good + [Anchor(file, v.line, evidence[i].text)];
      } else {
        failures := failures + [Failure(evidence[i], if v.reason.Some? then v.reason.value else NotFound)];
      }
    }
  }

  /** One anchor; a file without lines fails every anchor. */
  method CheckAnchor(tree: Tree, ghost judge: Judge, a: Anchor) returns (v: Finding)
    requires Judges(tree, judge)
    ensures v == judge(a)
  {
    var lines := tree.lines(ReadFile(tree, a.file));
    if lines == [] {
      v := Finding(false, a.line, Some(NotFound));
      NothingInEmptyFile(a);
    } else {
      v := VerifyAnchor(lines, a);
    }
    assert IsFinding(lines, a, judge(a));
    FindingIsUnique(lines, a, v, judge(a));
  }

  lemma {:induction false} NothingInEmptyFile(a: Anchor)
    ensures IsFinding([], a, Finding(false, a.line, Some(NotFound)))
  {
    assert Hits([], a.text) == {};
  }

  // -------------------------------------------------------------------- claims

  predicate Survives(mode: Mode, good: seq<Anchor>, failures: seq<Failure>) {
    if mode == Lenient then good != [] else good != [] && failures == []
  }

  ghost predicate ClaimSurvives(tree: Tree, judge: Judge, mode: Mode, c: Claim) {
    Survives(mode, Good(tree, judge, c.evidence, |c.evidence|), Failures(tree, judge, c.evidence, |c.evidence|))
  }

  ghost function KeptClaim(tree: Tree, judge: Judge, c: Claim): Kept {
    Kept(c.(evidence := Good(tree, judge, c.evidence, |c.evidence|)), tree.head, TouchesEdited(tree, c.evidence))
  }

  ghost function DemotedClaim(tree: Tree, judge: Judge, c: Claim): Demotion {
    var failures := Failures(tree, judge, c.evidence, |c.evidence|);
    if failures == [] then Demotion(c.id, c.statement, NotFound, None)
    else Demotion(c.id, c.statement, failures[0].fault, Some(failures[0].anchor))
  }

  ghost function KeptRow(tree: Tree, judge: Judge, mode: Mode, c: Claim): seq<Kept> {
    if ClaimSurvives(tree, judge, mode, c) then [KeptClaim(tree, judge, c)] else []
  }

  ghost function DemotedRow(tree: Tree, judge: Judge, mode: Mode, c: Claim): seq<Demotion> {
    if ClaimSurvives(tree, judge, mode, c) then [] else [DemotedClaim(tree, judge, c)]
  }

  /** The rows the first `n` claims give, in order. */
  ghost function Rows<T>(claims: seq<Claim>, row: Claim -> seq<T>, n: nat): seq<T>
    requires n <= |claims|
  {
    if n == 0 then [] else Rows(claims, row, n - 1) + row(claims[n - 1])
  }

  lemma {:induction false} RowComesFrom<T>(claims: seq<Claim>, row: Claim -> seq<T>, n: nat, k: nat) returns (i: nat)
    requires n <= |claims| && k < |Rows(claims, row, n)|
    ensures i < n && Rows(claims, row, n)[k] in row(claims[i])
  {
    if k < |Rows(claims, row, n - 1)| {
      i := RowComesFrom(claims, row, n - 1, k);
    } else {
      i := n - 1;
      assert Rows(claims, row, n)[k] == row(claims[i])[k - |Rows(claims, row, n - 1)|];
    }
  }

  /** The claims kept among the first `n`, in order. */
  ghost function KeptClaims(tree: Tree, judge: Judge, mode: Mode, claims: seq<Claim>, n: nat): seq<Kept>
    requires n <= |claims|
  {
    Rows(claims, (c: Claim) => KeptRow(tree, judge, mode, c), n)
  }

  ghost function Demotions(tree: Tree, judge: Judge, mode: Mode, claims: seq<Claim>, n: nat): seq<Demotion>
    requires n <= |claims|
  {
    Rows(claims, (c: Claim) => DemotedRow(tree, judge, mode, c), n)
  }

  function Bump(reasons: map<Fault, nat>, f: Fault): map<Fault, nat> {
    reasons[f := (if f in reasons then reasons[f] else 0) + 1]
  }

  function Occurrences(ds: seq<Demotion>, f: Fault): nat {
    if ds == [] then 0 else Occurrences(ds[..|ds| - 1], f) + if ds[|ds| - 1].fault == f then 1 else 0
  }

  ghost predicate CountsReasons(reasons: map<Fault, nat>, ds: seq<Demotion>) {
    forall f :: (f in reasons <==> Occurrences(ds, f) > 0) && (f in reasons ==> reasons[f] == Occurrences(ds, f))
  }

  lemma {:induction false} BumpCounts(reasons: map<Fault, nat>, ds: seq<Demotion>, d: Demotion)
    requires CountsReasons(reasons, ds)
    ensures CountsReasons(Bump(reasons, d.fault), ds + [d])
  {
    assert (ds + [d])[..|ds|] == ds;
  }

  ghost function SumChecked(claims: seq<Claim>, n: nat): nat
    requires n <= |claims|
  {
    if n == 0 then 0 else SumChecked(claims, n - 1) + |claims[n - 1].evidence|
  }

  ghost function SumOk(tree: Tree, judge: Judge, claims: seq<Claim>, n: nat): nat
    requires n <= |claims|
  {
    if n == 0 then 0
    else SumOk(tree, judge, claims, n - 1) + |Good(tree, judge, claims[n - 1].evidence, |claims[n - 1].evidence|)|
  }

  ghost function SumRelocated(tree: Tree, judge: Judge, claims: seq<Claim>, n: nat): nat
    requires n <= |claims|
  {
    if n == 0 then 0
    else SumRelocated(tree, judge, claims, n - 1) + Relocated(tree, judge, claims[n - 1].evidence, |claims[n - 1].evidence|)
  }

  /** What the counters say of the first `n` claims. */
  ghost predicate Tally(tree: Tree, judge: Judge, mode: Mode, claims: seq<Claim>, n: nat, kept: seq<Kept>,
      demoted: seq<Demotion>, stats: Counts) {
    && n <= |claims| && stats.claimsIn == n == stats.claimsKept + stats.claimsDemoted
    && stats.claimsKept == |kept| && stats.claimsDemoted == |demoted| && CountsReasons(stats.reasons, demoted)
    && stats.anchorsChecked == SumChecked(claims, n) && stats.anchorsOk == SumOk(tree, judge, claims, n)
    && stats.anchorsRelocated == SumRelocated(tree, judge, claims, n)
    && stats.wouldSurviveLenient == |KeptClaims(tree, judge, Lenient, claims, n)| - |kept|
  }

  function CountAnchors(stats: Counts, checked: nat, ok: nat, relocated: nat): Counts {
    stats.(claimsIn := stats.claimsIn + 1, anchorsChecked := stats.anchorsChecked + checked,
           anchorsOk := stats.anchorsOk + ok, anchorsRelocated := stats.anchorsRelocated + relocated)
  }

  function CountKept(stats: Counts): Counts {
    stats.(claimsKept := stats.claimsKept + 1)
  }

  function CountDemoted(stats: Counts, fault: Fault, someGood: bool): Counts {
    stats.(claimsDemoted := stats.claimsDemoted + 1, reasons := Bump(stats.reasons, fault),
           wouldSurviveLenient := stats.wouldSurviveLenient + if someGood then 1 else 0)
  }

  /** The counters after one more claim. */
  ghost function Counted(tree: Tree, judge: Judge, mode: Mode, c: Claim, stats: Counts): Counts {
    var good := Good(tree, judge, c.evidence, |c.evidence|);
    var counted := CountAnchors(stats, |c.evidence|, |good|, Relocated(tree, judge, c.evidence, |c.evidence|));
    if ClaimSurvives(tree, judge, mode, c) then CountKept(counted)
    else CountDemoted(counted, DemotedClaim(tree, judge, c).fault, good != [])
  }

  /** A claim with any good anchor at all is kept in lenient mode. */
  lemma {:induction false} LenientOneMore(tree: Tree, judge: Judge, claims: seq<Claim>, n: nat)
    requires n < |claims|
    ensures var good := Good(tree, judge, claims[n].evidence, |claims[n].evidence|);
      |KeptClaims(tree, judge, Lenient, claims, n + 1)|
      == |KeptClaims(tree, judge, Lenient, claims, n)| + if good != [] then 1 else 0
  {
    var row := (c: Claim) => KeptRow(tree, judge, Lenient, c);
    assert Rows(claims, row, n + 1) == Rows(claims, row, n) + row(claims[n]);
  }

  lemma {:induction false} TallyStep(tree: Tree, judge: Judge, mode: Mode, claims: seq<Claim>, n: nat, kept: seq<Kept>,
      demoted: seq<Demotion>, stats: Counts)
    requires n < |claims| && Tally(tree, judge, mode, claims, n, kept, demoted, stats)
    ensures Tally(tree, judge, mode, claims, n + 1, kept + KeptRow(tree, judge, mode, claims[n]),
                  demoted + DemotedRow(tree, judge, mode, claims[n]), Counted(tree, judge, mode, claims[n], stats))
  {
    var c := claims[n];
    LenientOneMore(tree, judge, claims, n);
    if ClaimSurvives(tree, judge, mode, c) {
      assert DemotedRow(tree, judge, mode, c) == [] && demoted + [] == demoted;
      assert |kept + KeptRow(tree, judge, mode, c)| == |kept| + 1;
    } else {
      assert KeptRow(tree, judge, mode, c) == [] && kept + [] == kept;
      assert DemotedRow(tree, judge, mode, c) == [DemotedClaim(tree, judge, c)];
      BumpCounts(stats.reasons, demoted, DemotedClaim(tree, judge, c));
    }
  }

  /** The outer loop's body. */
  method VerifyClaim(tree: Tree, ghost judge: Judge, mode: Mode, c: Claim, stats: Counts)
      returns (kept: seq<Kept>, demoted: seq<Demotion>, counts: Counts)
    requires Judges(tree, judge)
    ensures kept == KeptRow(tree, judge, mode, c) && demoted == DemotedRow(tree, judge, mode, c)
    ensures counts == Counted(tree, judge, mode, c, stats)
  {
    var good, failures, relocated, touchesEdited := CheckAnchors(tree, judge, c.evidence);
    var counted := CountAnchors(stats, |c.evidence|, |good|, relocated);
    if Survives(mode, good, failures) {
      kept, demoted := [Kept(c.(evidence := good), tree.head, touchesEdited)], [];
      counts := CountKept(counted);
    } else {
      // With no failure there is no good anchor either, so the source's branch for one is never taken.
      var d := if failures == [] then Demotion(c.id, c.statement, NotFound, None)
        else Demotion(c.id, c.statement, failures[0].fault, Some(failures[0].anchor));
      kept, demoted := [], [d];
      counts := CountDemoted(counted, d.fault, good != []);
    }
  }

  /** `verify_patch`. In strict mode `wouldSurviveLenient` is how many more claims lenient mode would keep. */
  method VerifyPatch(tree: Tree, ghost judge: Judge, mode: Mode, claims: seq<Claim>)
      returns (kept: seq<Kept>, demoted: seq<Demotion>, stats: Counts)
    requires Judges(tree, judge)
    ensures kept == KeptClaims(tree, judge, mode, claims, |claims|)
    ensures demoted == Demotions(tree, judge, mode, claims, |claims|)
    ensures Tally(tree, judge, mode, claims, |claims|, kept, demoted, stats)
  {
    kept, demoted := [], [];
    stats := Counts(0, 0, 0, 0, 0, 0, 0, map[]);
    for i := 0 to |claims|
      invariant kept == KeptClaims(tree, judge, mode, claims, i)
      invariant demoted == Demotions(tree, judge, mode, claims, i)
      invariant Tally(tree, judge, mode, claims, i, kept, demoted, stats)
    {
      TallyStep(tree, judge, mode, claims, i, kept, demoted, stats);
      var keptHere, demotedHere, counts := VerifyClaim(tree, judge, mode, claims[i], stats);
      kept, demoted, stats := kept + keptHere, demoted + demotedHere, counts;
    }
  }

  // ----------------------------------------------------------- what becomes of a claim

  /** The anchors that were found, in order, each with the file that was read and the line it was found on. */
  ghost predicate KeepsAnchors(tree: Tree, judge: Judge, evidence: seq<Anchor>, kept: seq<Anchor>, picks: seq<nat>) {
    && |picks| == |kept| && (forall k, l :: 0 <= k < l < |picks| ==> picks[k] < picks[l])
    && (forall k :: 0 <= k < |picks| ==> picks[k] < |evidence| && IsFoundAs(tree, judge, evidence[picks[k]], kept[k]))
    && forall i: nat :: i < |evidence| && judge(evidence[i]).ok ==> i in picks
  }

  predicate IsFoundAs(tree: Tree, judge: Judge, a: Anchor, found: Anchor) {
    && judge(a).ok && found.line == judge(a).line && found.text == a.text
    && found.file == if a.file in tree.renames then tree.renames[a.file] else a.file
  }

  lemma {:induction false} GoodAreKept(tree: Tree, judge: Judge, evidence: seq<Anchor>, n: nat) returns (picks: seq<nat>)
    requires n <= |evidence|
    ensures KeepsAnchors(tree, judge, evidence[..n], Good(tree, judge, evidence, n), picks)
  {
    if n == 0 {
      picks := [];
    } else {
      var before := GoodAreKept(tree, judge, evidence, n - 1);
      var a := evidence[n - 1];
      assert evidence[..n] == evidence[..n - 1] + [a];
      if judge(a).ok {
        picks := before + [n - 1];
        KeepsFound(tree, judge, evidence[..n - 1], Good(tree, judge, evidence, n - 1), before, a,
                   Corrected(tree, a, judge(a).line));
      } else {
        picks := before;
        KeepsNotFound(tree, judge, evidence[..n - 1], Good(tree, judge, evidence, n - 1), before, a);
        assert Good(tree, judge, evidence, n - 1) + [] == Good(tree, judge, evidence, n - 1);
      }
    }
  }

  lemma {:induction false} KeepsFound(tree: Tree, judge: Judge, evidence: seq<Anchor>, kept: seq<Anchor>,
      picks: seq<nat>, a: Anchor, found: Anchor)
    requires KeepsAnchors(tree, judge, evidence, kept, picks) && IsFoundAs(tree, judge, a, found)
    ensures KeepsAnchors(tree, judge, evidence + [a], kept + [found], picks + [|evidence|])
  {
    var all, more := evidence + [a], picks + [|evidence|];
    forall i: nat | i < |all| && judge(all[i]).ok ensures i in more {
      if i < |evidence| { assert i in picks; } else { assert more[|picks|] == i; }
    }
  }

  lemma {:induction false} KeepsNotFound(tree: Tree, judge: Judge, evidence: seq<Anchor>, kept: seq<Anchor>,
      picks: seq<nat>, a: Anchor)
    requires KeepsAnchors(tree, judge, evidence, kept, picks) && !judge(a).ok
    ensures KeepsAnchors(tree, judge, evidence + [a], kept, picks)
  {
  }

  /** Lenient mode asks for one anchor that was found, strict mode for all, and for at least one. */
  predicate Passes(judge: Judge, mode: Mode, evidence: seq<Anchor>) {
    if mode == Lenient then exists i :: 0 <= i < |evidence| && judge(evidence[i]).ok
    else evidence != [] && forall i :: 0 <= i < |evidence| ==> judge(evidence[i]).ok
  }

  lemma {:induction false} GoodAndFailures(tree: Tree, judge: Judge, evidence: seq<Anchor>, n: nat)
    requires n <= |evidence|
    ensures Good(tree, judge, evidence, n) != [] <==> exists i :: 0 <= i < n && judge(evidence[i]).ok
    ensures Failures(tree, judge, evidence, n) == [] <==> forall i :: 0 <= i < n ==> judge(evidence[i]).ok
    ensures Failures(tree, judge, evidence, n) != [] ==> FailsFirst(judge, evidence, Failures(tree, judge, evidence, n)[0])
  {
    if n > 0 { GoodAndFailures(tree, judge, evidence, n - 1); }
  }

  /** The first anchor that was not found, and why. */
  ghost predicate FailsFirst(judge: Judge, evidence: seq<Anchor>, f: Failure) {
    exists i :: 0 <= i < |evidence| && !judge(evidence[i]).ok && (forall j :: 0 <= j < i ==> judge(evidence[j]).ok)
      && f == Failure(evidence[i], match judge(evidence[i]).reason case None => NotFound case Some(r) => r)
  }

  ghost predicate IsDemotionOf(judge: Judge, c: Claim, d: Demotion) {
    && d.id == c.id && d.statement == c.statement
    && if c.evidence == [] then d.fault == NotFound && d.anchor == None
       else d.anchor.Some? && FailsFirst(judge, c.evidence, Failure(d.anchor.value, d.fault))
  }

  /** A claim passes by its mode. If it does, it keeps exactly the anchors that were found and is stamped with the
  commit; its review is cleared when a file it cites was really edited. If not, it is demoted for the first anchor
  that failed. */
  lemma {:induction false} ClaimFate(tree: Tree, judge: Judge, mode: Mode, c: Claim) returns (picks: seq<nat>)
    ensures ClaimSurvives(tree, judge, mode, c) <==> Passes(judge, mode, c.evidence)
    ensures var kept := KeptClaim(tree, judge, c);
      && kept.claim == c.(evidence := kept.claim.evidence) && kept.verifiedAt == tree.head
      && KeepsAnchors(tree, judge, c.evidence, kept.claim.evidence, picks)
      && (kept.reviewCleared <==> CitesEdited(tree, c.evidence))
    ensures !Passes(judge, mode, c.evidence) ==> IsDemotionOf(judge, c, DemotedClaim(tree, judge, c))
  {
    GoodAndFailures(tree, judge, c.evidence, |c.evidence|);
    picks := GoodAreKept(tree, judge, c.evidence, |c.evidence|);
    assert c.evidence[..|c.evidence|] == c.evidence;
    EditedExactly(tree, c.evidence);
    if !Passes(judge, mode, c.evidence) { DemotionSays(tree, judge, mode, c); }
  }

  /** A file that an anchor is checked against was really edited. */
  ghost predicate CitesEdited(tree: Tree, evidence: seq<Anchor>) {
    exists a :: a in evidence && (if a.file in tree.renames then tree.renames[a.file] else a.file) in tree.edited
  }

  lemma {:induction false} EditedExactly(tree: Tree, evidence: seq<Anchor>)
    ensures TouchesEdited(tree, evidence) <==> CitesEdited(tree, evidence)
  {
    if a :| a in evidence && (if a.file in tree.renames then tree.renames[a.file] else a.file) in tree.edited {
      var i :| 0 <= i < |evidence| && evidence[i] == a;
      assert ReadFile(tree, evidence[i].file) in tree.edited;
    }
    if i :| 0 <= i < |evidence| && ReadFile(tree, evidence[i].file) in tree.edited { assert evidence[i] in evidence; }
  }

  lemma {:induction false} DemotionSays(tree: Tree, judge: Judge, mode: Mode, c: Claim)
    requires !Passes(judge, mode, c.evidence)
    ensures IsDemotionOf(judge, c, DemotedClaim(tree, judge, c))
  {
    GoodAndFailures(tree, judge, c.evidence, |c.evidence|);
    if c.evidence == [] {
      assert Failures(tree, judge, c.evidence, 0) == [];
    } else if mode == Lenient {
      assert !judge(c.evidence[0]).ok;
    }
  }

  /** The anchors that were found in another file or on another line than they name. */
  ghost function Moved(tree: Tree, judge: Judge, evidence: seq<Anchor>, n: nat): set<nat>
    requires n <= |evidence|
  {
    set i: nat | i < n && judge(evidence[i]).ok && MovedTo(tree, judge, evidence[i])
  }

  predicate MovedTo(tree: Tree, judge: Judge, a: Anchor) {
    judge(a).line != a.line || (a.file in tree.renames && tree.renames[a.file] != a.file)
  }

  lemma {:induction false} RelocatedAreMoved(tree: Tree, judge: Judge, evidence: seq<Anchor>, n: nat)
    requires n <= |evidence|
    ensures Relocated(tree, judge, evidence, n) == |Moved(tree, judge, evidence, n)|
  {
    if n > 0 {
      RelocatedAreMoved(tree, judge, evidence, n - 1);
      var before, here := Moved(tree, judge, evidence, n - 1), judge(evidence[n - 1]).ok && MovedTo(tree, judge, evidence[n - 1]);
      assert Moved(tree, judge, evidence, n) == if here then before + {n - 1} else before;
      assert n - 1 !in before;
    }
  }

  lemma {:induction false} RowsAreBlocks<T>(claims: seq<Claim>, row: Claim -> seq<T>, n: nat)
    requires n <= |claims|
    ensures Rows(claims, row, n) == Blocks(claims[..n], row)
  {
    if n > 0 {
      RowsAreBlocks(claims, row, n - 1);
      assert claims[..n] == claims[..n - 1] + [claims[n - 1]];
      BlocksPush(claims[..n - 1], claims[n - 1], row);
    }
  }

  /** Claim by claim and in order, a patch keeps those that pass and demotes the others. */
  lemma {:induction false} PatchFate(tree: Tree, judge: Judge, mode: Mode, claims: seq<Claim>)
    ensures KeptClaims(tree, judge, mode, claims, |claims|)
      == Blocks(claims, (c: Claim) => if Passes(judge, mode, c.evidence) then [KeptClaim(tree, judge, c)] else [])
    ensures Demotions(tree, judge, mode, claims, |claims|)
      == Blocks(claims, (c: Claim) => if Passes(judge, mode, c.evidence) then [] else [DemotedClaim(tree, judge, c)])
  {
    var kept := (c: Claim) => KeptRow(tree, judge, mode, c);
    var demoted := (c: Claim) => DemotedRow(tree, judge, mode, c);
    RowsAreBlocks(claims, kept, |claims|);
    RowsAreBlocks(claims, demoted, |claims|);
    assert claims[..|claims|] == claims;
    forall c: Claim
      ensures kept(c) == if Passes(judge, mode, c.evidence) then [KeptClaim(tree, judge, c)] else []
      ensures demoted(c) == if Passes(judge, mode, c.evidence) then [] else [DemotedClaim(tree, judge, c)]
    {
      var _ := ClaimFate(tree, judge, mode, c);
    }
    SameBlocks(claims, kept, (c: Claim) => if Passes(judge, mode, c.evidence) then [KeptClaim(tree, judge, c)] else []);
    SameBlocks(claims, demoted, (c: Claim) => if Passes(judge, mode, c.evidence) then [] else [DemotedClaim(tree, judge, c)]);
  }

  lemma {:induction false} SameBlocks<T>(claims: seq<Claim>, f: Claim -> seq<T>, g: Claim -> seq<T>)
    requires forall c :: f(c) == g(c)
    ensures Blocks(claims, f) == Blocks(claims, g)
  {
    if claims != [] { SameBlocks(claims[1..], f, g); }
  }

  // --------------------------------------------------------------- what is kept

  /** The anchor's text begins on the line it names, in the file it names. */
  ghost predicate Cites(tree: Tree, a: Anchor) {
    BeginsAt(tree.lines(a.file), a.text, MAX_SPAN, a.line)
  }

  lemma {:induction false} GoodCites(tree: Tree, judge: Judge, evidence: seq<Anchor>, n: nat)
    requires n <= |evidence| && Judges(tree, judge)
    ensures forall a :: a in Good(tree, judge, evidence, n) ==> Cites(tree, a)
  {
    if n > 0 {
      GoodCites(tree, judge, evidence, n - 1);
      if judge(evidence[n - 1]).ok { CorrectedCites(tree, judge, evidence[n - 1]); }
    }
  }

  lemma {:induction false} CorrectedCites(tree: Tree, judge: Judge, a: Anchor)
    requires Judges(tree, judge) && judge(a).ok
    ensures Cites(tree, Corrected(tree, a, judge(a).line))
  {
    AcceptedIsCited(tree.lines(ReadFile(tree, a.file)), a, judge(a));
  }

  /** `kept` is `c` with other evidence; in strict mode none of it is lost. */
  predicate KeptFrom(mode: Mode, kept: Claim, c: Claim) {
    kept == c.(evidence := kept.evidence) && (mode == Strict ==> |kept.evidence| == |c.evidence|)
  }

  ghost predicate AllCited(tree: Tree, evidence: seq<Anchor>) {
    evidence != [] && forall a :: a in evidence ==> Cites(tree, a)
  }

  lemma {:induction false} KeptClaimCites(tree: Tree, judge: Judge, mode: Mode, c: Claim)
    requires Judges(tree, judge) && ClaimSurvives(tree, judge, mode, c)
    ensures AllCited(tree, KeptClaim(tree, judge, c).claim.evidence)
    ensures KeptFrom(mode, KeptClaim(tree, judge, c).claim, c)
  {
    GoodCites(tree, judge, c.evidence, |c.evidence|);
  }

  /** Every kept claim keeps evidence, and all of it is where it says it is; in strict mode no anchor is lost. */
  lemma {:induction false} KeptClaimsCite(tree: Tree, judge: Judge, mode: Mode, claims: seq<Claim>, n: nat, k: nat)
    requires Judges(tree, judge) && n <= |claims| && k < |KeptClaims(tree, judge, mode, claims, n)|
    ensures AllCited(tree, KeptClaims(tree, judge, mode, claims, n)[k].claim.evidence)
    ensures exists i :: 0 <= i < n && KeptFrom(mode, KeptClaims(tree, judge, mode, claims, n)[k].claim, claims[i])
  {
    var i := RowComesFrom(claims, (c: Claim) => KeptRow(tree, judge, mode, c), n, k);
    KeptClaimCites(tree, judge, mode, claims[i]);
  }

  // ------------------------------------------------------- claims built on the tree

  /** An anchor that `build_anchor` returned on this tree. */
  ghost predicate Built(tree: Tree, a: Anchor) {
    exists index, maxSpan :: FirstQualifying(tree.lines(a.file), a.file, index, maxSpan, Some(a))
  }

  lemma {:induction false} BuiltIsFound(tree: Tree, judge: Judge, a: Anchor)
    requires tree.renames == map[] && Judges(tree, judge) && Built(tree, a)
    ensures judge(a).ok
  {
    var lines := tree.lines(a.file);
    var index, maxSpan :| FirstQualifying(lines, a.file, index, maxSpan, Some(a));
    assert IsFinding(tree.lines(ReadFile(tree, a.file)), a, judge(a));
    BuiltVerifies(lines, a.file, index, maxSpan, a, judge(a));
  }

  ghost predicate AllFound(judge: Judge, evidence: seq<Anchor>) {
    forall i :: 0 <= i < |evidence| ==> judge(evidence[i]).ok
  }

  lemma {:induction false} FoundHaveNoFailures(tree: Tree, judge: Judge, evidence: seq<Anchor>, n: nat)
    requires n <= |evidence| && AllFound(judge, evidence)
    ensures Failures(tree, judge, evidence, n) == []
  {
    if n > 0 { FoundHaveNoFailures(tree, judge, evidence, n - 1); }
  }

  ghost predicate Supported(judge: Judge, c: Claim) {
    c.evidence != [] && AllFound(judge, c.evidence)
  }

  lemma {:induction false} SupportedSurvive(tree: Tree, judge: Judge, mode: Mode, claims: seq<Claim>, n: nat)
    requires n <= |claims| && forall i :: 0 <= i < n ==> Supported(judge, claims[i])
    ensures Demotions(tree, judge, mode, claims, n) == [] && |KeptClaims(tree, judge, mode, claims, n)| == n
  {
    if n > 0 {
      SupportedSurvive(tree, judge, mode, claims, n - 1);
      FoundHaveNoFailures(tree, judge, claims[n - 1].evidence, |claims[n - 1].evidence|);
    }
  }

  /** The claim cites something, and only anchors built on the tree. */
  ghost predicate CitesBuilt(tree: Tree, c: Claim) {
    c.evidence != [] && forall i :: 0 <= i < |c.evidence| ==> Built(tree, c.evidence[i])
  }

  lemma {:induction false} BuiltIsSupported(tree: Tree, judge: Judge, c: Claim)
    requires tree.renames == map[] && Judges(tree, judge) && CitesBuilt(tree, c)
    ensures Supported(judge, c)
  {
    forall i | 0 <= i < |c.evidence| ensures judge(c.evidence[i]).ok { BuiltIsFound(tree, judge, c.evidence[i]); }
  }

  /** A patch whose claims cite only built anchors loses none of them, even in strict mode. */
  lemma {:induction false} BuiltClaimsSurvive(tree: Tree, judge: Judge, mode: Mode, claims: seq<Claim>)
    requires tree.renames == map[] && Judges(tree, judge)
    requires forall i :: 0 <= i < |claims| ==> CitesBuilt(tree, claims[i])
    ensures Demotions(tree, judge, mode, claims, |claims|) == []
    ensures |KeptClaims(tree, judge, mode, claims, |claims|)| == |claims|
  {
    forall i | 0 <= i < |claims| ensures Supported(judge, claims[i]) { BuiltIsSupported(tree, judge, claims[i]); }
    SupportedSurvive(tree, judge, mode, claims, |claims|);
  }

  /** An anchor built within `MAX_SPAN` on a line that is not blank. */
  ghost predicate BuiltInPlace(tree: Tree, a: Anchor) {
    && 1 <= a.line <= |tree.lines(a.file)| && Normalise(tree.lines(a.file)[a.line - 1]) != ""
    && exists index, maxSpan ::
         maxSpan <= MAX_SPAN && FirstQualifying(tree.lines(a.file), a.file, index, maxSpan, Some(a))
  }

  lemma {:induction false} BuiltInPlaceIsFoundThere(tree: Tree, judge: Judge, a: Anchor)
    requires tree.renames == map[] && Judges(tree, judge) && BuiltInPlace(tree, a)
    ensures judge(a).ok && judge(a).line == a.line
  {
    var lines := tree.lines(a.file);
    var index, maxSpan :| maxSpan <= MAX_SPAN && FirstQualifying(lines, a.file, index, maxSpan, Some(a));
    assert IsFinding(tree.lines(ReadFile(tree, a.file)), a, judge(a));
    BuiltVerifiesInPlace(lines, a.file, index, maxSpan, a, judge(a));
  }

  lemma {:induction false} FoundThereUnchanged(tree: Tree, judge: Judge, evidence: seq<Anchor>, n: nat)
    requires n <= |evidence| && tree.renames == map[]
    requires forall i :: 0 <= i < |evidence| ==> judge(evidence[i]).ok && judge(evidence[i]).line == evidence[i].line
    ensures Good(tree, judge, evidence, n) == evidence[..n] && Relocated(tree, judge, evidence, n) == 0
  {
    if n > 0 {
      FoundThereUnchanged(tree, judge, evidence, n - 1);
      assert evidence[..n] == evidence[..n - 1] + [evidence[n - 1]];
    }
  }

  /** Verification leaves evidence that was built in place exactly as it was. */
  lemma {:induction false} BuiltInPlaceUnchanged(tree: Tree, judge: Judge, evidence: seq<Anchor>)
    requires tree.renames == map[] && Judges(tree, judge)
    requires forall i :: 0 <= i < |evidence| ==> BuiltInPlace(tree, evidence[i])
    ensures Good(tree, judge, evidence, |evidence|) == evidence && Relocated(tree, judge, evidence, |evidence|) == 0
    ensures Failures(tree, judge, evidence, |evidence|) == []
  {
    forall i | 0 <= i < |evidence| ensures judge(evidence[i]).ok && judge(evidence[i]).line == evidence[i].line {
      BuiltInPlaceIsFoundThere(tree, judge, evidence[i]);
    }
    FoundThereUnchanged(tree, judge, evidence, |evidence|);
    FoundHaveNoFailures(tree, judge, evidence, |evidence|);
  }
}
