/** What the result of a merge holds, in terms of the claims merged (cdp/merge.py:46-121). */
module MergeResult {
  import opened Options
  import opened Orders
  import opened Text
  import opened Merge
  import opened Unions
  import opened Resolution

  // --------------------------------------------------------------- what outcomes give

  function ConflictsOf(): Outcome -> seq<Conflict> {
    (o: Outcome) => match o case Resolved(_, x, _) => [x] case Escalated(_, x) => [x] case _ => []
  }

  function NearMissesOf(): Outcome -> seq<NearMiss> {
    (o: Outcome) => match o case Unanimous(_, Some(x)) => [x] case _ => []
  }

  function ClaimsOf(): Outcome -> seq<MergedClaim> {
    (o: Outcome) => if o.Raises? then [] else [o.claim]
  }

  function CountBy(conflicts: seq<Conflict>, resolvedBy: Option<Reason>): nat {
    |Filter(conflicts, (x: Conflict) => x.resolvedBy == resolvedBy)|
  }

  /** The outcomes, gathered in order, and what the counters say of them. */
  ghost predicate Gathers(m: Merged, outcomes: seq<Outcome>) {
    m.Merged? ==>
      && m.claims == Blocks(outcomes, ClaimsOf()) && m.conflicts == Blocks(outcomes, ConflictsOf())
      && m.nearMisses == Blocks(outcomes, NearMissesOf())
  }

  lemma {:induction false} AccumulateGathers(outcomes: seq<Outcome>, n: nat)
    requires n <= |outcomes|
    ensures Gathers(Accumulate(outcomes, n), outcomes[..n])
  {
    if n > 0 {
      AccumulateGathers(outcomes, n - 1);
      assert outcomes[..n] == outcomes[..n - 1] + [outcomes[n - 1]];
      BlocksPush(outcomes[..n - 1], outcomes[n - 1], ClaimsOf());
      BlocksPush(outcomes[..n - 1], outcomes[n - 1], ConflictsOf());
      BlocksPush(outcomes[..n - 1], outcomes[n - 1], NearMissesOf());
    }
  }

  ghost predicate Counts(m: Merged) {
    m.Merged? ==>
      && m.stats.groups == |m.claims| && m.stats.conflicts == |m.conflicts| && m.stats.nearMisses == |m.nearMisses|
      && m.stats.unanimous == |m.claims| - |m.conflicts|
      && m.stats.byOwnership == CountBy(m.conflicts, Some(Ownership))
      && m.stats.byEvidence == CountBy(m.conflicts, Some(Evidence))
      && m.stats.contested == CountBy(m.conflicts, None)
  }

  lemma {:induction false} CountPushed(conflicts: seq<Conflict>, x: Conflict, resolvedBy: Option<Reason>)
    ensures CountBy(conflicts + [x], resolvedBy) == CountBy(conflicts, resolvedBy) + if x.resolvedBy == resolvedBy then 1 else 0
  {
    FilterAppend(conflicts, [x], (x: Conflict) => x.resolvedBy == resolvedBy);
  }

  lemma {:induction false} AddCounts(m: Merged, o: Outcome)
    requires Counts(m) && (o.Resolved? ==> o.conflict.resolvedBy == Some(o.reason)) && (o.Escalated? ==> o.conflict.resolvedBy == None)
    ensures Counts(Add(m, o))
  {
    if m.Merged? && (o.Resolved? || o.Escalated?) {
      CountPushed(m.conflicts, o.conflict, Some(Ownership));
      CountPushed(m.conflicts, o.conflict, Some(Evidence));
      CountPushed(m.conflicts, o.conflict, None);
    }
  }

  /** An outcome is about its key, and its conflict says how it was resolved. */
  ghost predicate Belongs(o: Outcome, key: seq<string>) {
    && (!o.Raises? ==> [o.claim.subject, o.claim.kind] == key)
    && (o.Unanimous? && o.near.Some? ==> [o.near.value.subject, o.near.value.kind] == key)
    && (o.Resolved? ==> [o.conflict.subject, o.conflict.kind] == key && o.conflict.resolvedBy == Some(o.reason))
    && (o.Escalated? ==> [o.conflict.subject, o.conflict.kind] == key && o.conflict.resolvedBy == None)
  }

  ghost predicate AllBelong(outcomes: seq<Outcome>, keys: seq<seq<string>>) {
    |outcomes| == |keys| && forall i {:trigger Belongs(outcomes[i], keys[i])} :: 0 <= i < |keys| ==> Belongs(outcomes[i], keys[i])
  }

  lemma {:induction false} AccumulateCounts(outcomes: seq<Outcome>, keys: seq<seq<string>>, n: nat)
    requires AllBelong(outcomes, keys) && n <= |outcomes|
    ensures Counts(Accumulate(outcomes, n))
  {
    if n > 0 {
      AccumulateCounts(outcomes, keys, n - 1);
      assert Belongs(outcomes[n - 1], keys[n - 1]);
      AddCounts(Accumulate(outcomes, n - 1), outcomes[n - 1]);
    }
  }

  lemma {:induction false} GroupBelongs(h: EvidenceHash, symbols: map<string, set<string>>, key: seq<string>, members: seq<Claim>)
    requires members != [] && |key| == 2
    ensures Belongs(GroupOutcome(h, symbols, key, members), key)
  {
  }

  ghost predicate Ascends<T>(s: seq<T>, key: T -> seq<string>) {
    forall i, j :: 0 <= i < j < |s| ==> ListLe(key(s[i]), key(s[j])) && key(s[i]) != key(s[j])
  }

  function Same(): seq<string> -> seq<string> {
    (k: seq<string>) => k
  }

  /** What outcome `i` contributes, if anything, is about key `i`. */
  ghost predicate KeyedBy<T(!new)>(outcomes: seq<Outcome>, keys: seq<seq<string>>, f: Outcome -> seq<T>, key: T -> seq<string>) {
    && |outcomes| == |keys|
    && forall i {:trigger f(outcomes[i])} :: 0 <= i < |keys| ==> |f(outcomes[i])| <= 1 && forall y :: y in f(outcomes[i]) ==> key(y) == keys[i]
  }

  lemma {:induction false} BlocksAscend<T(!new)>(outcomes: seq<Outcome>, keys: seq<seq<string>>, f: Outcome -> seq<T>,
      key: T -> seq<string>, n: nat)
    requires KeyedBy(outcomes, keys, f, key) && Ascends(keys, Same()) && n <= |keys|
    ensures Ascends(Blocks(outcomes[..n], f), key)
    ensures forall y :: y in Blocks(outcomes[..n], f) ==> exists i :: 0 <= i < n && y in f(outcomes[i])
  {
    if n > 0 {
      BlocksAscend(outcomes, keys, f, key, n - 1);
      var before, here := Blocks(outcomes[..n - 1], f), f(outcomes[n - 1]);
      assert outcomes[..n] == outcomes[..n - 1] + [outcomes[n - 1]];
      BlocksPush(outcomes[..n - 1], outcomes[n - 1], f);
      forall y | y in before && here != [] ensures ListLe(key(y), key(here[0])) && key(y) != key(here[0]) {
        var i :| 0 <= i < n - 1 && y in f(outcomes[i]);
        assert here[0] in here && Same()(keys[i]) == keys[i] && Same()(keys[n - 1]) == keys[n - 1];
      }
    }
  }

  function ClaimName(): MergedClaim -> seq<string> {
    (x: MergedClaim) => [x.subject, x.kind]
  }

  function ConflictName(): Conflict -> seq<string> {
    (x: Conflict) => [x.subject, x.kind]
  }

  function NearMissName(): NearMiss -> seq<string> {
    (x: NearMiss) => [x.subject, x.kind]
  }

  lemma {:induction false} OutcomesBelong(h: EvidenceHash, symbols: map<string, set<string>>, claims: seq<Claim>,
      keys: seq<seq<string>>)
    requires ValidKeys(claims, keys)
    ensures AllBelong(Outcomes(h, symbols, claims, keys), keys)
  {
    var outcomes := Outcomes(h, symbols, claims, keys);
    forall i | 0 <= i < |keys| ensures Belongs(outcomes[i], keys[i]) {
      assert ValidKey(claims, keys[i]);
      GroupBelongs(h, symbols, keys[i], Members(h, claims, keys[i]));
    }
  }

  lemma {:induction false} BelongingIsKeyed(outcomes: seq<Outcome>, keys: seq<seq<string>>)
    requires AllBelong(outcomes, keys)
    ensures KeyedBy(outcomes, keys, ClaimsOf(), ClaimName())
    ensures KeyedBy(outcomes, keys, ConflictsOf(), ConflictName())
    ensures KeyedBy(outcomes, keys, NearMissesOf(), NearMissName())
  {
    assert forall i :: 0 <= i < |keys| ==> Belongs(outcomes[i], keys[i]);
  }

  lemma {:induction false} SortedKeysAscend(claims: seq<Claim>)
    ensures Ascends(SortedKeys(claims), Same())
  {
    var distinct, keys := Distinct(Keys(claims)), SortedKeys(claims);
    ListLeIsOrder();
    SortSorts(distinct, ListLe);
    PermutationWithoutRepeats(distinct, keys);
  }

  /** The outcome of each group, in order of subject and kind. */
  ghost function AllOutcomes(h: EvidenceHash, symbols: map<string, set<string>>, claims: seq<Claim>): seq<Outcome> {
    GroupsNonEmpty(claims);
    Outcomes(h, symbols, claims, SortedKeys(claims))
  }

  /** The merge before its claims are sorted for output. */
  ghost function Unsorted(h: EvidenceHash, symbols: map<string, set<string>>, claims: seq<Claim>): Merged {
    Accumulate(AllOutcomes(h, symbols, claims), |AllOutcomes(h, symbols, claims)|)
  }

  lemma {:induction false} SpecIsAccumulated(h: EvidenceHash, symbols: map<string, set<string>>, claims: seq<Claim>)
    ensures MergeSpec(h, symbols, claims) == Finish(Unsorted(h, symbols, claims))
  {
  }

  lemma {:induction false} MergeGathers(h: EvidenceHash, symbols: map<string, set<string>>, claims: seq<Claim>)
    ensures MergeSpec(h, symbols, claims) == Finish(Unsorted(h, symbols, claims))
    ensures Gathers(Unsorted(h, symbols, claims), AllOutcomes(h, symbols, claims)) && Counts(Unsorted(h, symbols, claims))
    ensures AllBelong(AllOutcomes(h, symbols, claims), SortedKeys(claims))
  {
    GroupsNonEmpty(claims);
    OutcomesBelong(h, symbols, claims, SortedKeys(claims));
    SpecIsAccumulated(h, symbols, claims);
    AllGathered(AllOutcomes(h, symbols, claims), SortedKeys(claims));
  }

  lemma {:induction false} AllGathered(outcomes: seq<Outcome>, keys: seq<seq<string>>)
    requires AllBelong(outcomes, keys)
    ensures Gathers(Accumulate(outcomes, |outcomes|), outcomes) && Counts(Accumulate(outcomes, |outcomes|))
  {
    AccumulateGathers(outcomes, |outcomes|);
    AccumulateCounts(outcomes, keys, |outcomes|);
    assert outcomes[..|outcomes|] == outcomes;
  }

  function OutputOrder(x: MergedClaim): seq<string> {
    [x.kind, x.subject, x.id]
  }

  /** One merged claim per subject and kind, in the order of output; conflicts and near misses in order of subject and
  kind, each at most once; and counters that say how many there are of each. */
  ghost predicate Tabulates(m: Merged) {
    m.Merged? ==>
      && (forall i, j :: 0 <= i < j < |m.claims| ==> ListLe(OutputOrder(m.claims[i]), OutputOrder(m.claims[j])))
      && (forall i, j :: 0 <= i < j < |m.claims| ==> ClaimName()(m.claims[i]) != ClaimName()(m.claims[j]))
      && Ascends(m.conflicts, ConflictName()) && Ascends(m.nearMisses, NearMissName()) && Counts(m)
  }

  lemma {:induction false} NamesStayDistinct(a: seq<MergedClaim>, b: seq<MergedClaim>)
    requires multiset(a) == multiset(b) && Ascends(a, ClaimName())
    ensures forall i, j :: 0 <= i < j < |b| ==> ClaimName()(b[i]) != ClaimName()(b[j])
  {
    assert WithoutRepeats(a);
    PermutationWithoutRepeats(a, b);
    SameMembers(a, b);
    forall i, j | 0 <= i < j < |b| ensures ClaimName()(b[i]) != ClaimName()(b[j]) {
      assert b[i] in a && b[j] in a;
      var k :| 0 <= k < |a| && a[k] == b[i];
      var l :| 0 <= l < |a| && a[l] == b[j];
    }
  }

  lemma {:induction false} MergeTabulates(h: EvidenceHash, symbols: map<string, set<string>>, claims: seq<Claim>)
    ensures Tabulates(MergeSpec(h, symbols, claims))
  {
    var keys, outcomes, m := SortedKeys(claims), AllOutcomes(h, symbols, claims), Unsorted(h, symbols, claims);
    MergeGathers(h, symbols, claims);
    SortedKeysAscend(claims);
    if m.Merged? {
      GatheredAscends(outcomes, keys, m);
      FinishTabulates(m);
    }
  }

  lemma {:induction false} GatheredAscends(outcomes: seq<Outcome>, keys: seq<seq<string>>, m: Merged)
    requires AllBelong(outcomes, keys) && Ascends(keys, Same()) && Gathers(m, outcomes) && m.Merged?
    ensures Ascends(m.claims, ClaimName()) && Ascends(m.conflicts, ConflictName()) && Ascends(m.nearMisses, NearMissName())
  {
    BelongingIsKeyed(outcomes, keys);
    assert outcomes[..|keys|] == outcomes;
    BlocksAscend(outcomes, keys, ClaimsOf(), ClaimName(), |keys|);
    BlocksAscend(outcomes, keys, ConflictsOf(), ConflictName(), |keys|);
    BlocksAscend(outcomes, keys, NearMissesOf(), NearMissName(), |keys|);
  }

  lemma {:induction false} FinishTabulates(m: Merged)
    requires m.Merged? && Counts(m) && Ascends(m.claims, ClaimName())
    requires Ascends(m.conflicts, ConflictName()) && Ascends(m.nearMisses, NearMissName())
    ensures Tabulates(Finish(m))
  {
    var sorted := StableSort(m.claims, MergedOrder());
    NamesStayDistinct(m.claims, sorted);
    KeyOrderIsOrder((c: MergedClaim) => [c.kind, c.subject, c.id]);
    SortSorts(m.claims, MergedOrder());
    forall i, j | 0 <= i < j < |sorted| ensures ListLe(OutputOrder(sorted[i]), OutputOrder(sorted[j])) {
      assert MergedOrder()(sorted[i], sorted[j]);
    }
  }

  /** What the result says about a subject under its ruling. */
  ghost predicate Settles(h: EvidenceHash, claims: seq<Claim>, subject: string, kind: string, r: Ruling, x: MergedClaim,
      conflicts: seq<Conflict>, nearMisses: seq<NearMiss>) {
    && x.subject == subject && x.kind == kind
    && match r
       case Agreed => Unites(h, claims, Picks(subject, kind, None), x) && SettledQuietly(claims, subject, kind, conflicts, nearMisses)
       case ByRule(sig, reason) =>
         Unites(h, claims, Picks(subject, kind, Some(sig)), x)
         && SettledLoudly(claims, subject, kind, Some(reason), Some(sig), conflicts, nearMisses)
       case Open =>
         IsContested(h, claims, subject, kind, x) && SettledLoudly(claims, subject, kind, None, None, conflicts, nearMisses)
  }

  /** No conflict, and a near miss exactly when the claims differ in prose. */
  ghost predicate SettledQuietly(claims: seq<Claim>, subject: string, kind: string, conflicts: seq<Conflict>,
      nearMisses: seq<NearMiss>) {
    && (forall y :: y in conflicts ==> ConflictName()(y) != [subject, kind])
    && ((exists z :: z in nearMisses && NearMissName()(z) == [subject, kind]) <==> DifferInProse(claims, subject, kind, Stripped()))
    && (forall z :: z in nearMisses && NearMissName()(z) == [subject, kind] ==> NotesProse(claims, subject, kind, z))
  }

  /** The conflict is on record, and no near miss is. */
  ghost predicate SettledLoudly(claims: seq<Claim>, subject: string, kind: string, resolvedBy: Option<Reason>,
      winner: Option<Signature>, conflicts: seq<Conflict>, nearMisses: seq<NearMiss>) {
    && (exists y :: y in conflicts && Audits(claims, subject, kind, resolvedBy, winner, y))
    && (forall z :: z in nearMisses ==> NearMissName()(z) != [subject, kind])
  }

  /** Of what all outcomes give, only outcome `i` gives anything about its key. */
  lemma {:induction false} OnlyOwnBlock<T(!new)>(outcomes: seq<Outcome>, keys: seq<seq<string>>, f: Outcome -> seq<T>,
      key: T -> seq<string>, i: nat)
    requires KeyedBy(outcomes, keys, f, key) && Ascends(keys, Same()) && i < |keys|
    ensures forall y :: y in Blocks(outcomes, f) && key(y) == keys[i] <==> y in f(outcomes[i])
  {
    assert outcomes[..|keys|] == outcomes && outcomes[i] in outcomes;
    BlocksAscend(outcomes, keys, f, key, |keys|);
    forall y | y in Blocks(outcomes, f) && key(y) == keys[i] ensures y in f(outcomes[i]) {
      var j :| 0 <= j < |keys| && y in f(outcomes[j]);
      assert key(y) == keys[j] && Same()(keys[i]) == keys[i] && Same()(keys[j]) == keys[j];
    }
    forall y | y in f(outcomes[i]) ensures y in Blocks(outcomes, f) && key(y) == keys[i] {
      InBlocks(outcomes, f, outcomes[i], y);
    }
  }

  lemma {:induction false} OutcomeSettles(h: EvidenceHash, claims: seq<Claim>, subject: string, kind: string, r: Ruling,
      outcomes: seq<Outcome>, keys: seq<seq<string>>, i: nat)
    requires AllBelong(outcomes, keys) && Ascends(keys, Same()) && i < |keys| && keys[i] == [subject, kind]
    requires Follows(h, claims, subject, kind, r, outcomes[i])
    ensures outcomes[i].claim in Blocks(outcomes, ClaimsOf())
    ensures Settles(h, claims, subject, kind, r, outcomes[i].claim, Blocks(outcomes, ConflictsOf()), Blocks(outcomes, NearMissesOf()))
  {
    var o := outcomes[i];
    BelongingIsKeyed(outcomes, keys);
    assert Belongs(o, keys[i]);
    OnlyOwnBlock(outcomes, keys, ClaimsOf(), ClaimName(), i);
    OnlyOwnBlock(outcomes, keys, ConflictsOf(), ConflictName(), i);
    OnlyOwnBlock(outcomes, keys, NearMissesOf(), NearMissName(), i);
    assert o.claim in ClaimsOf()(o);
    OutcomeIsSettled(h, claims, subject, kind, r, o, Blocks(outcomes, ConflictsOf()), Blocks(outcomes, NearMissesOf()));
  }

  lemma {:induction false} OutcomeIsSettled(h: EvidenceHash, claims: seq<Claim>, subject: string, kind: string, r: Ruling,
      o: Outcome, conflicts: seq<Conflict>, nearMisses: seq<NearMiss>)
    requires Follows(h, claims, subject, kind, r, o) && Belongs(o, [subject, kind])
    requires forall y :: y in conflicts && ConflictName()(y) == [subject, kind] <==> y in ConflictsOf()(o)
    requires forall z :: z in nearMisses && NearMissName()(z) == [subject, kind] <==> z in NearMissesOf()(o)
    ensures Settles(h, claims, subject, kind, r, o.claim, conflicts, nearMisses)
  {
    assert o.claim.subject == [subject, kind][0] && o.claim.kind == [subject, kind][1];
    match r
    case Agreed => QuietIsSettled(claims, subject, kind, o.near, conflicts, nearMisses);
    case ByRule(sig, reason) => assert o.conflict in ConflictsOf()(o);
    case Open => assert o.conflict in ConflictsOf()(o);
  }

  lemma {:induction false} QuietIsSettled(claims: seq<Claim>, subject: string, kind: string, near: Option<NearMiss>,
      conflicts: seq<Conflict>, nearMisses: seq<NearMiss>)
    requires forall y :: y in conflicts ==> ConflictName()(y) != [subject, kind]
    requires forall z :: z in nearMisses && NearMissName()(z) == [subject, kind] <==> near == Some(z)
    requires near.Some? <==> DifferInProse(claims, subject, kind, Stripped())
    requires near.Some? ==> NotesProse(claims, subject, kind, near.value)
    ensures SettledQuietly(claims, subject, kind, conflicts, nearMisses)
  {
    if near.Some? { assert near.value in nearMisses; }
  }

  /** For every subject and kind that some claim is about, the merge follows the policy: the claims agree, or the
  owners' one signature wins, or the signature with the most evidence, or nothing wins and the claim is contested. */
  lemma {:induction false} MergeSettles(h: EvidenceHash, symbols: map<string, set<string>>, claims: seq<Claim>,
      subject: string, kind: string) returns (r: Ruling, x: MergedClaim)
    requires MergeSpec(h, symbols, claims).Merged? && exists c :: c in claims && About(c, subject, kind)
    ensures Rules(symbols, claims, subject, kind, r)
    ensures var m := MergeSpec(h, symbols, claims);
      x in m.claims && Settles(h, claims, subject, kind, r, x, m.conflicts, m.nearMisses)
  {
    var keys, outcomes, m := SortedKeys(claims), AllOutcomes(h, symbols, claims), Unsorted(h, symbols, claims);
    r := SomeRuling(symbols, claims, subject, kind);
    MergeGathers(h, symbols, claims);
    SortedKeysAscend(claims);
    var i := GroupOfSubject(h, symbols, claims, subject, kind);
    OutcomeFollows(h, symbols, claims, subject, kind, r, i);
    OutcomeSettles(h, claims, subject, kind, r, outcomes, keys, i);
    x := outcomes[i].claim;
    SortMembers(m.claims, MergedOrder());
  }

  lemma {:induction false} GroupOfSubject(h: EvidenceHash, symbols: map<string, set<string>>, claims: seq<Claim>,
      subject: string, kind: string) returns (i: nat)
    requires exists c :: c in claims && About(c, subject, kind)
    ensures i < |SortedKeys(claims)| == |AllOutcomes(h, symbols, claims)| && SortedKeys(claims)[i] == [subject, kind]
  {
    var key, keys := [subject, kind], SortedKeys(claims);
    var c :| c in claims && About(c, subject, kind);
    assert GroupKey(c) == key;
    KeysOfClaims(claims, key);
    i :| 0 <= i < |keys| && keys[i] == key;
    GroupsNonEmpty(claims);
  }

  lemma {:induction false} OutcomeFollows(h: EvidenceHash, symbols: map<string, set<string>>, claims: seq<Claim>,
      subject: string, kind: string, r: Ruling, i: nat)
    requires MergeSpec(h, symbols, claims).Merged? && Rules(symbols, claims, subject, kind, r)
    requires i < |SortedKeys(claims)| == |AllOutcomes(h, symbols, claims)| && SortedKeys(claims)[i] == [subject, kind]
    ensures Follows(h, claims, subject, kind, r, AllOutcomes(h, symbols, claims)[i])
  {
    var outcomes := AllOutcomes(h, symbols, claims);
    GroupsNonEmpty(claims);
    assert ValidKey(claims, SortedKeys(claims)[i]);
    SpecIsAccumulated(h, symbols, claims);
    RaisesWhenOneDoes(outcomes, |outcomes|);
    MembersArePicked(h, claims, subject, kind);
    GroupFollows(h, symbols, claims, subject, kind, Members(h, claims, [subject, kind]), r);
  }
}
