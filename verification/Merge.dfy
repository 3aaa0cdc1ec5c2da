/** The deterministic merge operator (cdp/merge.py:46-260).

`MergeSpec` says what the merge of a claim list is; `MergeClaims` computes it with the source's
loops; `MergeIgnoresOrder` is the point of the operator: only the order of claims tied in one
group can matter. */
module Merge {
  import opened Options
  import opened Orders
  import opened Text

  datatype Anchor = Anchor(file: string, line: int, text: string)

  /** The closed-vocabulary fields that conflict detection compares. */
  datatype Signature = Signature(channel: Option<string>, visibility: Option<string>, sideEffect: Option<string>)

  /** A claim. `extra` stands for every field that merging only copies. */
  datatype Claim = Claim(
    subject: string, kind: string, id: string, statement: string, evidence: seq<Anchor>,
    confidence: string, signature: Signature, sourceNode: Option<string>, extra: string)

  datatype MergedClaim = MergedClaim(
    kind: string, subject: string, id: string, statement: string, statements: seq<string>,
    evidence: seq<Anchor>, confidence: string, signature: Signature, sourceNodes: seq<string>,
    contestedWith: Option<seq<string>>, extra: string)

  datatype Position = Position(values: Signature, nodes: seq<string>, statements: seq<string>, evidenceCount: nat, won: bool)

  datatype Reason = Ownership | Evidence

  datatype Conflict = Conflict(subject: string, kind: string, resolvedBy: Option<Reason>, positions: seq<Position>)

  datatype NearMiss = NearMiss(subject: string, kind: string, statements: seq<string>, nodes: seq<string>)

  datatype Stats = Stats(groups: nat, unanimous: nat, conflicts: nat, nearMisses: nat,
                         byOwnership: nat, byEvidence: nat, contested: nat)

  /** The merged state, or the TypeError Python raises when it must order a string against None. */
  datatype Merged = TypeError | Merged(claims: seq<MergedClaim>, conflicts: seq<Conflict>, nearMisses: seq<NearMiss>, stats: Stats)

  /** `stable_hash` of an evidence list. Nothing is assumed of it here. */
  type EvidenceHash = seq<Anchor> -> string

  // ------------------------------------------------------------ keys and order

  function SourceOf(c: Claim): string {
    match c.sourceNode case None => "" case Some(n) => n
  }

  function ClaimKey(h: EvidenceHash, c: Claim): seq<string> {
    [SourceOf(c), c.id, h(c.evidence)]
  }

  /** `_claim_sort_key`. */
  function ClaimOrder(h: EvidenceHash): (Claim, Claim) -> bool {
    KeyOrder((c: Claim) => ClaimKey(h, c))
  }

  lemma {:induction false} ClaimOrderIsOrder(h: EvidenceHash)
    ensures TotalPreorder(ClaimOrder(h))
    ensures forall a, b :: Tied(a, b, ClaimOrder(h)) <==> ClaimKey(h, a) == ClaimKey(h, b)
  {
    KeyOrderIsOrder((c: Claim) => ClaimKey(h, c));
  }

  function GroupKey(c: Claim): seq<string> {
    [c.subject, c.kind]
  }

  predicate InGroup(key: seq<string>, c: Claim) {
    GroupKey(c) == key
  }

  function Group(claims: seq<Claim>, key: seq<string>): seq<Claim> {
    Filter(claims, (c: Claim) => InGroup(key, c))
  }

  /** The distinct elements of a list, in the order a dict or an ordered scan meets them. */
  function Distinct<T(==, !new)>(s: seq<T>): (r: seq<T>)
    ensures forall i, j :: 0 <= i < j < |r| ==> r[i] != r[j]
    ensures forall x :: x in r <==> x in s
  {
    if s == [] then []
    else
      var rest := Distinct(s[..|s| - 1]);
      if s[|s| - 1] in rest then rest else rest + [s[|s| - 1]]
  }

  function Keys(claims: seq<Claim>): (r: seq<seq<string>>)
    ensures |r| == |claims| && forall i :: 0 <= i < |r| ==> r[i] == GroupKey(claims[i])
  {
    if claims == [] then [] else [GroupKey(claims[0])] + Keys(claims[1..])
  }

  /** `sorted(groups)`. */
  function SortedKeys(claims: seq<Claim>): seq<seq<string>> {
    StableSort(Distinct(Keys(claims)), ListLe)
  }

  // ------------------------------------------------------------- one group

  function Members(h: EvidenceHash, claims: seq<Claim>, key: seq<string>): seq<Claim> {
    StableSort(Group(claims, key), ClaimOrder(h))
  }

  function Signatures(members: seq<Claim>): (r: seq<Signature>)
    ensures |r| == |members| && forall i :: 0 <= i < |r| ==> r[i] == members[i].signature
  {
    if members == [] then [] else [members[0].signature] + Signatures(members[1..])
  }

  function Signed(members: seq<Claim>, sig: Signature): seq<Claim> {
    Filter(members, (c: Claim) => c.signature == sig)
  }

  function AnchorKey(a: Anchor): (string, string) {
    (a.file, a.text)
  }

  function AnchorKeys(claims: seq<Claim>): set<(string, string)> {
    set c, a | c in claims && a in c.evidence :: AnchorKey(a)
  }

  /** The node's first path segment below `root/`, or the node itself. */
  function FirstSegment(s: string): string {
    if s == "" || s[0] == '/' then "" else [s[0]] + FirstSegment(s[1..])
  }

  function ModuleOf(node: string): string {
    if "root/" <= node then FirstSegment(node[5..]) else node
  }

  lemma {:induction false} SegmentEnds(m: string, rest: string)
    requires '/' !in m && (rest == "" || rest[0] == '/')
    ensures FirstSegment(m + rest) == m
  {
    if m != "" {
      assert (m + rest)[1..] == m[1..] + rest;
      assert m[0] in m && m == [m[0]] + m[1..];
      SegmentEnds(m[1..], rest);
    } else {
      assert m + rest == rest;
    }
  }

  /** The module of a node below the root is the name up to the next slash; any other node is its own module. */
  lemma {:induction false} NodesLieInModules(m: string, rest: string, node: string)
    requires '/' !in m && (rest == "" || rest[0] == '/')
    ensures ModuleOf("root/" + m + rest) == m
    ensures !("root/" <= node) ==> ModuleOf(node) == node
  {
    assert ("root/" + m + rest)[5..] == m + rest;
    SegmentEnds(m, rest);
  }

  /** `_claim_modules`. */
  function ClaimModules(claims: seq<Claim>): set<string> {
    set c | c in claims && SourceOf(c) != "" :: ModuleOf(SourceOf(c))
  }

  function OwnersOf(symbols: map<string, set<string>>, subject: string): set<string> {
    if subject in symbols then symbols[subject] else {}
  }

  function MaxCount(members: seq<Claim>, sigs: seq<Signature>): (n: nat)
    ensures forall s :: s in sigs ==> |AnchorKeys(Signed(members, s))| <= n
    ensures sigs != [] ==> exists s :: s in sigs && |AnchorKeys(Signed(members, s))| == n
  {
    if sigs == [] then 0
    else
      var rest := MaxCount(members, sigs[1..]);
      var here := |AnchorKeys(Signed(members, sigs[0]))|;
      if here >= rest then here else rest
  }

  predicate SlotComparable(a: Option<string>, b: Option<string>) {
    a == b || a.Some? == b.Some?
  }

  /** Python can order the two tuples: at their first difference neither side is None. */
  predicate Comparable(a: Signature, b: Signature) {
    if a.channel != b.channel then SlotComparable(a.channel, b.channel)
    else if a.visibility != b.visibility then SlotComparable(a.visibility, b.visibility)
    else SlotComparable(a.sideEffect, b.sideEffect)
  }

  datatype Verdict = Won(sig: Signature, reason: Reason) | Contested | Unorderable

  function Owning(members: seq<Claim>, sigs: seq<Signature>, owners: set<string>): seq<Signature> {
    Filter(sigs, (s: Signature) => ClaimModules(Signed(members, s)) * owners != {})
  }

  function Leaders(members: seq<Claim>, sigs: seq<Signature>): seq<Signature> {
    var best := MaxCount(members, sigs);
    Filter(sigs, (s: Signature) => |AnchorKeys(Signed(members, s))| == best)
  }

  /** Python cannot sort the signatures: some two of them cannot be ordered. Any sort compares
  such a pair, since either way of ordering it would fit the other comparisons. */
  predicate Clash(sigs: seq<Signature>) {
    exists i, j :: 0 <= i < j < |sigs| && !Comparable(sigs[i], sigs[j])
  }

  /** `_resolve`: ownership, then evidence, then escalation. Sorting two or more leaders raises
  when some pair differs first in a slot that only one of them fills. */
  function Resolve(subject: string, members: seq<Claim>, symbols: map<string, set<string>>): (v: Verdict)
    ensures v.Won? ==> Signed(members, v.sig) != []
  {
    SignedNonEmpty(members);
    var sigs := Distinct(Signatures(members));
    var owners := OwnersOf(symbols, subject);
    var owning := Owning(members, sigs, owners);
    Decide(owners != {}, owning, Leaders(members, sigs))
  }

  /** The decision, from the signatures of the owning nodes and those with the most evidence. */
  function Decide(owned: bool, owning: seq<Signature>, leaders: seq<Signature>): (v: Verdict)
    ensures v.Won? ==> v.sig in owning || v.sig in leaders
    ensures v.Unorderable? <==> !(owned && |owning| == 1) && Clash(leaders)
  {
    if owned && |owning| == 1 then Won(owning[0], Ownership)
    else if Clash(leaders) then Unorderable
    else if |leaders| == 1 then Won(leaders[0], Evidence)
    else Contested
  }

  lemma {:induction false} SignedNonEmpty(members: seq<Claim>)
    ensures forall sig {:trigger Signed(members, sig)} :: sig in Distinct(Signatures(members)) ==> Signed(members, sig) != []
  {
    forall sig | sig in Distinct(Signatures(members)) ensures Signed(members, sig) != [] {
      var i :| 0 <= i < |members| && members[i].signature == sig;
      FilterMembers(members, (c: Claim) => c.signature == sig);
      assert members[i] in Signed(members, sig);
    }
  }

  // ---------------------------------------------------------------- the union

  function AllEvidence(claims: seq<Claim>): seq<Anchor> {
    Blocks(claims, (c: Claim) => c.evidence)
  }

  predicate Cited(anchors: seq<Anchor>, key: (string, string)) {
    exists a :: a in anchors && AnchorKey(a) == key
  }

  /** The first anchor of each (file, text), in order. */
  function DistinctAnchors(anchors: seq<Anchor>): seq<Anchor> {
    if anchors == [] then []
    else
      var rest := DistinctAnchors(anchors[..|anchors| - 1]);
      var last := anchors[|anchors| - 1];
      if Cited(rest, AnchorKey(last)) then rest else rest + [last]
  }

  predicate AnchorLe(a: Anchor, b: Anchor) {
    if a.file == b.file then a.line <= b.line else StrLe(a.file, b.file)
  }

  function Stripped(): Claim -> string {
    (c: Claim) => Strip(c.statement)
  }

  /** The distinct texts of the first `n` claims that are not blank, in order. */
  function TextsOf(claims: seq<Claim>, text: Claim -> string, n: nat): (r: seq<string>)
    requires n <= |claims|
    ensures WithoutRepeats(r)
    ensures forall t :: t in r <==> t != "" && exists i :: 0 <= i < n && text(claims[i]) == t
  {
    if n == 0 then []
    else
      var rest := TextsOf(claims, text, n - 1);
      if text(claims[n - 1]) == "" || text(claims[n - 1]) in rest then rest else rest + [text(claims[n - 1])]
  }

  function Statements(claims: seq<Claim>): seq<string> {
    TextsOf(claims, Stripped(), |claims|)
  }

  function ConfidenceRank(c: string): nat {
    if c == "contested" then 3 else if c == "high" then 2 else if c == "medium" then 1 else 0
  }

  /** Python's `max`: the first of the highest. */
  function TopConfidence(claims: seq<Claim>): string
    requires claims != []
  {
    if |claims| == 1 then claims[0].confidence
    else
      var best := TopConfidence(claims[..|claims| - 1]);
      var last := claims[|claims| - 1].confidence;
      if ConfidenceRank(last) > ConfidenceRank(best) then last else best
  }

  function SourceSet(claims: seq<Claim>): set<string> {
    set c | c in claims :: SourceOf(c)
  }

  function StatementSet(claims: seq<Claim>): set<string> {
    set c | c in claims :: c.statement
  }

  function UnionOf(key: seq<string>, claims: seq<Claim>, statements: seq<string>, anchors: seq<Anchor>): (x: MergedClaim)
    requires claims != [] && |key| == 2
    ensures [x.subject, x.kind] == key
  {
    MergedClaim(
      key[1], key[0],
      if claims[0].id != "" then claims[0].id else key[1] + "." + key[0],
      if statements == [] then "" else statements[0],
      if |statements| > 1 then statements else [],
      anchors, TopConfidence(claims), claims[0].signature,
      SortedSet(SourceSet(claims) - {""}), None, claims[0].extra)
  }

  /** `_union`. */
  function Union(h: EvidenceHash, key: seq<string>, members: seq<Claim>): (x: MergedClaim)
    requires members != [] && |key| == 2
    ensures [x.subject, x.kind] == key
  {
    var claims := StableSort(members, ClaimOrder(h));
    UnionOf(key, claims, Statements(claims), StableSort(DistinctAnchors(AllEvidence(claims)), AnchorLe))
  }

  // ------------------------------------------------------- conflicts, outcomes

  function SlotText(o: Option<string>): string {
    match o case None => "" case Some(v) => v
  }

  function SignatureKey(s: Signature): seq<string> {
    [SlotText(s.channel), SlotText(s.visibility), SlotText(s.sideEffect)]
  }

  function SignatureOrder(): (Signature, Signature) -> bool {
    KeyOrder((s: Signature) => SignatureKey(s))
  }

  function PositionOf(members: seq<Claim>, sig: Signature, winner: Option<Signature>): Position {
    var group := Signed(members, sig);
    Position(sig, SortedSet(SourceSet(group)), SortedSet(StatementSet(group)), |AnchorKeys(group)|, winner == Some(sig))
  }

  function Positions(members: seq<Claim>, sigs: seq<Signature>, winner: Option<Signature>): seq<Position> {
    if sigs == [] then [] else [PositionOf(members, sigs[0], winner)] + Positions(members, sigs[1..], winner)
  }

  /** `_conflict_record`. */
  function ConflictRecord(key: seq<string>, members: seq<Claim>, resolvedBy: Option<Reason>, winner: Option<Signature>): Conflict
    requires |key| == 2
  {
    Conflict(key[0], key[1], resolvedBy,
             Positions(members, StableSort(Distinct(Signatures(members)), SignatureOrder()), winner))
  }

  function StrippedSet(claims: seq<Claim>): set<string> {
    set c | c in claims :: Strip(c.statement)
  }

  function Zero(): Stats {
    Stats(0, 0, 0, 0, 0, 0, 0)
  }

  /** What one group comes to. */
  datatype Outcome =
    | Unanimous(claim: MergedClaim, near: Option<NearMiss>)
    | Resolved(claim: MergedClaim, conflict: Conflict, reason: Reason)
    | Escalated(claim: MergedClaim, conflict: Conflict)
    | Raises

  function UnanimousOutcome(h: EvidenceHash, key: seq<string>, members: seq<Claim>): (o: Outcome)
    requires members != [] && |key| == 2
    ensures o.Unanimous? && [o.claim.subject, o.claim.kind] == key
  {
    Unanimous(Union(h, key, members), NearMissOf(key, members))
  }

  /** Same enums, different prose. */
  function NearMissOf(key: seq<string>, members: seq<Claim>): Option<NearMiss>
    requires |key| == 2
  {
    if |StrippedSet(members)| > 1
    then Some(NearMiss(key[0], key[1], SortedSet(StatementSet(members)), SortedSet(SourceSet(members))))
    else None
  }

  function ResolvedOutcome(h: EvidenceHash, key: seq<string>, members: seq<Claim>, group: seq<Claim>, sig: Signature, reason: Reason): (o: Outcome)
    requires group != [] && |key| == 2
    ensures o.Resolved? && [o.claim.subject, o.claim.kind] == key
  {
    Resolved(Union(h, key, group), ConflictRecord(key, members, Some(reason), Some(sig)), reason)
  }

  function EscalatedOutcome(h: EvidenceHash, key: seq<string>, members: seq<Claim>): (o: Outcome)
    requires members != [] && |key| == 2
    ensures o.Escalated? && [o.claim.subject, o.claim.kind] == key
  {
    Escalated(
      Union(h, key, members).(confidence := "contested", contestedWith := Some(SortedSet(SourceSet(members) - {""}))),
      ConflictRecord(key, members, None, None))
  }

  function GroupOutcome(h: EvidenceHash, symbols: map<string, set<string>>, key: seq<string>, members: seq<Claim>): (o: Outcome)
    requires members != [] && |key| == 2
    ensures !o.Raises? ==> [o.claim.subject, o.claim.kind] == key
    ensures o.Raises? <==> |Distinct(Signatures(members))| != 1 && Resolve(key[0], members, symbols).Unorderable?
  {
    if |Distinct(Signatures(members))| == 1 then UnanimousOutcome(h, key, members)
    else
      match Resolve(key[0], members, symbols)
      case Unorderable => Raises
      case Won(sig, reason) => ResolvedOutcome(h, key, members, Signed(members, sig), sig, reason)
      case Contested => EscalatedOutcome(h, key, members)
  }

  function Add(into: Merged, o: Outcome): Merged {
    if into.TypeError? || o.Raises? then TypeError
    else
      var stats := into.stats.(groups := into.stats.groups + 1);
      match o
      case Unanimous(claim, near) =>
        var misses := match near case None => [] case Some(m) => [m];
        Merged(into.claims + [claim], into.conflicts, into.nearMisses + misses,
               stats.(unanimous := stats.unanimous + 1, nearMisses := stats.nearMisses + |misses|))
      case Resolved(claim, conflict, reason) =>
        Merged(into.claims + [claim], into.conflicts + [conflict], into.nearMisses,
               if reason == Ownership then stats.(conflicts := stats.conflicts + 1, byOwnership := stats.byOwnership + 1)
               else stats.(conflicts := stats.conflicts + 1, byEvidence := stats.byEvidence + 1))
      case Escalated(claim, conflict) =>
        Merged(into.claims + [claim], into.conflicts + [conflict], into.nearMisses,
               stats.(conflicts := stats.conflicts + 1, contested := stats.contested + 1))
  }

  /** The first `n` outcomes, accumulated in order. */
  function Accumulate(outcomes: seq<Outcome>, n: nat): Merged
    requires n <= |outcomes|
  {
    if n == 0 then Merged([], [], [], Zero()) else Add(Accumulate(outcomes, n - 1), outcomes[n - 1])
  }

  // ---------------------------------------------------------------- the merge

  predicate ValidKey(claims: seq<Claim>, k: seq<string>) {
    |k| == 2 && Group(claims, k) != []
  }

  ghost predicate ValidKeys(claims: seq<Claim>, keys: seq<seq<string>>) {
    forall k {:trigger ValidKey(claims, k)} :: k in keys ==> ValidKey(claims, k)
  }

  lemma {:induction false} KeysOfClaims(claims: seq<Claim>, k: seq<string>)
    ensures k in SortedKeys(claims) <==> exists c :: c in claims && GroupKey(c) == k
  {
    var keys := Keys(claims);
    SortMembers(Distinct(keys), ListLe);
    if k in SortedKeys(claims) {
      var i :| 0 <= i < |keys| && keys[i] == k;
      assert claims[i] in claims;
    }
    if c :| c in claims && GroupKey(c) == k {
      var i :| 0 <= i < |claims| && claims[i] == c;
      assert keys[i] == k;
    }
  }

  lemma {:induction false} GroupsNonEmpty(claims: seq<Claim>)
    ensures ValidKeys(claims, SortedKeys(claims))
  {
    forall k | k in SortedKeys(claims) ensures ValidKey(claims, k) {
      KeysOfClaims(claims, k);
      var c :| c in claims && GroupKey(c) == k;
      FilterMembers(claims, (c: Claim) => InGroup(k, c));
      assert c in Group(claims, k);
    }
  }

  function Outcomes(h: EvidenceHash, symbols: map<string, set<string>>, claims: seq<Claim>, keys: seq<seq<string>>): (r: seq<Outcome>)
    requires ValidKeys(claims, keys)
    ensures |r| == |keys|
    ensures forall i :: 0 <= i < |r| ==> ValidKey(claims, keys[i]) && r[i] == OutcomeOf(h, symbols, claims, keys[i])
  {
    assert forall i :: 0 <= i < |keys| ==> ValidKey(claims, keys[i]);
    seq(|keys|, i requires 0 <= i < |keys| && ValidKey(claims, keys[i]) => OutcomeOf(h, symbols, claims, keys[i]))
  }

  function OutcomeOf(h: EvidenceHash, symbols: map<string, set<string>>, claims: seq<Claim>, key: seq<string>): Outcome
    requires ValidKey(claims, key)
  {
    GroupOutcome(h, symbols, key, Members(h, claims, key))
  }

  /** `key=lambda c: (c["kind"], c["subject"], c["id"])`. */
  function MergedOrder(): (MergedClaim, MergedClaim) -> bool {
    KeyOrder((c: MergedClaim) => [c.kind, c.subject, c.id])
  }

  function Finish(m: Merged): Merged {
    match m
    case TypeError => TypeError
    case Merged(claims, _, _, _) => m.(claims := StableSort(claims, MergedOrder()))
  }

  function MergeSpec(h: EvidenceHash, symbols: map<string, set<string>>, claims: seq<Claim>): Merged {
    GroupsNonEmpty(claims);
    var outcomes := Outcomes(h, symbols, claims, SortedKeys(claims));
    Finish(Accumulate(outcomes, |outcomes|))
  }

  /** `groups` holds the groups of `claims` and `order` its keys as a dict orders them. */
  ghost predicate Grouped(claims: seq<Claim>, groups: map<seq<string>, seq<Claim>>, order: seq<seq<string>>) {
    && order == Distinct(Keys(claims))
    && (forall k :: k in groups <==> k in order)
    && (forall k :: k in groups ==> groups[k] == Group(claims, k))
  }

  /** `groups.setdefault((subject, kind), []).append(claim)`. */
  method GroupClaims(claims: seq<Claim>) returns (groups: map<seq<string>, seq<Claim>>, order: seq<seq<string>>)
    ensures Grouped(claims, groups, order)
  {
    groups, order := map[], [];
    for i := 0 to |claims|
      invariant Grouped(claims[..i], groups, order)
    {
      var key := GroupKey(claims[i]);
      assert claims[..i + 1] == claims[..i] + [claims[i]];
      GroupGrows(claims[..i], claims[i], groups, order);
      if key !in groups { order := order + [key]; }
      groups := groups[key := (if key in groups then groups[key] else []) + [claims[i]]];
    }
    assert claims[..|claims|] == claims;
  }

  function Appended(groups: map<seq<string>, seq<Claim>>, c: Claim): map<seq<string>, seq<Claim>> {
    var key := GroupKey(c);
    groups[key := (if key in groups then groups[key] else []) + [c]]
  }

  function AppendedOrder(groups: map<seq<string>, seq<Claim>>, order: seq<seq<string>>, c: Claim): seq<seq<string>> {
    if GroupKey(c) in groups then order else order + [GroupKey(c)]
  }

  lemma {:induction false} GroupGrows(claims: seq<Claim>, c: Claim, groups: map<seq<string>, seq<Claim>>, order: seq<seq<string>>)
    requires Grouped(claims, groups, order)
    ensures Grouped(claims + [c], Appended(groups, c), AppendedOrder(groups, order, c))
  {
    KeysGrow(claims, c);
    AppendedKeys(groups, order, c);
    if GroupKey(c) !in groups { GroupOfNewKey(claims, GroupKey(c)); }
    AppendedGroups(claims, groups, c);
  }

  lemma {:induction false} AppendedGroups(claims: seq<Claim>, groups: map<seq<string>, seq<Claim>>, c: Claim)
    requires forall k :: k in groups ==> groups[k] == Group(claims, k)
    requires GroupKey(c) !in groups ==> Group(claims, GroupKey(c)) == []
    ensures var grown := Appended(groups, c); forall k :: k in grown ==> grown[k] == Group(claims + [c], k)
  {
    var grown := Appended(groups, c);
    forall k | k in grown ensures grown[k] == Group(claims + [c], k) {
      GroupOne(claims, c, k);
    }
  }

  lemma {:induction false} AppendedKeys(groups: map<seq<string>, seq<Claim>>, order: seq<seq<string>>, c: Claim)
    requires forall k :: k in groups <==> k in order
    ensures forall k :: k in Appended(groups, c) <==> k in AppendedOrder(groups, order, c)
  {
  }

  lemma {:induction false} GroupOne(claims: seq<Claim>, c: Claim, k: seq<string>)
    ensures Group(claims + [c], k) == if GroupKey(c) == k then Group(claims, k) + [c] else Group(claims, k)
  {
    FilterAppend(claims, [c], (c: Claim) => InGroup(k, c));
    assert Group([c], k) == if GroupKey(c) == k then [c] else [];
  }

  lemma {:induction false} KeysGrow(claims: seq<Claim>, c: Claim)
    ensures var keys := Distinct(Keys(claims));
            Distinct(Keys(claims + [c])) == if GroupKey(c) in keys then keys else keys + [GroupKey(c)]
  {
    assert Keys(claims + [c]) == Keys(claims) + [GroupKey(c)];
    assert Keys(claims + [c])[..|claims|] == Keys(claims);
  }

  lemma {:induction false} GroupOfNewKey(claims: seq<Claim>, key: seq<string>)
    requires key !in Distinct(Keys(claims))
    ensures Group(claims, key) == []
  {
    forall c | c in claims ensures GroupKey(c) != key {
      var i :| 0 <= i < |claims| && claims[i] == c;
      assert Keys(claims)[i] == GroupKey(c);
    }
    NoneMatch(claims, key);
  }

  lemma {:induction false} NoneMatch(claims: seq<Claim>, key: seq<string>)
    requires forall c :: c in claims ==> GroupKey(c) != key
    ensures Group(claims, key) == []
  {
    if claims != [] {
      NoneMatch(claims[1..], key);
      assert claims[0] in claims;
      assert Group(claims, key) == Group(claims[1..], key);
    }
  }

  ghost predicate HoldsGroups(claims: seq<Claim>, groups: map<seq<string>, seq<Claim>>, keys: seq<seq<string>>) {
    forall i :: 0 <= i < |keys| ==> keys[i] in groups && groups[keys[i]] == Group(claims, keys[i])
  }

  lemma {:induction false} HeldMembers(h: EvidenceHash, claims: seq<Claim>, groups: map<seq<string>, seq<Claim>>, keys: seq<seq<string>>, i: nat)
    requires ValidKeys(claims, keys) && HoldsGroups(claims, groups, keys) && i < |keys|
    ensures keys[i] in groups && |keys[i]| == 2
    ensures StableSort(groups[keys[i]], ClaimOrder(h)) == Members(h, claims, keys[i])
    ensures StableSort(groups[keys[i]], ClaimOrder(h)) != []
  {
    assert ValidKey(claims, keys[i]);
  }

  /** The loop over the sorted groups. */
  method MergeGroups(h: EvidenceHash, symbols: map<string, set<string>>, ghost claims: seq<Claim>,
                     groups: map<seq<string>, seq<Claim>>, keys: seq<seq<string>>) returns (merged: Merged)
    requires ValidKeys(claims, keys) && HoldsGroups(claims, groups, keys)
    ensures merged == Accumulate(Outcomes(h, symbols, claims, keys), |keys|)
  {
    merged := Merged([], [], [], Zero());
    ghost var outcomes := Outcomes(h, symbols, claims, keys);
    for i := 0 to |keys|
      invariant merged == Accumulate(outcomes, i)
    {
      HeldMembers(h, claims, groups, keys, i);
      merged := Add(merged, GroupOutcome(h, symbols, keys[i], StableSort(groups[keys[i]], ClaimOrder(h))));
    }
  }

  lemma {:induction false} GroupedKeys(claims: seq<Claim>, groups: map<seq<string>, seq<Claim>>, order: seq<seq<string>>)
    requires Grouped(claims, groups, order)
    ensures HoldsGroups(claims, groups, StableSort(order, ListLe))
  {
    SortMembers(order, ListLe);
  }

  /** `merge_claims`. */
  method MergeClaims(h: EvidenceHash, symbols: map<string, set<string>>, claims: seq<Claim>) returns (merged: Merged)
    ensures merged == MergeSpec(h, symbols, claims)
  {
    var groups, order := GroupClaims(claims);
    GroupedKeys(claims, groups, order);
    GroupsNonEmpty(claims);
    merged := MergeGroups(h, symbols, claims, groups, StableSort(order, ListLe));
    merged := Finish(merged);
  }

  // ----------------------------------------------------- what the merge promises

  /** Two claim lists that agree on every class of ties inside every group. */
  ghost predicate SameGroups(h: EvidenceHash, a: seq<Claim>, b: seq<Claim>) {
    forall key, k :: Ties(Group(a, key), k, ClaimOrder(h)) == Ties(Group(b, key), k, ClaimOrder(h))
  }

  lemma {:induction false} SameMembersOfGroup(h: EvidenceHash, a: seq<Claim>, b: seq<Claim>, key: seq<string>)
    requires SameGroups(h, a, b)
    ensures Members(h, a, key) == Members(h, b, key)
  {
    ClaimOrderIsOrder(h);
    SortDeterminedByTies(Group(a, key), Group(b, key), ClaimOrder(h));
  }

  lemma {:induction false} SameKeys(a: seq<Claim>, b: seq<Claim>)
    requires multiset(a) == multiset(b)
    ensures SortedKeys(a) == SortedKeys(b)
  {
    var x, y := Distinct(Keys(a)), Distinct(Keys(b));
    SameMembers(a, b);
    forall k ensures k in x <==> k in y {
      KeysOfClaims(a, k);
      KeysOfClaims(b, k);
      SortMembers(x, ListLe);
      SortMembers(y, ListLe);
      if c :| c in a && GroupKey(c) == k { assert c in b; }
      if c :| c in b && GroupKey(c) == k { assert c in a; }
    }
    SameElementsPermuted(x, y);
    ListLeIsOrder();
    PermutationSortsAlike(x, y, ListLe);
  }

  lemma {:induction false} SameOutcomes(h: EvidenceHash, symbols: map<string, set<string>>, a: seq<Claim>, b: seq<Claim>, keys: seq<seq<string>>)
    requires SameGroups(h, a, b) && ValidKeys(a, keys) && ValidKeys(b, keys)
    ensures Outcomes(h, symbols, a, keys) == Outcomes(h, symbols, b, keys)
  {
    var x, y := Outcomes(h, symbols, a, keys), Outcomes(h, symbols, b, keys);
    forall i | 0 <= i < |keys| ensures x[i] == y[i] {
      SameMembersOfGroup(h, a, b, keys[i]);
    }
  }

  /** The merge of a permuted claim list is the same, claims, conflicts, near misses and counts,
  as long as claims tied inside one group keep their relative order. */
  lemma {:induction false} MergeIgnoresOrder(h: EvidenceHash, symbols: map<string, set<string>>, a: seq<Claim>, b: seq<Claim>)
    requires multiset(a) == multiset(b) && SameGroups(h, a, b)
    ensures MergeSpec(h, symbols, a) == MergeSpec(h, symbols, b)
  {
    SameKeys(a, b);
    GroupsNonEmpty(a);
    GroupsNonEmpty(b);
    SameOutcomes(h, symbols, a, b, SortedKeys(a));
  }

  lemma {:induction false} RaisesWhenOneDoes(outcomes: seq<Outcome>, n: nat)
    requires n <= |outcomes|
    ensures Accumulate(outcomes, n).TypeError? <==> exists i :: 0 <= i < n && outcomes[i].Raises?
  {
    if n > 0 { RaisesWhenOneDoes(outcomes, n - 1); }
  }

  /** No signature of the group rests on more evidence. */
  ghost predicate Leads(members: seq<Claim>, sig: Signature) {
    forall c {:trigger c in members} :: c in members
      ==> |AnchorKeys(Signed(members, c.signature))| <= |AnchorKeys(Signed(members, sig))|
  }

  /** Which signatures a claim of an owner carries. */
  ghost function OwnsFn(members: seq<Claim>, owners: set<string>): Signature -> bool {
    (sig: Signature) => ClaimModules(Signed(members, sig)) * owners != {}
  }

  ghost predicate SoleOwned(members: seq<Claim>, owns: Signature -> bool, c: Claim) {
    && c in members && owns(c.signature)
    && forall d {:trigger d in members} :: d in members && owns(d.signature) ==> d.signature == c.signature
  }

  /** The subject's owners stand behind one signature. */
  ghost predicate OneOwned(members: seq<Claim>, owns: Signature -> bool) {
    exists c {:trigger SoleOwned(members, owns, c)} :: SoleOwned(members, owns, c)
  }

  /** The owners do not decide, and two claims whose signatures rest on the most evidence differ first in a slot that
  only one of them fills. */
  ghost predicate TiedUnorderably(symbols: map<string, set<string>>, subject: string, members: seq<Claim>) {
    && !OneOwned(members, OwnsFn(members, OwnersOf(symbols, subject)))
    && exists c, d :: c in members && d in members && Rivals(members, c, d)
  }

  ghost predicate Rivals(members: seq<Claim>, c: Claim, d: Claim) {
    Leads(members, c.signature) && Leads(members, d.signature) && !Comparable(c.signature, d.signature)
  }

  lemma {:induction false} SignatureOfMember(members: seq<Claim>, sig: Signature)
    ensures sig in Distinct(Signatures(members)) <==> exists c :: c in members && c.signature == sig
  {
    if sig in Distinct(Signatures(members)) {
      var i :| 0 <= i < |members| && Signatures(members)[i] == sig;
      assert members[i] in members;
    }
    if c :| c in members && c.signature == sig {
      var i :| 0 <= i < |members| && members[i] == c;
      assert Signatures(members)[i] == sig;
    }
  }

  lemma {:induction false} LeadersLead(members: seq<Claim>, sig: Signature)
    requires exists c :: c in members && c.signature == sig
    ensures sig in Leaders(members, Distinct(Signatures(members))) <==> Leads(members, sig)
  {
    var sigs := Distinct(Signatures(members));
    var best := MaxCount(members, sigs);
    SignatureOfMember(members, sig);
    FilterMembers(sigs, (s: Signature) => |AnchorKeys(Signed(members, s))| == best);
    forall c | c in members ensures |AnchorKeys(Signed(members, c.signature))| <= best {
      SignatureOfMember(members, c.signature);
    }
    var top :| top in sigs && |AnchorKeys(Signed(members, top))| == best;
    SignatureOfMember(members, top);
  }

  lemma {:induction false} ClashOfTwo(sigs: seq<Signature>, s: Signature, t: Signature)
    requires s in sigs && t in sigs && !Comparable(s, t)
    ensures Clash(sigs)
  {
    var i :| 0 <= i < |sigs| && sigs[i] == s;
    var j :| 0 <= j < |sigs| && sigs[j] == t;
    assert !Comparable(sigs[if i < j then i else j], sigs[if i < j then j else i]);
  }

  lemma {:induction false} ClashExactly(members: seq<Claim>)
    ensures Clash(Leaders(members, Distinct(Signatures(members))))
      <==> exists c, d :: c in members && d in members && Rivals(members, c, d)
  {
    var sigs := Distinct(Signatures(members));
    var leaders := Leaders(members, sigs);
    if i, j :| 0 <= i < j < |leaders| && !Comparable(leaders[i], leaders[j]) {
      var c := MemberOfLeader(members, leaders[i]);
      var d := MemberOfLeader(members, leaders[j]);
      assert Rivals(members, c, d);
    }
    if c, d :| c in members && d in members && Rivals(members, c, d) {
      LeadersLead(members, c.signature);
      LeadersLead(members, d.signature);
      ClashOfTwo(leaders, c.signature, d.signature);
    }
  }

  lemma {:induction false} MemberOfLeader(members: seq<Claim>, sig: Signature) returns (c: Claim)
    requires sig in Leaders(members, Distinct(Signatures(members)))
    ensures c in members && c.signature == sig && Leads(members, sig)
  {
    var sigs := Distinct(Signatures(members));
    FilterMembers(sigs, (s: Signature) => |AnchorKeys(Signed(members, s))| == MaxCount(members, sigs));
    SignatureOfMember(members, sig);
    c :| c in members && c.signature == sig;
    LeadersLead(members, sig);
  }

  lemma {:induction false} FilterDistinct<T(!new)>(s: seq<T>, p: T -> bool)
    requires forall i, j :: 0 <= i < j < |s| ==> s[i] != s[j]
    ensures forall i, j :: 0 <= i < j < |Filter(s, p)| ==> Filter(s, p)[i] != Filter(s, p)[j]
  {
    if s != [] {
      FilterDistinct(s[1..], p);
      FilterMembers(s[1..], p);
    }
  }

  lemma {:induction false} TwoElements<T(!new)>(s: seq<T>, x: T)
    requires (forall i, j :: 0 <= i < j < |s| ==> s[i] != s[j]) && |s| >= 2
    ensures exists y :: y in s && y != x
  {
    assert s[0] in s && s[1] in s && s[0] != s[1];
  }

  lemma {:induction false} OneElement<T(!new)>(s: seq<T>, x: T)
    requires (forall i, j :: 0 <= i < j < |s| ==> s[i] != s[j]) && x in s
    ensures |s| == 1 <==> forall y :: y in s ==> y == x
  {
    if |s| >= 2 { TwoElements(s, x); }
  }

  ghost predicate HasSignature(members: seq<Claim>, sig: Signature) {
    exists c :: c in members && c.signature == sig
  }

  /** `owning` lists, once each, the signatures of members that `owns` admits. */
  ghost predicate ListsOwned(members: seq<Claim>, owns: Signature -> bool, owning: seq<Signature>) {
    && (forall i, j :: 0 <= i < j < |owning| ==> owning[i] != owning[j])
    && forall s {:trigger owns(s)} {:trigger s in owning} :: s in owning <==> owns(s) && HasSignature(members, s)
  }

  lemma {:induction false} OneListedIsSole(members: seq<Claim>, owns: Signature -> bool, owning: seq<Signature>)
    requires ListsOwned(members, owns, owning) && |owning| == 1
    ensures OneOwned(members, owns)
  {
    assert owning[0] in owning;
    var c :| c in members && c.signature == owning[0];
    forall d | d in members && owns(d.signature) ensures d.signature == c.signature {
      assert HasSignature(members, d.signature);
      assert d.signature in owning;
    }
    assert SoleOwned(members, owns, c);
  }

  lemma {:induction false} SoleIsOneListed(members: seq<Claim>, owns: Signature -> bool, owning: seq<Signature>, c: Claim)
    requires ListsOwned(members, owns, owning) && SoleOwned(members, owns, c)
    ensures |owning| == 1
  {
    assert HasSignature(members, c.signature);
    forall s | s in owning ensures s == c.signature {
      var d :| d in members && d.signature == s;
    }
    OneElement(owning, c.signature);
  }

  lemma {:induction false} OwningIsListed(members: seq<Claim>, owners: set<string>)
    ensures ListsOwned(members, OwnsFn(members, owners), Owning(members, Distinct(Signatures(members)), owners))
  {
    var sigs := Distinct(Signatures(members));
    FilterDistinct(sigs, (s: Signature) => ClaimModules(Signed(members, s)) * owners != {});
    FilterMembers(sigs, (s: Signature) => ClaimModules(Signed(members, s)) * owners != {});
    forall s ensures s in sigs <==> HasSignature(members, s) { SignatureOfMember(members, s); }
  }

  lemma {:induction false} OneOwnedExactly(members: seq<Claim>, owners: set<string>)
    ensures |Owning(members, Distinct(Signatures(members)), owners)| == 1 <==> OneOwned(members, OwnsFn(members, owners))
  {
    var owns, owning := OwnsFn(members, owners), Owning(members, Distinct(Signatures(members)), owners);
    OwningIsListed(members, owners);
    if |owning| == 1 { OneListedIsSole(members, owns, owning); }
    if c :| SoleOwned(members, owns, c) { SoleIsOneListed(members, owns, owning, c); }
  }

  lemma {:induction false} NoOwnersOwnNothing(members: seq<Claim>)
    ensures !OneOwned(members, OwnsFn(members, {}))
  {
  }

  lemma {:induction false} TiedDisagree(members: seq<Claim>, c: Claim, d: Claim)
    requires c in members && d in members && c.signature != d.signature
    ensures |Distinct(Signatures(members))| != 1
  {
    var sigs := Distinct(Signatures(members));
    SignatureOfMember(members, c.signature);
    SignatureOfMember(members, d.signature);
    TwoMembersDiffer(sigs, c.signature, d.signature);
  }

  lemma {:induction false} TwoMembersDiffer<T(!new)>(s: seq<T>, x: T, y: T)
    requires x in s && y in s && x != y
    ensures |s| >= 2
  {
  }

  /** The group raises exactly when the owners do not decide and its best supported signatures cannot be ordered. */
  lemma {:induction false} ResolveRaisesExactly(symbols: map<string, set<string>>, subject: string, members: seq<Claim>)
    ensures |Distinct(Signatures(members))| != 1 && Resolve(subject, members, symbols).Unorderable?
            <==> TiedUnorderably(symbols, subject, members)
  {
    ClashExactly(members);
    OneOwnedExactly(members, OwnersOf(symbols, subject));
    NoOwnersOwnNothing(members);
    if TiedUnorderably(symbols, subject, members) {
      var c, d :| c in members && d in members && Rivals(members, c, d);
      TiedDisagree(members, c, d);
    }
  }

  lemma {:induction false} GroupRaisesExactly(h: EvidenceHash, symbols: map<string, set<string>>, key: seq<string>, members: seq<Claim>)
    requires members != [] && |key| == 2
    ensures GroupOutcome(h, symbols, key, members).Raises? <==> TiedUnorderably(symbols, key[0], members)
  {
    ResolveRaisesExactly(symbols, key[0], members);
  }

  lemma {:induction false} OutcomesRaiseExactly(h: EvidenceHash, symbols: map<string, set<string>>, claims: seq<Claim>, keys: seq<seq<string>>, i: nat)
    requires ValidKeys(claims, keys) && i < |keys|
    ensures keys[i] != []
    ensures Outcomes(h, symbols, claims, keys)[i].Raises? <==> TiedUnorderably(symbols, keys[i][0], Members(h, claims, keys[i]))
  {
    assert ValidKey(claims, keys[i]);
    GroupRaisesExactly(h, symbols, keys[i], Members(h, claims, keys[i]));
  }

  /** The merge raises exactly when some group's evidence tie cannot be put in order: where the
  documentation promises escalation, Python refuses to compare a string with None. */
  lemma {:induction false} MergeRaisesExactly(h: EvidenceHash, symbols: map<string, set<string>>, claims: seq<Claim>)
    ensures MergeSpec(h, symbols, claims).TypeError? <==>
            exists k :: k in SortedKeys(claims) && k != [] && TiedUnorderably(symbols, k[0], Members(h, claims, k))
  {
    var keys := SortedKeys(claims);
    GroupsNonEmpty(claims);
    var outcomes := Outcomes(h, symbols, claims, keys);
    RaisesWhenOneDoes(outcomes, |outcomes|);
    forall k | k in keys && k != [] && TiedUnorderably(symbols, k[0], Members(h, claims, k))
      ensures exists i :: 0 <= i < |outcomes| && outcomes[i].Raises?
    {
      var i := TiedGroupRaises(h, symbols, claims, keys, k);
    }
    if i :| 0 <= i < |outcomes| && outcomes[i].Raises? {
      OutcomesRaiseExactly(h, symbols, claims, keys, i);
      assert keys[i] in keys;
    }
  }

  lemma {:induction false} TiedGroupRaises(h: EvidenceHash, symbols: map<string, set<string>>, claims: seq<Claim>,
      keys: seq<seq<string>>, k: seq<string>) returns (i: nat)
    requires ValidKeys(claims, keys) && k in keys && k != []
    requires TiedUnorderably(symbols, k[0], Members(h, claims, k))
    ensures i < |Outcomes(h, symbols, claims, keys)| && Outcomes(h, symbols, claims, keys)[i].Raises?
  {
    i :| 0 <= i < |keys| && keys[i] == k;
    OutcomesRaiseExactly(h, symbols, claims, keys, i);
  }

  /** Counts that must add up. */
  ghost predicate Accounted(m: Merged, outcomes: seq<Outcome>, n: nat)
    requires n <= |outcomes|
  {
    m.Merged? ==>
      && |m.claims| == m.stats.groups == n
      && m.stats.unanimous + m.stats.conflicts == n
      && m.stats.byOwnership + m.stats.byEvidence + m.stats.contested == m.stats.conflicts == |m.conflicts|
      && m.stats.nearMisses == |m.nearMisses| <= m.stats.unanimous
      && forall i :: 0 <= i < n ==> !outcomes[i].Raises? && m.claims[i] == outcomes[i].claim
  }

  lemma {:induction false} AccumulateAccounts(outcomes: seq<Outcome>, n: nat)
    requires n <= |outcomes|
    ensures Accounted(Accumulate(outcomes, n), outcomes, n)
  {
    if n > 0 { AccumulateAccounts(outcomes, n - 1); }
  }

  /** The counters classify the groups, and every group yields one merged claim. */
  lemma {:induction false} MergeAccounts(h: EvidenceHash, symbols: map<string, set<string>>, claims: seq<Claim>)
    requires MergeSpec(h, symbols, claims).Merged?
    ensures var m := MergeSpec(h, symbols, claims);
            && m.stats.groups == |m.claims| == |SortedKeys(claims)|
            && m.stats.unanimous + m.stats.conflicts == m.stats.groups
            && m.stats.byOwnership + m.stats.byEvidence + m.stats.contested == m.stats.conflicts == |m.conflicts|
            && m.stats.nearMisses == |m.nearMisses|
  {
    GroupsNonEmpty(claims);
    var outcomes := Outcomes(h, symbols, claims, SortedKeys(claims));
    AccumulateAccounts(outcomes, |outcomes|);
  }

  /** The merged claims are about exactly the (subject, kind) pairs that the claims are about. */
  lemma {:induction false} MergeCoversGroups(h: EvidenceHash, symbols: map<string, set<string>>, claims: seq<Claim>, key: seq<string>)
    requires MergeSpec(h, symbols, claims).Merged?
    ensures (exists m :: m in MergeSpec(h, symbols, claims).claims && [m.subject, m.kind] == key) <==>
            exists c :: c in claims && GroupKey(c) == key
  {
    var keys := SortedKeys(claims);
    GroupsNonEmpty(claims);
    var outcomes := Outcomes(h, symbols, claims, keys);
    AccumulateAccounts(outcomes, |outcomes|);
    KeysOfClaims(claims, key);
    AccountedCovers(Accumulate(outcomes, |outcomes|), outcomes, keys, key);
  }

  lemma {:induction false} AccountedCovers(m: Merged, outcomes: seq<Outcome>, keys: seq<seq<string>>, key: seq<string>)
    requires Accounted(m, outcomes, |outcomes|) && Finish(m).Merged? && |outcomes| == |keys|
    requires forall i :: 0 <= i < |keys| && !outcomes[i].Raises? ==> [outcomes[i].claim.subject, outcomes[i].claim.kind] == keys[i]
    ensures (exists c :: c in Finish(m).claims && [c.subject, c.kind] == key) <==> key in keys
  {
    SortMembers(m.claims, MergedOrder());
    NamedClaims(m.claims, keys, key);
  }

  lemma {:induction false} NamedClaims(claims: seq<MergedClaim>, keys: seq<seq<string>>, key: seq<string>)
    requires |claims| == |keys| && forall i :: 0 <= i < |keys| ==> [claims[i].subject, claims[i].kind] == keys[i]
    ensures (exists m :: m in claims && [m.subject, m.kind] == key) <==> key in keys
  {
    if key in keys {
      var i :| 0 <= i < |keys| && keys[i] == key;
      assert claims[i] in claims;
    }
    if m :| m in claims && [m.subject, m.kind] == key {
      var i :| 0 <= i < |claims| && claims[i] == m;
      assert keys[i] in keys;
    }
  }

  lemma {:induction false} DistinctAnchorsKeepAll(anchors: seq<Anchor>)
    ensures forall key :: Cited(DistinctAnchors(anchors), key) <==> Cited(anchors, key)
    ensures forall a :: a in DistinctAnchors(anchors) ==> a in anchors
    ensures forall i, j :: 0 <= i < j < |DistinctAnchors(anchors)| ==>
              AnchorKey(DistinctAnchors(anchors)[i]) != AnchorKey(DistinctAnchors(anchors)[j])
  {
    if anchors != [] {
      var front, last := anchors[..|anchors| - 1], anchors[|anchors| - 1];
      DistinctAnchorsKeepAll(front);
      assert anchors == front + [last];
      var rest := DistinctAnchors(front);
      forall key ensures Cited(DistinctAnchors(anchors), key) <==> Cited(anchors, key) {
        if Cited(rest, key) {
          assert Cited(front, key);
          var a :| a in front && AnchorKey(a) == key;
          assert a in anchors;
          var b :| b in rest && AnchorKey(b) == key;
          assert b in DistinctAnchors(anchors);
        }
        if key == AnchorKey(last) { assert last in anchors && last in rest + [last]; }
      }
      forall i | 0 <= i < |rest| ensures Cited(rest, AnchorKey(rest[i])) { assert rest[i] in rest; }
    }
  }

  /** The merged claim cites each (file, text) that any of its members cites, once, and nothing else. */
  lemma {:induction false} UnionKeepsEvidence(h: EvidenceHash, key: seq<string>, members: seq<Claim>)
    requires members != [] && |key| == 2
    ensures forall k :: Cited(Union(h, key, members).evidence, k) <==> exists c :: c in members && Cited(c.evidence, k)
    ensures multiset(Union(h, key, members).evidence) == multiset(DistinctAnchors(AllEvidence(StableSort(members, ClaimOrder(h)))))
  {
    var claims := StableSort(members, ClaimOrder(h));
    var distinct := DistinctAnchors(AllEvidence(claims));
    var e := StableSort(distinct, AnchorLe);
    assert Union(h, key, members).evidence == e;
    SortMembers(members, ClaimOrder(h));
    DistinctAnchorsKeepAll(AllEvidence(claims));
    SortMembers(distinct, AnchorLe);
    forall k ensures Cited(e, k) <==> exists c :: c in members && Cited(c.evidence, k) {
      assert Cited(e, k) <==> Cited(distinct, k);
      CitedInBlocks(claims, k);
    }
  }

  lemma {:induction false} CitedInBlocks(claims: seq<Claim>, k: (string, string))
    ensures Cited(AllEvidence(claims), k) <==> exists c :: c in claims && Cited(c.evidence, k)
  {
    BlocksMembers(claims, (c: Claim) => c.evidence);
    if Cited(AllEvidence(claims), k) {
      var a :| a in AllEvidence(claims) && AnchorKey(a) == k;
      var c :| c in claims && a in c.evidence;
      assert Cited(c.evidence, k);
    }
    if c :| c in claims && Cited(c.evidence, k) {
      var a :| a in c.evidence && AnchorKey(a) == k;
      assert a in AllEvidence(claims);
    }
  }
}
