/** What the merge decides about a subject, in terms of the claims about it (cdp/merge.py:124-260). */
module Resolution {
  import opened Options
  import opened Orders
  import opened Text
  import opened Merge
  import opened Unions

  // -------------------------------------------------------------------- the policy

  ghost predicate Held(claims: seq<Claim>, subject: string, kind: string, sig: Signature) {
    exists c :: c in claims && Carries(c, subject, kind, Some(sig))
  }

  /** The (file, text) pairs that the claims of a signature cite. */
  ghost function Support(claims: seq<Claim>, subject: string, kind: string, sig: Signature): set<(string, string)> {
    set c, a | c in claims && a in c.evidence && Carries(c, subject, kind, Some(sig)) :: (a.file, a.text)
  }

  /** A claim of the signature comes from a module that owns the subject. */
  ghost predicate Owned(claims: seq<Claim>, subject: string, kind: string, owners: set<string>, sig: Signature) {
    exists c :: c in claims && Carries(c, subject, kind, Some(sig)) && SourceOf(c) != "" && ModuleOf(SourceOf(c)) in owners
  }

  /** Only this signature is the owners'. */
  ghost predicate OwnersChoose(claims: seq<Claim>, subject: string, kind: string, owners: set<string>, sig: Signature) {
    Owned(claims, subject, kind, owners, sig)
    && forall t :: Owned(claims, subject, kind, owners, t) ==> t == sig
  }

  /** Every other signature rests on fewer distinct anchors. */
  ghost predicate EvidenceChooses(claims: seq<Claim>, subject: string, kind: string, sig: Signature) {
    Held(claims, subject, kind, sig)
    && forall t :: Held(claims, subject, kind, t) && t != sig
         ==> |Support(claims, subject, kind, t)| < |Support(claims, subject, kind, sig)|
  }

  datatype Ruling = Agreed | ByRule(sig: Signature, reason: Reason) | Open

  /** The policy: agreement, then ownership, then evidence, then escalation. */
  ghost predicate Rules(symbols: map<string, set<string>>, claims: seq<Claim>, subject: string, kind: string, r: Ruling) {
    var owners := if subject in symbols then symbols[subject] else {};
    match r
    case Agreed => forall s, t :: Held(claims, subject, kind, s) && Held(claims, subject, kind, t) ==> s == t
    case ByRule(sig, Ownership) => Disputed(claims, subject, kind) && OwnersChoose(claims, subject, kind, owners, sig)
    case ByRule(sig, Evidence) =>
      Disputed(claims, subject, kind) && EvidenceChooses(claims, subject, kind, sig)
      && !exists s :: OwnersChoose(claims, subject, kind, owners, s)
    case Open =>
      Disputed(claims, subject, kind) && (!exists s :: OwnersChoose(claims, subject, kind, owners, s))
      && !exists s :: EvidenceChooses(claims, subject, kind, s)
  }

  ghost predicate Disputed(claims: seq<Claim>, subject: string, kind: string) {
    exists s, t :: Held(claims, subject, kind, s) && Held(claims, subject, kind, t) && s != t
  }

  // ---------------------------------------------------------------- what is recorded

  ghost predicate ListsNodes(claims: seq<Claim>, pick: Claim -> bool, nodes: seq<string>) {
    StrictlySorted(nodes) && forall n :: n in nodes <==> exists c :: c in claims && pick(c) && SourceOf(c) == n
  }

  ghost predicate ListsStatements(claims: seq<Claim>, pick: Claim -> bool, statements: seq<string>) {
    StrictlySorted(statements) && forall t :: t in statements <==> exists c :: c in claims && pick(c) && c.statement == t
  }

  /** What a conflict says of one signature. */
  ghost predicate Reports(claims: seq<Claim>, subject: string, kind: string, winner: Option<Signature>, p: Position) {
    && Held(claims, subject, kind, p.values) && (p.won <==> winner == Some(p.values))
    && p.evidenceCount == |Support(claims, subject, kind, p.values)|
    && ListsNodes(claims, Picks(subject, kind, Some(p.values)), p.nodes)
    && ListsStatements(claims, Picks(subject, kind, Some(p.values)), p.statements)
  }

  function Slots(s: Signature): seq<string> {
    [match s.channel case None => "" case Some(v) => v, match s.visibility case None => "" case Some(v) => v,
     match s.sideEffect case None => "" case Some(v) => v]
  }

  /** The record lists every signature held about the subject once, in order, and marks the winner. */
  ghost predicate Audits(claims: seq<Claim>, subject: string, kind: string, resolvedBy: Option<Reason>,
      winner: Option<Signature>, x: Conflict) {
    && x.subject == subject && x.kind == kind && x.resolvedBy == resolvedBy
    && (forall p :: p in x.positions ==> Reports(claims, subject, kind, winner, p))
    && (forall sig :: Held(claims, subject, kind, sig) ==> exists p :: p in x.positions && p.values == sig)
    && (forall i, j :: 0 <= i < j < |x.positions| ==> x.positions[i].values != x.positions[j].values)
    && (forall i, j :: 0 <= i < j < |x.positions| ==> ListLe(Slots(x.positions[i].values), Slots(x.positions[j].values)))
  }

  /** The claims agree on every field compared, and differ in prose. */
  ghost predicate DifferInProse(claims: seq<Claim>, subject: string, kind: string, text: Claim -> string) {
    exists c, d :: c in claims && d in claims && About(c, subject, kind) && About(d, subject, kind) && text(c) != text(d)
  }

  ghost predicate NotesProse(claims: seq<Claim>, subject: string, kind: string, x: NearMiss) {
    && x.subject == subject && x.kind == kind
    && ListsNodes(claims, Picks(subject, kind, None), x.nodes)
    && ListsStatements(claims, Picks(subject, kind, None), x.statements)
  }

  /** What a group comes to under a ruling. */
  ghost predicate Follows(h: EvidenceHash, claims: seq<Claim>, subject: string, kind: string, r: Ruling, o: Outcome) {
    match r
    case Agreed =>
      o.Unanimous? && Unites(h, claims, Picks(subject, kind, None), o.claim)
      && (o.near.Some? <==> DifferInProse(claims, subject, kind, Stripped()))
      && (o.near.Some? ==> NotesProse(claims, subject, kind, o.near.value))
    case ByRule(sig, reason) =>
      o.Resolved? && o.reason == reason && Unites(h, claims, Picks(subject, kind, Some(sig)), o.claim)
      && Audits(claims, subject, kind, Some(reason), Some(sig), o.conflict)
    case Open =>
      o.Escalated? && IsContested(h, claims, subject, kind, o.claim)
      && Audits(claims, subject, kind, None, None, o.conflict)
  }

  /** All claims together, marked as contested among their nodes. */
  ghost predicate IsContested(h: EvidenceHash, claims: seq<Claim>, subject: string, kind: string, x: MergedClaim) {
    && x.confidence == "contested" && x.contestedWith == Some(x.sourceNodes)
    && exists confidence :: Unites(h, claims, Picks(subject, kind, None), x.(confidence := confidence, contestedWith := None))
  }

  // ----------------------------------------------------------- groups and the claims in them

  lemma {:induction false} MembersArePicked(h: EvidenceHash, claims: seq<Claim>, subject: string, kind: string)
    ensures ArePicked(claims, Picks(subject, kind, None), Members(h, claims, [subject, kind]))
  {
    var key := [subject, kind];
    FilterMembers(claims, (c: Claim) => InGroup(key, c));
    SortMembers(Group(claims, key), ClaimOrder(h));
    forall c ensures GroupKey(c) == key <==> About(c, subject, kind) {
      assert GroupKey(c)[0] == c.subject && GroupKey(c)[1] == c.kind && key[0] == subject && key[1] == kind;
    }
  }

  lemma {:induction false} SignedArePicked(claims: seq<Claim>, subject: string, kind: string, members: seq<Claim>,
      sig: Signature)
    requires ArePicked(claims, Picks(subject, kind, None), members)
    ensures ArePicked(claims, Picks(subject, kind, Some(sig)), Signed(members, sig))
    ensures HasSignature(members, sig) <==> Held(claims, subject, kind, sig)
    ensures HasSignature(members, sig) <==> Signed(members, sig) != []
  {
    var signed := Signed(members, sig);
    FilterMembers(members, (c: Claim) => c.signature == sig);
    forall c ensures c in signed <==> c in claims && Carries(c, subject, kind, Some(sig)) {}
    if Held(claims, subject, kind, sig) {
      var c :| c in claims && Carries(c, subject, kind, Some(sig));
      assert c in members && c in signed;
    }
    if HasSignature(members, sig) {
      var c :| c in members && c.signature == sig;
      assert c in signed && c in claims;
    }
    if signed != [] { assert signed[0] in signed && signed[0] in members; }
  }

  lemma {:induction false} SupportIs(claims: seq<Claim>, subject: string, kind: string, members: seq<Claim>, sig: Signature)
    requires ArePicked(claims, Picks(subject, kind, None), members)
    ensures AnchorKeys(Signed(members, sig)) == Support(claims, subject, kind, sig)
  {
    SignedArePicked(claims, subject, kind, members, sig);
    var signed := Signed(members, sig);
    forall k ensures k in AnchorKeys(signed) <==> k in Support(claims, subject, kind, sig) {
      if k in AnchorKeys(signed) {
        var c, a :| c in signed && a in c.evidence && AnchorKey(a) == k;
        assert c in claims && Carries(c, subject, kind, Some(sig)) && k == (a.file, a.text);
      }
      if k in Support(claims, subject, kind, sig) {
        var c, a :| c in claims && a in c.evidence && Carries(c, subject, kind, Some(sig)) && (a.file, a.text) == k;
        assert c in signed && AnchorKey(a) == k;
      }
    }
  }

  lemma {:induction false} OwnedIs(claims: seq<Claim>, subject: string, kind: string, members: seq<Claim>,
      owners: set<string>, sig: Signature)
    requires ArePicked(claims, Picks(subject, kind, None), members)
    ensures OwnsFn(members, owners)(sig) <==> Owned(claims, subject, kind, owners, sig)
  {
    SignedArePicked(claims, subject, kind, members, sig);
    var signed := Signed(members, sig);
    if OwnsFn(members, owners)(sig) {
      var m :| m in ClaimModules(signed) * owners;
      var c :| c in signed && SourceOf(c) != "" && ModuleOf(SourceOf(c)) == m;
      assert c in claims;
    }
    if Owned(claims, subject, kind, owners, sig) {
      var c :| c in claims && Carries(c, subject, kind, Some(sig)) && SourceOf(c) != "" && ModuleOf(SourceOf(c)) in owners;
      assert c in signed && ModuleOf(SourceOf(c)) in ClaimModules(signed) * owners;
    }
  }

  // --------------------------------------------------------------------- the verdict

  /** The owners choose a signature exactly when it is the only one listed as theirs. */
  lemma {:induction false} OwnersChooseExactly(claims: seq<Claim>, subject: string, kind: string, members: seq<Claim>,
      owners: set<string>, sig: Signature)
    requires ArePicked(claims, Picks(subject, kind, None), members)
    ensures OwnersChoose(claims, subject, kind, owners, sig)
      <==> Owning(members, Distinct(Signatures(members)), owners) == [sig]
  {
    var owns, owning := OwnsFn(members, owners), Owning(members, Distinct(Signatures(members)), owners);
    OwningIsListed(members, owners);
    forall t ensures t in owning <==> Owned(claims, subject, kind, owners, t) {
      SignedArePicked(claims, subject, kind, members, t);
      OwnedIs(claims, subject, kind, members, owners, t);
      if Owned(claims, subject, kind, owners, t) { OwnedIsHeld(claims, subject, kind, owners, t); }
    }
    ListsOnly(owning, sig);
  }

  lemma {:induction false} OwnedIsHeld(claims: seq<Claim>, subject: string, kind: string, owners: set<string>, sig: Signature)
    requires Owned(claims, subject, kind, owners, sig)
    ensures Held(claims, subject, kind, sig)
  {
  }

  lemma {:induction false} ListsOnly<T(!new)>(s: seq<T>, x: T)
    requires forall i, j :: 0 <= i < j < |s| ==> s[i] != s[j]
    ensures s == [x] <==> x in s && forall y :: y in s ==> y == x
  {
    if x in s && forall y :: y in s ==> y == x { OneElement(s, x); }
  }

  /** The evidence chooses a signature exactly when it is the only leader. */
  lemma {:induction false} EvidenceChoosesExactly(claims: seq<Claim>, subject: string, kind: string,
      members: seq<Claim>, sig: Signature)
    requires ArePicked(claims, Picks(subject, kind, None), members) && members != []
    ensures EvidenceChooses(claims, subject, kind, sig) <==> Leaders(members, Distinct(Signatures(members))) == [sig]
  {
    var leaders := Leaders(members, Distinct(Signatures(members)));
    LeadersAre(claims, subject, kind, members);
    FilterDistinct(Distinct(Signatures(members)), (s: Signature) =>
      |AnchorKeys(Signed(members, s))| == MaxCount(members, Distinct(Signatures(members))));
    ListsOnly(leaders, sig);
    SomeoneLeads(members);
    if EvidenceChooses(claims, subject, kind, sig) {
      assert IsTop(claims, subject, kind, sig);
      forall t | t in leaders ensures t == sig { assert IsTop(claims, subject, kind, t); }
    }
    if leaders == [sig] {
      assert sig in leaders && IsTop(claims, subject, kind, sig);
      forall t | Held(claims, subject, kind, t) && t != sig
        ensures |Support(claims, subject, kind, t)| < |Support(claims, subject, kind, sig)|
      {
        assert t !in leaders && !IsTop(claims, subject, kind, t);
      }
    }
  }

  ghost predicate IsTop(claims: seq<Claim>, subject: string, kind: string, sig: Signature) {
    && Held(claims, subject, kind, sig)
    && forall t :: Held(claims, subject, kind, t)
         ==> |Support(claims, subject, kind, t)| <= |Support(claims, subject, kind, sig)|
  }

  lemma {:induction false} LeadersAre(claims: seq<Claim>, subject: string, kind: string, members: seq<Claim>)
    requires ArePicked(claims, Picks(subject, kind, None), members)
    ensures forall t :: t in Leaders(members, Distinct(Signatures(members))) <==> IsTop(claims, subject, kind, t)
  {
    forall t ensures t in Leaders(members, Distinct(Signatures(members))) <==> IsTop(claims, subject, kind, t) {
      SignedArePicked(claims, subject, kind, members, t);
      if t in Leaders(members, Distinct(Signatures(members))) { var c := MemberOfLeader(members, t); }
      if HasSignature(members, t) {
        LeadersLead(members, t);
        LeadsIsTop(claims, subject, kind, members, t);
      }
    }
  }

  lemma {:induction false} LeadsIsTop(claims: seq<Claim>, subject: string, kind: string, members: seq<Claim>, sig: Signature)
    requires ArePicked(claims, Picks(subject, kind, None), members) && HasSignature(members, sig)
    ensures Leads(members, sig) <==> IsTop(claims, subject, kind, sig)
  {
    SignedArePicked(claims, subject, kind, members, sig);
    SupportIs(claims, subject, kind, members, sig);
    if Leads(members, sig) {
      forall t | Held(claims, subject, kind, t)
        ensures |Support(claims, subject, kind, t)| <= |Support(claims, subject, kind, sig)|
      {
        SignedArePicked(claims, subject, kind, members, t);
        SupportIs(claims, subject, kind, members, t);
        var c :| c in members && c.signature == t;
      }
    }
    if IsTop(claims, subject, kind, sig) {
      forall c | c in members ensures |AnchorKeys(Signed(members, c.signature))| <= |AnchorKeys(Signed(members, sig))| {
        SignedArePicked(claims, subject, kind, members, c.signature);
        SupportIs(claims, subject, kind, members, c.signature);
      }
    }
  }

  lemma {:induction false} SomeoneLeads(members: seq<Claim>)
    requires members != []
    ensures Leaders(members, Distinct(Signatures(members))) != []
  {
    var sigs := Distinct(Signatures(members));
    SignatureOfMember(members, members[0].signature);
    assert members[0] in members && sigs != [];
    FilterMembers(sigs, (s: Signature) => |AnchorKeys(Signed(members, s))| == MaxCount(members, sigs));
    var top :| top in sigs && |AnchorKeys(Signed(members, top))| == MaxCount(members, sigs);
    assert top in Leaders(members, sigs);
  }

  /** One of the rulings always applies. */
  lemma {:induction false} SomeRuling(symbols: map<string, set<string>>, claims: seq<Claim>, subject: string, kind: string)
      returns (r: Ruling)
    ensures Rules(symbols, claims, subject, kind, r)
  {
    var owners := OwnersOf(symbols, subject);
    if !Disputed(claims, subject, kind) {
      r := Agreed;
    } else if s :| OwnersChoose(claims, subject, kind, owners, s) {
      r := ByRule(s, Ownership);
    } else if s :| EvidenceChooses(claims, subject, kind, s) {
      r := ByRule(s, Evidence);
    } else {
      r := Open;
    }
  }

  lemma {:induction false} DisputedExactly(claims: seq<Claim>, subject: string, kind: string, members: seq<Claim>)
    requires ArePicked(claims, Picks(subject, kind, None), members) && members != []
    ensures Disputed(claims, subject, kind) <==> |Distinct(Signatures(members))| != 1
  {
    var sigs := Distinct(Signatures(members));
    var first := members[0].signature;
    forall t ensures t in sigs <==> Held(claims, subject, kind, t) {
      SignatureOfMember(members, t);
      SignedArePicked(claims, subject, kind, members, t);
    }
    assert members[0] in members && HasSignature(members, first);
    SignedArePicked(claims, subject, kind, members, first);
    OneElement(sigs, first);
  }

  /** A ruling on a disputed subject, in terms of the signatures that the owners hold and that lead. */
  predicate Points(owned: bool, owning: seq<Signature>, leaders: seq<Signature>, r: Ruling) {
    match r
    case Agreed => false
    case ByRule(sig, Ownership) => owned && owning == [sig]
    case ByRule(sig, Evidence) => |owning| != 1 && leaders == [sig]
    case Open => |owning| != 1 && |leaders| != 1
  }

  lemma {:induction false} OneOwning(claims: seq<Claim>, subject: string, kind: string, members: seq<Claim>,
      owners: set<string>)
    requires ArePicked(claims, Picks(subject, kind, None), members)
    ensures |Owning(members, Distinct(Signatures(members)), owners)| == 1
      <==> exists s :: OwnersChoose(claims, subject, kind, owners, s)
  {
    var owning := Owning(members, Distinct(Signatures(members)), owners);
    if |owning| == 1 {
      assert owning == [owning[0]];
      OwnersChooseExactly(claims, subject, kind, members, owners, owning[0]);
    }
    if s :| OwnersChoose(claims, subject, kind, owners, s) {
      OwnersChooseExactly(claims, subject, kind, members, owners, s);
    }
  }

  lemma {:induction false} OneLeader(claims: seq<Claim>, subject: string, kind: string, members: seq<Claim>)
    requires ArePicked(claims, Picks(subject, kind, None), members) && members != []
    ensures |Leaders(members, Distinct(Signatures(members)))| == 1
      <==> exists s :: EvidenceChooses(claims, subject, kind, s)
  {
    var leaders := Leaders(members, Distinct(Signatures(members)));
    if |leaders| == 1 {
      assert leaders == [leaders[0]];
      EvidenceChoosesExactly(claims, subject, kind, members, leaders[0]);
    }
    if s :| EvidenceChooses(claims, subject, kind, s) {
      EvidenceChoosesExactly(claims, subject, kind, members, s);
    }
  }

  lemma {:induction false} RulingPoints(symbols: map<string, set<string>>, claims: seq<Claim>, subject: string,
      kind: string, members: seq<Claim>, r: Ruling)
    requires ArePicked(claims, Picks(subject, kind, None), members) && members != []
    requires Rules(symbols, claims, subject, kind, r) && r != Agreed
    ensures var owners, sigs := OwnersOf(symbols, subject), Distinct(Signatures(members));
      Points(owners != {}, Owning(members, sigs, owners), Leaders(members, sigs), r)
  {
    var owners := OwnersOf(symbols, subject);
    OneOwning(claims, subject, kind, members, owners);
    OneLeader(claims, subject, kind, members);
    if r.ByRule? {
      OwnersChooseExactly(claims, subject, kind, members, owners, r.sig);
      EvidenceChoosesExactly(claims, subject, kind, members, r.sig);
    }
  }

  /** The verdict on a disputed subject. */
  lemma {:induction false} VerdictFollows(symbols: map<string, set<string>>, claims: seq<Claim>, subject: string,
      kind: string, members: seq<Claim>, r: Ruling)
    requires ArePicked(claims, Picks(subject, kind, None), members) && members != []
    requires Rules(symbols, claims, subject, kind, r) && r != Agreed
    requires !Resolve(subject, members, symbols).Unorderable?
    ensures Resolve(subject, members, symbols) == match r case ByRule(sig, reason) => Won(sig, reason) case _ => Contested
  {
    RulingPoints(symbols, claims, subject, kind, members, r);
    var owners, sigs := OwnersOf(symbols, subject), Distinct(Signatures(members));
    ResolveDecides(subject, members, symbols);
    DecideFollows(owners != {}, Owning(members, sigs, owners), Leaders(members, sigs), r);
  }

  lemma {:induction false} ResolveDecides(subject: string, members: seq<Claim>, symbols: map<string, set<string>>)
    ensures var owners, sigs := OwnersOf(symbols, subject), Distinct(Signatures(members));
      Resolve(subject, members, symbols) == Decide(owners != {}, Owning(members, sigs, owners), Leaders(members, sigs))
  {
  }

  lemma {:induction false} DecideFollows(owned: bool, owning: seq<Signature>, leaders: seq<Signature>, r: Ruling)
    requires Points(owned, owning, leaders, r) && !Decide(owned, owning, leaders).Unorderable?
    ensures Decide(owned, owning, leaders) == match r case ByRule(sig, reason) => Won(sig, reason) case _ => Contested
  {
  }

  // ---------------------------------------------------------------------- one group

  lemma {:induction false} NodesAreListed(claims: seq<Claim>, pick: Claim -> bool, members: seq<Claim>)
    requires ArePicked(claims, pick, members)
    ensures ListsNodes(claims, pick, SortedSet(SourceSet(members)))
    ensures ListsStatements(claims, pick, SortedSet(StatementSet(members)))
  {
    forall n ensures n in SourceSet(members) <==> exists c :: c in claims && pick(c) && SourceOf(c) == n {
      if c :| c in claims && pick(c) && SourceOf(c) == n { assert c in members; }
    }
    forall t ensures t in StatementSet(members) <==> exists c :: c in claims && pick(c) && c.statement == t {
      if c :| c in claims && pick(c) && c.statement == t { assert c in members; }
    }
  }

  lemma {:induction false} PositionReports(claims: seq<Claim>, subject: string, kind: string, members: seq<Claim>,
      winner: Option<Signature>, sig: Signature)
    requires ArePicked(claims, Picks(subject, kind, None), members) && HasSignature(members, sig)
    ensures Reports(claims, subject, kind, winner, PositionOf(members, sig, winner))
  {
    SignedArePicked(claims, subject, kind, members, sig);
    SupportIs(claims, subject, kind, members, sig);
    NodesAreListed(claims, Picks(subject, kind, Some(sig)), Signed(members, sig));
  }

  lemma {:induction false} PositionsAre(members: seq<Claim>, sigs: seq<Signature>, winner: Option<Signature>)
    ensures |Positions(members, sigs, winner)| == |sigs|
    ensures forall i :: 0 <= i < |sigs| ==> Positions(members, sigs, winner)[i] == PositionOf(members, sigs[i], winner)
  {
    if sigs != [] { PositionsAre(members, sigs[1..], winner); }
  }

  ghost predicate AreSorted(claims: seq<Claim>, subject: string, kind: string, sigs: seq<Signature>) {
    && (forall sig {:trigger sig in sigs} {:trigger Held(claims, subject, kind, sig)} ::
          sig in sigs <==> Held(claims, subject, kind, sig))
    && WithoutRepeats(sigs) && Sorted(sigs, SignatureOrder())
  }

  lemma {:induction false} SignaturesSorted(claims: seq<Claim>, subject: string, kind: string, members: seq<Claim>)
    requires ArePicked(claims, Picks(subject, kind, None), members)
    ensures AreSorted(claims, subject, kind, StableSort(Distinct(Signatures(members)), SignatureOrder()))
  {
    var distinct := Distinct(Signatures(members));
    KeyOrderIsOrder((s: Signature) => SignatureKey(s));
    SortSorts(distinct, SignatureOrder());
    SortMembers(distinct, SignatureOrder());
    PermutationWithoutRepeats(distinct, StableSort(distinct, SignatureOrder()));
    forall sig ensures sig in distinct <==> Held(claims, subject, kind, sig) {
      SignatureOfMember(members, sig);
      SignedArePicked(claims, subject, kind, members, sig);
    }
  }

  lemma {:induction false} PositionsAudit(claims: seq<Claim>, subject: string, kind: string,
      winner: Option<Signature>, sigs: seq<Signature>, x: Conflict)
    requires x.subject == subject && x.kind == kind && AreSorted(claims, subject, kind, sigs)
    requires |x.positions| == |sigs| && forall i :: 0 <= i < |sigs| ==> x.positions[i].values == sigs[i]
    requires forall i :: 0 <= i < |sigs| ==> Reports(claims, subject, kind, winner, x.positions[i])
    ensures Audits(claims, subject, kind, x.resolvedBy, winner, x)
  {
    forall sig | Held(claims, subject, kind, sig) ensures exists p :: p in x.positions && p.values == sig {
      assert sig in sigs;
      var i :| 0 <= i < |sigs| && sigs[i] == sig;
      assert x.positions[i] in x.positions;
    }
    forall i, j | 0 <= i < j < |sigs| ensures ListLe(Slots(sigs[i]), Slots(sigs[j])) {
      assert SignatureOrder()(sigs[i], sigs[j]);
    }
  }

  lemma {:induction false} RecordAudits(claims: seq<Claim>, subject: string, kind: string, members: seq<Claim>,
      resolvedBy: Option<Reason>, winner: Option<Signature>)
    requires ArePicked(claims, Picks(subject, kind, None), members)
    ensures Audits(claims, subject, kind, resolvedBy, winner, ConflictRecord([subject, kind], members, resolvedBy, winner))
  {
    var sigs := StableSort(Distinct(Signatures(members)), SignatureOrder());
    var x := ConflictRecord([subject, kind], members, resolvedBy, winner);
    SignaturesSorted(claims, subject, kind, members);
    PositionsAre(members, sigs, winner);
    forall i | 0 <= i < |sigs| ensures Reports(claims, subject, kind, winner, x.positions[i]) {
      assert sigs[i] in sigs;
      SignedArePicked(claims, subject, kind, members, sigs[i]);
      PositionReports(claims, subject, kind, members, winner, sigs[i]);
    }
    PositionsAudit(claims, subject, kind, winner, sigs, x);
  }

  ghost function TextSet(members: seq<Claim>, text: Claim -> string): set<string> {
    set c | c in members :: text(c)
  }

  lemma {:induction false} ProseDiffers(claims: seq<Claim>, subject: string, kind: string, members: seq<Claim>)
    requires ArePicked(claims, Picks(subject, kind, None), members)
    ensures |StrippedSet(members)| > 1 <==> DifferInProse(claims, subject, kind, Stripped())
  {
    assert StrippedSet(members) == TextSet(members, Stripped());
    TextsDiffer(claims, subject, kind, Stripped(), members);
  }

  lemma {:induction false} TextsDiffer(claims: seq<Claim>, subject: string, kind: string, text: Claim -> string,
      members: seq<Claim>)
    requires ArePicked(claims, Picks(subject, kind, None), members)
    ensures |TextSet(members, text)| > 1 <==> DifferInProse(claims, subject, kind, text)
  {
    var texts := TextSet(members, text);
    if |texts| > 1 {
      var t, u := TwoOf(texts);
      var c :| c in members && text(c) == t;
      var d :| d in members && text(d) == u;
      assert c in claims && d in claims;
    }
    if DifferInProse(claims, subject, kind, text) {
      var c, d :| c in claims && d in claims && About(c, subject, kind) && About(d, subject, kind) && text(c) != text(d);
      assert c in members && d in members;
      assert {text(c), text(d)} <= texts;
      SubsetSize({text(c), text(d)}, texts);
    }
  }

  lemma {:induction false} TwoOf(s: set<string>) returns (t: string, u: string)
    requires |s| > 1
    ensures t in s && u in s && t != u
  {
    t :| t in s;
    assert |s - {t}| == |s| - 1;
    u :| u in s - {t};
  }

  lemma {:induction false} SubsetSize(a: set<string>, b: set<string>)
    requires a <= b
    ensures |a| <= |b|
  {
    assert b == a + (b - a);
  }

  lemma {:induction false} UnionIsContested(h: EvidenceHash, claims: seq<Claim>, subject: string, kind: string,
      members: seq<Claim>)
    requires ArePicked(claims, Picks(subject, kind, None), members) && members != []
    ensures IsContested(h, claims, subject, kind, EscalatedOutcome(h, [subject, kind], members).claim)
  {
    var key := [subject, kind];
    var u, x := Union(h, key, members), EscalatedOutcome(h, key, members).claim;
    UnionUnites(h, claims, Picks(subject, kind, None), key, members);
    SourcesAreListed(claims, Picks(subject, kind, None), members);
    StrictlySortedUnique(u.sourceNodes, SortedSet(SourceSet(members) - {""}));
    assert x.(confidence := u.confidence, contestedWith := None) == u;
  }

  /** Under its ruling, a group that does not raise comes to what the policy says. */
  lemma {:induction false} GroupFollows(h: EvidenceHash, symbols: map<string, set<string>>, claims: seq<Claim>,
      subject: string, kind: string, members: seq<Claim>, r: Ruling)
    requires ArePicked(claims, Picks(subject, kind, None), members) && members != []
    requires Rules(symbols, claims, subject, kind, r) && !GroupOutcome(h, symbols, [subject, kind], members).Raises?
    ensures Follows(h, claims, subject, kind, r, GroupOutcome(h, symbols, [subject, kind], members))
  {
    var key := [subject, kind];
    DisputedExactly(claims, subject, kind, members);
    match r
    case Agreed =>
      assert !Disputed(claims, subject, kind);
      AgreedFollows(h, claims, subject, kind, members);
    case ByRule(sig, reason) =>
      VerdictFollows(symbols, claims, subject, kind, members, r);
      RuledFollows(h, claims, subject, kind, members, sig, reason);
    case Open =>
      VerdictFollows(symbols, claims, subject, kind, members, r);
      UnionIsContested(h, claims, subject, kind, members);
      RecordAudits(claims, subject, kind, members, None, None);
  }

  lemma {:induction false} AgreedFollows(h: EvidenceHash, claims: seq<Claim>, subject: string, kind: string,
      members: seq<Claim>)
    requires ArePicked(claims, Picks(subject, kind, None), members) && members != []
    ensures Follows(h, claims, subject, kind, Agreed, UnanimousOutcome(h, [subject, kind], members))
  {
    UnionUnites(h, claims, Picks(subject, kind, None), [subject, kind], members);
    ProseDiffers(claims, subject, kind, members);
    NodesAreListed(claims, Picks(subject, kind, None), members);
  }

  lemma {:induction false} RuledFollows(h: EvidenceHash, claims: seq<Claim>, subject: string, kind: string,
      members: seq<Claim>, sig: Signature, reason: Reason)
    requires ArePicked(claims, Picks(subject, kind, None), members) && Signed(members, sig) != []
    ensures Follows(h, claims, subject, kind, ByRule(sig, reason),
                    ResolvedOutcome(h, [subject, kind], members, Signed(members, sig), sig, reason))
  {
    SignedArePicked(claims, subject, kind, members, sig);
    UnionUnites(h, claims, Picks(subject, kind, Some(sig)), [subject, kind], Signed(members, sig));
    RecordAudits(claims, subject, kind, members, Some(reason), Some(sig));
  }
}
