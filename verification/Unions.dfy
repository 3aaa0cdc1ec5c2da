/** What a merged claim says, in terms of the claims it is made from (cdp/merge.py:191-227). */
module Unions {
  import opened Options
  import opened Orders
  import opened Text
  import opened Merge

  // ------------------------------------------------------------- what claims say

  predicate About(c: Claim, subject: string, kind: string) {
    c.subject == subject && c.kind == kind
  }

  /** Which claims about a subject carry a signature; with None, all of them. */
  predicate Carries(c: Claim, subject: string, kind: string, sig: Option<Signature>) {
    About(c, subject, kind) && (sig == None || sig == Some(c.signature))
  }

  function Picks(subject: string, kind: string, sig: Option<Signature>): Claim -> bool {
    (c: Claim) => Carries(c, subject, kind, sig)
  }

  // ------------------------------------------------------------ one claim from several

  function OrderKey(h: EvidenceHash, c: Claim): seq<string> {
    [match c.sourceNode case None => "" case Some(n) => n, c.id, h(c.evidence)]
  }

  /** `c` is picked, and no picked claim that `also` admits comes before it by source node, id and evidence hash. */
  ghost predicate ComesFirst(h: EvidenceHash, claims: seq<Claim>, pick: Claim -> bool, also: Claim -> bool, c: Claim) {
    && c in claims && pick(c) && also(c)
    && forall d {:trigger d in claims} :: d in claims && pick(d) && also(d) ==> ListLe(OrderKey(h, c), OrderKey(h, d))
  }

  ghost predicate Says(claims: seq<Claim>, pick: Claim -> bool, text: Claim -> string, t: string) {
    t != "" && exists c :: c in claims && pick(c) && text(c) == t
  }

  ghost predicate Claims(claims: seq<Claim>, pick: Claim -> bool, confidence: string) {
    exists c :: c in claims && pick(c) && c.confidence == confidence
  }

  /** Contested over high over medium over anything else. */
  ghost predicate Strongest(claims: seq<Claim>, pick: Claim -> bool, confidence: string) {
    && Claims(claims, pick, confidence)
    && (Claims(claims, pick, "contested") ==> confidence == "contested")
    && (Claims(claims, pick, "high") ==> confidence in {"high", "contested"})
    && (Claims(claims, pick, "medium") ==> confidence in {"medium", "high", "contested"})
  }

  /** Each (file, text) that a picked claim cites, once, in order of file and line, and nothing else. */
  ghost predicate CitesAll(claims: seq<Claim>, pick: Claim -> bool, evidence: seq<Anchor>) {
    && (forall k :: Cited(evidence, k) <==> exists c :: c in claims && pick(c) && Cited(c.evidence, k))
    && (forall a :: a in evidence ==> exists c :: c in claims && pick(c) && a in c.evidence)
    && (forall i, j :: 0 <= i < j < |evidence| ==> (evidence[i].file, evidence[i].text) != (evidence[j].file, evidence[j].text))
    && (forall i, j :: 0 <= i < j < |evidence| ==> StrLe(evidence[i].file, evidence[j].file))
    && (forall i, j :: 0 <= i < j < |evidence| && evidence[i].file == evidence[j].file ==> evidence[i].line <= evidence[j].line)
  }

  /** The statement is the first that is not blank; all are listed only when there are several. */
  ghost predicate Speaks(h: EvidenceHash, claims: seq<Claim>, pick: Claim -> bool, text: Claim -> string,
      statement: string, statements: seq<string>) {
    && (statement == "" <==> !exists t :: Says(claims, pick, text, t))
    && (statement != "" ==> exists c :: ComesFirst(h, claims, pick, Speaking(text), c) && text(c) == statement)
    && (if exists t :: Says(claims, pick, text, t) && t != statement
        then ListsTexts(claims, pick, text, statement, statements) else statements == [])
  }

  ghost predicate ListsTexts(claims: seq<Claim>, pick: Claim -> bool, text: Claim -> string, statement: string,
      statements: seq<string>) {
    && WithoutRepeats(statements) && statements != [] && statements[0] == statement
    && forall t {:trigger t in statements} {:trigger Says(claims, pick, text, t)} ::
         t in statements <==> Says(claims, pick, text, t)
  }

  function Speaking(text: Claim -> string): Claim -> bool {
    (c: Claim) => text(c) != ""
  }

  function Anyone(): Claim -> bool {
    (c: Claim) => true
  }

  ghost predicate ListsSources(claims: seq<Claim>, pick: Claim -> bool, nodes: seq<string>) {
    StrictlySorted(nodes) && forall n :: n in nodes <==> n != "" && exists c :: c in claims && pick(c) && SourceOf(c) == n
  }

  /** The first claim gives the id, unless it has none, the signature and all that merging does not look at. */
  ghost predicate Stems(h: EvidenceHash, claims: seq<Claim>, pick: Claim -> bool, x: MergedClaim) {
    exists c :: ComesFirst(h, claims, pick, Anyone(), c) && x.signature == c.signature && x.extra == c.extra
      && x.id == if c.id == "" then x.kind + "." + x.subject else c.id
  }

  /** `x` says what the picked claims say together. */
  ghost predicate Unites(h: EvidenceHash, claims: seq<Claim>, pick: Claim -> bool, x: MergedClaim) {
    && x.contestedWith == None && Stems(h, claims, pick, x) && CitesAll(claims, pick, x.evidence)
    && Speaks(h, claims, pick, Stripped(), x.statement, x.statements) && Strongest(claims, pick, x.confidence)
    && ListsSources(claims, pick, x.sourceNodes)
  }

  // ---------------------------------------------------------------- that a union unites

  /** `members` are the picked claims. */
  ghost predicate ArePicked(claims: seq<Claim>, pick: Claim -> bool, members: seq<Claim>) {
    forall c {:trigger c in members} {:trigger c in claims} :: c in members <==> c in claims && pick(c)
  }

  lemma {:induction false} SortedPicked(h: EvidenceHash, claims: seq<Claim>, pick: Claim -> bool, members: seq<Claim>)
    requires ArePicked(claims, pick, members)
    ensures ArePicked(claims, pick, StableSort(members, ClaimOrder(h)))
    ensures Sorted(StableSort(members, ClaimOrder(h)), ClaimOrder(h))
  {
    ClaimOrderIsOrder(h);
    SortSorts(members, ClaimOrder(h));
    SortMembers(members, ClaimOrder(h));
  }

  /** In a sorted list, the first element that `also` admits comes first. */
  lemma {:induction false} FirstInSorted(h: EvidenceHash, claims: seq<Claim>, pick: Claim -> bool, also: Claim -> bool,
      s: seq<Claim>, i: nat)
    requires ArePicked(claims, pick, s) && Sorted(s, ClaimOrder(h))
    requires i < |s| && also(s[i]) && forall j :: 0 <= j < i ==> !also(s[j])
    ensures ComesFirst(h, claims, pick, also, s[i])
  {
    assert s[i] in s;
    forall d | d in claims && pick(d) && also(d) ensures ListLe(OrderKey(h, s[i]), OrderKey(h, d)) {
      assert d in s;
      var k :| 0 <= k < |s| && s[k] == d;
      if k == i { ListLeTotal(OrderKey(h, d), OrderKey(h, d)); } else { assert ClaimOrder(h)(s[i], s[k]); }
    }
  }

  lemma {:induction false} FirstText(s: seq<Claim>, text: Claim -> string, n: nat) returns (i: nat)
    requires n <= |s| && TextsOf(s, text, n) != []
    ensures i < n && text(s[i]) == TextsOf(s, text, n)[0] != ""
    ensures forall j :: 0 <= j < i ==> text(s[j]) == ""
  {
    if TextsOf(s, text, n - 1) != [] {
      i := FirstText(s, text, n - 1);
    } else {
      i := n - 1;
      forall j | 0 <= j < i ensures text(s[j]) == "" { assert text(s[j]) !in TextsOf(s, text, n - 1); }
    }
  }

  lemma {:induction false} TopIsStrongest(s: seq<Claim>)
    requires s != []
    ensures exists c :: c in s && c.confidence == TopConfidence(s)
    ensures forall c :: c in s ==> ConfidenceRank(c.confidence) <= ConfidenceRank(TopConfidence(s))
  {
    if |s| > 1 {
      var front, last := s[..|s| - 1], s[|s| - 1];
      TopIsStrongest(front);
      assert s == front + [last];
      var c :| c in front && c.confidence == TopConfidence(front);
      assert c in s && last in s;
    } else {
      assert s[0] in s;
    }
  }

  lemma {:induction false} UnionIsStrongest(h: EvidenceHash, claims: seq<Claim>, pick: Claim -> bool, s: seq<Claim>)
    requires ArePicked(claims, pick, s) && s != []
    ensures Strongest(claims, pick, TopConfidence(s))
  {
    TopIsStrongest(s);
    var top := TopConfidence(s);
    forall v | Claims(claims, pick, v) ensures ConfidenceRank(v) <= ConfidenceRank(top) {
      var c :| c in claims && pick(c) && c.confidence == v;
      assert c in s;
    }
  }

  lemma {:induction false} TextsAreSaid(claims: seq<Claim>, pick: Claim -> bool, text: Claim -> string, s: seq<Claim>)
    requires ArePicked(claims, pick, s)
    ensures forall t :: Says(claims, pick, text, t) <==> t in TextsOf(s, text, |s|)
  {
    forall t ensures Says(claims, pick, text, t) <==> t in TextsOf(s, text, |s|) {
      if t in TextsOf(s, text, |s|) {
        var i :| 0 <= i < |s| && text(s[i]) == t;
        assert s[i] in s;
      }
      if Says(claims, pick, text, t) {
        var c :| c in claims && pick(c) && text(c) == t;
        assert c in s;
      }
    }
  }

  lemma {:induction false} TextsSpeak(h: EvidenceHash, claims: seq<Claim>, pick: Claim -> bool, text: Claim -> string,
      s: seq<Claim>, texts: seq<string>)
    requires ArePicked(claims, pick, s) && Sorted(s, ClaimOrder(h)) && texts == TextsOf(s, text, |s|)
    ensures Speaks(h, claims, pick, text, if texts == [] then "" else texts[0], if |texts| > 1 then texts else [])
  {
    TextsAreSaid(claims, pick, text, s);
    if texts != [] {
      var i := FirstText(s, text, |s|);
      FirstInSorted(h, claims, pick, Speaking(text), s, i);
      assert texts[0] in texts && Says(claims, pick, text, texts[0]);
      if |texts| > 1 { assert texts[1] in texts && Says(claims, pick, text, texts[1]); }
    }
  }

  lemma {:induction false} UnionSpeaks(h: EvidenceHash, claims: seq<Claim>, pick: Claim -> bool, s: seq<Claim>)
    requires ArePicked(claims, pick, s) && Sorted(s, ClaimOrder(h))
    ensures var texts := Statements(s);
      Speaks(h, claims, pick, Stripped(), if texts == [] then "" else texts[0], if |texts| > 1 then texts else [])
  {
    TextsSpeak(h, claims, pick, Stripped(), s, Statements(s));
  }

  lemma {:induction false} AnchorLeIsOrder()
    ensures TotalPreorder(AnchorLe)
  {
    forall a, b ensures AnchorLe(a, b) || AnchorLe(b, a) { StrLeTotal(a.file, b.file); }
    forall a, b, c | AnchorLe(a, b) && AnchorLe(b, c) ensures AnchorLe(a, c) {
      if a.file != b.file && b.file != c.file {
        StrLeTransitive(a.file, b.file, c.file);
        if a.file == c.file { StrLeAntisymmetric(a.file, b.file); }
      }
    }
  }

  lemma {:induction false} KeysSettleAnchors(anchors: seq<Anchor>, e: seq<Anchor>)
    requires multiset(anchors) == multiset(e)
    requires forall i, j :: 0 <= i < j < |anchors| ==> AnchorKey(anchors[i]) != AnchorKey(anchors[j])
    ensures forall i, j :: 0 <= i < j < |e| ==> AnchorKey(e[i]) != AnchorKey(e[j])
  {
    PermutationWithoutRepeats(anchors, e);
    SameMembers(anchors, e);
    forall i, j | 0 <= i < j < |e| ensures AnchorKey(e[i]) != AnchorKey(e[j]) {
      assert e[i] in anchors && e[j] in anchors;
      var k :| 0 <= k < |anchors| && anchors[k] == e[i];
      var l :| 0 <= l < |anchors| && anchors[l] == e[j];
    }
  }

  lemma {:induction false} UnionCites(h: EvidenceHash, claims: seq<Claim>, pick: Claim -> bool, key: seq<string>,
      members: seq<Claim>)
    requires ArePicked(claims, pick, members) && members != [] && |key| == 2
    ensures CitesAll(claims, pick, Union(h, key, members).evidence)
  {
    var s := StableSort(members, ClaimOrder(h));
    var distinct, e := DistinctAnchors(AllEvidence(s)), Union(h, key, members).evidence;
    SortMembers(members, ClaimOrder(h));
    UnionKeepsEvidence(h, key, members);
    DistinctAnchorsKeepAll(AllEvidence(s));
    BlocksMembers(s, (c: Claim) => c.evidence);
    KeysSettleAnchors(distinct, e);
    SameMembers(distinct, e);
    AnchorLeIsOrder();
    SortSorts(distinct, AnchorLe);
    InFileOrder(e);
    forall k ensures Cited(e, k) <==> exists c :: c in claims && pick(c) && Cited(c.evidence, k) {
      assert (exists c :: c in members && Cited(c.evidence, k)) <==> exists c :: c in claims && pick(c) && Cited(c.evidence, k);
    }
    forall a | a in e ensures exists c :: c in claims && pick(c) && a in c.evidence {
      var c :| c in s && a in c.evidence;
      assert c in members && c in claims;
    }
  }

  lemma {:induction false} InFileOrder(e: seq<Anchor>)
    requires Sorted(e, AnchorLe)
    ensures forall i, j :: 0 <= i < j < |e| ==> StrLe(e[i].file, e[j].file)
    ensures forall i, j :: 0 <= i < j < |e| && e[i].file == e[j].file ==> e[i].line <= e[j].line
  {
    forall i, j | 0 <= i < j < |e|
      ensures StrLe(e[i].file, e[j].file) && (e[i].file == e[j].file ==> e[i].line <= e[j].line)
    {
      StrLeTotal(e[i].file, e[i].file);
      assert AnchorLe(e[i], e[j]);
    }
  }

  lemma {:induction false} SourcesAreListed(claims: seq<Claim>, pick: Claim -> bool, members: seq<Claim>)
    requires ArePicked(claims, pick, members)
    ensures ListsSources(claims, pick, SortedSet(SourceSet(members) - {""}))
  {
    forall n ensures n in SourceSet(members) <==> exists c :: c in claims && pick(c) && SourceOf(c) == n {
      if c :| c in claims && pick(c) && SourceOf(c) == n { assert c in members; }
    }
  }

  /** The union of the picked claims says what they say together. */
  lemma {:induction false} UnionUnites(h: EvidenceHash, claims: seq<Claim>, pick: Claim -> bool, key: seq<string>,
      members: seq<Claim>)
    requires ArePicked(claims, pick, members) && members != [] && |key| == 2
    ensures Unites(h, claims, pick, Union(h, key, members))
  {
    var s := StableSort(members, ClaimOrder(h));
    SortedPicked(h, claims, pick, members);
    UnionCites(h, claims, pick, key, members);
    UnionSpeaks(h, claims, pick, s);
    UnionIsStrongest(h, claims, pick, s);
    SourcesAreListed(claims, pick, s);
    UnionStems(h, claims, pick, key, members);
  }

  lemma {:induction false} UnionStems(h: EvidenceHash, claims: seq<Claim>, pick: Claim -> bool, key: seq<string>,
      members: seq<Claim>)
    requires ArePicked(claims, pick, members) && members != [] && |key| == 2
    ensures Stems(h, claims, pick, Union(h, key, members))
  {
    SortedPicked(h, claims, pick, members);
    FirstInSorted(h, claims, pick, Anyone(), StableSort(members, ClaimOrder(h)), 0);
  }
}
