/** The row allowance of a response (cdp/query.py:104-215, 737-758). */
module Budgets {
  import opened Options
  import opened Orders
  import FairSplit

  const DEFAULT_BUDGET := 200

  /** A row of an answer: a bare string, or a record with list fields (by their lengths), a usage count, anchors and
  text fields. `body` stands for what ranking does not read. */
  datatype Row = Bare(text: string)
               | Record(lists: map<string, nat>, usedByCount: Option<int>, anchored: bool, texts: map<string, string>,
                        body: string)

  // ---------------------------------------------------------------------- ranking

  const EVIDENCE_KEYS := ["evidence", "sites", "defined_at", "anchors", "hops", "candidates"]
  const SUBJECT_KEYS := ["subject", "fqn", "table", "key", "path", "route", "name", "question", "trigger", "target",
                         "shared", "at"]
  const IDENTITY_KEYS := ["id", "file", "module", "channel", "verb"]

  function FirstLength(keys: seq<string>, lists: map<string, nat>): Option<nat> {
    if keys == [] then None else if keys[0] in lists then Some(lists[keys[0]]) else FirstLength(keys[1..], lists)
  }

  function FirstText(keys: seq<string>, texts: map<string, string>): string {
    if keys == [] then "" else if keys[0] in texts then texts[keys[0]] else FirstText(keys[1..], texts)
  }

  /** `_evidence_count`. */
  function EvidenceCount(row: Row): int {
    match row
    case Bare(_) => 0
    case Record(lists, usedByCount, anchored, _, _) =>
      match FirstLength(EVIDENCE_KEYS, lists)
      case Some(n) => n
      case None => if usedByCount.Some? then usedByCount.value else if anchored then 1 else 0
  }

  function SubjectOf(row: Row): string {
    match row case Bare(text) => text case Record(_, _, _, texts, _) => FirstText(SUBJECT_KEYS, texts)
  }

  function Identity(row: Row): string {
    match row case Bare(text) => text case Record(_, _, _, texts, _) => FirstText(IDENTITY_KEYS, texts)
  }

  /** `_rank` is a key of this shape; the index makes it total. */
  datatype Rank = Rank(evidence: int, names: seq<string>, index: int)

  function RankOf(row: Row, index: int): Rank {
    Rank(EvidenceCount(row), [SubjectOf(row), Identity(row)], index)
  }

  /** More evidence first, then by subject and identity, then by position. */
  predicate RankLe(a: Rank, b: Rank) {
    if a.evidence != b.evidence then a.evidence > b.evidence
    else if a.names != b.names then ListLe(a.names, b.names)
    else a.index <= b.index
  }

  lemma {:induction false} RankLeTransitive(a: Rank, b: Rank, c: Rank)
    requires RankLe(a, b) && RankLe(b, c)
    ensures RankLe(a, c)
  {
    if a.evidence == b.evidence == c.evidence && a.names != b.names && b.names != c.names {
      ListLeTransitive(a.names, b.names, c.names);
      if a.names == c.names { ListLeAntisymmetric(a.names, b.names); }
    }
  }

  /** Ranking has no ties: distinct rows rank one way or the other, never both. */
  lemma {:induction false} RankIsStrict(a: Rank, b: Rank)
    ensures RankLe(a, b) || RankLe(b, a)
    ensures RankLe(a, b) && RankLe(b, a) ==> a == b
  {
    ListLeTotal(a.names, b.names);
    if ListLe(a.names, b.names) && ListLe(b.names, a.names) { ListLeAntisymmetric(a.names, b.names); }
  }

  function Ranks(rows: seq<Row>, n: nat): (r: seq<Rank>)
    requires n <= |rows|
    ensures |r| == n && forall i :: 0 <= i < n ==> r[i] == RankOf(rows[i], i)
  {
    if n == 0 then [] else Ranks(rows, n - 1) + [RankOf(rows[n - 1], n - 1)]
  }

  lemma {:induction false} RankLeIsOrder()
    ensures TotalPreorder(RankLe)
  {
    forall a, b ensures RankLe(a, b) || RankLe(b, a) { RankIsStrict(a, b); }
    forall a, b, c | RankLe(a, b) && RankLe(b, c) ensures RankLe(a, c) { RankLeTransitive(a, b, c); }
  }

  // -------------------------------------------------------------------- selecting

  function IndexesOf(ranks: seq<Rank>): (r: seq<int>)
    ensures |r| == |ranks| && forall i :: 0 <= i < |r| ==> r[i] == ranks[i].index
  {
    if ranks == [] then [] else [ranks[0].index] + IndexesOf(ranks[1..])
  }

  predicate IntLe(a: int, b: int) {
    a <= b
  }

  /** `keep` names rows in their original order, and no row left out ranks before one kept. */
  ghost predicate BestRanked(rows: seq<Row>, keep: seq<int>, room: nat) {
    && |keep| == room
    && (forall k :: 0 <= k < |keep| ==> 0 <= keep[k] < |rows|)
    && (forall k, l :: 0 <= k < l < |keep| ==> keep[k] < keep[l])
    && (forall k, j :: 0 <= k < |keep| && 0 <= j < |rows| && j !in keep ==> Outranks(rows, keep[k], j))
  }

  /** Row `i` has more evidence than row `j`; or as much, and comes first by subject and identity, or by position. */
  predicate Outranks(rows: seq<Row>, i: int, j: int)
    requires 0 <= i < |rows| && 0 <= j < |rows|
  {
    EvidenceCount(rows[i]) > EvidenceCount(rows[j])
    || (EvidenceCount(rows[i]) == EvidenceCount(rows[j]) && NamedBefore(rows, i, j))
  }

  predicate NamedBefore(rows: seq<Row>, i: int, j: int)
    requires 0 <= i < |rows| && 0 <= j < |rows|
  {
    var x, y := [SubjectOf(rows[i]), Identity(rows[i])], [SubjectOf(rows[j]), Identity(rows[j])];
    if x == y then i < j else ListLe(x, y)
  }

  lemma {:induction false} RankedOutranks(rows: seq<Row>, i: int, j: int)
    requires 0 <= i < |rows| && 0 <= j < |rows| && i != j && RankLe(RankOf(rows[i], i), RankOf(rows[j], j))
    ensures Outranks(rows, i, j)
  {
  }

  ghost predicate Picks(rows: seq<Row>, keep: seq<int>, kept: seq<Row>) {
    |kept| == |keep| && forall k :: 0 <= k < |keep| ==> 0 <= keep[k] < |rows| && kept[k] == rows[keep[k]]
  }

  lemma {:induction false} RanksDistinct(rows: seq<Row>, ranked: seq<Rank>)
    requires ranked == StableSort(Ranks(rows, |rows|), RankLe)
    ensures Sorted(ranked, RankLe) && WithoutRepeats(ranked) && |ranked| == |rows|
    ensures forall k :: 0 <= k < |ranked| ==> 0 <= ranked[k].index < |rows| && ranked[k] == RankOf(rows[ranked[k].index], ranked[k].index)
    ensures forall i :: 0 <= i < |rows| ==> RankOf(rows[i], i) in ranked
  {
    var ranks := Ranks(rows, |rows|);
    RankLeIsOrder();
    SortSorts(ranks, RankLe);
    SortMembers(ranks, RankLe);
    PermutationWithoutRepeats(ranks, ranked);
    forall k | 0 <= k < |ranked|
      ensures 0 <= ranked[k].index < |rows| && ranked[k] == RankOf(rows[ranked[k].index], ranked[k].index)
    {
      assert ranked[k] in ranks;
    }
    forall i | 0 <= i < |rows| ensures RankOf(rows[i], i) in ranked { assert ranks[i] in ranks; }
  }

  /** The indexes of the first `room` ranks, sorted. */
  lemma {:induction false} FirstRanksAreBest(rows: seq<Row>, ranked: seq<Rank>, room: nat, keep: seq<int>)
    requires ranked == StableSort(Ranks(rows, |rows|), RankLe) && room <= |rows|
    requires keep == StableSort(IndexesOf(ranked[..room]), IntLe)
    ensures BestRanked(rows, keep, room)
  {
    var first := IndexesOf(ranked[..room]);
    ChosenAscend(rows, ranked, room, keep);
    SortMembers(first, IntLe);
    forall k, j | 0 <= k < |keep| && 0 <= j < |rows| && j !in keep
      ensures Outranks(rows, keep[k], j)
    {
      assert keep[k] in keep;
      KeptBeforeDropped(rows, ranked, room, keep[k], j);
      RankedOutranks(rows, keep[k], j);
    }
  }

  lemma {:induction false} ChosenAscend(rows: seq<Row>, ranked: seq<Rank>, room: nat, keep: seq<int>)
    requires ranked == StableSort(Ranks(rows, |rows|), RankLe) && room <= |rows|
    requires keep == StableSort(IndexesOf(ranked[..room]), IntLe)
    ensures |keep| == room && forall k :: 0 <= k < |keep| ==> 0 <= keep[k] < |rows|
    ensures forall k, l :: 0 <= k < l < |keep| ==> keep[k] < keep[l]
  {
    var first := IndexesOf(ranked[..room]);
    SortSorts(first, IntLe);
    SortMembers(first, IntLe);
    IndexesDistinct(rows, ranked, room);
    PermutationWithoutRepeats(first, keep);
    forall k | 0 <= k < |keep| ensures 0 <= keep[k] < |rows| { assert keep[k] in first; }
  }

  lemma {:induction false} IndexesDistinct(rows: seq<Row>, ranked: seq<Rank>, room: nat)
    requires ranked == StableSort(Ranks(rows, |rows|), RankLe) && room <= |rows|
    ensures room <= |ranked| && WithoutRepeats(IndexesOf(ranked[..room]))
    ensures forall i :: i in IndexesOf(ranked[..room]) ==> 0 <= i < |rows|
  {
    RanksDistinct(rows, ranked);
    var first := IndexesOf(ranked[..room]);
    forall i, j | 0 <= i < j < |first| ensures first[i] != first[j] { assert ranked[i] != ranked[j]; }
  }

  lemma {:induction false} KeptBeforeDropped(rows: seq<Row>, ranked: seq<Rank>, room: nat, i: int, j: nat)
    requires ranked == StableSort(Ranks(rows, |rows|), RankLe) && room <= |rows| && j < |rows|
    requires i in IndexesOf(ranked[..room]) && j !in IndexesOf(ranked[..room])
    ensures 0 <= i < |rows| && RankLe(RankOf(rows[i], i), RankOf(rows[j], j))
  {
    RanksDistinct(rows, ranked);
    var first := IndexesOf(ranked[..room]);
    var k :| 0 <= k < |first| && first[k] == i;
    assert RankOf(rows[j], j) in ranked;
    var l :| 0 <= l < |ranked| && ranked[l] == RankOf(rows[j], j);
    forall m | 0 <= m < room ensures ranked[m].index != j { assert first[m] in first; }
  }

  // ----------------------------------------------------------------------- the class

  function EveryIndex(n: nat): (r: seq<int>)
    ensures |r| == n && forall i :: 0 <= i < n ==> r[i] == i
  {
    if n == 0 then [] else EveryIndex(n - 1) + [n - 1]
  }

  lemma {:induction false} AllAreBest(rows: seq<Row>)
    ensures BestRanked(rows, EveryIndex(|rows|), |rows|) && Picks(rows, EveryIndex(|rows|), rows)
  {
    var all := EveryIndex(|rows|);
    forall j | 0 <= j < |rows| ensures j in all { assert all[j] == j; }
  }

  /** The `room` best ranked rows, in their original order. */
  method SelectBest(rows: seq<Row>, room: nat) returns (kept: seq<Row>, keep: seq<int>)
    requires room <= |rows|
    ensures Picks(rows, keep, kept) && BestRanked(rows, keep, room)
  {
    var ranked := StableSort(Ranks(rows, |rows|), RankLe);
    keep := StableSort(IndexesOf(ranked[..room]), IntLe);
    FirstRanksAreBest(rows, ranked, room, keep);
    kept := PickRows(rows, keep);
  }

  method PickRows(rows: seq<Row>, keep: seq<int>) returns (kept: seq<Row>)
    requires forall k :: 0 <= k < |keep| ==> 0 <= keep[k] < |rows|
    ensures Picks(rows, keep, kept)
  {
    kept := [];
    for k := 0 to |keep|
      invariant |kept| == k && forall m :: 0 <= m < k ==> kept[m] == rows[keep[m]]
    {
      kept := kept + [rows[keep[k]]];
    }
  }

  /** What `note` says when it says something. */
  datatype Notice = AdmitsNoRows | WasExhausted

  class Budget {
    const limit: nat
    var spent: nat
    var elided: nat
    /** The rows of every list so far. */
    ghost var offered: nat

    /** The allowance went to the first rows offered, and the rest were counted. */
    ghost predicate Valid()
      reads this
    {
      spent == FairSplit.Least(limit, offered) && elided == offered - spent
    }

    constructor (rows: Option<int>)
      ensures Valid() && offered == 0
      ensures limit == match rows case None => DEFAULT_BUDGET case Some(n) => FairSplit.Positive(n)
    {
      limit := match rows case None => DEFAULT_BUDGET case Some(n) => FairSplit.Positive(n);
      spent, elided, offered := 0, 0, 0;
    }

    /** `take`: as many rows as the allowance still admits, the best ranked ones in their original order. */
    method Take(rows: seq<Row>) returns (kept: seq<Row>, ghost keep: seq<int>)
      requires Valid()
      modifies this
      ensures Valid() && offered == old(offered) + |rows|
      ensures |kept| == spent - old(spent)
      ensures Picks(rows, keep, kept) && BestRanked(rows, keep, |kept|)
    {
      var room := limit - spent;
      offered := offered + |rows|;
      if room <= 0 {
        elided := elided + |rows|;
        kept, keep := [], [];
        return;
      }
      if |rows| <= room {
        spent := spent + |rows|;
        kept, keep := rows, EveryIndex(|rows|);
        AllAreBest(rows);
        return;
      }
      spent := spent + room;
      elided := elided + (|rows| - room);
      var chosen;
      kept, chosen := SelectBest(rows, room);
      keep := chosen;
    }

    /** `note`. Once any row was elided under a positive limit some row was emitted, so only a limit of 0 is ever
    remarked on. */
    method Note() returns (note: Option<Notice>)
      requires Valid()
      ensures note == if limit == 0 then Some(AdmitsNoRows) else None
    {
      if limit == 0 { return Some(AdmitsNoRows); }
      if elided > 0 && spent == 0 { return Some(WasExhausted); }
      note := None;
    }
  }

  /** The kept rows are the best ranked ones, in their original order. */
  ghost predicate IsCut(rows: seq<Row>, kept: seq<Row>) {
    exists keep :: Picks(rows, keep, kept) && BestRanked(rows, keep, |kept|)
  }

  /** After each list, what the lists so far were given is what the allowance admits of all they offered. */
  ghost predicate InTurn(limit: nat, offered: nat, lists: seq<seq<Row>>, kept: seq<seq<Row>>)
    requires |kept| <= |lists|
  {
    forall j :: 0 <= j <= |kept| ==> ServedUpTo(limit, offered, lists[..j], kept[..j])
  }

  predicate ServedUpTo(limit: nat, offered: nat, lists: seq<seq<Row>>, kept: seq<seq<Row>>) {
    FairSplit.Least(limit, offered) + RowCount(kept) == FairSplit.Least(limit, offered + RowCount(lists))
  }

  lemma {:induction false} InTurnPush(limit: nat, offered: nat, lists: seq<seq<Row>>, kept: seq<seq<Row>>, rows: seq<Row>)
    requires |kept| < |lists| && InTurn(limit, offered, lists, kept)
    requires ServedUpTo(limit, offered, lists[..|kept| + 1], kept + [rows])
    ensures InTurn(limit, offered, lists, kept + [rows])
  {
    var more := kept + [rows];
    forall j | 0 <= j <= |more| ensures ServedUpTo(limit, offered, lists[..j], more[..j]) {
      assert j <= |kept| ==> more[..j] == kept[..j];
      assert j == |more| ==> more[..j] == more;
    }
  }

  lemma {:induction false} TurnTaken(limit: nat, offered: nat, lists: seq<seq<Row>>, kept: seq<seq<Row>>, rows: seq<Row>)
    requires |kept| < |lists| && InTurn(limit, offered, lists, kept)
    requires FairSplit.Least(limit, offered) + RowCount(kept) + |rows|
          == FairSplit.Least(limit, offered + RowCount(lists[..|kept|]) + |lists[|kept|]|)
    ensures RowCount(lists[..|kept| + 1]) == RowCount(lists[..|kept|]) + |lists[|kept|]|
    ensures RowCount(kept + [rows]) == RowCount(kept) + |rows|
    ensures InTurn(limit, offered, lists, kept + [rows])
  {
    assert lists[..|kept| + 1] == lists[..|kept|] + [lists[|kept|]];
    RowCountPush(lists[..|kept|], lists[|kept|]);
    RowCountPush(kept, rows);
    InTurnPush(limit, offered, lists, kept, rows);
  }

  method TakeNext(budget: Budget, rows: seq<Row>) returns (kept: seq<Row>)
    requires budget.Valid()
    modifies budget
    ensures budget.Valid() && budget.offered == old(budget.offered) + |rows|
    ensures budget.spent == old(budget.spent) + |kept| && IsCut(rows, kept)
  {
    ghost var keep;
    kept, keep := budget.Take(rows);
    assert Picks(rows, keep, kept) && BestRanked(rows, keep, |kept|);
  }

  /** Several lists of one response, in construction order: each answer is the best ranked rows of its list, and the
  lists are served in turn until the allowance is spent. */
  method TakeAll(budget: Budget, lists: seq<seq<Row>>) returns (kept: seq<seq<Row>>)
    requires budget.Valid()
    modifies budget
    ensures budget.Valid() && budget.offered == old(budget.offered) + RowCount(lists) && |kept| == |lists|
    ensures budget.spent == old(budget.spent) + RowCount(kept)
    ensures forall i :: 0 <= i < |lists| ==> IsCut(lists[i], kept[i])
    ensures InTurn(budget.limit, old(budget.offered), lists, kept)
  {
    kept := [];
    for i := 0 to |lists|
      invariant budget.Valid() && |kept| == i
      invariant budget.offered == old(budget.offered) + RowCount(lists[..i])
      invariant budget.spent == old(budget.spent) + RowCount(kept)
      invariant forall k :: 0 <= k < i ==> IsCut(lists[k], kept[k])
      invariant InTurn(budget.limit, old(budget.offered), lists, kept)
    {
      var rows := TakeNext(budget, lists[i]);
      TurnTaken(budget.limit, old(budget.offered), lists, kept, rows);
      kept := kept + [rows];
    }
    assert lists[..|lists|] == lists;
  }

  function RowCount(lists: seq<seq<Row>>): nat {
    if lists == [] then 0 else RowCount(lists[..|lists| - 1]) + |lists[|lists| - 1]|
  }

  lemma {:induction false} RowCountPush(lists: seq<seq<Row>>, rows: seq<Row>)
    ensures RowCount(lists + [rows]) == RowCount(lists) + |rows|
  {
    assert (lists + [rows])[..|lists|] == lists;
  }

  /** The four lists of a search answer. */
  datatype Answer = Answer(claims: seq<Row>, symbols: seq<Row>, unknowns: seq<Row>, files: seq<Row>)

  function Counts(a: Answer): seq<int> {
    [|a.claims|, |a.symbols|, |a.unknowns|, |a.files|]
  }

  lemma {:induction false} SumOfFour(a: int, b: int, c: int, d: int)
    ensures FairSplit.Sum([a, b, c, d]) == a + b + c + d
    ensures a >= 0 && b >= 0 && c >= 0 && d >= 0 ==> FairSplit.Demand([a, b, c, d]) == a + b + c + d
  {
    SumPush([], a);
    SumPush([a], b);
    SumPush([a, b], c);
    SumPush([a, b, c], d);
    assert [] + [a] == [a] && [a] + [b] == [a, b] && [a, b] + [c] == [a, b, c] && [a, b, c] + [d] == [a, b, c, d];
  }

  lemma {:induction false} SumPush(s: seq<int>, x: int)
    ensures FairSplit.Sum(s + [x]) == FairSplit.Sum(s) + x
    ensures FairSplit.Demand(s + [x]) == FairSplit.Demand(s) + FairSplit.Positive(x)
  {
    assert (s + [x])[..|s|] == s;
  }

  /** One list under its own allowance of `room` rows. */
  method TakeWithin(rows: seq<Row>, room: int) returns (kept: seq<Row>, spent: nat, elided: nat, ghost keep: seq<int>)
    requires 0 <= room <= |rows|
    ensures Picks(rows, keep, kept) && BestRanked(rows, keep, room)
    ensures |kept| == spent == room && elided == |rows| - room
  {
    var budget := new Budget(Some(room));
    kept, keep := budget.Take(rows);
    spent, elided := budget.spent, budget.elided;
  }

  /** The allocation part of `q_search`: the allowance is split fairly over the four lists, each is cut under its own
  share, and the response's totals are the sums. */
  method SearchRows(budget: Budget, found: Answer) returns (kept: Answer)
    modifies budget
    ensures budget.Valid() && budget.offered == FairSplit.Demand(Counts(found))
    ensures FairSplit.Sum(Counts(kept)) == budget.spent
    ensures FairSplit.WithinDemand(Counts(found), Counts(kept)) && FairSplit.MaxMinFair(Counts(found), Counts(kept))
    ensures IsCut(found.claims, kept.claims) && IsCut(found.symbols, kept.symbols)
    ensures IsCut(found.unknowns, kept.unknowns) && IsCut(found.files, kept.files)
  {
    var rooms, passes := FairSplit.FairSplitBudget(budget.limit, Counts(found));
    SumOfFour(|found.claims|, |found.symbols|, |found.unknowns|, |found.files|);
    assert rooms == [rooms[0], rooms[1], rooms[2], rooms[3]];
    SumOfFour(rooms[0], rooms[1], rooms[2], rooms[3]);
    var claims, s0, e0, k0 := TakeWithin(found.claims, rooms[0]);
    var symbols, s1, e1, k1 := TakeWithin(found.symbols, rooms[1]);
    var unknowns, s2, e2, k2 := TakeWithin(found.unknowns, rooms[2]);
    var files, s3, e3, k3 := TakeWithin(found.files, rooms[3]);
    kept := Answer(claims, symbols, unknowns, files);
    assert Counts(kept) == rooms;
    budget.spent := s0 + s1 + s2 + s3;
    budget.elided := e0 + e1 + e2 + e3;
    budget.offered := FairSplit.Demand(Counts(found));
  }
}
