/** What the deduplication of unknowns depends on (cdp/state.py:272-284): the first row of each key, and nothing
else. */
module QuestionOrder {
  import opened Orders
  import opened Merge
  import opened Fold

  lemma {:induction false} UnknownOrderIsOrder()
    ensures TotalPreorder(UnknownOrder())
    ensures forall u, v :: Tied(u, v, UnknownOrder()) <==> UnknownKey(u) == UnknownKey(v)
  {
    KeyOrderIsOrder((u: Unknown) => UnknownKey(u));
  }

  function FirstOf(rows: seq<Unknown>): seq<Unknown> {
    if rows == [] then [] else [rows[0]]
  }

  /** The first row with the key of `k`, if there is one. */
  function FirstLike(rows: seq<Unknown>, k: Unknown): seq<Unknown> {
    FirstOf(Ties(rows, k, UnknownOrder()))
  }

  lemma {:induction false} FirstOfKeyTies(rows: seq<Unknown>, seen: set<seq<string>>, k: Unknown)
    ensures Ties(FirstOfKey(rows, seen), k, UnknownOrder())
      == if UnknownKey(k) in seen then [] else FirstLike(rows, k)
  {
    UnknownOrderIsOrder();
    if rows != [] {
      var key, rest := UnknownKey(rows[0]), rows[1..];
      if key in seen {
        FirstOfKeyTies(rest, seen, k);
      } else {
        FirstOfKeyTies(rest, seen + {key}, k);
        var kept := FirstOfKey(rows, seen);
        assert kept[0] == rows[0] && kept[1..] == FirstOfKey(rest, seen + {key});
      }
    }
  }

  lemma {:induction false} FirstOfKeyFrom(rows: seq<Unknown>, seen: set<seq<string>>)
    ensures forall u :: u in FirstOfKey(rows, seen) ==> u in rows
  {
    if rows != [] {
      FirstOfKeyFrom(rows[1..], seen);
      FirstOfKeyFrom(rows[1..], seen + {UnknownKey(rows[0])});
    }
  }

  lemma {:induction false} FirstOfKeySorted(rows: seq<Unknown>, seen: set<seq<string>>)
    requires Sorted(rows, UnknownOrder())
    ensures Sorted(FirstOfKey(rows, seen), UnknownOrder())
  {
    if rows != [] {
      var key, rest := UnknownKey(rows[0]), rows[1..];
      FirstOfKeySorted(rest, seen);
      FirstOfKeySorted(rest, seen + {key});
      FirstOfKeyFrom(rest, seen + {key});
      var tail := FirstOfKey(rest, seen + {key});
      forall i | 0 <= i < |tail| ensures UnknownOrder()(rows[0], tail[i]) {
        assert tail[i] in rest;
      }
    }
  }

  lemma {:induction false} DedupeTies(rows: seq<Unknown>, k: Unknown)
    ensures Ties(Dedupe(rows), k, UnknownOrder()) == FirstLike(rows, k)
  {
    UnknownOrderIsOrder();
    FirstOfKeyTies(StableSort(rows, UnknownOrder()), {}, k);
    SortKeepsTies(rows, k, UnknownOrder());
  }

  lemma {:induction false} DedupeSorted(rows: seq<Unknown>)
    ensures Sorted(Dedupe(rows), UnknownOrder())
  {
    UnknownOrderIsOrder();
    SortSorts(rows, UnknownOrder());
    FirstOfKeySorted(StableSort(rows, UnknownOrder()), {});
  }

  ghost predicate SameFirsts(a: seq<Unknown>, b: seq<Unknown>) {
    forall k :: FirstLike(a, k) == FirstLike(b, k)
  }

  /** Two lists deduplicate alike exactly when every key has the same first row in both. */
  lemma {:induction false} DedupeExactly(a: seq<Unknown>, b: seq<Unknown>)
    ensures Dedupe(a) == Dedupe(b) <==> SameFirsts(a, b)
  {
    forall k ensures Ties(Dedupe(a), k, UnknownOrder()) == FirstLike(a, k)
      && Ties(Dedupe(b), k, UnknownOrder()) == FirstLike(b, k)
    {
      DedupeTies(a, k);
      DedupeTies(b, k);
    }
    if SameFirsts(a, b) {
      UnknownOrderIsOrder();
      DedupeSorted(a);
      DedupeSorted(b);
      forall k ensures Ties(Dedupe(a), k, UnknownOrder()) == Ties(Dedupe(b), k, UnknownOrder()) {
        assert FirstLike(a, k) == FirstLike(b, k);
      }
      SortedUniqueByTies(Dedupe(a), Dedupe(b), UnknownOrder());
    }
  }

  // -------------------------------------------------------- rows of many patches

  /** The questions of a patch that share the key of `k`. */
  function AskRows(k: Unknown): Patch -> seq<Unknown> {
    (p: Patch) => Ties(UnknownRows()(p), k, UnknownOrder())
  }

  lemma {:induction false} TiesOfRows(ps: seq<Patch>, k: Unknown)
    ensures Ties(Blocks(ps, UnknownRows()), k, UnknownOrder()) == Blocks(ps, AskRows(k))
  {
    if ps != [] {
      TiesOfRows(ps[1..], k);
      TiesAppend(UnknownRows()(ps[0]), Blocks(ps[1..], UnknownRows()), k, UnknownOrder());
    }
  }

  lemma {:induction false} HeadOfBlocks<S, T>(items: seq<S>, f: S -> seq<T>) returns (s: S)
    requires Blocks(items, f) != []
    ensures s in items && f(s) != [] && f(s)[0] == Blocks(items, f)[0]
  {
    if f(items[0]) != [] {
      s := items[0];
    } else {
      s := HeadOfBlocks(items[1..], f);
    }
  }

  lemma {:induction false} NonEmptyBlock<S, T>(items: seq<S>, f: S -> seq<T>, s: S)
    requires s in items && f(s) != []
    ensures Blocks(items, f) != []
  {
    InBlocks(items, f, s, f(s)[0]);
  }

  /** The first row of a key is the first one that a patch asks, and a stated gap only when none does. */
  lemma {:induction false} FirstLikeOfAll(ps: seq<Patch>, k: Unknown)
    ensures FirstLike(AllUnknowns(ps), k)
      == if Blocks(ps, AskRows(k)) != [] then FirstOf(Blocks(ps, AskRows(k)))
         else FirstLike(StatedGaps(Statuses(ps, |ps|), Errors(ps, |ps|)), k)
  {
    TiesOfRows(ps, k);
    TiesAppend(Blocks(ps, UnknownRows()), StatedGaps(Statuses(ps, |ps|), Errors(ps, |ps|)), k, UnknownOrder());
  }

  // ------------------------------------------------------------------------ gaps

  /** The question a gap states about the node. */
  function GapQuestion(node: string): Unknown {
    GapFor(map[node := ""], map[], node)
  }

  lemma {:induction false} GapKeys(status: map<string, string>, errors: map<string, string>, node: string, k: Unknown)
    requires node in status
    ensures Tied(GapFor(status, errors, node), k, UnknownOrder()) <==> UnknownKey(k) == UnknownKey(GapQuestion(node))
  {
    UnknownOrderIsOrder();
  }

  lemma {:induction false} SameKeySameTies(rows: seq<Unknown>, k: Unknown, l: Unknown)
    requires UnknownKey(k) == UnknownKey(l)
    ensures Ties(rows, k, UnknownOrder()) == Ties(rows, l, UnknownOrder())
  {
    UnknownOrderIsOrder();
    if rows != [] { SameKeySameTies(rows[1..], k, l); }
  }

  lemma {:induction false} SameKeySameAsk(p: Patch, k: Unknown, l: Unknown)
    requires UnknownKey(k) == UnknownKey(l)
    ensures AskRows(k)(p) == AskRows(l)(p)
  {
    SameKeySameTies(UnknownRows()(p), k, l);
  }

  ghost predicate AgreeAt(x: map<string, string>, y: map<string, string>, n: string) {
    (n in x <==> n in y) && (n in x ==> x[n] == y[n])
  }

  lemma {:induction false} GapTiesAgree(status: map<string, string>, x: map<string, string>, y: map<string, string>,
      nodes: seq<string>, k: Unknown)
    requires forall n :: n in nodes ==> n in status
    requires forall n :: n in nodes && UnknownKey(k) == UnknownKey(GapQuestion(n)) ==> AgreeAt(x, y, n)
    ensures Ties(Gaps(status, x, nodes), k, UnknownOrder()) == Ties(Gaps(status, y, nodes), k, UnknownOrder())
  {
    if nodes != [] {
      assert nodes[0] in nodes;
      GapKeys(status, x, nodes[0], k);
      GapKeys(status, y, nodes[0], k);
      GapTiesAgree(status, x, y, nodes[1..], k);
    }
  }

  lemma {:induction false} OnlyTieIsFirst(rows: seq<Unknown>, k: Unknown, u: Unknown)
    requires u in rows && Tied(u, k, UnknownOrder())
    requires forall v :: v in rows && Tied(v, k, UnknownOrder()) ==> v == u
    ensures FirstLike(rows, k) == [u]
  {
    var ties := Ties(rows, k, UnknownOrder());
    assert u in ties;
    assert ties[0] in ties;
  }

  lemma {:induction false} GapKeysDiffer(m: string, n: string)
    requires UnknownKey(GapQuestion(m)) == UnknownKey(GapQuestion(n))
    ensures m == n
  {
    assert UnknownKey(GapQuestion(m))[0] == m && UnknownKey(GapQuestion(n))[0] == n;
  }

  lemma {:induction false} GapOfQuestion(status: map<string, string>, errors: map<string, string>, nodes: seq<string>,
      node: string, v: Unknown)
    requires (forall n :: n in nodes ==> n in status) && node in status
    requires v in Gaps(status, errors, nodes) && Tied(v, GapQuestion(node), UnknownOrder())
    ensures v == GapFor(status, errors, node)
  {
    var j :| 0 <= j < |nodes| && Gaps(status, errors, nodes)[j] == v;
    GapKeys(status, errors, nodes[j], GapQuestion(node));
    GapKeysDiffer(nodes[j], node);
  }

  lemma {:induction false} GapIsFirst(status: map<string, string>, errors: map<string, string>, node: string)
    requires node in Superseded(status)
    ensures FirstLike(StatedGaps(status, errors), GapQuestion(node)) == [GapFor(status, errors, node)]
  {
    var nodes := SortedSet(Superseded(status));
    GapKeys(status, errors, node, GapQuestion(node));
    forall v | v in Gaps(status, errors, nodes) && Tied(v, GapQuestion(node), UnknownOrder())
      ensures v == GapFor(status, errors, node)
    {
      GapOfQuestion(status, errors, nodes, node, v);
    }
    var i :| 0 <= i < |nodes| && nodes[i] == node;
    assert Gaps(status, errors, nodes)[i] == GapFor(status, errors, node);
    OnlyTieIsFirst(Gaps(status, errors, nodes), GapQuestion(node), GapFor(status, errors, node));
  }

  lemma {:induction false} GapsDiffer(status: map<string, string>, x: map<string, string>, y: map<string, string>, node: string)
    requires node in status && node in x && node in y && x[node] != y[node]
    ensures GapFor(status, x, node) != GapFor(status, y, node)
  {
    var before := "Node status is '" + status[node] + "'" + ": ";
    SameTail(before, x[node], y[node], ".");
    assert GapFor(status, x, node).why == before + x[node] + ".";
    assert GapFor(status, y, node).why == before + y[node] + ".";
  }

  lemma {:induction false} SameTail(before: string, a: string, b: string, after: string)
    ensures before + a + after == before + b + after ==> a == b
  {
    if before + a + after == before + b + after {
      assert |a| == |b|;
      assert a == (before + a + after)[|before|..|before| + |a|];
      assert b == (before + b + after)[|before|..|before| + |b|];
    }
  }
}
