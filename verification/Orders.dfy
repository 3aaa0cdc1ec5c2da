/** Orders, stable sorting and sorted sets, as Python's `sorted` and `str` comparison define them.

The main result is `SortDeterminedByTies`: what a stable sort returns depends only on the
relative order of tied elements, so two inputs that agree on every class of ties sort alike.
The fold of the patch log and the incremental extraction both rest on it. */
module Orders {

  ghost predicate TotalPreorder<T(!new)>(le: (T, T) -> bool) {
    && (forall x, y :: le(x, y) || le(y, x))
    && (forall x, y, z :: le(x, y) && le(y, z) ==> le(x, z))
  }

  /** Comparison of two Python strings: by code point, a proper prefix first. */
  predicate StrLe(a: string, b: string) {
    a == [] || (b != [] && (a[0] < b[0] || (a[0] == b[0] && StrLe(a[1..], b[1..]))))
  }

  lemma {:induction false} StrLeTotal(a: string, b: string)
    ensures StrLe(a, b) || StrLe(b, a)
  {
    if a != [] && b != [] && a[0] == b[0] {
      StrLeTotal(a[1..], b[1..]);
    }
  }

  lemma {:induction false} StrLeAntisymmetric(a: string, b: string)
    requires StrLe(a, b) && StrLe(b, a)
    ensures a == b
  {
    if a != [] {
      StrLeAntisymmetric(a[1..], b[1..]);
    }
  }

  lemma {:induction false} StrLeTransitive(a: string, b: string, c: string)
    requires StrLe(a, b) && StrLe(b, c)
    ensures StrLe(a, c)
  {
    if a != [] && a[0] == b[0] == c[0] {
      StrLeTransitive(a[1..], b[1..], c[1..]);
    }
  }

  lemma {:induction false} StrLeIsOrder()
    ensures TotalPreorder(StrLe)
    ensures forall a, b :: StrLe(a, b) && StrLe(b, a) ==> a == b
  {
    forall a, b ensures StrLe(a, b) || StrLe(b, a) { StrLeTotal(a, b); }
    forall a, b, c | StrLe(a, b) && StrLe(b, c) ensures StrLe(a, c) { StrLeTransitive(a, b, c); }
    forall a, b | StrLe(a, b) && StrLe(b, a) ensures a == b { StrLeAntisymmetric(a, b); }
  }

  /** Lexicographic comparison of two lists of strings, as Python compares tuples or lists. */
  predicate ListLe(a: seq<string>, b: seq<string>) {
    a == [] || (b != [] && (if a[0] == b[0] then ListLe(a[1..], b[1..]) else StrLe(a[0], b[0])))
  }

  lemma {:induction false} ListLeTotal(a: seq<string>, b: seq<string>)
    ensures ListLe(a, b) || ListLe(b, a)
  {
    if a != [] && b != [] {
      StrLeTotal(a[0], b[0]);
      if a[0] == b[0] { ListLeTotal(a[1..], b[1..]); }
    }
  }

  lemma {:induction false} ListLeAntisymmetric(a: seq<string>, b: seq<string>)
    requires ListLe(a, b) && ListLe(b, a)
    ensures a == b
  {
    if a != [] {
      if a[0] == b[0] {
        ListLeAntisymmetric(a[1..], b[1..]);
      } else {
        StrLeAntisymmetric(a[0], b[0]);
      }
    }
  }

  lemma {:induction false} ListLeTransitive(a: seq<string>, b: seq<string>, c: seq<string>)
    requires ListLe(a, b) && ListLe(b, c)
    ensures ListLe(a, c)
  {
    if a != [] {
      StrLeIsOrder();
      if a[0] == b[0] && b[0] == c[0] {
        ListLeTransitive(a[1..], b[1..], c[1..]);
      }
    }
  }

  lemma {:induction false} ListLeIsOrder()
    ensures TotalPreorder(ListLe)
    ensures forall a, b :: ListLe(a, b) && ListLe(b, a) ==> a == b
  {
    forall a, b ensures ListLe(a, b) || ListLe(b, a) { ListLeTotal(a, b); }
    forall a, b, c | ListLe(a, b) && ListLe(b, c) ensures ListLe(a, c) { ListLeTransitive(a, b, c); }
    forall a, b | ListLe(a, b) && ListLe(b, a) ensures a == b { ListLeAntisymmetric(a, b); }
  }

  // ------------------------------------------------------------- stable sort

  ghost predicate Sorted<T>(s: seq<T>, le: (T, T) -> bool) {
    forall i, j :: 0 <= i < j < |s| ==> le(s[i], s[j])
  }

  /** Puts `x` before the first element that is not smaller, so earlier arrivals stay first. */
  function Insert<T>(x: T, s: seq<T>, le: (T, T) -> bool): (r: seq<T>)
    ensures multiset(r) == multiset{x} + multiset(s)
  {
    if s == [] || le(x, s[0]) then
      [x] + s
    else
      var r := [s[0]] + Insert(x, s[1..], le);
      assert s == [s[0]] + s[1..];
      r
  }

  /** Python's `sorted`: a stable sort under the order `le`. */
  function StableSort<T>(s: seq<T>, le: (T, T) -> bool): (r: seq<T>)
    ensures multiset(r) == multiset(s)
    ensures |r| == |s|
  {
    if s == [] then
      []
    else
      var r := Insert(s[0], StableSort(s[1..], le), le);
      assert s == [s[0]] + s[1..];
      assert |r| == |multiset(r)| && |s| == |multiset(s)|;
      r
  }

  lemma {:induction false} InMultiset<T>(s: seq<T>, x: T)
    ensures x in s <==> x in multiset(s)
  {
  }

  lemma {:induction false} CountPush<T>(s: seq<T>, t: T, x: T)
    ensures multiset(s + [t])[x] == multiset(s)[x] + if t == x then 1 else 0
  {
  }

  lemma {:induction false} InsertSorts<T(!new)>(x: T, s: seq<T>, le: (T, T) -> bool)
    requires TotalPreorder(le) && Sorted(s, le)
    ensures Sorted(Insert(x, s, le), le)
  {
    if s != [] && !le(x, s[0]) {
      InsertSorts(x, s[1..], le);
      var tail := Insert(x, s[1..], le);
      forall j | 0 <= j < |tail| ensures le(s[0], tail[j]) {
        InMultiset(tail, tail[j]);
        InMultiset(s[1..], tail[j]);
      }
    }
  }

  lemma {:induction false} SortSorts<T(!new)>(s: seq<T>, le: (T, T) -> bool)
    requires TotalPreorder(le)
    ensures Sorted(StableSort(s, le), le)
  {
    if s != [] {
      SortSorts(s[1..], le);
      InsertSorts(s[0], StableSort(s[1..], le), le);
    }
  }

  lemma {:induction false} SortMembers<T(!new)>(s: seq<T>, le: (T, T) -> bool)
    ensures forall x :: x in StableSort(s, le) <==> x in s
  {
    forall x ensures x in StableSort(s, le) <==> x in s {
      InMultiset(s, x);
      InMultiset(StableSort(s, le), x);
    }
  }

  predicate Tied<T>(a: T, b: T, le: (T, T) -> bool) {
    le(a, b) && le(b, a)
  }

  /** The elements tied with `k`, in their order in `s`. */
  function Ties<T(!new)>(s: seq<T>, k: T, le: (T, T) -> bool): (r: seq<T>)
    ensures forall x :: x in r <==> x in s && Tied(x, k, le)
  {
    if s == [] then
      []
    else if Tied(s[0], k, le) then
      [s[0]] + Ties(s[1..], k, le)
    else
      Ties(s[1..], k, le)
  }

  lemma {:induction false} TiesAppend<T(!new)>(s: seq<T>, t: seq<T>, k: T, le: (T, T) -> bool)
    ensures Ties(s + t, k, le) == Ties(s, k, le) + Ties(t, k, le)
  {
    if s == [] {
      assert s + t == t;
    } else {
      assert (s + t)[1..] == s[1..] + t;
      TiesAppend(s[1..], t, k, le);
    }
  }

  lemma {:induction false} InsertKeepsTies<T(!new)>(x: T, s: seq<T>, k: T, le: (T, T) -> bool)
    requires forall y :: y in s && Tied(y, k, le) && Tied(x, k, le) ==> le(x, y)
    ensures Ties(Insert(x, s, le), k, le) == Ties([x], k, le) + Ties(s, k, le)
  {
    var r := Insert(x, s, le);
    if s == [] || le(x, s[0]) {
      assert r[1..] == s;
      assert Ties([x], k, le) == if Tied(x, k, le) then [x] else [];
    } else {
      assert r[0] == s[0] && r[1..] == Insert(x, s[1..], le);
      InsertKeepsTies(x, s[1..], k, le);
      assert s[0] in s;
    }
  }

  /** The sort is stable: within any class of ties it keeps the input's order. */
  lemma {:induction false} SortKeepsTies<T(!new)>(s: seq<T>, k: T, le: (T, T) -> bool)
    requires TotalPreorder(le)
    ensures Ties(StableSort(s, le), k, le) == Ties(s, k, le)
  {
    if s != [] {
      SortKeepsTies(s[1..], k, le);
      var rest := StableSort(s[1..], le);
      forall y | y in rest && Tied(y, k, le) && Tied(s[0], k, le) ensures le(s[0], y) {
        assert le(s[0], k) && le(k, y);
      }
      InsertKeepsTies(s[0], rest, k, le);
      assert s == [s[0]] + s[1..];
      TiesAppend([s[0]], s[1..], k, le);
    }
  }

  lemma {:induction false} SortedUniqueByTies<T(!new)>(s: seq<T>, t: seq<T>, le: (T, T) -> bool)
    requires TotalPreorder(le) && Sorted(s, le) && Sorted(t, le)
    requires forall k :: Ties(s, k, le) == Ties(t, k, le)
    ensures s == t
  {
    forall x ensures x in s <==> x in t {
      assert Tied(x, x, le);
      assert Ties(s, x, le) == Ties(t, x, le);
      assert x in s <==> x in Ties(s, x, le);
    }
    assert s == [] ==> t == [] by {
      assert forall i :: 0 <= i < |t| ==> t[i] in s;
    }
    if s != [] {
      assert s[0] in s && s[0] in t;
      assert t[0] in t && t[0] in s;
      assert le(s[0], t[0]) && le(t[0], s[0]);
      assert s[0] == Ties(s, s[0], le)[0] && t[0] == Ties(t, s[0], le)[0];
      forall k ensures Ties(s[1..], k, le) == Ties(t[1..], k, le) {
        assert Ties(s, k, le) == Ties(t, k, le);
        assert Tied(s[0], k, le) ==> Ties(s, k, le)[1..] == Ties(s[1..], k, le) && Ties(t, k, le)[1..] == Ties(t[1..], k, le);
      }
      SortedUniqueByTies(s[1..], t[1..], le);
      assert s == [s[0]] + s[1..] && t == [t[0]] + t[1..];
    }
  }

  /** A stable sort has one result per family of tie orders. */
  lemma {:induction false} SortDeterminedByTies<T(!new)>(s: seq<T>, t: seq<T>, le: (T, T) -> bool)
    requires TotalPreorder(le)
    requires forall k :: Ties(s, k, le) == Ties(t, k, le)
    ensures StableSort(s, le) == StableSort(t, le)
  {
    SortSorts(s, le);
    SortSorts(t, le);
    forall k ensures Ties(StableSort(s, le), k, le) == Ties(StableSort(t, le), k, le) {
      SortKeepsTies(s, k, le);
      SortKeepsTies(t, k, le);
    }
    SortedUniqueByTies(StableSort(s, le), StableSort(t, le), le);
  }

  lemma {:induction false} ConstantTies<T(!new)>(s: seq<T>, k: T, c: T, le: (T, T) -> bool)
    requires forall x :: x in s && Tied(x, k, le) ==> x == c
    requires Tied(c, k, le)
    ensures Ties(s, k, le) == seq(multiset(s)[c], i => c)
  {
    if s != [] {
      ConstantTies(s[1..], k, c, le);
      assert s == [s[0]] + s[1..];
    }
  }

  lemma {:induction false} NoTies<T(!new)>(s: seq<T>, k: T, le: (T, T) -> bool)
    requires forall x :: x in s ==> !Tied(x, k, le)
    ensures Ties(s, k, le) == []
  {
    if s != [] { NoTies(s[1..], k, le); }
  }

  /** A permutation sorts alike when tied elements are equal. */
  lemma {:induction false} PermutationSortsAlike<T(!new)>(s: seq<T>, t: seq<T>, le: (T, T) -> bool)
    requires TotalPreorder(le)
    requires multiset(s) == multiset(t)
    requires forall x, y :: x in s && y in s && Tied(x, y, le) ==> x == y
    ensures StableSort(s, le) == StableSort(t, le)
  {
    SameMembers(s, t);
    forall k ensures Ties(s, k, le) == Ties(t, k, le) {
      if exists c :: c in s && Tied(c, k, le) {
        var c :| c in s && Tied(c, k, le);
        forall x | x in s && Tied(x, k, le) ensures x == c {
          assert Tied(x, c, le);
        }
        ConstantTies(s, k, c, le);
        ConstantTies(t, k, c, le);
      } else {
        NoTies(s, k, le);
        NoTies(t, k, le);
      }
    }
    SortDeterminedByTies(s, t, le);
  }

  // -------------------------------------------------------------- sorted sets

  ghost predicate StrictlySorted(s: seq<string>) {
    forall i, j :: 0 <= i < j < |s| ==> StrLe(s[i], s[j]) && s[i] != s[j]
  }

  predicate IsLeast(x: string, s: set<string>) {
    x in s && forall y :: y in s ==> StrLe(x, y)
  }

  lemma {:induction false} LeastExists(s: set<string>) returns (least: string)
    requires s != {}
    ensures IsLeast(least, s)
  {
    var x :| x in s;
    StrLeTotal(x, x);
    least := x;
    if s != {x} {
      var m := LeastExists(s - {x});
      StrLeTotal(m, x);
      least := if StrLe(m, x) then m else x;
      forall y | y in s ensures StrLe(least, y) {
        if y != x {
          assert StrLe(m, y);
          if least == x { StrLeTransitive(x, m, y); }
        }
      }
    }
  }

  lemma {:induction false} LeastIsUnique(s: set<string>)
    requires s != {}
    ensures exists x :: IsLeast(x, s)
    ensures forall x, y :: IsLeast(x, s) && IsLeast(y, s) ==> x == y
  {
    var least := LeastExists(s);
    forall x, y | IsLeast(x, s) && IsLeast(y, s) ensures x == y {
      StrLeAntisymmetric(x, y);
    }
  }

  /** `sorted(set)`: the one strictly ascending list of the set's elements. */
  function SortedSet(s: set<string>): (r: seq<string>)
    ensures forall x :: x in r <==> x in s
    ensures StrictlySorted(r)
    ensures |r| == |s|
  {
    if s == {} then
      []
    else
      LeastIsUnique(s);
      var x :| IsLeast(x, s);
      var rest := SortedSet(s - {x});
      LeastFirst(x, s, rest);
      [x] + rest
  }

  lemma {:induction false} LeastFirst(x: string, s: set<string>, rest: seq<string>)
    requires IsLeast(x, s) && StrictlySorted(rest) && |rest| == |s - {x}|
    requires forall y :: y in rest <==> y in s - {x}
    ensures StrictlySorted([x] + rest) && |[x] + rest| == |s|
    ensures forall y :: y in [x] + rest <==> y in s
  {
    assert s == (s - {x}) + {x};
    forall i | 0 <= i < |rest| ensures StrLe(x, rest[i]) && x != rest[i] { assert rest[i] in rest; }
  }

  lemma {:induction false} StrictlySortedUnique(a: seq<string>, b: seq<string>)
    requires StrictlySorted(a) && StrictlySorted(b)
    requires forall x :: x in a <==> x in b
    ensures a == b
  {
    assert |b| > 0 ==> b[0] in b;
    if a != [] {
      assert a[0] in a && b[0] in b;
      StrLeTotal(a[0], b[0]);
      assert StrLe(a[0], b[0]) && StrLe(b[0], a[0]);
      StrLeAntisymmetric(a[0], b[0]);
      forall x ensures x in a[1..] <==> x in b[1..] {
        assert x in a[1..] <==> x in a && x != a[0];
        assert x in b[1..] <==> x in b && x != b[0];
      }
      StrictlySortedUnique(a[1..], b[1..]);
      assert a == [a[0]] + a[1..] && b == [b[0]] + b[1..];
    }
  }

  // ------------------------------------------------------------ sorting by key

  /** `key=` with a tuple of strings. */
  function KeyOrder<T(!new)>(key: T -> seq<string>): (T, T) -> bool {
    (a, b) => ListLe(key(a), key(b))
  }

  lemma {:induction false} KeyOrderIsOrder<T(!new)>(key: T -> seq<string>)
    ensures TotalPreorder(KeyOrder(key))
    ensures forall a, b :: Tied(a, b, KeyOrder(key)) <==> key(a) == key(b)
  {
    ListLeIsOrder();
  }

  // --------------------------------------------------------- concatenated blocks

  /** The blocks `f` makes of the items, one after another. */
  function Blocks<S, T>(items: seq<S>, f: S -> seq<T>): seq<T> {
    if items == [] then [] else f(items[0]) + Blocks(items[1..], f)
  }

  lemma {:induction false} BlocksAppend<S, T>(a: seq<S>, b: seq<S>, f: S -> seq<T>)
    ensures Blocks(a + b, f) == Blocks(a, f) + Blocks(b, f)
  {
    if a == [] {
      assert a + b == b;
    } else {
      assert (a + b)[1..] == a[1..] + b;
      BlocksAppend(a[1..], b, f);
    }
  }

  lemma {:induction false} BlocksPush<S, T>(a: seq<S>, s: S, f: S -> seq<T>)
    ensures Blocks(a + [s], f) == Blocks(a, f) + f(s)
  {
    BlocksAppend(a, [s], f);
    assert [s][1..] == [] && Blocks([s], f) == f(s);
  }

  lemma {:induction false} BlocksOfTwo<S, T>(s: S, t: S, f: S -> seq<T>)
    ensures Blocks([s, t], f) == f(s) + f(t)
  {
    assert [s, t][1..] == [t] && [t][1..] == [];
    assert Blocks([t], f) == f(t) + Blocks([], f) == f(t);
  }

  lemma {:induction false} BlocksMembers<S(!new), T(!new)>(items: seq<S>, f: S -> seq<T>)
    ensures forall x :: x in Blocks(items, f) <==> exists s :: s in items && x in f(s)
  {
    if items != [] {
      BlocksMembers(items[1..], f);
      forall x ensures x in Blocks(items, f) <==> exists s :: s in items && x in f(s) {
        if s :| s in items && x in f(s) {
          assert s == items[0] || s in items[1..];
        }
      }
    }
  }

  lemma {:induction false} BlockOf<S, T>(items: seq<S>, f: S -> seq<T>, x: T) returns (s: S)
    requires x in Blocks(items, f)
    ensures s in items && x in f(s)
  {
    if x in f(items[0]) {
      s := items[0];
    } else {
      s := BlockOf(items[1..], f, x);
    }
  }

  lemma {:induction false} InBlocks<S, T>(items: seq<S>, f: S -> seq<T>, s: S, x: T)
    requires s in items && x in f(s)
    ensures x in Blocks(items, f)
  {
    if s != items[0] { InBlocks(items[1..], f, s, x); }
  }

  ghost predicate Commute<T>(a: seq<T>, b: seq<T>) {
    a + b == b + a
  }

  lemma {:induction false} CommutesWithAll<S(!new), T>(items: seq<S>, s: S, f: S -> seq<T>)
    requires forall t :: t in items ==> Commute(f(t), f(s))
    ensures Commute(Blocks(items, f), f(s))
  {
    if items == [] {
      assert f(s) + [] == f(s) == [] + f(s);
    } else {
      CommutesWithAll(items[1..], s, f);
      var a, b, c := f(items[0]), Blocks(items[1..], f), f(s);
      assert items[0] in items;
      calc {
        a + b + c;
        a + (b + c);
        a + (c + b);
        a + c + b;
        { assert Commute(a, c); }
        c + a + b;
        c + (a + b);
      }
    }
  }

  lemma {:induction false} SameMembers<T(!new)>(a: seq<T>, b: seq<T>)
    requires multiset(a) == multiset(b)
    ensures forall x :: x in a <==> x in b
  {
    forall x ensures x in a <==> x in b {
      InMultiset(a, x);
      InMultiset(b, x);
    }
  }

  /** A permutation of a list holds the list's head somewhere, and the rest around it. */
  lemma {:induction false} TakeOut<T(!new)>(a: seq<T>, b: seq<T>) returns (before: seq<T>, after: seq<T>)
    requires multiset(a) == multiset(b) && a != []
    ensures b == before + ([a[0]] + after)
    ensures multiset(before + after) == multiset(a[1..])
  {
    InMultiset(a, a[0]);
    InMultiset(b, a[0]);
    var i :| 0 <= i < |b| && b[i] == a[0];
    before, after := b[..i], b[i + 1..];
    assert b == before + ([b[i]] + after);
    assert a == [a[0]] + a[1..];
    WithoutOne(a[0], a[1..], before, after);
  }

  lemma {:induction false} WithoutOne<T>(x: T, rest: seq<T>, before: seq<T>, after: seq<T>)
    requires multiset([x] + rest) == multiset(before + ([x] + after))
    ensures multiset(before + after) == multiset(rest)
  {
    assert multiset([x] + rest) == multiset{x} + multiset(rest);
    assert multiset(before + ([x] + after)) == multiset(before) + (multiset{x} + multiset(after));
    assert multiset(rest) == multiset([x] + rest) - multiset{x};
    assert multiset(before + after) == multiset(before + ([x] + after)) - multiset{x};
  }

  /** Blocks that commute pairwise may be concatenated in any order. */
  lemma {:induction false} PermutedBlocks<S(!new), T>(a: seq<S>, b: seq<S>, f: S -> seq<T>)
    requires multiset(a) == multiset(b)
    requires forall s, t :: s in a && t in a ==> Commute(f(s), f(t))
    ensures Blocks(a, f) == Blocks(b, f)
  {
    if a == [] {
      assert |multiset(b)| == 0;
    } else {
      var before, after := TakeOut(a, b);
      SameMembers(a, b);
      SameMembers(a[1..], before + after);
      assert forall t :: t in before ==> t in b;
      CommutesWithAll(before, a[0], f);
      PermutedBlocks(a[1..], before + after, f);
      BlocksAppend(before, after, f);
      BlocksAppend(before, [a[0]] + after, f);
      calc {
        Blocks(b, f);
        Blocks(before, f) + Blocks([a[0]] + after, f);
        { assert ([a[0]] + after)[1..] == after; }
        Blocks(before, f) + (f(a[0]) + Blocks(after, f));
        Blocks(before, f) + f(a[0]) + Blocks(after, f);
        f(a[0]) + Blocks(before, f) + Blocks(after, f);
        f(a[0]) + (Blocks(before, f) + Blocks(after, f));
      }
    }
  }

  lemma {:induction false} PermutedBlocksMultiset<S(!new), T(!new)>(a: seq<S>, b: seq<S>, f: S -> seq<T>)
    requires multiset(a) == multiset(b)
    ensures multiset(Blocks(a, f)) == multiset(Blocks(b, f))
  {
    if a == [] {
      assert |multiset(b)| == 0;
    } else {
      var before, after := TakeOut(a, b);
      PermutedBlocksMultiset(a[1..], before + after, f);
      BlocksAppend(before, after, f);
      BlocksAppend(before, [a[0]] + after, f);
      assert ([a[0]] + after)[1..] == after;
    }
  }

  /** Blocks whose elements are all equal across two blocks commute. */
  lemma {:induction false} EqualElementsCommute<T(!new)>(a: seq<T>, b: seq<T>)
    requires forall x, y :: x in a && y in b ==> x == y
    ensures Commute(a, b)
  {
    if a == [] || b == [] {
      assert a + b == b + a;
    } else {
      var c := a[0];
      assert c in a && b[0] in b;
      assert forall i :: 0 <= i < |b| ==> b[i] == c by { assert forall i :: 0 <= i < |b| ==> b[i] in b; }
      assert forall i :: 0 <= i < |a| ==> a[i] == c by { assert forall i :: 0 <= i < |a| ==> a[i] in a; }
      assert a + b == b + a;
    }
  }

  /** The elements that satisfy `p`, in order. */
  function Filter<T>(s: seq<T>, p: T -> bool): (r: seq<T>)
    ensures forall i :: 0 <= i < |r| ==> p(r[i]) && r[i] in s
  {
    if s == [] then [] else if p(s[0]) then [s[0]] + Filter(s[1..], p) else Filter(s[1..], p)
  }

  lemma {:induction false} FilterMembers<T(!new)>(s: seq<T>, p: T -> bool)
    ensures forall x :: x in Filter(s, p) <==> x in s && p(x)
  {
    if s != [] { FilterMembers(s[1..], p); }
  }

  lemma {:induction false} FilterAppend<T>(s: seq<T>, t: seq<T>, p: T -> bool)
    ensures Filter(s + t, p) == Filter(s, p) + Filter(t, p)
  {
    if s == [] {
      assert s + t == t;
    } else {
      assert (s + t)[1..] == s[1..] + t;
      FilterAppend(s[1..], t, p);
    }
  }

  lemma {:induction false} FilterPermuted<T(!new)>(s: seq<T>, t: seq<T>, p: T -> bool)
    requires multiset(s) == multiset(t)
    ensures multiset(Filter(s, p)) == multiset(Filter(t, p))
  {
    forall x ensures multiset(Filter(s, p))[x] == multiset(Filter(t, p))[x] {
      FilterCount(s, p, x);
      FilterCount(t, p, x);
    }
  }

  lemma {:induction false} FilterCount<T(!new)>(s: seq<T>, p: T -> bool, x: T)
    ensures multiset(Filter(s, p))[x] == if p(x) then multiset(s)[x] else 0
  {
    if s != [] {
      FilterCount(s[1..], p, x);
      assert s == [s[0]] + s[1..];
    }
  }

  /** Two lists without repetition that hold the same elements are permutations. */
  lemma {:induction false} SameElementsPermuted<T(!new)>(a: seq<T>, b: seq<T>)
    requires forall i, j :: 0 <= i < j < |a| ==> a[i] != a[j]
    requires forall i, j :: 0 <= i < j < |b| ==> b[i] != b[j]
    requires forall x :: x in a <==> x in b
    ensures multiset(a) == multiset(b)
  {
    forall x ensures multiset(a)[x] == multiset(b)[x] {
      CountWithoutRepeats(a, x);
      CountWithoutRepeats(b, x);
    }
  }

  lemma {:induction false} CountWithoutRepeats<T(!new)>(s: seq<T>, x: T)
    requires forall i, j :: 0 <= i < j < |s| ==> s[i] != s[j]
    ensures multiset(s)[x] == if x in s then 1 else 0
  {
    if s != [] {
      CountWithoutRepeats(s[1..], x);
      assert s == [s[0]] + s[1..];
    }
  }

  predicate WithoutRepeats<T(==)>(s: seq<T>) {
    forall i, j :: 0 <= i < j < |s| ==> s[i] != s[j]
  }

  /** A permutation of a list without repetition has none either. */
  lemma {:induction false} PermutationWithoutRepeats<T(!new)>(s: seq<T>, t: seq<T>)
    requires WithoutRepeats(s) && multiset(s) == multiset(t)
    ensures WithoutRepeats(t)
  {
    forall i, j | 0 <= i < j < |t| ensures t[i] != t[j] {
      CountWithoutRepeats(s, t[i]);
      if t[i] == t[j] { CountsTwice(t, i, j); }
    }
  }

  lemma {:induction false} CountsTwice<T>(s: seq<T>, i: nat, j: nat)
    requires i < j < |s| && s[i] == s[j]
    ensures multiset(s)[s[i]] >= 2
  {
    assert s == s[..i] + [s[i]] + s[i + 1..j] + [s[j]] + s[j + 1..];
  }

  // ------------------------------------------------------------------ mapped lists

  /** The images of the first `n` elements. */
  function Mapped<T, K>(f: T -> K, s: seq<T>, n: nat): (r: seq<K>)
    requires n <= |s|
    ensures |r| == n && forall i :: 0 <= i < n ==> r[i] == f(s[i])
  {
    if n == 0 then [] else Mapped(f, s, n - 1) + [f(s[n - 1])]
  }

  lemma {:induction false} MappedCount<T(!new), K>(f: T -> K, s: seq<T>, x: T, n: nat)
    requires n <= |s| && forall i :: 0 <= i < |s| ==> OnlyImage(f, s[i], x)
    ensures multiset(Mapped(f, s, n))[f(x)] == multiset(s[..n])[x]
  {
    if n > 0 {
      MappedCount(f, s, x, n - 1);
      assert s[..n] == s[..n - 1] + [s[n - 1]];
      assert OnlyImage(f, s[n - 1], x);
      CountBoth(f, s[..n - 1], Mapped(f, s, n - 1), s[n - 1], x);
    }
  }

  ghost predicate OnlyImage<T, K>(f: T -> K, y: T, x: T) {
    f(y) == f(x) ==> y == x
  }

  lemma {:induction false} CountBoth<T, K>(f: T -> K, s: seq<T>, images: seq<K>, y: T, x: T)
    requires OnlyImage(f, y, x) && multiset(images)[f(x)] == multiset(s)[x]
    ensures multiset(images + [f(y)])[f(x)] == multiset(s + [y])[x]
  {
    CountPush(s, y, x);
    CountPush(images, f(y), f(x));
  }

  lemma {:induction false} AllMappedCount<T(!new), K>(f: T -> K, s: seq<T>, x: T)
    requires forall y :: y in s && f(y) == f(x) ==> y == x
    ensures multiset(Mapped(f, s, |s|))[f(x)] == multiset(s)[x]
  {
    forall i | 0 <= i < |s| ensures OnlyImage(f, s[i], x) { assert s[i] in s; }
    MappedCount(f, s, x, |s|);
    assert s[..|s|] == s;
  }

  /** Where the map is injective, lists with the same images are permutations of each other. */
  lemma {:induction false} SameMappedPermutes<T(!new), K>(f: T -> K, a: seq<T>, b: seq<T>)
    requires forall x, y :: x in a + b && y in a + b && f(x) == f(y) ==> x == y
    requires multiset(Mapped(f, a, |a|)) == multiset(Mapped(f, b, |b|))
    ensures multiset(a) == multiset(b)
  {
    forall x ensures multiset(a)[x] == multiset(b)[x] {
      if x in a || x in b {
        assert x in a + b;
        AllMappedCount(f, a, x);
        AllMappedCount(f, b, x);
      } else {
        InMultiset(a, x);
        InMultiset(b, x);
      }
    }
  }

  lemma {:induction false} MappedBlocks<T(!new), K>(f: T -> K, s: seq<T>, n: nat, one: T -> seq<K>)
    requires n <= |s| && forall x :: one(x) == [f(x)]
    ensures Mapped(f, s, n) == Blocks(s[..n], one)
  {
    if n > 0 {
      MappedBlocks(f, s, n - 1, one);
      assert s[..n] == s[..n - 1] + [s[n - 1]];
      BlocksAppend(s[..n - 1], [s[n - 1]], one);
      assert [s[n - 1]][1..] == [];
      assert Blocks([s[n - 1]], one) == one(s[n - 1]) + Blocks([], one);
    }
  }

  lemma {:induction false} MappedPermutes<T(!new), K(!new)>(f: T -> K, a: seq<T>, b: seq<T>)
    requires multiset(a) == multiset(b)
    ensures multiset(Mapped(f, a, |a|)) == multiset(Mapped(f, b, |b|))
  {
    var one := (x: T) => [f(x)];
    MappedBlocks(f, a, |a|, one);
    MappedBlocks(f, b, |b|, one);
    assert a[..|a|] == a && b[..|b|] == b;
    PermutedBlocksMultiset(a, b, one);
  }

  /** The elements that satisfy `p` among the first `n`, in order. */
  function Select<T>(s: seq<T>, p: T -> bool, n: nat): (r: seq<T>)
    requires n <= |s|
    ensures |r| <= n
  {
    if n == 0 then [] else Select(s, p, n - 1) + if p(s[n - 1]) then [s[n - 1]] else []
  }

  lemma {:induction false} SelectedFrom<T(!new)>(s: seq<T>, p: T -> bool, n: nat, x: T)
    requires n <= |s|
    ensures x in Select(s, p, n) <==> p(x) && x in s[..n]
  {
    if n > 0 {
      assert s[..n] == s[..n - 1] + [s[n - 1]];
      SelectedFrom(s, p, n - 1, x);
    }
  }

  // ------------------------------------------------------------------ joined parts

  /** The first `n` parts, one after another. */
  function Joined<T>(part: nat -> seq<T>, n: nat): seq<T> {
    if n == 0 then [] else Joined(part, n - 1) + part(n - 1)
  }

  lemma {:induction false} InJoined<T>(part: nat -> seq<T>, n: nat, k: nat, x: T)
    requires k < n && x in part(k)
    ensures x in Joined(part, n)
  {
    if k < n - 1 { InJoined(part, n - 1, k, x); }
  }

  lemma {:induction false} PartHolding<T>(part: nat -> seq<T>, n: nat, x: T) returns (k: nat)
    requires x in Joined(part, n)
    ensures k < n && x in part(k)
  {
    if x in part(n - 1) { k := n - 1; } else { k := PartHolding(part, n - 1, x); }
  }

  ghost predicate GrowsBy(f: nat -> nat, g: nat -> nat, k: nat) {
    f(k + 1) - f(k) == g(k + 1) - g(k)
  }

  /** Two totals that start alike and grow alike are alike. */
  lemma {:induction false} GrowAlike(f: nat -> nat, g: nat -> nat, n: nat)
    requires f(0) == g(0) && forall k: nat :: k < n ==> GrowsBy(f, g, k)
    ensures f(n) == g(n)
  {
    if n > 0 {
      GrowAlike(f, g, n - 1);
      assert GrowsBy(f, g, n - 1);
    }
  }
}
