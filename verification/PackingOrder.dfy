/** Which bin each small scope goes into (cdp/partition.py:180-270). */
module PackingOrder {
  import opened Orders
  import opened Scopes
  import opened Cutting
  import opened CutScopes
  import opened Coalescing
  import opened Packing

  // ------------------------------------------------------------------ first fit

  /** The scopes among the first `n` that were assigned to bin `k`, in order. */
  function ItemsIn(small: seq<Scope>, assign: seq<nat>, k: nat, n: nat): seq<Scope>
    requires n <= |small| && n <= |assign|
  {
    if n == 0 then [] else ItemsIn(small, assign, k, n - 1) + if assign[n - 1] == k then [small[n - 1]] else []
  }

  function FilesIn(small: seq<Scope>, assign: seq<nat>, k: nat, n: nat): nat
    requires n <= |small| && n <= |assign|
  {
    if n == 0 then 0 else FilesIn(small, assign, k, n - 1) + if assign[n - 1] == k then small[n - 1].fileCount else 0
  }

  function LinesIn(small: seq<Scope>, assign: seq<nat>, k: nat, n: nat): nat
    requires n <= |small| && n <= |assign|
  {
    if n == 0 then 0 else LinesIn(small, assign, k, n - 1) + if assign[n - 1] == k then small[n - 1].loc else 0
  }

  /** Bin `k`, as filled by the scopes before `i`, has room for scope `i`. */
  predicate HasRoom(b: Budget, small: seq<Scope>, assign: seq<nat>, k: nat, i: nat)
    requires i < |small| && i <= |assign|
  {
    && FilesIn(small, assign, k, i) + small[i].fileCount <= b.maxFiles
    && LinesIn(small, assign, k, i) + small[i].loc <= b.maxLoc
  }

  predicate Opened(assign: seq<nat>, k: nat, i: nat)
    requires i <= |assign|
  {
    exists j :: 0 <= j < i && assign[j] == k
  }

  /** Scope `i` goes into the first open bin with room for it, or else into the next new one. */
  ghost predicate GoesFirst(b: Budget, small: seq<Scope>, assign: seq<nat>, i: nat)
    requires i < |small| && i < |assign|
  {
    && (forall k: nat :: k < assign[i] ==> Opened(assign, k, i) && !HasRoom(b, small, assign, k, i))
    && (Opened(assign, assign[i], i) ==> HasRoom(b, small, assign, assign[i], i))
  }

  ghost predicate FitsFirst(b: Budget, small: seq<Scope>, n: nat, assign: seq<nat>, bins: seq<seq<Scope>>)
    requires n <= |small|
  {
    && |assign| == n && (forall k: nat :: Opened(assign, k, n) <==> k < |bins|)
    && (forall k: nat :: k < |bins| ==> bins[k] == ItemsIn(small, assign, k, n))
    && forall i :: 0 <= i < n ==> GoesFirst(b, small, assign, i)
  }

  lemma {:induction false} ItemsWeigh(small: seq<Scope>, assign: seq<nat>, k: nat, n: nat)
    requires n <= |small| && n <= |assign|
    ensures SumFiles(ItemsIn(small, assign, k, n)) == FilesIn(small, assign, k, n)
    ensures SumLoc(ItemsIn(small, assign, k, n)) == LinesIn(small, assign, k, n)
  {
    if n > 0 {
      ItemsWeigh(small, assign, k, n - 1);
      var before := ItemsIn(small, assign, k, n - 1);
      WeighPush(before, small[n - 1], FileCounts());
      WeighPush(before, small[n - 1], Locs());
      assert before + [] == before;
    }
  }

  /** A longer assignment says the same of the scopes before. */
  lemma {:induction false} SameBefore(small: seq<Scope>, assign: seq<nat>, x: nat, k: nat, n: nat)
    requires n <= |small| && n <= |assign|
    ensures ItemsIn(small, assign + [x], k, n) == ItemsIn(small, assign, k, n)
    ensures FilesIn(small, assign + [x], k, n) == FilesIn(small, assign, k, n)
    ensures LinesIn(small, assign + [x], k, n) == LinesIn(small, assign, k, n)
  {
    if n > 0 { SameBefore(small, assign, x, k, n - 1); }
  }

  lemma {:induction false} StillGoesFirst(b: Budget, small: seq<Scope>, assign: seq<nat>, x: nat, i: nat)
    requires i < |small| && i < |assign| && GoesFirst(b, small, assign, i)
    ensures GoesFirst(b, small, assign + [x], i)
  {
    var more := assign + [x];
    forall k: nat ensures Opened(more, k, i) <==> Opened(assign, k, i) {
      if j :| 0 <= j < i && assign[j] == k { assert more[j] == k; }
    }
    forall k: nat ensures HasRoom(b, small, more, k, i) <==> HasRoom(b, small, assign, k, i) {
      SameBefore(small, assign, x, k, i);
    }
  }

  lemma {:induction false} FirstWithRoom(b: Budget, bins: seq<seq<Scope>>, s: Scope) returns (k: nat)
    ensures k <= |bins| && (k < |bins| ==> FitsIn(b, bins[k], s)) && forall i :: 0 <= i < k ==> !FitsIn(b, bins[i], s)
  {
    k := 0;
    while k < |bins| && !FitsIn(b, bins[k], s)
      invariant k <= |bins| && forall i :: 0 <= i < k ==> !FitsIn(b, bins[i], s)
    {
      k := k + 1;
    }
  }

  lemma {:induction false} RoomExactly(b: Budget, small: seq<Scope>, n: nat, assign: seq<nat>, bins: seq<seq<Scope>>, k: nat)
    requires n < |small| && FitsFirst(b, small, n, assign, bins) && k < |bins|
    ensures FitsIn(b, bins[k], small[n]) <==> HasRoom(b, small, assign, k, n)
  {
    ItemsWeigh(small, assign, k, n);
  }

  lemma {:induction false} OpenedPush(assign: seq<nat>, x: nat, k: nat)
    ensures Opened(assign + [x], k, |assign| + 1) <==> Opened(assign, k, |assign|) || k == x
    ensures Opened(assign + [x], k, |assign|) <==> Opened(assign, k, |assign|)
  {
    var more := assign + [x];
    if Opened(assign, k, |assign|) {
      var j :| 0 <= j < |assign| && assign[j] == k;
      assert more[j] == k;
    }
    if k == x { assert more[|assign|] == k; }
    if Opened(more, k, |assign| + 1) {
      var j :| 0 <= j < |assign| + 1 && more[j] == k;
      if j < |assign| { assert assign[j] == k; }
    }
  }

  lemma {:induction false} NewGoesFirst(b: Budget, small: seq<Scope>, n: nat, assign: seq<nat>, bins: seq<seq<Scope>>, x: nat)
    requires n < |small| && FitsFirst(b, small, n, assign, bins) && x <= |bins|
    requires forall i :: 0 <= i < x ==> !FitsIn(b, bins[i], small[n])
    requires x < |bins| ==> FitsIn(b, bins[x], small[n])
    ensures GoesFirst(b, small, assign + [x], n)
  {
    var more := assign + [x];
    forall k: nat ensures Opened(more, k, n) <==> k < |bins| { OpenedPush(assign, x, k); }
    forall k: nat | k < |bins| ensures HasRoom(b, small, more, k, n) <==> FitsIn(b, bins[k], small[n]) {
      SameBefore(small, assign, x, k, n);
      RoomExactly(b, small, n, assign, bins, k);
    }
  }

  lemma {:induction false} AssignNext(b: Budget, small: seq<Scope>, n: nat, assign: seq<nat>, bins: seq<seq<Scope>>)
      returns (more: seq<nat>)
    requires n < |small| && FitsFirst(b, small, n, assign, bins)
    ensures FitsFirst(b, small, n + 1, more, Placed(b, bins, small[n]))
  {
    var s := small[n];
    var x := FirstWithRoom(b, bins, s);
    more := assign + [x];
    var grown := Placed(b, bins, s);
    PlacedAt(b, bins, s, x);
    NewGoesFirst(b, small, n, assign, bins, x);
    forall i | 0 <= i < n ensures GoesFirst(b, small, more, i) { StillGoesFirst(b, small, assign, x, i); }
    var next := n + 1;
    forall k: nat ensures Opened(more, k, next) <==> k < |grown| { OpenedPush(assign, x, k); }
    forall k: nat | k < |grown| ensures grown[k] == ItemsIn(small, more, k, n + 1) {
      SameBefore(small, assign, x, k, n);
      if k == |bins| { NothingIn(small, assign, k, n); }
      assert ItemsIn(small, more, k, n) + [] == ItemsIn(small, more, k, n);
    }
  }

  lemma {:induction false} NothingIn(small: seq<Scope>, assign: seq<nat>, k: nat, n: nat)
    requires n <= |small| && n <= |assign| && !Opened(assign, k, |assign|)
    ensures ItemsIn(small, assign, k, n) == []
  {
    if n > 0 {
      NothingIn(small, assign, k, n - 1);
      assert assign[n - 1] != k;
    }
  }

  /** First fit: each scope in turn goes into the first bin that has room for it, and a new bin is opened only when
  none has. */
  lemma {:induction false} FirstFitFitsFirst(b: Budget, small: seq<Scope>, n: nat) returns (assign: seq<nat>)
    requires n <= |small|
    ensures FitsFirst(b, small, n, assign, FirstFit(b, small, n))
  {
    if n == 0 {
      assign := [];
    } else {
      var before := FirstFitFitsFirst(b, small, n - 1);
      assign := AssignNext(b, small, n - 1, before, FirstFit(b, small, n - 1));
    }
  }

  // ------------------------------------------------------------------- one module

  /** Scopes of at most half of either budget, largest first. */
  ghost predicate ListsSmall(b: Budget, members: seq<Scope>, small: seq<Scope>) {
    && (forall s :: s in small <==> s in members && AtMostHalf(b, s))
    && |small| == |SmallOf(b, members)|
    && forall i, j :: 0 <= i < j < |small| ==> NotSmaller(small[i], small[j])
  }

  predicate AtMostHalf(b: Budget, s: Scope) {
    !s.oversized && s.fileCount * 2 <= b.maxFiles && s.loc * 2 <= b.maxLoc
  }

  predicate NotSmaller(s: Scope, t: Scope) {
    && s.loc >= t.loc && (s.loc == t.loc ==> s.fileCount >= t.fileCount)
    && (s.loc == t.loc && s.fileCount == t.fileCount ==> StrLe(s.node, t.node))
  }

  /** A bin of one scope is that scope; a fuller one becomes one scope that is not flagged. */
  ghost predicate Emits(name: seq<Scope> -> string, slot: seq<Scope>, x: Scope) {
    && slot != [] && (|slot| == 1 ==> x == slot[0])
    && (|slot| > 1 ==> x.node == name(slot) && x.moduleName == slot[0].moduleName && !x.oversized)
    && (|slot| > 1 ==> x.loc == SumLoc(slot) && x.fileCount == |x.files|)
    && (|slot| > 1 ==> multiset(x.files) == multiset(JoinFiles(slot, |slot|)))
  }

  lemma {:induction false} SizeLeIsOrder()
    ensures TotalPreorder(SizeLe)
  {
    StrLeIsOrder();
  }

  lemma {:induction false} SmallListed(b: Budget, members: seq<Scope>)
    ensures ListsSmall(b, members, StableSort(SmallOf(b, members), SizeLe))
  {
    var small := StableSort(SmallOf(b, members), SizeLe);
    SizeLeIsOrder();
    SortSorts(SmallOf(b, members), SizeLe);
    SortMembers(SmallOf(b, members), SizeLe);
    assert members[..|members|] == members;
    forall s ensures s in SmallOf(b, members) <==> s in members && IsSmall(b, s) {
      SelectedFrom(members, Small(b), |members|, s);
    }
    forall i, j | 0 <= i < j < |small| ensures NotSmaller(small[i], small[j]) {
      assert SizeLe(small[i], small[j]);
    }
  }

  lemma {:induction false} BinsEmitted(name: seq<Scope> -> string, bins: seq<seq<Scope>>, n: nat)
    requires n <= |bins| && NonEmpty(bins)
    ensures |EmittedBins(name, bins, n)| == n
    ensures forall k :: 0 <= k < n ==> Emits(name, bins[k], EmittedBins(name, bins, n)[k])
  {
    if n > 0 {
      BinsEmitted(name, bins, n - 1);
      BinEmitted(name, bins[n - 1]);
    }
  }

  lemma {:induction false} BinEmitted(name: seq<Scope> -> string, slot: seq<Scope>)
    requires slot != []
    ensures Emits(name, slot, Emitted(name, slot))
  {
  }

  /** Packing one module: with fewer than two small scopes nothing changes; otherwise the others stay as they are, in
  order, and the small ones are put into bins, largest first, by first fit. */
  lemma {:induction false} PacksByFirstFit(name: seq<Scope> -> string, b: Budget, members: seq<Scope>)
      returns (small: seq<Scope>, assign: seq<nat>, bins: seq<seq<Scope>>)
    requires DistinctNodes(members)
    ensures ListsSmall(b, members, small) && FitsFirst(b, small, |small|, assign, bins)
    ensures |small| < 2 ==> PackedModule(name, b, members) == members
    ensures |small| >= 2 ==> var out := PackedModule(name, b, members);
      var large := Select(members, NotSmall(b), |members|);
      && |out| == |large| + |bins| && out[..|large|] == large
      && forall k :: 0 <= k < |bins| ==> Emits(name, bins[k], out[|large| + k])
  {
    small := StableSort(SmallOf(b, members), SizeLe);
    SmallListed(b, members);
    assign := FirstFitFitsFirst(b, small, |small|);
    bins := FirstFit(b, small, |small|);
    if |small| >= 2 {
      var large, packed := PackedParts(name, b, members);
      BinsEmitted(name, bins, |bins|);
      LargeIsNotSmall(b, members);
    }
  }

  lemma {:induction false} LargeIsNotSmall(b: Budget, members: seq<Scope>)
    requires DistinctNodes(members)
    ensures LargeOf(b, members) == Select(members, NotSmall(b), |members|)
  {
    forall i | 0 <= i < |members|
      ensures NotNamed(NodesOf(SmallOf(b, members)))(members[i]) == NotSmall(b)(members[i])
    {
      LargeIsRest(b, members, members[i]);
    }
    SelectSame(members, NotNamed(NodesOf(SmallOf(b, members))), NotSmall(b), |members|);
  }
}
