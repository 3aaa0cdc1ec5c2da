/** Water-filling allocation of a row budget (cdp/query.py:341-374). */
module FairSplit {

  function Sum(s: seq<int>): int {
    if s == [] then 0 else Sum(s[..|s| - 1]) + s[|s| - 1]
  }

  function Positive(x: int): nat {
    if x > 0 then x else 0
  }

  /** What the buckets ask for in all; a bucket that asks for less than a row asks for none. */
  function Demand(demands: seq<int>): nat {
    if demands == [] then 0 else Demand(demands[..|demands| - 1]) + Positive(demands[|demands| - 1])
  }

  function Least(a: int, b: int): int {
    if a < b then a else b
  }

  lemma {:induction false} SumUpdate(s: seq<int>, i: nat, x: int)
    requires i < |s|
    ensures Sum(s[i := x]) == Sum(s) - s[i] + x
  {
    var n := |s| - 1;
    if i < n {
      assert s[i := x][..n] == s[..n][i := x];
      SumUpdate(s[..n], i, x);
    } else {
      assert s[i := x][..n] == s[..n];
    }
  }

  lemma {:induction false} SumOfZeros(n: nat)
    ensures Sum(seq(n, i => 0)) == 0
  {
    if n > 0 {
      assert seq(n, i => 0)[..n - 1] == seq(n - 1, i => 0);
      SumOfZeros(n - 1);
    }
  }

  /** No bucket gets more than it asks for. */
  ghost predicate WithinDemand(demands: seq<int>, alloc: seq<int>) {
    |alloc| == |demands| && forall i :: 0 <= i < |alloc| ==> 0 <= alloc[i] <= Positive(demands[i])
  }

  lemma {:induction false} SumWithinDemand(demands: seq<int>, alloc: seq<int>)
    requires WithinDemand(demands, alloc)
    ensures 0 <= Sum(alloc) <= Demand(demands)
  {
    if alloc != [] { SumWithinDemand(demands[..|demands| - 1], alloc[..|alloc| - 1]); }
  }

  lemma {:induction false} SumOfSatisfied(demands: seq<int>, alloc: seq<int>)
    requires |alloc| == |demands| && forall i :: 0 <= i < |alloc| ==> alloc[i] == Positive(demands[i])
    ensures Sum(alloc) == Demand(demands)
  {
    if alloc != [] { SumOfSatisfied(demands[..|demands| - 1], alloc[..|alloc| - 1]); }
  }

  /** A bucket that got less than it asked for is at most one row below any other. */
  ghost predicate MaxMinFair(demands: seq<int>, alloc: seq<int>) {
    && |alloc| == |demands|
    && forall i, j :: 0 <= i < |alloc| && 0 <= j < |alloc| && alloc[i] < demands[i] ==> alloc[j] <= alloc[i] + 1
  }

  // -------------------------------------------------------------------- one pass

  predicate Ascending(active: seq<nat>, n: nat) {
    (forall k :: 0 <= k < |active| ==> active[k] < n) && forall k, l :: 0 <= k < l < |active| ==> active[k] < active[l]
  }

  /** Between passes the active buckets, all unsatisfied, stand at one level, and no other stands higher. */
  ghost predicate AtLevel(demands: seq<int>, alloc: seq<int>, active: seq<nat>, level: int) {
    && WithinDemand(demands, alloc) && Ascending(active, |alloc|) && 0 <= level
    && (forall k :: 0 <= k < |active| ==> alloc[active[k]] == level < demands[active[k]])
    && (forall i :: 0 <= i < |alloc| && i !in active ==> alloc[i] == Positive(demands[i]) <= level)
  }

  lemma {:induction false} ShareFits(rows: int, n: nat)
    requires 0 < n <= rows
    ensures rows / n >= 1 && 0 <= rows - rows / n * n < n
  {
    var share := rows / n;
    assert rows == share * n + rows % n;
    if share <= 0 { NoShare(share, n); }
  }

  lemma {:induction false} NoShare(share: int, n: nat)
    requires share <= 0
    ensures share * n <= 0
  {
  }

  /** `m` shares. */
  function Due(share: nat, m: nat): nat {
    if m == 0 then 0 else share + Due(share, m - 1)
  }

  lemma {:induction false} DueIsProduct(share: nat, m: nat)
    ensures Due(share, m) == share * m
  {
    if m > 0 {
      DueIsProduct(share, m - 1);
      assert share * m == share * (m - 1) + share;
    }
  }

  /** `max(1, rows // n)`. */
  function Share(rows: int, n: nat): nat {
    if n > 0 && rows / n > 1 then rows / n else 1
  }

  /** The allocation, the rows left, and the buckets that still want rows. */
  datatype Service = Service(alloc: seq<int>, left: int, still: seq<nat>)

  /** One bucket's turn. */
  function Turn(demands: seq<int>, active: seq<nat>, share: nat, s: Service, k: nat): (r: Service)
    requires k < |active| && active[k] < |s.alloc| == |demands|
    ensures |r.alloc| == |demands|
  {
    var i := active[k];
    var take := Least(Least(demands[i] - s.alloc[i], share), s.left);
    var alloc := s.alloc[i := s.alloc[i] + take];
    Service(alloc, s.left - take, if alloc[i] < demands[i] then s.still + [i] else s.still)
  }

  /** The first `k` turns of a pass. */
  function Turns(demands: seq<int>, active: seq<nat>, share: nat, s: Service, k: nat): (r: Service)
    requires k <= |active| && Ascending(active, |demands|) && |s.alloc| == |demands|
    ensures |r.alloc| == |demands|
  {
    if k == 0 then s else Turn(demands, active, share, Turns(demands, active, share, s, k - 1), k - 1)
  }

  /** One pass of the `while` loop: the active buckets in turn take their shares, as far as their demands and the
  remaining rows go. */
  method Pass(demands: seq<int>, alloc: seq<int>, active: seq<nat>, remaining: int)
      returns (after: seq<int>, left: int, still: seq<nat>)
    requires |alloc| == |demands| && Ascending(active, |demands|)
    ensures Service(after, left, still)
      == Turns(demands, active, Share(remaining, |active|), Service(alloc, remaining, []), |active|)
  {
    var share := Share(remaining, |active|);
    after, left, still := alloc, remaining, [];
    for k := 0 to |active|
      invariant Service(after, left, still) == Turns(demands, active, share, Service(alloc, remaining, []), k)
    {
      var i := active[k];
      var want := demands[i] - after[i];
      var take := Least(Least(want, share), left);
      after, left := after[i := after[i] + take], left - take;
      if after[i] < demands[i] { still := still + [i]; }
    }
  }

  // ----------------------------------------------------------- what the turns keep

  lemma {:induction false} TurnSum(demands: seq<int>, active: seq<nat>, share: nat, s: Service, k: nat)
    requires k < |active| && active[k] < |s.alloc| == |demands|
    ensures Sum(Turn(demands, active, share, s, k).alloc) + Turn(demands, active, share, s, k).left == Sum(s.alloc) + s.left
  {
    var i := active[k];
    SumUpdate(s.alloc, i, s.alloc[i] + Least(Least(demands[i] - s.alloc[i], share), s.left));
  }

  lemma {:induction false} TurnsSum(demands: seq<int>, active: seq<nat>, share: nat, s: Service, k: nat)
    requires k <= |active| && Ascending(active, |demands|) && |s.alloc| == |demands|
    ensures Sum(Turns(demands, active, share, s, k).alloc) + Turns(demands, active, share, s, k).left == Sum(s.alloc) + s.left
  {
    if k > 0 {
      TurnsSum(demands, active, share, s, k - 1);
      TurnSum(demands, active, share, Turns(demands, active, share, s, k - 1), k - 1);
    }
  }

  /** A bucket whose turn has not come is untouched. */
  lemma {:induction false} Untouched(demands: seq<int>, active: seq<nat>, share: nat, s: Service, k: nat, i: nat)
    requires k <= |active| && Ascending(active, |demands|) && |s.alloc| == |demands| && i < |demands|
    requires forall m :: 0 <= m < k ==> active[m] != i
    ensures Turns(demands, active, share, s, k).alloc[i] == s.alloc[i]
  {
    if k > 0 { Untouched(demands, active, share, s, k - 1, i); }
  }

  /** After its turn a bucket is not touched again. */
  lemma {:induction false} TouchedOnce(demands: seq<int>, active: seq<nat>, share: nat, s: Service, k: nat, m: nat)
    requires m < k <= |active| && Ascending(active, |demands|) && |s.alloc| == |demands|
    ensures Turns(demands, active, share, s, k).alloc[active[m]] == Turns(demands, active, share, s, m + 1).alloc[active[m]]
    ensures Turns(demands, active, share, s, m + 1).still <= Turns(demands, active, share, s, k).still
  {
    if m < k - 1 { TouchedOnce(demands, active, share, s, k - 1, m); }
  }

  lemma {:induction false} StillHolds(demands: seq<int>, active: seq<nat>, share: nat, s: Service, k: nat, m: nat)
    requires m < k <= |active| && Ascending(active, |demands|) && |s.alloc| == |demands|
    requires Turns(demands, active, share, s, k).alloc[active[m]] < demands[active[m]]
    ensures active[m] in Turns(demands, active, share, s, k).still
  {
    TouchedOnce(demands, active, share, s, k, m);
    var here := Turns(demands, active, share, s, m + 1);
    assert here.still[|here.still| - 1] == active[m];
  }

  lemma {:induction false} StillFrom(demands: seq<int>, active: seq<nat>, share: nat, s: Service, k: nat, j: nat)
      returns (m: nat)
    requires k <= |active| && Ascending(active, |demands|) && |s.alloc| == |demands| && s.still == []
    requires j < |Turns(demands, active, share, s, k).still|
    ensures m < k && Turns(demands, active, share, s, k).still[j] == active[m]
    ensures Turns(demands, active, share, s, k).alloc[active[m]] < demands[active[m]]
  {
    if j < |Turns(demands, active, share, s, k - 1).still| {
      m := StillFrom(demands, active, share, s, k - 1, j);
    } else {
      m := k - 1;
    }
  }

  lemma {:induction false} StillAscends(demands: seq<int>, active: seq<nat>, share: nat, s: Service, k: nat)
    requires k <= |active| && Ascending(active, |demands|) && |s.alloc| == |demands| && s.still == []
    ensures var still := Turns(demands, active, share, s, k).still;
      |still| <= k && Ascending(still, |demands|) && (still != [] && k < |active| ==> still[|still| - 1] < active[k])
  {
    if k > 0 { StillAscends(demands, active, share, s, k - 1); }
  }

  /** The active buckets, all unsatisfied, at one level. */
  ghost predicate Ready(demands: seq<int>, alloc: seq<int>, active: seq<nat>, level: int) {
    && Ascending(active, |demands|) && |alloc| == |demands|
    && forall k :: 0 <= k < |active| ==> alloc[active[k]] == level < demands[active[k]]
  }

  lemma {:induction false} TurnStartsAtLevel(demands: seq<int>, alloc: seq<int>, active: seq<nat>, level: int, share: nat,
      rows: int, k: nat)
    requires Ready(demands, alloc, active, level) && k < |active|
    ensures Turns(demands, active, share, Service(alloc, rows, []), k).alloc[active[k]] == level < demands[active[k]]
  {
    Untouched(demands, active, share, Service(alloc, rows, []), k, active[k]);
  }

  /** When the rows suffice for every share, they keep sufficing; and if no bucket was satisfied so far, each took a
  whole share. */
  lemma {:induction false} RowsSuffice(demands: seq<int>, alloc: seq<int>, active: seq<nat>, level: int, share: nat,
      rows: int, k: nat)
    requires Ready(demands, alloc, active, level) && k <= |active| && share >= 1 && Due(share, |active|) <= rows
    ensures var s := Turns(demands, active, share, Service(alloc, rows, []), k);
      Due(share, |active| - k) <= s.left && (|s.still| == k ==> s.left == rows - Due(share, k)) && |s.still| <= k
  {
    if k > 0 {
      RowsSuffice(demands, alloc, active, level, share, rows, k - 1);
      TurnStartsAtLevel(demands, alloc, active, level, share, rows, k - 1);
    }
  }

  lemma {:induction false} FullTurn(demands: seq<int>, alloc: seq<int>, active: seq<nat>, level: int, share: nat,
      rows: int, k: nat)
    requires Ready(demands, alloc, active, level) && k < |active| && share >= 1 && Due(share, |active|) <= rows
    ensures Turns(demands, active, share, Service(alloc, rows, []), k + 1).alloc[active[k]]
      == Least(demands[active[k]], level + share)
  {
    RowsSuffice(demands, alloc, active, level, share, rows, k);
    TurnStartsAtLevel(demands, alloc, active, level, share, rows, k);
  }

  /** With fewer rows than buckets they go one by one to the first. */
  lemma {:induction false} RowsRunOut(demands: seq<int>, alloc: seq<int>, active: seq<nat>, level: int, rows: int, k: nat)
    requires Ready(demands, alloc, active, level) && k <= |active| && rows >= 0
    ensures Turns(demands, active, 1, Service(alloc, rows, []), k).left == Positive(rows - k)
  {
    if k > 0 {
      RowsRunOut(demands, alloc, active, level, rows, k - 1);
      TurnStartsAtLevel(demands, alloc, active, level, 1, rows, k - 1);
    }
  }

  lemma {:induction false} LastTurn(demands: seq<int>, alloc: seq<int>, active: seq<nat>, level: int, rows: int, k: nat)
    requires Ready(demands, alloc, active, level) && k < |active| && rows >= 0
    ensures Turns(demands, active, 1, Service(alloc, rows, []), k + 1).alloc[active[k]] == level + if k < rows then 1 else 0
  {
    RowsRunOut(demands, alloc, active, level, rows, k);
    TurnStartsAtLevel(demands, alloc, active, level, 1, rows, k);
  }

  /** What a whole pass leaves of bucket `i`. */
  ghost predicate FullPassAt(demands: seq<int>, alloc: seq<int>, active: seq<nat>, level: int, share: nat, r: Service,
      i: nat)
    requires i < |alloc| == |r.alloc| == |demands|
  {
    r.alloc[i] == if i in active then Least(demands[i], level + share) else alloc[i]
  }

  lemma {:induction false} FullPass(demands: seq<int>, alloc: seq<int>, active: seq<nat>, level: int, share: nat,
      rows: int, i: nat)
    requires Ready(demands, alloc, active, level) && i < |demands| && share >= 1 && Due(share, |active|) <= rows
    ensures FullPassAt(demands, alloc, active, level, share,
                       Turns(demands, active, share, Service(alloc, rows, []), |active|), i)
  {
    if i in active {
      var m :| 0 <= m < |active| && active[m] == i;
      FullTurn(demands, alloc, active, level, share, rows, m);
      TouchedOnce(demands, active, share, Service(alloc, rows, []), |active|, m);
    } else {
      Untouched(demands, active, share, Service(alloc, rows, []), |active|, i);
    }
  }

  lemma {:induction false} LastPass(demands: seq<int>, alloc: seq<int>, active: seq<nat>, level: int, rows: int, i: nat)
    requires Ready(demands, alloc, active, level) && i < |demands| && rows >= 0
    ensures var after := Turns(demands, active, 1, Service(alloc, rows, []), |active|).alloc;
      if i in active then level <= after[i] <= level + 1 else after[i] == alloc[i]
  {
    if i in active {
      var m :| 0 <= m < |active| && active[m] == i;
      LastTurn(demands, alloc, active, level, rows, m);
      TouchedOnce(demands, active, 1, Service(alloc, rows, []), |active|, m);
    } else {
      Untouched(demands, active, 1, Service(alloc, rows, []), |active|, i);
    }
  }

  // ---------------------------------------------------------------- all the passes

  lemma {:induction false} LevelIsReady(demands: seq<int>, alloc: seq<int>, active: seq<nat>, level: int)
    requires AtLevel(demands, alloc, active, level)
    ensures Ready(demands, alloc, active, level)
  {
  }

  /** A full pass leaves the active buckets at one level again. */
  lemma {:induction false} NextLevel(demands: seq<int>, alloc: seq<int>, active: seq<nat>, rows: int, level: int,
      share: nat, r: Service)
    requires AtLevel(demands, alloc, active, level) && share >= 1 && Due(share, |active|) <= rows
    requires r == Turns(demands, active, share, Service(alloc, rows, []), |active|)
    ensures AtLevel(demands, r.alloc, r.still, level + share)
  {
    var s := Service(alloc, rows, []);
    LevelIsReady(demands, alloc, active, level);
    StillAscends(demands, active, share, s, |active|);
    forall i: nat | i < |demands|
      ensures 0 <= r.alloc[i] <= Positive(demands[i])
      ensures i !in r.still ==> r.alloc[i] == Positive(demands[i]) <= level + share
    {
      FullPass(demands, alloc, active, level, share, rows, i);
      if i in active {
        var m :| 0 <= m < |active| && active[m] == i;
        if r.alloc[i] < demands[i] { StillHolds(demands, active, share, s, |active|, m); }
      }
    }
    forall k | 0 <= k < |r.still| ensures r.alloc[r.still[k]] == level + share < demands[r.still[k]] {
      var m := StillFrom(demands, active, share, s, |active|, k);
      FullPass(demands, alloc, active, level, share, rows, active[m]);
    }
  }

  /** The last rows leave every bucket within its demand, and no unsatisfied one two rows behind. */
  lemma {:induction false} LastRows(demands: seq<int>, alloc: seq<int>, active: seq<nat>, rows: int, level: int,
      after: seq<int>)
    requires AtLevel(demands, alloc, active, level) && 0 < rows
    requires after == Turns(demands, active, 1, Service(alloc, rows, []), |active|).alloc
    ensures WithinDemand(demands, after) && MaxMinFair(demands, after)
  {
    LevelIsReady(demands, alloc, active, level);
    forall i: nat | i < |after|
      ensures 0 <= after[i] <= Positive(demands[i]) && after[i] <= level + 1
      ensures after[i] < demands[i] ==> level <= after[i]
    {
      LastPass(demands, alloc, active, level, rows, i);
      if i in active { var m :| 0 <= m < |active| && active[m] == i; }
    }
  }

  /** Buckets at one level are fairly served. */
  lemma {:induction false} LevelIsFair(demands: seq<int>, alloc: seq<int>, active: seq<nat>, level: int)
    requires AtLevel(demands, alloc, active, level)
    ensures MaxMinFair(demands, alloc)
  {
    forall i | 0 <= i < |alloc| ensures alloc[i] <= level && (alloc[i] < demands[i] ==> alloc[i] == level) {
      if i in active { var m :| 0 <= m < |active| && active[m] == i; }
    }
  }

  /** An upper bound on the passes still to come. */
  function PassesLeft(rows: int, n: nat): nat {
    if rows <= 0 || n == 0 then 0 else n + if rows >= n then 1 else 0
  }

  /** The buckets that want rows. */
  method Wanting(demands: seq<int>) returns (active: seq<nat>)
    ensures |active| <= |demands| && AtLevel(demands, seq(|demands|, i => 0), active, 0)
  {
    active := [];
    for i := 0 to |demands|
      invariant WantingUpTo(demands, i, active)
    {
      OneMoreWants(demands, i, active);
      if demands[i] > 0 { active := active + [i]; }
    }
    WantingAtLevelZero(demands, active);
  }

  /** The buckets among the first `n` that want rows, in order. */
  ghost predicate WantingUpTo(demands: seq<int>, n: nat, active: seq<nat>) {
    && |active| <= n <= |demands| && Ascending(active, n)
    && (forall k :: 0 <= k < |active| ==> demands[active[k]] > 0)
    && (forall k :: 0 <= k < n && demands[k] > 0 ==> k in active)
  }

  lemma {:induction false} OneMoreWants(demands: seq<int>, n: nat, active: seq<nat>)
    requires n < |demands| && WantingUpTo(demands, n, active)
    ensures WantingUpTo(demands, n + 1, if demands[n] > 0 then active + [n] else active)
  {
    if demands[n] > 0 {
      var longer := active + [n];
      assert longer[|active|] == n;
      forall k | 0 <= k < |longer| ensures longer[k] < n + 1 && demands[longer[k]] > 0 {
        if k < |active| { assert longer[k] == active[k]; }
      }
    }
  }

  lemma {:induction false} WantingAtLevelZero(demands: seq<int>, active: seq<nat>)
    requires WantingUpTo(demands, |demands|, active)
    ensures AtLevel(demands, seq(|demands|, i => 0), active, 0)
  {
  }

  /** What holds between passes. */
  ghost predicate Serving(limit: int, demands: seq<int>, alloc: seq<int>, remaining: int, active: seq<nat>, level: int) {
    && 0 <= remaining && Sum(alloc) + remaining == Positive(limit)
    && WithinDemand(demands, alloc) && MaxMinFair(demands, alloc)
    && (remaining > 0 ==> AtLevel(demands, alloc, active, level))
  }

  lemma {:induction false} ServesAll(demands: seq<int>, alloc: seq<int>, rows: int, active: seq<nat>, level: int,
      r: Service)
    requires AtLevel(demands, alloc, active, level) && 0 < |active| <= rows
    requires r == Turns(demands, active, Share(rows, |active|), Service(alloc, rows, []), |active|)
    ensures 0 <= r.left && AtLevel(demands, r.alloc, r.still, level + Share(rows, |active|))
    ensures PassesLeft(r.left, |r.still|) < PassesLeft(rows, |active|)
  {
    var share := Share(rows, |active|);
    LevelIsReady(demands, alloc, active, level);
    ShareFits(rows, |active|);
    DueIsProduct(share, |active|);
    RowsSuffice(demands, alloc, active, level, share, rows, |active|);
    NextLevel(demands, alloc, active, rows, level, share, r);
  }

  lemma {:induction false} ServesLast(demands: seq<int>, alloc: seq<int>, rows: int, active: seq<nat>, level: int,
      r: Service)
    requires AtLevel(demands, alloc, active, level) && 0 < rows < |active|
    requires r == Turns(demands, active, Share(rows, |active|), Service(alloc, rows, []), |active|)
    ensures r.left == 0 && WithinDemand(demands, r.alloc) && MaxMinFair(demands, r.alloc)
  {
    ShareIsOne(rows, |active|);
    LevelIsReady(demands, alloc, active, level);
    RowsRunOut(demands, alloc, active, level, rows, |active|);
    LastRows(demands, alloc, active, rows, level, r.alloc);
  }

  lemma {:induction false} ServesOn(limit: int, demands: seq<int>, alloc: seq<int>, remaining: int, active: seq<nat>,
      level: int, r: Service) returns (next: int)
    requires Serving(limit, demands, alloc, remaining, active, level) && remaining > 0 && active != []
    requires r == Turns(demands, active, Share(remaining, |active|), Service(alloc, remaining, []), |active|)
    ensures Serving(limit, demands, r.alloc, r.left, r.still, next)
    ensures PassesLeft(r.left, |r.still|) < PassesLeft(remaining, |active|)
  {
    next := level + Share(remaining, |active|);
    ServingIsLevel(limit, demands, alloc, remaining, active, level);
    TurnsSum(demands, active, Share(remaining, |active|), Service(alloc, remaining, []), |active|);
    if remaining >= |active| {
      ServesAll(demands, alloc, remaining, active, level, r);
      LevelIsFair(demands, r.alloc, r.still, next);
    } else {
      ServesLast(demands, alloc, remaining, active, level, r);
    }
  }

  lemma {:induction false} ServingIsLevel(limit: int, demands: seq<int>, alloc: seq<int>, remaining: int,
      active: seq<nat>, level: int)
    requires Serving(limit, demands, alloc, remaining, active, level) && remaining > 0
    ensures AtLevel(demands, alloc, active, level)
  {
  }

  lemma {:induction false} ShareIsOne(rows: int, n: nat)
    requires 0 < rows < n
    ensures Share(rows, n) == 1
  {
  }

  lemma {:induction false} Served(limit: int, demands: seq<int>, alloc: seq<int>, remaining: int, active: seq<nat>,
      level: int)
    requires Serving(limit, demands, alloc, remaining, active, level) && (remaining == 0 || active == [])
    ensures Sum(alloc) == Least(Positive(limit), Demand(demands))
  {
    SumWithinDemand(demands, alloc);
    if remaining > 0 { SumOfSatisfied(demands, alloc); }
  }

  /** `_fair_split_budget`. */
  method FairSplitBudget(limit: int, demands: seq<int>) returns (alloc: seq<int>, ghost passes: nat)
    ensures WithinDemand(demands, alloc) && MaxMinFair(demands, alloc)
    ensures Sum(alloc) == Least(Positive(limit), Demand(demands))
    ensures passes <= |demands| + 1
  {
    alloc := seq(|demands|, i => 0);
    passes := 0;
    var remaining := Positive(limit);
    var active := Wanting(demands);
    ghost var level := 0;
    SumOfZeros(|demands|);
    LevelIsFair(demands, alloc, active, level);
    while remaining > 0 && active != []
      invariant Serving(limit, demands, alloc, remaining, active, level)
      invariant passes + PassesLeft(remaining, |active|) <= |demands| + 1
      decreases PassesLeft(remaining, |active|)
    {
      var after, left, still := Pass(demands, alloc, active, remaining);
      level := ServesOn(limit, demands, alloc, remaining, active, level, Service(after, left, still));
      alloc, remaining, active := after, left, still;
      passes := passes + 1;
    }
    Served(limit, demands, alloc, remaining, active, level);
  }
}
