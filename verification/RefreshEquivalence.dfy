/** When incremental extraction equals full extraction (cdp/refresh.py:134-225, cdp/extract.py:97-201): rows, file
records and totals always do; the per-module aggregates do exactly when no module kept an item that only its lost
files had. */
module RefreshEquivalence {
  import opened Options
  import opened Orders
  import opened Extract
  import opened Refresh

  /** The two aggregates that are kept per module without saying which file an item came from. */
  datatype Aspect = Deps | Notes

  type ItemsFn = Entry -> seq<string>

  function EntryItems(aspect: Aspect, facts: FactsFn): ItemsFn {
    (e: Entry) => match facts(e) case None => [] case Some(f) => if aspect == Deps then f.declaredDeps else f.notes
  }

  function Gathering(aspect: Aspect, g: Gathered): map<string, seq<string>> {
    if aspect == Deps then g.declared else g.notes
  }

  function Aggregate(aspect: Aspect, x: Extraction): map<string, seq<string>> {
    if aspect == Deps then x.declaredDeps else x.moduleNotes
  }

  function ExtendUpTo(d: map<string, seq<string>>, entries: seq<Entry>, items: ItemsFn, n: nat): map<string, seq<string>>
    requires n <= |entries|
  {
    if n == 0 then d
    else Extend(ExtendUpTo(d, entries, items, n - 1), entries[n - 1].moduleName, items(entries[n - 1]))
  }

  ghost predicate ExtendsByEntry(f: nat -> map<string, seq<string>>, entries: seq<Entry>, items: ItemsFn, k: nat) {
    k < |entries| && f(k + 1) == Extend(f(k), entries[k].moduleName, items(entries[k]))
  }

  /** A dict that takes in one entry's items at a time. */
  lemma {:induction false} GrowsByItems(f: nat -> map<string, seq<string>>, entries: seq<Entry>, items: ItemsFn, n: nat)
    requires n <= |entries| && forall k: nat :: k < n ==> ExtendsByEntry(f, entries, items, k)
    ensures f(n) == ExtendUpTo(f(0), entries, items, n)
  {
    if n > 0 {
      GrowsByItems(f, entries, items, n - 1);
      assert ExtendsByEntry(f, entries, items, n - 1);
    }
  }

  ghost function ItemsAfter(g: Gathered, entries: seq<Entry>, facts: FactsFn, aspect: Aspect)
      : nat -> map<string, seq<string>>
  {
    (k: nat) => if k <= |entries| then Gathering(aspect, AbsorbedAll(g, entries, facts, k)) else map[]
  }

  lemma {:induction false} ItemsGrow(g: Gathered, entries: seq<Entry>, facts: FactsFn, aspect: Aspect, k: nat)
    requires k < |entries|
    ensures ExtendsByEntry(ItemsAfter(g, entries, facts, aspect), entries, EntryItems(aspect, facts), k)
  {
    GathersItem(g, entries, facts, aspect, k + 1);
  }

  lemma {:induction false} GathersItems(g: Gathered, entries: seq<Entry>, facts: FactsFn, aspect: Aspect, n: nat)
    requires n <= |entries|
    ensures Gathering(aspect, AbsorbedAll(g, entries, facts, n))
      == ExtendUpTo(Gathering(aspect, g), entries, EntryItems(aspect, facts), n)
  {
    var f := ItemsAfter(g, entries, facts, aspect);
    forall k: nat | k < n ensures ExtendsByEntry(f, entries, EntryItems(aspect, facts), k) {
      ItemsGrow(g, entries, facts, aspect, k);
    }
    GrowsByItems(f, entries, EntryItems(aspect, facts), n);
    assert f(0) == Gathering(aspect, g);
  }

  lemma {:induction false} GathersItem(g: Gathered, entries: seq<Entry>, facts: FactsFn, aspect: Aspect, n: nat)
    requires 0 < n <= |entries|
    ensures Gathering(aspect, AbsorbedAll(g, entries, facts, n))
      == Extend(Gathering(aspect, AbsorbedAll(g, entries, facts, n - 1)), entries[n - 1].moduleName,
                EntryItems(aspect, facts)(entries[n - 1]))
  {
  }

  // -------------------------------------------------------------------- items as sets

  function AsSet(xs: seq<string>): set<string> {
    set x | x in xs
  }

  function Elements(d: map<string, seq<string>>, m: string): set<string> {
    if m in d then AsSet(d[m]) else {}
  }

  /** The items the first `n` entries give module `m`. */
  function ItemsUpTo(entries: seq<Entry>, items: ItemsFn, m: string, n: nat): set<string>
    requires n <= |entries|
  {
    if n == 0 then {}
    else
      var here := if entries[n - 1].moduleName == m then AsSet(items(entries[n - 1])) else {};
      ItemsUpTo(entries, items, m, n - 1) + here
  }

  ghost predicate Gives(entries: seq<Entry>, items: ItemsFn, m: string, i: int, x: string) {
    0 <= i < |entries| && entries[i].moduleName == m && x in items(entries[i])
  }

  lemma {:induction false} ItemFrom(entries: seq<Entry>, items: ItemsFn, m: string, n: nat, x: string)
    requires n <= |entries|
    ensures x in ItemsUpTo(entries, items, m, n) <==> exists i :: i < n && Gives(entries, items, m, i, x)
  {
    if n > 0 {
      ItemFrom(entries, items, m, n - 1, x);
      if Gives(entries, items, m, n - 1, x) { assert x in ItemsUpTo(entries, items, m, n); }
    }
  }

  lemma {:induction false} ExtendElements(d: map<string, seq<string>>, k: string, more: seq<string>, m: string)
    ensures Elements(Extend(d, k, more), m) == Elements(d, m) + if k == m then AsSet(more) else {}
    ensures m in Extend(d, k, more) <==> m in d || (k == m && more != [])
  {
  }

  lemma {:induction false} ExtendedElements(d: map<string, seq<string>>, entries: seq<Entry>, items: ItemsFn, m: string,
      n: nat)
    requires n <= |entries|
    ensures Elements(ExtendUpTo(d, entries, items, n), m) == Elements(d, m) + ItemsUpTo(entries, items, m, n)
    ensures m in ExtendUpTo(d, entries, items, n) <==> m in d || ItemsUpTo(entries, items, m, n) != {}
  {
    if n > 0 {
      ExtendedElements(d, entries, items, m, n - 1);
      var more := items(entries[n - 1]);
      ExtendElements(ExtendUpTo(d, entries, items, n - 1), entries[n - 1].moduleName, more, m);
      if more != [] { assert more[0] in AsSet(more); }
    }
  }

  lemma {:induction false} CollatedElements(d: map<string, seq<string>>, m: string)
    ensures (m in Collated(d) <==> m in d) && Elements(Collated(d), m) == Elements(d, m)
  {
  }

  ghost predicate SameElements(a: map<string, seq<string>>, b: map<string, seq<string>>, m: string) {
    (m in a <==> m in b) && Elements(a, m) == Elements(b, m)
  }

  lemma {:induction false} CollatedAgreeExactly(a: map<string, seq<string>>, b: map<string, seq<string>>)
    ensures Collated(a) == Collated(b) <==> forall m :: SameElements(a, b, m)
  {
    if Collated(a) == Collated(b) {
      forall m ensures SameElements(a, b, m) {
        CollatedElements(a, m);
        CollatedElements(b, m);
      }
    }
    if forall m :: SameElements(a, b, m) {
      forall m ensures m in a <==> m in b { assert SameElements(a, b, m); }
      forall m | m in a ensures Collated(a)[m] == Collated(b)[m] { assert SameElements(a, b, m); }
    }
  }

  // --------------------------------------------------------------------- the theorem

  ghost predicate ItemsSettled(past: seq<Entry>, before: ItemsFn, entries: seq<Entry>, after: ItemsFn, stale: ItemsFn,
      modules: set<string>) {
    && DistinctPaths(past)
    && forall i :: 0 <= i < |entries| ==>
         if entries[i].moduleName in modules then stale(entries[i]) == after(entries[i])
         else stale(entries[i]) == [] && exists j: nat :: SameItems(past, before, entries[i], after, j)
  }

  ghost predicate SameItems(past: seq<Entry>, before: ItemsFn, e: Entry, after: ItemsFn, j: nat) {
    && j < |past| && past[j].path == e.path && past[j].moduleName == e.moduleName && before(past[j]) == after(e)
  }

  /** The file is no longer in its module: deleted, renamed or moved. */
  predicate Lost(entries: seq<Entry>, o: Entry) {
    forall i :: 0 <= i < |entries| ==> !(entries[i].path == o.path && entries[i].moduleName == o.moduleName)
  }

  /** Whatever a lost file of an unchanged module gave, a surviving file of that module gives too. */
  ghost predicate LostAreCovered(past: seq<Entry>, before: ItemsFn, entries: seq<Entry>, after: ItemsFn,
      modules: set<string>) {
    forall j, x :: 0 <= j < |past| && past[j].moduleName !in modules && Lost(entries, past[j]) && x in before(past[j])
      ==> x in ItemsUpTo(entries, after, past[j].moduleName, |entries|)
  }

  lemma {:induction false} NewItemsWereThere(past: seq<Entry>, before: ItemsFn, entries: seq<Entry>, after: ItemsFn,
      stale: ItemsFn, modules: set<string>, m: string)
    requires ItemsSettled(past, before, entries, after, stale, modules) && m !in modules
    ensures ItemsUpTo(entries, after, m, |entries|) <= ItemsUpTo(past, before, m, |past|)
  {
    forall x | x in ItemsUpTo(entries, after, m, |entries|) ensures x in ItemsUpTo(past, before, m, |past|) {
      ItemFrom(entries, after, m, |entries|, x);
      var i :| i < |entries| && Gives(entries, after, m, i, x);
      var j: nat :| SameItems(past, before, entries[i], after, j);
      assert Gives(past, before, m, j, x);
      ItemFrom(past, before, m, |past|, x);
    }
  }

  /** An old item of an unchanged module is a new one, if the lost files' items are covered. */
  lemma {:induction false} OldItemSurvives(past: seq<Entry>, before: ItemsFn, entries: seq<Entry>, after: ItemsFn,
      stale: ItemsFn, modules: set<string>, j: nat, x: string)
    requires ItemsSettled(past, before, entries, after, stale, modules)
    requires j < |past| && past[j].moduleName !in modules && x in before(past[j])
    requires Lost(entries, past[j]) ==> x in ItemsUpTo(entries, after, past[j].moduleName, |entries|)
    ensures x in ItemsUpTo(entries, after, past[j].moduleName, |entries|)
  {
    if !Lost(entries, past[j]) {
      var i :| 0 <= i < |entries| && entries[i].path == past[j].path && entries[i].moduleName == past[j].moduleName;
      var k: nat :| SameItems(past, before, entries[i], after, k);
      assert k == j;
      assert Gives(entries, after, past[j].moduleName, i, x);
      ItemFrom(entries, after, past[j].moduleName, |entries|, x);
    }
  }

  lemma {:induction false} CoveredExactly(past: seq<Entry>, before: ItemsFn, entries: seq<Entry>, after: ItemsFn,
      stale: ItemsFn, modules: set<string>)
    requires ItemsSettled(past, before, entries, after, stale, modules)
    ensures LostAreCovered(past, before, entries, after, modules) <==>
      forall m :: m !in modules ==> ItemsUpTo(past, before, m, |past|) == ItemsUpTo(entries, after, m, |entries|)
  {
    if LostAreCovered(past, before, entries, after, modules) {
      forall m | m !in modules ensures ItemsUpTo(past, before, m, |past|) == ItemsUpTo(entries, after, m, |entries|) {
        NewItemsWereThere(past, before, entries, after, stale, modules, m);
        forall x | x in ItemsUpTo(past, before, m, |past|) ensures x in ItemsUpTo(entries, after, m, |entries|) {
          ItemFrom(past, before, m, |past|, x);
          var j :| j < |past| && Gives(past, before, m, j, x);
          OldItemSurvives(past, before, entries, after, stale, modules, j, x);
        }
      }
    }
    if forall m :: m !in modules ==> ItemsUpTo(past, before, m, |past|) == ItemsUpTo(entries, after, m, |entries|) {
      forall j, x | 0 <= j < |past| && past[j].moduleName !in modules && x in before(past[j])
        ensures x in ItemsUpTo(entries, after, past[j].moduleName, |entries|)
      {
        assert Gives(past, before, past[j].moduleName, j, x);
        ItemFrom(past, before, past[j].moduleName, |past|, x);
      }
    }
  }

  lemma {:induction false} StaleItems(past: seq<Entry>, before: ItemsFn, entries: seq<Entry>, after: ItemsFn,
      stale: ItemsFn, modules: set<string>, m: string, n: nat)
    requires ItemsSettled(past, before, entries, after, stale, modules) && n <= |entries|
    ensures ItemsUpTo(entries, stale, m, n) == if m in modules then ItemsUpTo(entries, after, m, n) else {}
  {
    if n > 0 { StaleItems(past, before, entries, after, stale, modules, m, n - 1); }
  }

  /** What an incremental pass starts from: the prior aggregates of the unchanged modules. */
  function Start(past: seq<Entry>, before: ItemsFn, modules: set<string>): map<string, seq<string>> {
    Collated(ExtendUpTo(map[], past, before, |past|)) - modules
  }

  lemma {:induction false} StartElements(past: seq<Entry>, before: ItemsFn, modules: set<string>, m: string)
    ensures Elements(Start(past, before, modules), m) == if m in modules then {} else ItemsUpTo(past, before, m, |past|)
    ensures m in Start(past, before, modules) <==> m !in modules && ItemsUpTo(past, before, m, |past|) != {}
  {
    var d := ExtendUpTo(map[], past, before, |past|);
    ExtendedElements(map[], past, before, m, |past|);
    CollatedElements(d, m);
    assert Elements(map[], m) == {};
    if m !in modules { assert m in Collated(d) - modules <==> m in Collated(d); }
  }

  lemma {:induction false} ModuleAgreesExactly(past: seq<Entry>, before: ItemsFn, entries: seq<Entry>, after: ItemsFn,
      stale: ItemsFn, modules: set<string>, m: string)
    requires ItemsSettled(past, before, entries, after, stale, modules)
    ensures SameElements(ExtendUpTo(Start(past, before, modules), entries, stale, |entries|),
                         ExtendUpTo(map[], entries, after, |entries|), m)
      <==> m in modules || ItemsUpTo(past, before, m, |past|) == ItemsUpTo(entries, after, m, |entries|)
  {
    StartElements(past, before, modules, m);
    ExtendedElements(Start(past, before, modules), entries, stale, m, |entries|);
    ExtendedElements(map[], entries, after, m, |entries|);
    StaleItems(past, before, entries, after, stale, modules, m, |entries|);
    assert Elements(map[], m) == {};
  }

  lemma {:induction false} ItemsAgreeExactly(past: seq<Entry>, before: ItemsFn, entries: seq<Entry>, after: ItemsFn,
      stale: ItemsFn, modules: set<string>)
    requires ItemsSettled(past, before, entries, after, stale, modules)
    ensures Collated(ExtendUpTo(Start(past, before, modules), entries, stale, |entries|))
      == Collated(ExtendUpTo(map[], entries, after, |entries|))
      <==> LostAreCovered(past, before, entries, after, modules)
  {
    var inc := ExtendUpTo(Start(past, before, modules), entries, stale, |entries|);
    var full := ExtendUpTo(map[], entries, after, |entries|);
    CollatedAgreeExactly(inc, full);
    CoveredExactly(past, before, entries, after, stale, modules);
    forall m ensures SameElements(inc, full, m)
      <==> m in modules || ItemsUpTo(past, before, m, |past|) == ItemsUpTo(entries, after, m, |entries|)
    {
      ModuleAgreesExactly(past, before, entries, after, stale, modules, m);
    }
  }

  lemma {:induction false} SettledItems(past: seq<Entry>, before: FactsFn, entries: seq<Entry>, after: FactsFn,
      modules: set<string>, aspect: Aspect)
    requires Settled(past, before, entries, after, modules)
    ensures ItemsSettled(past, EntryItems(aspect, before), entries, EntryItems(aspect, after),
                         EntryItems(aspect, StaleFacts(after, modules)), modules)
  {
    forall i | 0 <= i < |entries| && entries[i].moduleName !in modules
      ensures exists j: nat :: SameItems(past, EntryItems(aspect, before), entries[i], EntryItems(aspect, after), j)
    {
      var j: nat :| HasTwin(past, before, entries[i], after, j);
      assert SameItems(past, EntryItems(aspect, before), entries[i], EntryItems(aspect, after), j);
    }
  }

  lemma {:induction false} AggregateOfFull(head: string, entries: seq<Entry>, facts: FactsFn, aspect: Aspect)
    ensures Aggregate(aspect, Full(head, entries, facts))
      == Collated(ExtendUpTo(map[], entries, EntryItems(aspect, facts), |entries|))
  {
    GathersItems(NOTHING, entries, facts, aspect, |entries|);
    assert Gathering(aspect, NOTHING) == map[];
    AggregateOfFinished(head, AbsorbedAll(NOTHING, entries, facts, |entries|), aspect);
  }

  lemma {:induction false} AggregateOfFinished(head: string, g: Gathered, aspect: Aspect)
    ensures Aggregate(aspect, Finished(head, g)) == Collated(Gathering(aspect, g))
  {
  }

  lemma {:induction false} GatheringOfCarried(prior: Extraction, carried: set<string>, modules: set<string>,
      aspect: Aspect)
    ensures Gathering(aspect, Carried(prior, carried, modules)) == Aggregate(aspect, prior) - modules
  {
  }

  /** Whatever a lost file of a module that no changed file touched gave, a file of that module still gives. */
  ghost predicate Covered(aspect: Aspect, past: seq<Entry>, before: FactsFn, entries: seq<Entry>, after: FactsFn,
      changed: set<string>) {
    forall j, x :: 0 <= j < |past| && !Touched(entries, changed, past[j].moduleName) && Lost(entries, past[j])
      && x in EntryItems(aspect, before)(past[j])
      ==> exists i :: Gives(entries, EntryItems(aspect, after), past[j].moduleName, i, x)
  }

  lemma {:induction false} CoveredIs(aspect: Aspect, past: seq<Entry>, before: FactsFn, entries: seq<Entry>,
      after: FactsFn, changed: set<string>)
    ensures Covered(aspect, past, before, entries, after, changed)
      <==> LostAreCovered(past, EntryItems(aspect, before), entries, EntryItems(aspect, after), ChangedModules(entries, changed))
  {
    var items := EntryItems(aspect, after);
    forall m ensures m in ChangedModules(entries, changed) <==> Touched(entries, changed, m) {}
    forall m, x ensures x in ItemsUpTo(entries, items, m, |entries|) <==> exists i :: Gives(entries, items, m, i, x) {
      ItemFrom(entries, items, m, |entries|, x);
    }
  }

  /** An aggregate agrees exactly when the lost files' items are covered. */
  lemma {:induction false} AggregatesAgreeExactly(head: string, past: seq<Entry>, before: FactsFn, entries: seq<Entry>,
      after: FactsFn, changed: set<string>, priorHead: string, aspect: Aspect)
    requires Untouched(past, before, entries, after, changed)
    ensures
      Aggregate(aspect, Incremental(head, entries, after, Full(priorHead, past, before), changed))
        == Aggregate(aspect, Full(head, entries, after))
      <==> Covered(aspect, past, before, entries, after, changed)
  {
    UntouchedIsSettled(past, before, entries, after, changed);
    CoveredIs(aspect, past, before, entries, after, changed);
    var modules := ChangedModules(entries, changed);
    var stale, prior := StaleFacts(after, modules), Full(priorHead, past, before);
    var start := Carried(prior, CarriedPaths(entries, modules), modules);
    AggregateOfFull(priorHead, past, before, aspect);
    AggregateOfFull(head, entries, after, aspect);
    GatheringOfCarried(prior, CarriedPaths(entries, modules), modules, aspect);
    GathersItems(start, entries, stale, aspect, |entries|);
    AggregateOfFinished(head, AbsorbedAll(start, entries, stale, |entries|), aspect);
    SettledItems(past, before, entries, after, modules, aspect);
    ItemsAgreeExactly(past, EntryItems(aspect, before), entries, EntryItems(aspect, after), EntryItems(aspect, stale),
                      modules);
  }

  predicate CountsItself(x: Extraction) {
    x.totals == Totals(|x.files|, |x.defines|, |x.uses|, |x.ioEdges|, |x.imports|)
  }

  lemma {:induction false} TotalsOfFinished(head: string, g: Gathered)
    ensures CountsItself(Finished(head, g)) && Finished(head, g).head == head
  {
  }

  lemma {:induction false} IncrementalCountsItself(head: string, entries: seq<Entry>, facts: FactsFn, prior: Extraction,
      changed: set<string>)
    ensures CountsItself(Incremental(head, entries, facts, prior, changed))
    ensures Incremental(head, entries, facts, prior, changed).head == head
  {
    var modules := ChangedModules(entries, changed);
    var start := Carried(prior, CarriedPaths(entries, modules), modules);
    TotalsOfFinished(head, AbsorbedAll(start, entries, StaleFacts(facts, modules), |entries|));
  }

  lemma {:induction false} FullCountsItself(head: string, entries: seq<Entry>, facts: FactsFn)
    ensures CountsItself(Full(head, entries, facts)) && Full(head, entries, facts).head == head
  {
    TotalsOfFinished(head, AbsorbedAll(NOTHING, entries, facts, |entries|));
  }

  /** Given a full prior extraction, and changed modules that take in every new, edited or moved file, incremental
  extraction returns what a full one would exactly when the items of lost files are covered. */
  lemma {:induction false} IncrementalEqualsFullExactly(head: string, past: seq<Entry>, before: FactsFn,
      entries: seq<Entry>, after: FactsFn, changed: set<string>, priorHead: string)
    requires Untouched(past, before, entries, after, changed)
    ensures Incremental(head, entries, after, Full(priorHead, past, before), changed) == Full(head, entries, after)
      <==> Covered(Deps, past, before, entries, after, changed) && Covered(Notes, past, before, entries, after, changed)
  {
    var inc := Incremental(head, entries, after, Full(priorHead, past, before), changed);
    var full := Full(head, entries, after);
    AggregatesAgreeExactly(head, past, before, entries, after, changed, priorHead, Deps);
    AggregatesAgreeExactly(head, past, before, entries, after, changed, priorHead, Notes);
    FilesAgree(head, past, before, entries, after, changed, priorHead);
    AllRowsAgree(head, past, before, entries, after, changed, priorHead);
    IncrementalCountsItself(head, entries, after, Full(priorHead, past, before), changed);
    FullCountsItself(head, entries, after);
    EqualExtractions(inc, full);
  }

  lemma {:induction false} AllRowsAgree(head: string, past: seq<Entry>, before: FactsFn, entries: seq<Entry>,
      after: FactsFn, changed: set<string>, priorHead: string)
    requires Untouched(past, before, entries, after, changed)
    ensures forall kind :: SortedRows(kind, Incremental(head, entries, after, Full(priorHead, past, before), changed))
                             == SortedRows(kind, Full(head, entries, after))
  {
    forall kind ensures SortedRows(kind, Incremental(head, entries, after, Full(priorHead, past, before), changed))
      == SortedRows(kind, Full(head, entries, after))
    {
      RowsAgree(head, past, before, entries, after, changed, kind, priorHead);
    }
  }

  lemma {:induction false} EqualExtractions(a: Extraction, b: Extraction)
    requires a.head == b.head && a.files == b.files && CountsItself(a) && CountsItself(b)
    requires forall kind :: SortedRows(kind, a) == SortedRows(kind, b)
    ensures a == b <==> Aggregate(Deps, a) == Aggregate(Deps, b) && Aggregate(Notes, a) == Aggregate(Notes, b)
  {
    assert SortedRows(Defines, a) == SortedRows(Defines, b) && SortedRows(Uses, a) == SortedRows(Uses, b);
    assert SortedRows(IoEdges, a) == SortedRows(IoEdges, b) && SortedRows(Imports, a) == SortedRows(Imports, b);
  }

  /** In particular they agree when every unchanged module still has all its files. */
  lemma {:induction false} NothingLostNothingStale(past: seq<Entry>, before: FactsFn, entries: seq<Entry>,
      after: FactsFn, changed: set<string>, aspect: Aspect)
    requires forall j ::
      0 <= j < |past| && !Touched(entries, changed, past[j].moduleName) ==> !Lost(entries, past[j])
    ensures Covered(aspect, past, before, entries, after, changed)
  {
  }

  /** A deleted file's dependency outlives it: it was the only file of its module, and nothing else changed. */
  lemma {:induction false} DeletedFileLeavesItsDependency(head: string, gone: Entry, before: FactsFn, dep: string)
    requires before(gone).Some? && dep in before(gone).value.declaredDeps
    ensures Incremental(head, [], before, Full(head, [gone], before), {}) != Full(head, [], before)
  {
    IncrementalEqualsFullExactly(head, [gone], before, [], before, {}, head);
    GoneIsUncovered(gone, before, dep);
  }

  lemma {:induction false} GoneIsUncovered(gone: Entry, before: FactsFn, dep: string)
    requires before(gone).Some? && dep in before(gone).value.declaredDeps
    ensures !Covered(Deps, [gone], before, [], before, {})
  {
    assert dep in EntryItems(Deps, before)([gone][0]);
    assert !Touched([], {}, gone.moduleName) && Lost([], gone);
  }
}
