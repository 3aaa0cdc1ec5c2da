/** Incremental extraction (cdp/refresh.py:134-225) against the full one. */
module Refresh {
  import opened Options
  import opened Orders
  import opened Extract

  type FactsFn = Entry -> Option<Facts>

  function RowsOf(kind: Kind, g: Gathered): seq<Row> {
    match kind case Defines => g.defines case Uses => g.uses case IoEdges => g.ioEdges case Imports => g.imports
  }

  function SortedRows(kind: Kind, x: Extraction): seq<Row> {
    match kind case Defines => x.defines case Uses => x.uses case IoEdges => x.ioEdges case Imports => x.imports
  }

  // -------------------------------------------------------------- what is carried

  /** The modules of the changed files that still exist. */
  function ChangedModules(entries: seq<Entry>, changed: set<string>): set<string> {
    set e | e in entries && e.path in changed :: e.moduleName
  }

  function CarriedPaths(entries: seq<Entry>, modules: set<string>): set<string> {
    set e | e in entries && e.moduleName !in modules :: e.path
  }

  function CarriedRows(rows: seq<Row>, carried: set<string>): seq<Row> {
    Filter(rows, (r: Row) => r.file in carried)
  }

  /** The rows, records and aggregates taken over from the prior extraction. */
  function Carried(prior: Extraction, carried: set<string>, modules: set<string>): Gathered {
    Gathered(CarriedRows(prior.defines, carried), CarriedRows(prior.uses, carried), CarriedRows(prior.ioEdges, carried),
             CarriedRows(prior.imports, carried), map p | p in prior.files && p in carried :: prior.files[p],
             prior.declaredDeps - modules, prior.moduleNotes - modules)
  }

  /** Facts of the files that are extracted again. */
  function StaleFacts(facts: FactsFn, modules: set<string>): FactsFn {
    (e: Entry) => if e.moduleName in modules then facts(e) else None
  }

  function Incremental(head: string, entries: seq<Entry>, facts: FactsFn, prior: Extraction, changed: set<string>)
      : Extraction {
    var modules := ChangedModules(entries, changed);
    var start := Carried(prior, CarriedPaths(entries, modules), modules);
    Finished(head, AbsorbedAll(start, entries, StaleFacts(facts, modules), |entries|))
  }

  /** `incremental_extract`. */
  method IncrementalExtract(extract: Extractor, tree: Tree, head: string, entries: seq<Entry>, prior: Extraction,
      changed: set<string>) returns (out: Extraction)
    requires forall i, j :: 0 <= i < j < |entries| ==> entries[i].path != entries[j].path
    ensures out == Incremental(head, entries, (e: Entry) => FactsOf(extract, tree, e), prior, changed)
  {
    ghost var facts := (e: Entry) => FactsOf(extract, tree, e);
    var modules := set e | e in entries && e.path in changed :: e.moduleName;
    var stale := set e | e in entries && e.moduleName in modules :: e.path;
    var carried := set e | e in entries && e.path !in stale :: e.path;
    StaleOrCarried(entries, modules, stale, carried);
    var acc := new Accumulators(Carried(prior, carried, modules));
    AbsorbStale(extract, tree, entries, stale, StaleFacts(facts, modules), acc);
    out := Finished(head, acc.Contents());
  }

  /** The loop that extracts every stale file again. */
  method AbsorbStale(extract: Extractor, tree: Tree, entries: seq<Entry>, stale: set<string>, ghost facts: FactsFn,
      acc: Accumulators)
    requires forall e :: e in entries ==> facts(e) == if e.path in stale then FactsOf(extract, tree, e) else None
    modifies acc
    ensures acc.Contents() == AbsorbedAll(old(acc.Contents()), entries, facts, |entries|)
  {
    for i := 0 to |entries|
      invariant acc.Contents() == AbsorbedAll(old(acc.Contents()), entries, facts, i)
    {
      var e := entries[i];
      assert e in entries;
      if e.path in stale { AbsorbEntry(extract, tree, e, acc); }
    }
  }

  lemma {:induction false} StaleOrCarried(entries: seq<Entry>, modules: set<string>, stale: set<string>,
      carried: set<string>)
    requires forall i, j :: 0 <= i < j < |entries| ==> entries[i].path != entries[j].path
    requires stale == set e | e in entries && e.moduleName in modules :: e.path
    requires carried == set e | e in entries && e.path !in stale :: e.path
    ensures carried == CarriedPaths(entries, modules)
    ensures forall e :: e in entries ==> (e.path in stale <==> e.moduleName in modules)
  {
    forall e | e in entries ensures e.path in stale <==> e.moduleName in modules {
      if e.path in stale {
        var d :| d in entries && d.moduleName in modules && d.path == e.path;
        var i :| 0 <= i < |entries| && entries[i] == e;
        var j :| 0 <= j < |entries| && entries[j] == d;
        assert i == j;
      }
    }
  }

  // ------------------------------------------------------------ what a pass gathers

  predicate DistinctPaths(entries: seq<Entry>) {
    forall i, j :: 0 <= i < j < |entries| ==> entries[i].path != entries[j].path
  }

  function EntryRows(kind: Kind, facts: FactsFn, e: Entry): (r: seq<Row>)
    ensures forall row :: row in r ==> row.file == e.path
  {
    match facts(e) case None => [] case Some(f) => FileRows(kind, e, f)
  }

  /** The rows the first `n` entries give, in order. */
  function RowsUpTo(entries: seq<Entry>, rows: Entry -> seq<Row>, n: nat): seq<Row>
    requires n <= |entries|
  {
    if n == 0 then [] else RowsUpTo(entries, rows, n - 1) + rows(entries[n - 1])
  }

  function KindRows(kind: Kind, facts: FactsFn): Entry -> seq<Row> {
    (e: Entry) => EntryRows(kind, facts, e)
  }

  lemma {:induction false} GathersRow(g: Gathered, entries: seq<Entry>, facts: FactsFn, kind: Kind, n: nat)
    requires 0 < n <= |entries|
    ensures RowsOf(kind, AbsorbedAll(g, entries, facts, n))
      == RowsOf(kind, AbsorbedAll(g, entries, facts, n - 1)) + EntryRows(kind, facts, entries[n - 1])
  {
  }

  ghost predicate GrowsByEntry(f: nat -> seq<Row>, entries: seq<Entry>, rows: Entry -> seq<Row>, k: nat) {
    k < |entries| && f(k + 1) == f(k) + rows(entries[k])
  }

  /** A list that grows by one entry's rows at a time is their rows joined. */
  lemma {:induction false} GrowsByRows(f: nat -> seq<Row>, entries: seq<Entry>, rows: Entry -> seq<Row>, n: nat)
    requires n <= |entries| && forall k: nat :: k < n ==> GrowsByEntry(f, entries, rows, k)
    ensures f(n) == f(0) + RowsUpTo(entries, rows, n)
  {
    if n > 0 {
      GrowsByRows(f, entries, rows, n - 1);
      assert GrowsByEntry(f, entries, rows, n - 1);
    }
  }

  ghost function RowsAfter(g: Gathered, entries: seq<Entry>, facts: FactsFn, kind: Kind): nat -> seq<Row> {
    (k: nat) => if k <= |entries| then RowsOf(kind, AbsorbedAll(g, entries, facts, k)) else []
  }

  lemma {:induction false} RowsGrow(g: Gathered, entries: seq<Entry>, facts: FactsFn, kind: Kind, k: nat)
    requires k < |entries|
    ensures GrowsByEntry(RowsAfter(g, entries, facts, kind), entries, KindRows(kind, facts), k)
  {
    GathersRow(g, entries, facts, kind, k + 1);
  }

  lemma {:induction false} GathersRows(g: Gathered, entries: seq<Entry>, facts: FactsFn, kind: Kind, n: nat)
    requires n <= |entries|
    ensures RowsOf(kind, AbsorbedAll(g, entries, facts, n))
      == RowsOf(kind, g) + RowsUpTo(entries, KindRows(kind, facts), n)
  {
    var f := RowsAfter(g, entries, facts, kind);
    forall k: nat | k < n ensures GrowsByEntry(f, entries, KindRows(kind, facts), k) {
      RowsGrow(g, entries, facts, kind, k);
    }
    GrowsByRows(f, entries, KindRows(kind, facts), n);
    assert f(0) == RowsOf(kind, g);
  }

  ghost predicate OwnFile(entries: seq<Entry>, rows: Entry -> seq<Row>) {
    forall i, r :: 0 <= i < |entries| && r in rows(entries[i]) ==> r.file == entries[i].path
  }

  type RowLe = (Row, Row) -> bool

  /** Only rows of one file can tie. */
  ghost predicate TiesInFile(le: RowLe) {
    forall a, b {:trigger Tied(a, b, le)} :: Tied(a, b, le) ==> a.file == b.file
  }

  lemma {:induction false} ForeignTies(rows: seq<Row>, k: Row, le: RowLe)
    requires TiesInFile(le)
    requires forall r :: r in rows ==> r.file != k.file
    ensures Ties(rows, k, le) == []
  {
    NoTies(rows, k, le);
  }

  predicate NotAmong(entries: seq<Entry>, n: nat, path: string)
    requires n <= |entries|
  {
    forall i :: 0 <= i < n ==> entries[i].path != path
  }

  /** Files that are not passed give no ties. */
  lemma {:induction false} NoTiesAmong(entries: seq<Entry>, rows: Entry -> seq<Row>, le: RowLe, n: nat, k: Row)
    requires TiesInFile(le) && n <= |entries| && NotAmong(entries, n, k.file) && OwnFile(entries, rows)
    ensures Ties(RowsUpTo(entries, rows, n), k, le) == []
  {
    if n > 0 {
      NoTiesAmong(entries, rows, le, n - 1, k);
      ForeignTies(rows(entries[n - 1]), k, le);
      TiesAppend(RowsUpTo(entries, rows, n - 1), rows(entries[n - 1]), k, le);
    }
  }

  /** The ties of a row are those among the rows of its own file. */
  lemma {:induction false} TiesOfFile(entries: seq<Entry>, rows: Entry -> seq<Row>, le: RowLe, n: nat, k: Row, i: nat)
    requires TiesInFile(le) && i < n <= |entries| && DistinctPaths(entries) && entries[i].path == k.file && OwnFile(entries, rows)
    ensures Ties(RowsUpTo(entries, rows, n), k, le) == Ties(rows(entries[i]), k, le)
  {
    TiesAppend(RowsUpTo(entries, rows, n - 1), rows(entries[n - 1]), k, le);
    if i == n - 1 {
      NoTiesAmong(entries, rows, le, n - 1, k);
    } else {
      TiesOfFile(entries, rows, le, n - 1, k, i);
      ForeignTies(rows(entries[n - 1]), k, le);
    }
  }

  /** Keeping only the rows of some files keeps or drops a class of ties as a whole. */
  lemma {:induction false} CarriedTies(rows: seq<Row>, carried: set<string>, le: RowLe, k: Row)
    requires TiesInFile(le)
    ensures Ties(CarriedRows(rows, carried), k, le)
      == if k.file in carried then Ties(rows, k, le) else []
  {
    if rows != [] {
      CarriedTies(rows[1..], carried, le, k);
      var kept := (r: Row) => r.file in carried;
      if kept(rows[0]) {
        assert Filter(rows, kept)[1..] == Filter(rows[1..], kept);
      }
    }
  }

  // ------------------------------------------------------------- what is unchanged

  /** The file was there before, in the same module and with the same facts. */
  ghost predicate HasTwin(past: seq<Entry>, before: FactsFn, e: Entry, after: FactsFn, j: nat) {
    && j < |past| && past[j].path == e.path && past[j].moduleName == e.moduleName && before(past[j]) == after(e)
  }

  /** Every file outside the changed modules is unchanged. */
  ghost predicate Settled(past: seq<Entry>, before: FactsFn, entries: seq<Entry>, after: FactsFn, modules: set<string>) {
    && DistinctPaths(past) && DistinctPaths(entries)
    && forall i :: 0 <= i < |entries| && entries[i].moduleName !in modules
        ==> exists j: nat :: HasTwin(past, before, entries[i], after, j)
  }

  /** Some file that is still there was changed and is in the module. */
  ghost predicate Touched(entries: seq<Entry>, changed: set<string>, m: string) {
    exists e :: e in entries && e.path in changed && e.moduleName == m
  }

  /** A file of a module that no changed file touched was there before, in that module and with the same facts. */
  ghost predicate Untouched(past: seq<Entry>, before: FactsFn, entries: seq<Entry>, after: FactsFn, changed: set<string>) {
    && DistinctPaths(past) && DistinctPaths(entries)
    && forall i :: 0 <= i < |entries|
        ==> Touched(entries, changed, entries[i].moduleName) || exists j: nat :: HasTwin(past, before, entries[i], after, j)
  }

  lemma {:induction false} UntouchedIsSettled(past: seq<Entry>, before: FactsFn, entries: seq<Entry>, after: FactsFn,
      changed: set<string>)
    requires Untouched(past, before, entries, after, changed)
    ensures Settled(past, before, entries, after, ChangedModules(entries, changed))
  {
    forall m ensures m in ChangedModules(entries, changed) <==> Touched(entries, changed, m) {}
  }

  lemma {:induction false} CarriedExactly(entries: seq<Entry>, modules: set<string>, i: nat)
    requires i < |entries| && DistinctPaths(entries)
    ensures entries[i].path in CarriedPaths(entries, modules) <==> entries[i].moduleName !in modules
  {
    assert entries[i] in entries;
    if entries[i].path in CarriedPaths(entries, modules) {
      var d :| d in entries && d.moduleName !in modules && d.path == entries[i].path;
      var j :| 0 <= j < |entries| && entries[j] == d;
      assert i == j;
    }
  }

  type RowsFn = Entry -> seq<Row>

  /** The stale files give their new rows, and every other file gave the same rows before. */
  ghost predicate RowsSettled(past: seq<Entry>, before: RowsFn, entries: seq<Entry>, after: RowsFn, stale: RowsFn,
      modules: set<string>) {
    && OwnFile(past, before) && OwnFile(entries, after) && OwnFile(entries, stale)
    && DistinctPaths(past) && DistinctPaths(entries)
    && forall i :: 0 <= i < |entries| ==>
         if entries[i].moduleName in modules then stale(entries[i]) == after(entries[i])
         else stale(entries[i]) == [] && exists j: nat :: SameRows(past, before, entries[i], after, j)
  }

  ghost predicate SameRows(past: seq<Entry>, before: RowsFn, e: Entry, after: RowsFn, j: nat) {
    j < |past| && past[j].path == e.path && before(past[j]) == after(e)
  }

  /** One class of ties, carried or extracted again, is what a full pass gathers. */
  lemma {:induction false} SameTies(past: seq<Entry>, before: RowsFn, entries: seq<Entry>, after: RowsFn,
      stale: RowsFn, modules: set<string>, le: RowLe, k: Row, rows: seq<Row>)
    requires TiesInFile(le) && RowsSettled(past, before, entries, after, stale, modules)
    requires Ties(rows, k, le) == Ties(RowsUpTo(past, before, |past|), k, le)
    ensures Ties(CarriedRows(rows, CarriedPaths(entries, modules)), k, le)
      + Ties(RowsUpTo(entries, stale, |entries|), k, le) == Ties(RowsUpTo(entries, after, |entries|), k, le)
  {
    CarriedTies(rows, CarriedPaths(entries, modules), le, k);
    if NotAmong(entries, |entries|, k.file) {
      NoTiesAmong(entries, after, le, |entries|, k);
      NoTiesAmong(entries, stale, le, |entries|, k);
    } else {
      var i :| 0 <= i < |entries| && entries[i].path == k.file;
      CarriedExactly(entries, modules, i);
      TiesOfFile(entries, after, le, |entries|, k, i);
      TiesOfFile(entries, stale, le, |entries|, k, i);
      if entries[i].moduleName !in modules {
        var j: nat :| SameRows(past, before, entries[i], after, j);
        TiesOfFile(past, before, le, |past|, k, j);
      }
    }
  }

  /** A stable sort whose ties lie inside single files does not care whether a file's rows were carried, already
  sorted, or extracted again. */
  lemma {:induction false} SortForgetsCarrying(past: seq<Entry>, before: RowsFn, entries: seq<Entry>, after: RowsFn,
      stale: RowsFn, modules: set<string>, le: RowLe)
    requires TotalPreorder(le) && TiesInFile(le) && RowsSettled(past, before, entries, after, stale, modules)
    ensures var prior := StableSort(RowsUpTo(past, before, |past|), le);
      StableSort(CarriedRows(prior, CarriedPaths(entries, modules)) + RowsUpTo(entries, stale, |entries|), le)
      == StableSort(RowsUpTo(entries, after, |entries|), le)
  {
    var rows := RowsUpTo(past, before, |past|);
    var kept := CarriedRows(StableSort(rows, le), CarriedPaths(entries, modules));
    var again, all := RowsUpTo(entries, stale, |entries|), RowsUpTo(entries, after, |entries|);
    forall k ensures Ties(kept + again, k, le) == Ties(all, k, le) {
      SortKeepsTies(rows, k, le);
      SameTies(past, before, entries, after, stale, modules, le, k, StableSort(rows, le));
      TiesAppend(kept, again, k, le);
    }
    SortDeterminedByTies(kept + again, all, le);
  }

  lemma {:induction false} SettledRows(past: seq<Entry>, before: FactsFn, entries: seq<Entry>, after: FactsFn,
      modules: set<string>, kind: Kind)
    requires Settled(past, before, entries, after, modules)
    ensures RowsSettled(past, KindRows(kind, before), entries, KindRows(kind, after),
                        KindRows(kind, StaleFacts(after, modules)), modules)
  {
    forall i | 0 <= i < |entries| && entries[i].moduleName !in modules
      ensures exists j: nat :: SameRows(past, KindRows(kind, before), entries[i], KindRows(kind, after), j)
    {
      var j: nat :| HasTwin(past, before, entries[i], after, j);
      SameFileRows(kind, past[j], entries[i], before, after);
      assert SameRows(past, KindRows(kind, before), entries[i], KindRows(kind, after), j);
    }
  }

  lemma {:induction false} SameMarks(facts: seq<Fact>, e: Entry, d: Entry, scopePackage: string)
    requires e.path == d.path && e.moduleName == d.moduleName
    ensures Marked(facts, e, scopePackage) == Marked(facts, d, scopePackage)
  {
    if facts != [] { SameMarks(facts[1..], e, d, scopePackage); }
  }

  lemma {:induction false} SameFileRows(kind: Kind, d: Entry, e: Entry, before: FactsFn, after: FactsFn)
    requires e.path == d.path && e.moduleName == d.moduleName && before(d) == after(e)
    ensures EntryRows(kind, before, d) == EntryRows(kind, after, e)
  {
    match before(d)
    case None =>
    case Some(f) =>
      match kind
      case Defines => SameMarks(f.defines, e, d, "");
      case Uses => SameMarks(f.uses, e, d, f.package);
      case IoEdges => SameMarks(f.ioEdges, e, d, "");
      case Imports => SameMarks(ImportsOnly(f.imports), e, d, "");
  }

  lemma {:induction false} RowTiesInFile(kind: Kind)
    ensures TiesInFile(RowOrder(kind))
  {
    forall a, b | Tied(a, b, RowOrder(kind)) ensures a.file == b.file { TiesLieInOneFile(kind, a, b); }
  }

  lemma {:induction false} SortedRowsOfFinished(kind: Kind, head: string, g: Gathered)
    ensures SortedRows(kind, Finished(head, g)) == StableSort(RowsOf(kind, g), RowOrder(kind))
  {
  }

  lemma {:induction false} RowsOfCarried(kind: Kind, prior: Extraction, carried: set<string>, modules: set<string>)
    ensures RowsOf(kind, Carried(prior, carried, modules)) == CarriedRows(SortedRows(kind, prior), carried)
  {
  }

  /** The rows agree, whatever files were lost. */
  lemma {:induction false} RowsAgree(head: string, past: seq<Entry>, before: FactsFn, entries: seq<Entry>,
      after: FactsFn, changed: set<string>, kind: Kind, priorHead: string)
    requires Untouched(past, before, entries, after, changed)
    ensures SortedRows(kind, Incremental(head, entries, after, Full(priorHead, past, before), changed))
      == SortedRows(kind, Full(head, entries, after))
  {
    UntouchedIsSettled(past, before, entries, after, changed);
    var modules := ChangedModules(entries, changed);
    var prior := Full(priorHead, past, before);
    var start, stale := Carried(prior, CarriedPaths(entries, modules), modules), StaleFacts(after, modules);
    RowOrderIsOrder(kind);
    RowTiesInFile(kind);
    SettledRows(past, before, entries, after, modules, kind);
    SortForgetsCarrying(past, KindRows(kind, before), entries, KindRows(kind, after), KindRows(kind, stale), modules,
                        RowOrder(kind));
    FullRows(priorHead, past, before, kind);
    FullRows(head, entries, after, kind);
    RowsOfCarried(kind, prior, CarriedPaths(entries, modules), modules);
    GathersRows(start, entries, stale, kind, |entries|);
    SortedRowsOfFinished(kind, head, AbsorbedAll(start, entries, stale, |entries|));
  }

  lemma {:induction false} FullRows(head: string, entries: seq<Entry>, facts: FactsFn, kind: Kind)
    ensures SortedRows(kind, Full(head, entries, facts))
      == StableSort(RowsUpTo(entries, KindRows(kind, facts), |entries|), RowOrder(kind))
  {
    NothingGathersRows(entries, facts, kind);
    SortedRowsOfFinished(kind, head, AbsorbedAll(NOTHING, entries, facts, |entries|));
  }

  lemma {:induction false} NothingGathersRows(entries: seq<Entry>, facts: FactsFn, kind: Kind)
    ensures RowsOf(kind, AbsorbedAll(NOTHING, entries, facts, |entries|))
      == RowsUpTo(entries, KindRows(kind, facts), |entries|)
  {
    GathersRows(NOTHING, entries, facts, kind, |entries|);
    assert RowsOf(kind, NOTHING) == [];
    assert [] + RowsUpTo(entries, KindRows(kind, facts), |entries|) == RowsUpTo(entries, KindRows(kind, facts), |entries|);
  }

  // ---------------------------------------------------------------- file records

  type RecordFn = Entry -> Option<FileRecord>

  function Records(facts: FactsFn): RecordFn {
    (e: Entry) => match facts(e) case None => None case Some(f) => Some(Record(f))
  }

  function FilesUpTo(files: map<string, FileRecord>, entries: seq<Entry>, records: RecordFn, n: nat)
      : map<string, FileRecord>
    requires n <= |entries|
  {
    if n == 0 then files
    else
      var before := FilesUpTo(files, entries, records, n - 1);
      match records(entries[n - 1]) case None => before case Some(r) => before[entries[n - 1].path := r]
  }

  lemma {:induction false} GathersFiles(g: Gathered, entries: seq<Entry>, facts: FactsFn, n: nat)
    requires n <= |entries|
    ensures AbsorbedAll(g, entries, facts, n).files == FilesUpTo(g.files, entries, Records(facts), n)
  {
    if n > 0 {
      GathersFiles(g, entries, facts, n - 1);
      assert Records(facts)(entries[n - 1]).Some? <==> facts(entries[n - 1]).Some?;
    }
  }

  function Lookup(files: map<string, FileRecord>, path: string): Option<FileRecord> {
    if path in files then Some(files[path]) else None
  }

  lemma {:induction false} FileNotPassed(files: map<string, FileRecord>, entries: seq<Entry>, records: RecordFn, n: nat,
      path: string)
    requires n <= |entries| && NotAmong(entries, n, path)
    ensures Lookup(FilesUpTo(files, entries, records, n), path) == Lookup(files, path)
  {
    if n > 0 { FileNotPassed(files, entries, records, n - 1, path); }
  }

  lemma {:induction false} FilePassed(files: map<string, FileRecord>, entries: seq<Entry>, records: RecordFn, n: nat,
      i: nat)
    requires i < n <= |entries| && DistinctPaths(entries)
    ensures Lookup(FilesUpTo(files, entries, records, n), entries[i].path)
      == if records(entries[i]).Some? then records(entries[i]) else Lookup(files, entries[i].path)
  {
    if i == n - 1 {
      FileNotPassed(files, entries, records, n - 1, entries[i].path);
    } else {
      FilePassed(files, entries, records, n - 1, i);
    }
  }

  function KeptFiles(files: map<string, FileRecord>, carried: set<string>): map<string, FileRecord> {
    map p | p in files && p in carried :: files[p]
  }

  ghost predicate RecordsSettled(past: seq<Entry>, before: RecordFn, entries: seq<Entry>, after: RecordFn,
      stale: RecordFn, modules: set<string>) {
    && DistinctPaths(past) && DistinctPaths(entries)
    && forall i :: 0 <= i < |entries| ==>
         if entries[i].moduleName in modules then stale(entries[i]) == after(entries[i])
         else stale(entries[i]) == None && exists j: nat :: SameRecord(past, before, entries[i], after, j)
  }

  ghost predicate SameRecord(past: seq<Entry>, before: RecordFn, e: Entry, after: RecordFn, j: nat) {
    j < |past| && past[j].path == e.path && before(past[j]) == after(e)
  }

  lemma {:induction false} FileAgrees(past: seq<Entry>, before: RecordFn, entries: seq<Entry>, after: RecordFn,
      stale: RecordFn, modules: set<string>, path: string)
    requires RecordsSettled(past, before, entries, after, stale, modules)
    ensures var kept := KeptFiles(FilesUpTo(map[], past, before, |past|), CarriedPaths(entries, modules));
      Lookup(FilesUpTo(kept, entries, stale, |entries|), path) == Lookup(FilesUpTo(map[], entries, after, |entries|), path)
  {
    var all := FilesUpTo(map[], past, before, |past|);
    var kept := KeptFiles(all, CarriedPaths(entries, modules));
    if NotAmong(entries, |entries|, path) {
      FileNotPassed(map[], entries, after, |entries|, path);
      FileNotPassed(kept, entries, stale, |entries|, path);
    } else {
      var i :| 0 <= i < |entries| && entries[i].path == path;
      CarriedExactly(entries, modules, i);
      FilePassed(map[], entries, after, |entries|, i);
      FilePassed(kept, entries, stale, |entries|, i);
      if entries[i].moduleName !in modules {
        var j: nat :| SameRecord(past, before, entries[i], after, j);
        FilePassed(map[], past, before, |past|, j);
        assert Lookup(kept, path) == Lookup(all, path);
      }
    }
  }

  lemma {:induction false} SettledRecords(past: seq<Entry>, before: FactsFn, entries: seq<Entry>, after: FactsFn,
      modules: set<string>)
    requires Settled(past, before, entries, after, modules)
    ensures RecordsSettled(past, Records(before), entries, Records(after), Records(StaleFacts(after, modules)), modules)
  {
    forall i | 0 <= i < |entries| && entries[i].moduleName !in modules
      ensures exists j: nat :: SameRecord(past, Records(before), entries[i], Records(after), j)
    {
      var j: nat :| HasTwin(past, before, entries[i], after, j);
      assert SameRecord(past, Records(before), entries[i], Records(after), j);
    }
  }

  lemma {:induction false} FilesAgree(head: string, past: seq<Entry>, before: FactsFn, entries: seq<Entry>,
      after: FactsFn, changed: set<string>, priorHead: string)
    requires Untouched(past, before, entries, after, changed)
    ensures Incremental(head, entries, after, Full(priorHead, past, before), changed).files
      == Full(head, entries, after).files
  {
    UntouchedIsSettled(past, before, entries, after, changed);
    var modules := ChangedModules(entries, changed);
    var carried, stale := CarriedPaths(entries, modules), StaleFacts(after, modules);
    var start := Carried(Full(priorHead, past, before), carried, modules);
    GathersFiles(NOTHING, past, before, |past|);
    GathersFiles(NOTHING, entries, after, |entries|);
    GathersFiles(start, entries, stale, |entries|);
    var all := FilesUpTo(map[], past, Records(before), |past|);
    assert start.files == KeptFiles(all, carried);
    SettledRecords(past, before, entries, after, modules);
    var inc, full := FilesUpTo(start.files, entries, Records(stale), |entries|),
      FilesUpTo(map[], entries, Records(after), |entries|);
    forall p ensures Lookup(inc, p) == Lookup(full, p) {
      FileAgrees(past, Records(before), entries, Records(after), Records(stale), modules, p);
    }
    SameLookups(inc, full);
  }

  lemma {:induction false} SameLookups(a: map<string, FileRecord>, b: map<string, FileRecord>)
    requires forall p :: Lookup(a, p) == Lookup(b, p)
    ensures a == b
  {
    forall p ensures p in a <==> p in b { assert Lookup(a, p) == Lookup(b, p); }
    forall p | p in a ensures a[p] == b[p] { assert Lookup(a, p) == Lookup(b, p); }
  }
}
