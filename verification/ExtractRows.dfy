/** What a full extraction holds, in terms of what each file's extractor returned (cdp/extract.py:50-201). */
module ExtractRows {
  import opened Options
  import opened Orders
  import opened Extract

  type FactsOfEntry = Entry -> Option<Facts>

  // ---------------------------------------------------------------- what one file gives

  function DefinesIn(e: Entry, f: Facts): (r: seq<Row>)
    ensures |r| == |f.defines| && forall i :: 0 <= i < |r| ==> r[i] == Row(e.path, e.moduleName, "", f.defines[i])
  {
    seq(|f.defines|, i requires 0 <= i < |f.defines| => Row(e.path, e.moduleName, "", f.defines[i]))
  }

  /** A use also carries the package of its file. */
  function UsesIn(e: Entry, f: Facts): (r: seq<Row>)
    ensures |r| == |f.uses| && forall i :: 0 <= i < |r| ==> r[i] == Row(e.path, e.moduleName, f.package, f.uses[i])
  {
    seq(|f.uses|, i requires 0 <= i < |f.uses| => Row(e.path, e.moduleName, f.package, f.uses[i]))
  }

  function IoEdgesIn(e: Entry, f: Facts): (r: seq<Row>)
    ensures |r| == |f.ioEdges| && forall i :: 0 <= i < |r| ==> r[i] == Row(e.path, e.moduleName, "", f.ioEdges[i])
  {
    seq(|f.ioEdges|, i requires 0 <= i < |f.ioEdges| => Row(e.path, e.moduleName, "", f.ioEdges[i]))
  }

  /** An import keeps its name, its line and its anchor. */
  function Imported(d: Fact): Fact {
    Fact(d.fqn, "", "", "", "", d.anchorFile, d.anchorLine, d.extra)
  }

  function ImportsIn(e: Entry, f: Facts): (r: seq<Row>)
    ensures |r| == |f.imports| && forall i :: 0 <= i < |r| ==> r[i] == Row(e.path, e.moduleName, "", Imported(f.imports[i]))
  {
    seq(|f.imports|, i requires 0 <= i < |f.imports| => Row(e.path, e.moduleName, "", Imported(f.imports[i])))
  }

  /** What an entry gives: nothing when it is skipped. */
  function Given(facts: FactsOfEntry, rows: (Entry, Facts) -> seq<Row>): Entry -> seq<Row> {
    (e: Entry) => match facts(e) case None => [] case Some(f) => rows(e, f)
  }

  lemma {:induction false} MarkedAt(facts: seq<Fact>, e: Entry, scopePackage: string)
    ensures |Marked(facts, e, scopePackage)| == |facts|
    ensures forall i :: 0 <= i < |facts| ==> Marked(facts, e, scopePackage)[i] == Row(e.path, e.moduleName, scopePackage, facts[i])
  {
    if facts != [] { MarkedAt(facts[1..], e, scopePackage); }
  }

  lemma {:induction false} ImportsAt(facts: seq<Fact>)
    ensures |ImportsOnly(facts)| == |facts|
    ensures forall i :: 0 <= i < |facts| ==> ImportsOnly(facts)[i] == Imported(facts[i])
  {
    if facts != [] { ImportsAt(facts[1..]); }
  }

  lemma {:induction false} FileGives(e: Entry, f: Facts)
    ensures FileRows(Defines, e, f) == DefinesIn(e, f) && FileRows(Uses, e, f) == UsesIn(e, f)
    ensures FileRows(IoEdges, e, f) == IoEdgesIn(e, f) && FileRows(Imports, e, f) == ImportsIn(e, f)
  {
    MarkedAt(f.defines, e, "");
    MarkedAt(f.uses, e, f.package);
    MarkedAt(f.ioEdges, e, "");
    MarkedAt(ImportsOnly(f.imports), e, "");
    ImportsAt(f.imports);
  }

  // ------------------------------------------------------------------------ rows

  ghost predicate GathersRows(g: Gathered, entries: seq<Entry>, facts: FactsOfEntry) {
    && g.defines == Blocks(entries, Given(facts, DefinesIn)) && g.uses == Blocks(entries, Given(facts, UsesIn))
    && g.ioEdges == Blocks(entries, Given(facts, IoEdgesIn)) && g.imports == Blocks(entries, Given(facts, ImportsIn))
  }

  lemma {:induction false} RowsGather(entries: seq<Entry>, facts: FactsOfEntry, n: nat)
    requires n <= |entries|
    ensures GathersRows(AbsorbedAll(NOTHING, entries, facts, n), entries[..n], facts)
  {
    if n > 0 {
      RowsGather(entries, facts, n - 1);
      var before, e := entries[..n - 1], entries[n - 1];
      assert entries[..n] == before + [e];
      if facts(e).Some? { FileGives(e, facts(e).value); }
      GathersNext(AbsorbedAll(NOTHING, entries, facts, n - 1), AbsorbedAll(NOTHING, entries, facts, n), before, e, facts);
    }
  }

  lemma {:induction false} GathersNext(g: Gathered, more: Gathered, before: seq<Entry>, e: Entry, facts: FactsOfEntry)
    requires GathersRows(g, before, facts)
    requires more.defines == g.defines + Given(facts, DefinesIn)(e) && more.uses == g.uses + Given(facts, UsesIn)(e)
    requires more.ioEdges == g.ioEdges + Given(facts, IoEdgesIn)(e)
    requires more.imports == g.imports + Given(facts, ImportsIn)(e)
    ensures GathersRows(more, before + [e], facts)
  {
    BlocksPush(before, e, Given(facts, DefinesIn));
    BlocksPush(before, e, Given(facts, UsesIn));
    BlocksPush(before, e, Given(facts, IoEdgesIn));
    BlocksPush(before, e, Given(facts, ImportsIn));
  }

  /** Every row given, as often as it is given, and no other; in order of a key and then of the anchor's line. */
  ghost predicate Lists(rows: seq<Row>, entries: seq<Entry>, given: Entry -> seq<Row>, key: Row -> seq<string>) {
    && multiset(rows) == multiset(Blocks(entries, given))
    && forall i, j :: 0 <= i < j < |rows| ==> Before(key, rows[i], rows[j])
  }

  predicate Before(key: Row -> seq<string>, a: Row, b: Row) {
    ListLe(key(a), key(b)) && (key(a) == key(b) ==> a.fact.anchorLine <= b.fact.anchorLine)
  }

  function DefineKey(): Row -> seq<string> {
    (r: Row) => [r.fact.fqn, r.file, r.fact.kind, r.fact.anchorFile]
  }

  function UseKey(): Row -> seq<string> {
    (r: Row) => [r.fact.fqn, r.file, r.fact.anchorFile]
  }

  function IoEdgeKey(): Row -> seq<string> {
    (r: Row) => [r.fact.source, r.fact.target, r.fact.channel, r.file, r.fact.anchorFile]
  }

  function ImportKey(): Row -> seq<string> {
    (r: Row) => [r.file, r.fact.fqn, r.fact.anchorFile]
  }

  lemma {:induction false} SortedLists(kind: Kind, rows: seq<Row>, entries: seq<Entry>, given: Entry -> seq<Row>,
      key: Row -> seq<string>)
    requires rows == Blocks(entries, given) && forall r :: RowKey(kind, r) == key(r)
    ensures Lists(StableSort(rows, RowOrder(kind)), entries, given, key)
  {
    var sorted := StableSort(rows, RowOrder(kind));
    RowOrderIsOrder(kind);
    SortSorts(rows, RowOrder(kind));
    forall i, j | 0 <= i < j < |sorted| ensures Before(key, sorted[i], sorted[j]) {
      assert RowOrder(kind)(sorted[i], sorted[j]);
      ListLeTotal(key(sorted[i]), key(sorted[i]));
    }
  }

  /** A row is listed exactly when some entry gives it. */
  lemma {:induction false} ListedExactly(rows: seq<Row>, entries: seq<Entry>, facts: FactsOfEntry,
      list: (Entry, Facts) -> seq<Row>, key: Row -> seq<string>, row: Row)
    requires Lists(rows, entries, Given(facts, list), key)
    ensures row in rows <==> exists e, f :: e in entries && facts(e) == Some(f) && row in list(e, f)
  {
    var given := Given(facts, list);
    SameMembers(rows, Blocks(entries, given));
    BlocksMembers(entries, given);
    if row in rows {
      var e :| e in entries && row in given(e);
      assert facts(e) == Some(facts(e).value);
    }
    if e, f :| e in entries && facts(e) == Some(f) && row in list(e, f) { assert row in given(e); }
  }

  // ------------------------------------------------------------- per file, per module

  /** The record of the last entry of that path that was not skipped. */
  ghost predicate RecordsFile(entries: seq<Entry>, facts: FactsOfEntry, path: string, r: FileRecord) {
    exists i :: 0 <= i < |entries| && entries[i].path == path && CountsFacts(facts(entries[i]), r)
      && forall j :: i < j < |entries| && entries[j].path == path ==> facts(entries[j]) == None
  }

  predicate CountsFacts(facts: Option<Facts>, r: FileRecord) {
    facts.Some? && r == FileRecord(facts.value.info, facts.value.package, |facts.value.defines|, |facts.value.imports|,
                                   |facts.value.ioEdges|)
  }

  lemma {:induction false} FilesRecorded(entries: seq<Entry>, facts: FactsOfEntry, n: nat, path: string)
    requires n <= |entries|
    ensures var files := AbsorbedAll(NOTHING, entries, facts, n).files;
      && (path in files <==> exists i :: 0 <= i < n && entries[i].path == path && facts(entries[i]).Some?)
      && (path in files ==> RecordsFile(entries[..n], facts, path, files[path]))
  {
    if n > 0 {
      FilesRecorded(entries, facts, n - 1, path);
      var before, e := AbsorbedAll(NOTHING, entries, facts, n - 1).files, entries[n - 1];
      assert entries[..n][n - 1] == e;
      if e.path == path && facts(e).Some? {
        assert RecordsFile(entries[..n], facts, path, Record(facts(e).value));
      } else if path in before {
        StillRecorded(entries, facts, n, path, before[path]);
      }
    }
  }

  lemma {:induction false} StillRecorded(entries: seq<Entry>, facts: FactsOfEntry, n: nat, path: string, r: FileRecord)
    requires 0 < n <= |entries| && RecordsFile(entries[..n - 1], facts, path, r)
    requires entries[n - 1].path == path ==> facts(entries[n - 1]) == None
    ensures RecordsFile(entries[..n], facts, path, r)
  {
    var before, all := entries[..n - 1], entries[..n];
    var i :| 0 <= i < |before| && before[i].path == path && CountsFacts(facts(before[i]), r)
      && forall j :: i < j < |before| && before[j].path == path ==> facts(before[j]) == None;
    assert all[i] == before[i];
    forall j | i < j < |all| && all[j].path == path ensures facts(all[j]) == None {
      if j < |before| { assert all[j] == before[j]; }
    }
  }

  function DeclaredBy(): Facts -> seq<string> {
    (f: Facts) => f.declaredDeps
  }

  function NotedBy(): Facts -> seq<string> {
    (f: Facts) => f.notes
  }

  ghost predicate Says(e: Entry, facts: Option<Facts>, m: string, list: Facts -> seq<string>, x: string) {
    e.moduleName == m && facts.Some? && x in list(facts.value)
  }

  ghost predicate Said(entries: seq<Entry>, facts: FactsOfEntry, m: string, list: Facts -> seq<string>, x: string) {
    exists e :: e in entries && Says(e, facts(e), m, list, x)
  }

  predicate Has(d: map<string, seq<string>>, m: string, x: string) {
    m in d && x in d[m]
  }

  /** Every module with something said of it, and what its files say, sorted, each once. */
  ghost predicate Collects(d: map<string, seq<string>>, entries: seq<Entry>, facts: FactsOfEntry, list: Facts -> seq<string>) {
    && (forall m :: m in d <==> exists x :: Said(entries, facts, m, list, x))
    && (forall m :: m in d ==> StrictlySorted(d[m]))
    && (forall m, x {:trigger Has(d, m, x)} :: Has(d, m, x) <==> Said(entries, facts, m, list, x))
  }

  /** The same before collation. */
  ghost predicate Holds(d: map<string, seq<string>>, entries: seq<Entry>, facts: FactsOfEntry, list: Facts -> seq<string>) {
    && (forall m :: m in d ==> d[m] != [])
    && (forall m, x {:trigger Has(d, m, x)} :: Has(d, m, x) <==> Said(entries, facts, m, list, x))
  }

  lemma {:induction false} ExtendHolds(d: map<string, seq<string>>, entries: seq<Entry>, facts: FactsOfEntry,
      list: Facts -> seq<string>, e: Entry)
    requires Holds(d, entries, facts, list)
    ensures facts(e) == None ==> Holds(d, entries + [e], facts, list)
    ensures facts(e).Some? ==> Holds(Extend(d, e.moduleName, list(facts(e).value)), entries + [e], facts, list)
  {
    var grown := if facts(e).Some? then Extend(d, e.moduleName, list(facts(e).value)) else d;
    forall m, x {:trigger Has(grown, m, x)} ensures Has(grown, m, x) <==> Said(entries + [e], facts, m, list, x) {
      SaidMore(entries, facts, list, e, m, x);
      assert Has(d, m, x) <==> Said(entries, facts, m, list, x);
      assert Has(grown, m, x) <==> Has(d, m, x) || Says(e, facts(e), m, list, x);
    }
  }

  lemma {:induction false} SaidMore(entries: seq<Entry>, facts: FactsOfEntry, list: Facts -> seq<string>, e: Entry,
      m: string, x: string)
    ensures Said(entries + [e], facts, m, list, x) <==> Said(entries, facts, m, list, x) || Says(e, facts(e), m, list, x)
  {
    var all := entries + [e];
    if Says(e, facts(e), m, list, x) { assert e in all; }
    if Said(entries, facts, m, list, x) {
      var a :| a in entries && Says(a, facts(a), m, list, x);
      assert a in all;
    }
  }

  lemma {:induction false} ModulesHold(entries: seq<Entry>, facts: FactsOfEntry, n: nat)
    requires n <= |entries|
    ensures Holds(AbsorbedAll(NOTHING, entries, facts, n).declared, entries[..n], facts, DeclaredBy())
    ensures Holds(AbsorbedAll(NOTHING, entries, facts, n).notes, entries[..n], facts, NotedBy())
  {
    if n > 0 {
      ModulesHold(entries, facts, n - 1);
      var g, e := AbsorbedAll(NOTHING, entries, facts, n - 1), entries[n - 1];
      assert entries[..n] == entries[..n - 1] + [e];
      ExtendHolds(g.declared, entries[..n - 1], facts, DeclaredBy(), e);
      ExtendHolds(g.notes, entries[..n - 1], facts, NotedBy(), e);
    }
  }

  lemma {:induction false} CollationCollects(d: map<string, seq<string>>, entries: seq<Entry>, facts: FactsOfEntry,
      list: Facts -> seq<string>)
    requires Holds(d, entries, facts, list)
    ensures Collects(Collated(d), entries, facts, list)
  {
    var c := Collated(d);
    forall m, x {:trigger Has(c, m, x)} ensures Has(c, m, x) <==> Said(entries, facts, m, list, x) {
      assert Has(d, m, x) <==> Said(entries, facts, m, list, x);
    }
    forall m ensures m in c <==> exists x :: Said(entries, facts, m, list, x) {
      if m in d {
        assert d[m][0] in d[m] && Has(d, m, d[m][0]);
      }
      if x :| Said(entries, facts, m, list, x) { assert Has(d, m, x); }
    }
  }

  // ------------------------------------------------------------------------ the whole

  /** An extraction holds exactly what the extractors returned for the files that were not skipped: each fact in the
  list of its kind, marked with its file and module and, for a use, the package; counts per file and in all; and what
  each module declares and notes. */
  ghost predicate Extracts(x: Extraction, entries: seq<Entry>, facts: FactsOfEntry) {
    && Lists(x.defines, entries, Given(facts, DefinesIn), DefineKey())
    && Lists(x.uses, entries, Given(facts, UsesIn), UseKey())
    && Lists(x.ioEdges, entries, Given(facts, IoEdgesIn), IoEdgeKey())
    && Lists(x.imports, entries, Given(facts, ImportsIn), ImportKey())
    && RecordsFiles(x.files, entries, facts)
    && Collects(x.declaredDeps, entries, facts, DeclaredBy()) && Collects(x.moduleNotes, entries, facts, NotedBy())
    && x.totals == Totals(|x.files|, |x.defines|, |x.uses|, |x.ioEdges|, |x.imports|)
  }

  lemma {:induction false} FullExtracts(head: string, entries: seq<Entry>, facts: FactsOfEntry)
    ensures Extracts(Full(head, entries, facts), entries, facts) && Full(head, entries, facts).head == head
  {
    AllRowsGather(entries, facts);
    AllModulesHold(entries, facts);
    AllFilesRecorded(entries, facts);
    FinishedExtracts(head, AbsorbedAll(NOTHING, entries, facts, |entries|), entries, facts);
  }

  lemma {:induction false} AllRowsGather(entries: seq<Entry>, facts: FactsOfEntry)
    ensures GathersRows(AbsorbedAll(NOTHING, entries, facts, |entries|), entries, facts)
  {
    RowsGather(entries, facts, |entries|);
    assert entries[..|entries|] == entries;
  }

  lemma {:induction false} AllModulesHold(entries: seq<Entry>, facts: FactsOfEntry)
    ensures Holds(AbsorbedAll(NOTHING, entries, facts, |entries|).declared, entries, facts, DeclaredBy())
    ensures Holds(AbsorbedAll(NOTHING, entries, facts, |entries|).notes, entries, facts, NotedBy())
  {
    ModulesHold(entries, facts, |entries|);
    assert entries[..|entries|] == entries;
  }

  ghost predicate RecordsFiles(files: map<string, FileRecord>, entries: seq<Entry>, facts: FactsOfEntry) {
    && (forall p :: p in files <==> exists e :: e in entries && e.path == p && facts(e).Some?)
    && (forall p :: p in files ==> RecordsFile(entries, facts, p, files[p]))
  }

  lemma {:induction false} FinishedExtracts(head: string, g: Gathered, entries: seq<Entry>, facts: FactsOfEntry)
    requires GathersRows(g, entries, facts)
    requires Holds(g.declared, entries, facts, DeclaredBy()) && Holds(g.notes, entries, facts, NotedBy())
    requires RecordsFiles(g.files, entries, facts)
    ensures Extracts(Finished(head, g), entries, facts)
  {
    SortedLists(Defines, g.defines, entries, Given(facts, DefinesIn), DefineKey());
    SortedLists(Uses, g.uses, entries, Given(facts, UsesIn), UseKey());
    SortedLists(IoEdges, g.ioEdges, entries, Given(facts, IoEdgesIn), IoEdgeKey());
    SortedLists(Imports, g.imports, entries, Given(facts, ImportsIn), ImportKey());
    CollationCollects(g.declared, entries, facts, DeclaredBy());
    CollationCollects(g.notes, entries, facts, NotedBy());
  }

  lemma {:induction false} AllFilesRecorded(entries: seq<Entry>, facts: FactsOfEntry)
    ensures RecordsFiles(AbsorbedAll(NOTHING, entries, facts, |entries|).files, entries, facts)
  {
    var files := AbsorbedAll(NOTHING, entries, facts, |entries|).files;
    assert entries[..|entries|] == entries;
    forall p
      ensures p in files <==> exists e :: e in entries && e.path == p && facts(e).Some?
      ensures p in files ==> RecordsFile(entries, facts, p, files[p])
    {
      FilesRecorded(entries, facts, |entries|, p);
      if e :| e in entries && e.path == p && facts(e).Some? {
        var i :| 0 <= i < |entries| && entries[i] == e;
      }
    }
  }

  /** What is read of a working tree: text files of at most two million bytes that have lines. */
  predicate IsRead(tree: Tree, e: Entry) {
    !e.binary && e.bytes <= 2_000_000 && tree(e.path) != []
  }

  ghost function Reading(extract: Extractor, tree: Tree): FactsOfEntry {
    (e: Entry) => FactsOf(extract, tree, e)
  }

  /** Run over a working tree, a row is listed exactly when the extractor returned its fact for a file that is read. */
  lemma {:induction false} ReadExactly(extract: Extractor, tree: Tree, rows: seq<Row>, entries: seq<Entry>,
      list: (Entry, Facts) -> seq<Row>, key: Row -> seq<string>, row: Row)
    requires Lists(rows, entries, Given(Reading(extract, tree), list), key)
    ensures row in rows
      <==> exists e :: e in entries && IsRead(tree, e) && row in list(e, extract(e.path, tree(e.path), e.moduleName))
  {
    var facts := Reading(extract, tree);
    ListedExactly(rows, entries, facts, list, key, row);
    if row in rows {
      var e, f :| e in entries && facts(e) == Some(f) && row in list(e, f);
      assert IsRead(tree, e) && f == extract(e.path, tree(e.path), e.moduleName);
    }
    if e :| e in entries && IsRead(tree, e) && row in list(e, extract(e.path, tree(e.path), e.moduleName)) {
      assert facts(e) == Some(extract(e.path, tree(e.path), e.moduleName));
    }
  }
}
