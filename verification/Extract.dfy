/** The extraction driver (cdp/extract.py:50-201): one pass over the inventory, then a stable sort. */
module Extract {
  import opened Options
  import opened Orders

  const MAX_PARSE_BYTES := 2_000_000

  /** A row as a language extractor emits it; `extra` stands for the fields the driver only copies. */
  datatype Fact = Fact(fqn: string, kind: string, source: string, target: string, channel: string,
                       anchorFile: string, anchorLine: int, extra: string)

  /** A row of the extraction: the fact, and where it was found. */
  datatype Row = Row(file: string, moduleName: string, scopePackage: string, fact: Fact)

  /** What `extract_file` returns for one file; `info` stands for language, primary, loc and signals. */
  datatype Facts = Facts(package: string, info: string, defines: seq<Fact>, uses: seq<Fact>, ioEdges: seq<Fact>,
                         imports: seq<Fact>, declaredDeps: seq<string>, notes: seq<string>)

  datatype Entry = Entry(path: string, moduleName: string, binary: bool, bytes: nat)

  datatype FileRecord = FileRecord(info: string, package: string, defines: nat, imports: nat, ioEdges: nat)

  datatype Kind = Defines | Uses | IoEdges | Imports

  datatype Totals = Totals(parsedFiles: nat, defines: nat, uses: nat, ioEdges: nat, imports: nat)

  /** What one pass has gathered so far. */
  datatype Gathered = Gathered(defines: seq<Row>, uses: seq<Row>, ioEdges: seq<Row>, imports: seq<Row>,
                               files: map<string, FileRecord>, declared: map<string, seq<string>>,
                               notes: map<string, seq<string>>)

  datatype Extraction = Extraction(head: string, files: map<string, FileRecord>, defines: seq<Row>, uses: seq<Row>,
                                   ioEdges: seq<Row>, imports: seq<Row>, declaredDeps: map<string, seq<string>>,
                                   moduleNotes: map<string, seq<string>>, totals: Totals)

  /** A working tree: the lines of each file. An extractor is any function of path, lines and module. */
  type Tree = string -> seq<string>

  type Extractor = (string, seq<string>, string) -> Facts

  /** What an entry contributes: nothing when it is binary, too large or has no lines. */
  function FactsOf(extract: Extractor, tree: Tree, e: Entry): Option<Facts> {
    if e.binary || e.bytes > MAX_PARSE_BYTES || tree(e.path) == [] then None
    else Some(extract(e.path, tree(e.path), e.moduleName))
  }

  // ------------------------------------------------------------------- absorbing

  function Marked(facts: seq<Fact>, e: Entry, scopePackage: string): (r: seq<Row>)
    ensures forall row :: row in r ==> row.file == e.path
  {
    if facts == [] then [] else [Row(e.path, e.moduleName, scopePackage, facts[0])] + Marked(facts[1..], e, scopePackage)
  }

  /** Import rows keep only the name, the line and the anchor. */
  function ImportsOnly(facts: seq<Fact>): seq<Fact> {
    if facts == [] then []
    else [facts[0].(kind := "", source := "", target := "", channel := "")] + ImportsOnly(facts[1..])
  }

  /** The rows of one kind that a file gives. */
  function FileRows(kind: Kind, e: Entry, f: Facts): (r: seq<Row>)
    ensures forall row :: row in r ==> row.file == e.path
  {
    match kind
    case Defines => Marked(f.defines, e, "")
    case Uses => Marked(f.uses, e, f.package)
    case IoEdges => Marked(f.ioEdges, e, "")
    case Imports => Marked(ImportsOnly(f.imports), e, "")
  }

  function Record(f: Facts): FileRecord {
    FileRecord(f.info, f.package, |f.defines|, |f.imports|, |f.ioEdges|)
  }

  /** `d.setdefault(m, []).extend(more)`, done only when there is more. */
  function Extend(d: map<string, seq<string>>, m: string, more: seq<string>): map<string, seq<string>> {
    if more == [] then d else d[m := (if m in d then d[m] else []) + more]
  }

  function Absorbed(g: Gathered, e: Entry, f: Facts): Gathered {
    Gathered(g.defines + FileRows(Defines, e, f), g.uses + FileRows(Uses, e, f), g.ioEdges + FileRows(IoEdges, e, f),
             g.imports + FileRows(Imports, e, f), g.files[e.path := Record(f)],
             Extend(g.declared, e.moduleName, f.declaredDeps), Extend(g.notes, e.moduleName, f.notes))
  }

  function AbsorbedAll(g: Gathered, entries: seq<Entry>, facts: Entry -> Option<Facts>, n: nat): Gathered
    requires n <= |entries|
  {
    if n == 0 then g
    else AbsorbedIf(AbsorbedAll(g, entries, facts, n - 1), entries[n - 1], facts(entries[n - 1]))
  }

  function AbsorbedIf(g: Gathered, e: Entry, facts: Option<Facts>): Gathered {
    match facts case None => g case Some(f) => Absorbed(g, e, f)
  }

  /** The accumulators that `_absorb` appends to. */
  class Accumulators {
    var defines: seq<Row>
    var uses: seq<Row>
    var ioEdges: seq<Row>
    var imports: seq<Row>
    var files: map<string, FileRecord>
    var declared: map<string, seq<string>>
    var notes: map<string, seq<string>>

    constructor (g: Gathered)
      ensures Contents() == g
    {
      defines, uses, ioEdges, imports := g.defines, g.uses, g.ioEdges, g.imports;
      files, declared, notes := g.files, g.declared, g.notes;
    }

    function Contents(): Gathered
      reads this
    {
      Gathered(defines, uses, ioEdges, imports, files, declared, notes)
    }

    method AbsorbDefines(e: Entry, f: Facts)
      modifies `defines
      ensures defines == old(defines) + FileRows(Defines, e, f)
    {
      for i := 0 to |f.defines|
        invariant defines + Marked(f.defines[i..], e, "") == old(defines) + Marked(f.defines, e, "")
      {
        defines := defines + [Row(e.path, e.moduleName, "", f.defines[i])];
        assert f.defines[i..][1..] == f.defines[i + 1..];
      }
    }

    method AbsorbUses(e: Entry, f: Facts)
      modifies `uses
      ensures uses == old(uses) + FileRows(Uses, e, f)
    {
      for i := 0 to |f.uses|
        invariant uses + Marked(f.uses[i..], e, f.package) == old(uses) + Marked(f.uses, e, f.package)
      {
        uses := uses + [Row(e.path, e.moduleName, f.package, f.uses[i])];
        assert f.uses[i..][1..] == f.uses[i + 1..];
      }
    }

    method AbsorbIoEdges(e: Entry, f: Facts)
      modifies `ioEdges
      ensures ioEdges == old(ioEdges) + FileRows(IoEdges, e, f)
    {
      for i := 0 to |f.ioEdges|
        invariant ioEdges + Marked(f.ioEdges[i..], e, "") == old(ioEdges) + Marked(f.ioEdges, e, "")
      {
        ioEdges := ioEdges + [Row(e.path, e.moduleName, "", f.ioEdges[i])];
        assert f.ioEdges[i..][1..] == f.ioEdges[i + 1..];
      }
    }

    method AbsorbImports(e: Entry, f: Facts)
      modifies `imports
      ensures imports == old(imports) + FileRows(Imports, e, f)
    {
      var kept := ImportsOnly(f.imports);
      for i := 0 to |kept|
        invariant imports + Marked(kept[i..], e, "") == old(imports) + Marked(kept, e, "")
      {
        imports := imports + [Row(e.path, e.moduleName, "", kept[i])];
        assert kept[i..][1..] == kept[i + 1..];
      }
    }

    /** `_absorb`. */
    method Absorb(e: Entry, f: Facts)
      modifies this
      ensures Contents() == Absorbed(old(Contents()), e, f)
    {
      AbsorbDefines(e, f);
      AbsorbUses(e, f);
      AbsorbIoEdges(e, f);
      AbsorbImports(e, f);
      declared := Extend(declared, e.moduleName, f.declaredDeps);
      notes := Extend(notes, e.moduleName, f.notes);
      files := files[e.path := Record(f)];
    }
  }

  // --------------------------------------------------------------------- sorting

  /** The string fields of a kind's sort key, then the anchor's file. */
  function RowKey(kind: Kind, r: Row): seq<string> {
    match kind
    case Defines => [r.fact.fqn, r.file, r.fact.kind, r.fact.anchorFile]
    case Uses => [r.fact.fqn, r.file, r.fact.anchorFile]
    case IoEdges => [r.fact.source, r.fact.target, r.fact.channel, r.file, r.fact.anchorFile]
    case Imports => [r.file, r.fact.fqn, r.fact.anchorFile]
  }

  function RowOrder(kind: Kind): (Row, Row) -> bool {
    (a, b) =>
      if RowKey(kind, a) == RowKey(kind, b) then a.fact.anchorLine <= b.fact.anchorLine
      else ListLe(RowKey(kind, a), RowKey(kind, b))
  }

  lemma {:induction false} RowOrderTransitive(kind: Kind, a: Row, b: Row, c: Row)
    requires RowOrder(kind)(a, b) && RowOrder(kind)(b, c)
    ensures RowOrder(kind)(a, c)
  {
    var ka, kb, kc := RowKey(kind, a), RowKey(kind, b), RowKey(kind, c);
    if ka != kb && kb != kc {
      ListLeTransitive(ka, kb, kc);
      if ka == kc { ListLeAntisymmetric(ka, kb); }
    }
  }

  lemma {:induction false} RowOrderIsOrder(kind: Kind)
    ensures TotalPreorder(RowOrder(kind))
  {
    var le := RowOrder(kind);
    forall a, b ensures le(a, b) || le(b, a) { ListLeTotal(RowKey(kind, a), RowKey(kind, b)); }
    forall a, b, c | le(a, b) && le(b, c) ensures le(a, c) { RowOrderTransitive(kind, a, b, c); }
  }

  /** Every sort key holds the file, so only rows of one file can tie. */
  lemma {:induction false} TiesLieInOneFile(kind: Kind, a: Row, b: Row)
    requires Tied(a, b, RowOrder(kind))
    ensures a.file == b.file
  {
    var ka, kb := RowKey(kind, a), RowKey(kind, b);
    if ka != kb { ListLeAntisymmetric(ka, kb); }
    assert ka == kb;
    assert ka[0] == kb[0] && ka[1] == kb[1];
    if kind == IoEdges { assert ka[3] == kb[3]; }
  }

  // ------------------------------------------------------------------ the result

  /** `{k: sorted(set(v)) for k, v in sorted(d.items())}`. */
  function Collated(d: map<string, seq<string>>): map<string, seq<string>> {
    map m | m in d :: SortedSet(set x | x in d[m])
  }

  function Finished(head: string, g: Gathered): Extraction {
    Extraction(head, g.files, StableSort(g.defines, RowOrder(Defines)), StableSort(g.uses, RowOrder(Uses)),
               StableSort(g.ioEdges, RowOrder(IoEdges)), StableSort(g.imports, RowOrder(Imports)),
               Collated(g.declared), Collated(g.notes),
               Totals(|g.files|, |g.defines|, |g.uses|, |g.ioEdges|, |g.imports|))
  }

  const NOTHING := Gathered([], [], [], [], map[], map[], map[])

  function Full(head: string, entries: seq<Entry>, facts: Entry -> Option<Facts>): Extraction {
    Finished(head, AbsorbedAll(NOTHING, entries, facts, |entries|))
  }

  /** `run_extract`. */
  method RunExtract(extract: Extractor, tree: Tree, head: string, entries: seq<Entry>) returns (out: Extraction)
    ensures out == Full(head, entries, (e: Entry) => FactsOf(extract, tree, e))
  {
    ghost var facts := (e: Entry) => FactsOf(extract, tree, e);
    var acc := new Accumulators(NOTHING);
    for i := 0 to |entries|
      invariant acc.Contents() == AbsorbedAll(NOTHING, entries, facts, i)
    {
      AbsorbEntry(extract, tree, entries[i], acc);
    }
    out := Finished(head, acc.Contents());
  }

  /** One entry: skipped when it is binary, too large or without lines. */
  method AbsorbEntry(extract: Extractor, tree: Tree, e: Entry, acc: Accumulators)
    modifies acc
    ensures acc.Contents() == AbsorbedIf(old(acc.Contents()), e, FactsOf(extract, tree, e))
  {
    if e.binary || e.bytes > MAX_PARSE_BYTES { return; }
    var lines := tree(e.path);
    if lines == [] { return; }
    acc.Absorb(e, extract(e.path, lines, e.moduleName));
  }
}
