/** Building and verifying span anchors (cdp/anchor.py:137-233), and the round trip between them. */
module Citations {
  import opened Options
  import opened Anchors
  import opened AnchorSearch
  import opened Merge
  import opened Text

  datatype Fault = NotFound | Ambiguous | TooCommon

  /** `verify_anchor`'s triple. */
  datatype Finding = Finding(ok: bool, line: int, reason: Option<Fault>)

  // -------------------------------------------------------------- hits as a set

  /** Every line on which the text begins. */
  ghost function Hits(lines: seq<string>, text: string): set<int> {
    set n | 1 <= n <= |lines| && BeginsAt(lines, text, MAX_SPAN, n)
  }

  predicate Close(line: int, cited: int) {
    -LINE_WINDOW <= line - cited <= LINE_WINDOW
  }

  ghost function Near(hits: set<int>, cited: int): set<int> {
    set h | h in hits && Close(h, cited)
  }

  ghost predicate Lists(s: seq<nat>, all: set<int>) {
    Ascending(s) && forall n: int :: n in all <==> n in s
  }

  lemma {:induction false} ListedCount(s: seq<nat>, all: set<int>)
    requires Lists(s, all)
    ensures |s| == |all|
  {
    if s == [] {
      forall n: int ensures n !in all { assert n in all <==> n in s; }
    } else {
      var last: int := s[|s| - 1];
      var rest := s[..|s| - 1];
      assert s == rest + [s[|s| - 1]];
      assert forall n: int :: n in rest <==> n in all && n != last;
      ListedCount(rest, all - {last});
    }
  }

  /** `[h for h in hits if abs(h - cited) <= LINE_WINDOW]`. */
  method NearHits(hits: seq<nat>, cited: int, ghost all: set<int>) returns (near: seq<nat>)
    requires Lists(hits, all)
    ensures Lists(near, Near(all, cited)) && |near| == |Near(all, cited)|
  {
    near := [];
    for i := 0 to |hits|
      invariant Ascending(near) && (near != [] && i < |hits| ==> near[|near| - 1] < hits[i])
      invariant forall n: int :: n in near <==> Close(n, cited) && n in hits[..i]
    {
      if -LINE_WINDOW <= hits[i] - cited <= LINE_WINDOW { near := near + [hits[i]]; }
      assert hits[..i + 1] == hits[..i] + [hits[i]];
    }
    assert hits[..|hits|] == hits;
    ListedCount(near, Near(all, cited));
  }

  method MatchingLines(lines: seq<string>, text: string) returns (hits: seq<nat>)
    ensures Lists(hits, Hits(lines, text)) && |hits| == |Hits(lines, text)|
  {
    hits := FindMatches(lines, text, MAX_SPAN);
    forall n: int ensures n in Hits(lines, text) <==> n in hits {
      assert n in hits <==> BeginsAt(lines, text, MAX_SPAN, n);
    }
    ListedCount(hits, Hits(lines, text));
  }

  // ------------------------------------------------------------------- verifying

  /** The finding the hit lines call for. */
  ghost predicate IsFinding(lines: seq<string>, a: Anchor, v: Finding) {
    var hits := Hits(lines, a.text);
    var near := Near(hits, a.line);
    if |Normalise(a.text)| < MIN_ANCHOR_LEN || hits == {} then v == Finding(false, a.line, Some(NotFound))
    else if |hits| > MAX_MATCHES_IN_FILE then v == Finding(false, a.line, Some(TooCommon))
    else if near == {} then v == Finding(false, a.line, Some(NotFound))
    else if |near| > 1 then v == Finding(false, a.line, Some(Ambiguous))
    else v.ok && v.reason == None && near == {v.line}
  }

  method VerifyAnchor(lines: seq<string>, a: Anchor) returns (v: Finding)
    ensures IsFinding(lines, a, v)
  {
    if |Normalise(a.text)| < MIN_ANCHOR_LEN { return Finding(false, a.line, Some(NotFound)); }
    var hits := MatchingLines(lines, a.text);
    if hits == [] { return Finding(false, a.line, Some(NotFound)); }
    if |hits| > MAX_MATCHES_IN_FILE { return Finding(false, a.line, Some(TooCommon)); }
    var near := NearHits(hits, a.line, Hits(lines, a.text));
    if near == [] { return Finding(false, a.line, Some(NotFound)); }
    if |near| > 1 { return Finding(false, a.line, Some(Ambiguous)); }
    assert Near(Hits(lines, a.text), a.line) == {near[0] as int};
    v := Finding(true, near[0], None);
  }

  ghost function FindingOf(lines: seq<string>, a: Anchor): (v: Finding)
    ensures IsFinding(lines, a, v)
  {
    var hits := Hits(lines, a.text);
    var near := Near(hits, a.line);
    if |Normalise(a.text)| < MIN_ANCHOR_LEN || hits == {} then Finding(false, a.line, Some(NotFound))
    else if |hits| > MAX_MATCHES_IN_FILE then Finding(false, a.line, Some(TooCommon))
    else if near == {} then Finding(false, a.line, Some(NotFound))
    else if |near| > 1 then Finding(false, a.line, Some(Ambiguous))
    else
      var h :| h in near;
      assert near == near - {h} + {h} && |near - {h}| == 0;
      Finding(true, h, None)
  }

  /** There is one finding for an anchor. */
  lemma {:induction false} FindingIsUnique(lines: seq<string>, a: Anchor, v: Finding, w: Finding)
    requires IsFinding(lines, a, v) && IsFinding(lines, a, w)
    ensures v == w
  {
    if v.ok && w.ok { assert w.line in {v.line}; }
  }

  /** An accepted anchor begins on the returned line, at most `LINE_WINDOW` from the cited one. */
  lemma {:induction false} AcceptedIsCited(lines: seq<string>, a: Anchor, v: Finding)
    requires IsFinding(lines, a, v) && v.ok
    ensures BeginsAt(lines, a.text, MAX_SPAN, v.line) && Close(v.line, a.line)
    ensures |Normalise(a.text)| >= MIN_ANCHOR_LEN
  {
    assert v.line in Near(Hits(lines, a.text), a.line);
  }

  lemma {:induction false} NearIsOne(hits: set<int>, line: int)
    requires line in hits
    ensures |Near(hits, line)| >= 1
    ensures |Near(hits, line)| == 1 <==> forall h :: h in hits && Close(h, line) ==> h == line
    ensures |Near(hits, line)| == 1 ==> Near(hits, line) == {line}
  {
    var near := Near(hits, line);
    assert line in near;
    var others := near - {line};
    assert near == others + {line};
    assert |near| == |others| + 1;
    if |near| == 1 {
      assert others == {};
      forall h | h in hits && Close(h, line) ensures h == line { assert h in near; }
    } else {
      var h :| h in others;
      assert h in hits && Close(h, line) && h != line;
    }
  }

  /** Verifying again with the corrected line succeeds exactly when no other hit is close to that line; a
  relocated anchor can therefore become ambiguous. */
  lemma {:induction false} ReverifiesExactly(lines: seq<string>, a: Anchor, v: Finding, w: Finding)
    requires IsFinding(lines, a, v) && v.ok && IsFinding(lines, a.(line := v.line), w)
    ensures w.ok <==> forall h :: h in Hits(lines, a.text) && Close(h, v.line) ==> h == v.line
    ensures w.ok ==> w.line == v.line
    ensures !w.ok ==> w.reason == Some(Ambiguous)
    ensures v.line == a.line ==> w == v
  {
    assert v.line in Near(Hits(lines, a.text), a.line);
    NearIsOne(Hits(lines, a.text), v.line);
    if w.ok { assert w.line in {v.line}; }
    if v.line == a.line { FindingIsUnique(lines, a, v, w); }
  }

  // ------------------------------------------------------------- a text found twice

  /** Fifteen lines, blank but for the tenth and the last, which hold the text. */
  function FoundTwice(text: string): seq<string> {
    seq(15, i => if i == 9 || i == 14 then text else "")
  }

  lemma {:induction false} SolidIsNormal(text: string)
    requires text != "" && Solid(text)
    ensures Normalise(text) == text
  {
    WordsOfSolid(text);
  }

  lemma {:induction false} FoundOn(text: string, n: int)
    requires text != "" && Solid(text)
    ensures BeginsAt(FoundTwice(text), text, MAX_SPAN, n) <==> n == 10 || n == 15
  {
    var lines := FoundTwice(text);
    SolidIsNormal(text);
    if n == 10 || n == 15 {
      LoneLineBegins(lines, text, n);
    } else if 1 <= n <= 15 {
      assert lines[n - 1] == "" && Normalise("") == "";
    }
  }

  lemma {:induction false} LoneLineBegins(lines: seq<string>, text: string, n: nat)
    requires 1 <= n <= |lines| && lines[n - 1] == text != "" && Normalise(text) == text
    ensures BeginsAt(lines, text, MAX_SPAN, n)
  {
    SpanOfOne(lines, n - 1);
    var line := SpanBegins(lines, n - 1, n);
  }

  lemma {:induction false} SpanOfOne(lines: seq<string>, i: nat)
    requires i < |lines|
    ensures SpanText(lines, i, i + 1) == Normalise(lines[i])
  {
    JoinOfOne(lines[i..i + 1]);
  }

  lemma {:induction false} JoinOfOne(texts: seq<string>)
    requires |texts| == 1
    ensures Join(texts) == texts[0]
  {
  }

  lemma {:induction false} FoundTwiceHits(text: string)
    requires text != "" && Solid(text)
    ensures Hits(FoundTwice(text), text) == {10, 15}
  {
    forall n ensures n in Hits(FoundTwice(text), text) <==> n == 10 || n == 15 { FoundOn(text, n); }
  }

  lemma {:induction false} NearTwo()
    ensures Near({10, 15}, 5) == {10} && Near({10, 15}, 10) == {10, 15}
  {
  }

  lemma {:induction false} TwoHitsFindings(lines: seq<string>, text: string, a: Anchor, b: Anchor, v: Finding, w: Finding)
    requires Hits(lines, text) == {10, 15} && |Normalise(text)| >= MIN_ANCHOR_LEN
    requires a.text == b.text == text && a.line == 5 && b.line == v.line
    requires IsFinding(lines, a, v) && IsFinding(lines, b, w)
    ensures v == Finding(true, 10, None) && w == Finding(false, 10, Some(Ambiguous))
  {
    NearTwo();
    assert |{10, 15}| == 2 && |{10}| == 1;
    assert v.line in {10};
  }

  /** The text is cited on line 5 and found on lines 10 and 15. It is accepted, and corrected to line 10; cited there,
  it is ambiguous. */
  lemma {:induction false} RelocatedBecomesAmbiguous(file: string, text: string, v: Finding, w: Finding)
    requires Solid(text) && |text| >= MIN_ANCHOR_LEN
    requires IsFinding(FoundTwice(text), Anchor(file, 5, text), v)
    requires IsFinding(FoundTwice(text), Anchor(file, v.line, text), w)
    ensures v == Finding(true, 10, None) && w == Finding(false, 10, Some(Ambiguous))
  {
    SolidIsNormal(text);
    FoundTwiceHits(text);
    TwoHitsFindings(FoundTwice(text), text, Anchor(file, 5, text), Anchor(file, v.line, text), v, w);
  }

  // -------------------------------------------------------------------- building

  ghost predicate Qualified(lines: seq<string>, text: string, line: int) {
    && MIN_ANCHOR_LEN <= |text| <= MAX_ANCHOR_LEN
    && 1 <= |Hits(lines, text)| <= MAX_MATCHES_IN_FILE
    && |Near(Hits(lines, text), line)| == 1
  }

  method Qualifies(lines: seq<string>, text: string, line: int) returns (ok: bool)
    ensures ok <==> Qualified(lines, text, line)
  {
    if |text| < MIN_ANCHOR_LEN || |text| > MAX_ANCHOR_LEN { return false; }
    var hits := MatchingLines(lines, text);
    if !(1 <= |hits| <= MAX_MATCHES_IN_FILE) { return false; }
    var near := NearHits(hits, line, Hits(lines, text));
    ok := |near| == 1;
  }

  /** The lines `lo` up to `hi`, as a text. */
  function SpanText(lines: seq<string>, lo: nat, hi: nat): string
    requires lo <= hi <= |lines|
  {
    Normalise(Join(lines[lo..hi]))
  }

  ghost predicate SpanQualifies(lines: seq<string>, lo: nat, hi: nat) {
    lo < hi <= |lines| && Qualified(lines, SpanText(lines, lo, hi), lo + 1)
  }

  /** Which spans qualify. */
  ghost function Quals(lines: seq<string>): (int, int) -> bool {
    (lo: int, hi: int) => 0 <= lo && 0 <= hi && SpanQualifies(lines, lo, hi)
  }

  ghost predicate Decides(lines: seq<string>, q: (int, int) -> bool) {
    forall lo: nat, hi: nat {:trigger SpanQualifies(lines, lo, hi)} :: q(lo, hi) <==> SpanQualifies(lines, lo, hi)
  }

  /** The spans that are tried: downward from `index`, then upward to it. */
  predicate Tried(n: nat, index: int, maxSpan: int, lo: int, hi: int) {
    0 <= lo <= index < hi <= n && hi - lo <= maxSpan && (lo == index || hi == index + 1)
  }

  /** The order in which they are tried. */
  predicate TriedBefore(index: int, lo: int, hi: int, lo2: int, hi2: int) {
    if lo == index then hi < hi2 || lo2 < index else lo2 < lo
  }

  ghost predicate NoneBefore(q: (int, int) -> bool, n: nat, index: int, maxSpan: int, lo: int, hi: int) {
    forall lo2, hi2 {:trigger q(lo2, hi2)} ::
      Tried(n, index, maxSpan, lo2, hi2) && TriedBefore(index, lo2, hi2, lo, hi) ==> !q(lo2, hi2)
  }

  ghost predicate FirstSpan(q: (int, int) -> bool, n: nat, index: int, maxSpan: int, lo: int, hi: int) {
    Tried(n, index, maxSpan, lo, hi) && q(lo, hi) && NoneBefore(q, n, index, maxSpan, lo, hi)
  }

  ghost predicate NoSpan(q: (int, int) -> bool, n: nat, index: int, maxSpan: int) {
    forall lo, hi {:trigger q(lo, hi)} :: Tried(n, index, maxSpan, lo, hi) ==> !q(lo, hi)
  }

  ghost predicate AnchorOf(lines: seq<string>, file: string, lo: int, hi: int, a: Anchor) {
    0 <= lo <= hi <= |lines| && a == Anchor(file, lo + 1, SpanText(lines, lo, hi))
  }

  /** The anchor of the first span, in the order tried, that qualifies; None if none does. */
  ghost predicate FirstQualifying(lines: seq<string>, file: string, index: int, maxSpan: int, out: Option<Anchor>) {
    match out
    case None => NoSpan(Quals(lines), |lines|, index, maxSpan)
    case Some(a) => exists lo, hi {:trigger AnchorOf(lines, file, lo, hi, a)} ::
      FirstSpan(Quals(lines), |lines|, index, maxSpan, lo, hi) && AnchorOf(lines, file, lo, hi, a)
  }

  method TrySpan(file: string, lines: seq<string>, lo: nat, hi: nat, ghost q: (int, int) -> bool)
      returns (out: Option<Anchor>)
    requires lo < hi <= |lines| && Decides(lines, q)
    ensures out.Some? <==> q(lo, hi)
    ensures out.Some? ==> AnchorOf(lines, file, lo, hi, out.value)
  {
    var text := SpanText(lines, lo, hi);
    var ok := Qualifies(lines, text, lo + 1);
    assert SpanQualifies(lines, lo, hi) <==> ok;
    out := if ok then Some(Anchor(file, lo + 1, text)) else None;
  }

  /** Grow downward: the shortest span from `index` that qualifies. */
  method GrowDown(file: string, lines: seq<string>, index: nat, maxSpan: int, ghost q: (int, int) -> bool)
      returns (out: Option<Anchor>, ghost hi: int)
    requires index < |lines| && Decides(lines, q)
    ensures out.None? ==> forall h :: index < h <= |lines| && h <= index + maxSpan ==> !q(index, h)
    ensures out.Some? ==> AnchorOf(lines, file, index, hi, out.value)
    ensures out.Some? ==> FirstSpan(q, |lines|, index, maxSpan, index, hi)
  {
    var width := 1;
    while width <= maxSpan && index + width <= |lines|
      invariant 1 <= width && forall h :: index < h < index + width ==> !q(index, h)
    {
      hi := index + width;
      out := TrySpan(file, lines, index, index + width, q);
      if out.Some? { return; }
      width := width + 1;
    }
    out, hi := None, 0;
  }

  /** Grow upward: the shortest span of two or more lines that ends on `index` and qualifies. */
  method GrowUp(file: string, lines: seq<string>, index: nat, maxSpan: int, ghost q: (int, int) -> bool)
      returns (out: Option<Anchor>, ghost lo: int)
    requires index < |lines| && Decides(lines, q)
    requires forall h :: index < h <= |lines| && h <= index + maxSpan ==> !q(index, h)
    ensures out.None? ==> NoSpan(q, |lines|, index, maxSpan)
    ensures out.Some? ==> AnchorOf(lines, file, lo, index + 1, out.value)
    ensures out.Some? ==> FirstSpan(q, |lines|, index, maxSpan, lo, index + 1)
  {
    var width := 2;
    while width <= maxSpan && 0 <= index - width + 1
      invariant 2 <= width
      invariant forall l, h {:trigger q(l, h)} :: index - width + 1 < l < index && h == index + 1 ==> !q(l, h)
    {
      var start := index - width + 1;
      lo := start;
      out := TrySpan(file, lines, start, index + 1, q);
      if out.Some? { return; }
      width := width + 1;
    }
    out, lo := None, 0;
  }

  method BuildAnchor(file: string, lines: seq<string>, index: int, maxSpan: int) returns (out: Option<Anchor>)
    ensures FirstQualifying(lines, file, index, maxSpan, out)
  {
    if !(0 <= index < |lines|) { return None; }
    ghost var hi, lo;
    out, hi := GrowDown(file, lines, index, maxSpan, Quals(lines));
    if out.Some? { return; }
    out, lo := GrowUp(file, lines, index, maxSpan, Quals(lines));
  }

  // ------------------------------------------------------------------ round trip

  /** Whatever `build_anchor` returns, at any span limit, `verify_anchor` accepts on the same lines. */
  lemma {:induction false} BuiltVerifies(lines: seq<string>, file: string, index: int, maxSpan: int, a: Anchor,
      v: Finding)
    requires FirstQualifying(lines, file, index, maxSpan, Some(a)) && IsFinding(lines, a, v)
    ensures v.ok
  {
    var lo, hi :| FirstSpan(Quals(lines), |lines|, index, maxSpan, lo, hi) && AnchorOf(lines, file, lo, hi, a);
    NormaliseIdempotent(Join(lines[lo..hi]));
  }

  /** `line` (1-based) is the first line after `lo` that is not blank. */
  predicate FirstSolidLine(lines: seq<string>, lo: nat, line: int) {
    && lo < line <= |lines| && Normalise(lines[line - 1]) != ""
    && forall m :: lo <= m < line - 1 ==> Normalise(lines[m]) == ""
  }

  lemma {:induction false} JoinPrefix(texts: seq<string>, k: nat, e: nat, more: nat)
    requires k < e <= more <= |texts|
    ensures Join(texts[k..e]) <= Join(texts[k..more])
  {
    assert texts[k..more][..e - k] == texts[k..e];
    JoinTake(texts[k..more], e - k);
  }

  lemma {:induction false} EntriesGrow(lines: seq<string>, i: nat, j: nat)
    requires i <= j <= |lines|
    ensures EntriesUpTo(lines, i) <= EntriesUpTo(lines, j) <= |Texts(lines, |lines|)|
  {
    NumbersSplit(lines, i, j);
    NumbersSplit(lines, j, |lines|);
  }

  /** The first entry beyond line `lo` is on the first line after it that is not blank. */
  lemma {:induction false} FirstEntryAfter(lines: seq<string>, lo: nat, k: nat)
    requires lo <= |lines| && k == EntriesUpTo(lines, lo) && k < |Numbers(lines, |lines|)|
    ensures FirstSolidLine(lines, lo, Numbers(lines, |lines|)[k])
  {
    var line := Numbers(lines, |lines|)[k];
    EntryUpTo(lines, lo, k);
    EntryIsSolid(lines, k);
    BlankBefore(lines, lo, k, line);
  }

  lemma {:induction false} EntryIsSolid(lines: seq<string>, k: nat)
    requires k < |Numbers(lines, |lines|)|
    ensures Normalise(lines[Numbers(lines, |lines|)[k] - 1]) != ""
  {
    EntryText(lines, |lines|, k);
  }

  lemma {:induction false} BlankBefore(lines: seq<string>, lo: nat, k: nat, line: nat)
    requires lo < line <= |lines| && k == EntriesUpTo(lines, lo) && k < |Numbers(lines, |lines|)|
    requires line == Numbers(lines, |lines|)[k]
    ensures forall m :: lo <= m < line - 1 ==> Normalise(lines[m]) == ""
  {
    forall m: nat | lo <= m < line - 1 ensures Normalise(lines[m]) == "" {
      if Normalise(lines[m]) != "" { LaterEntry(lines, lo, k, m); }
    }
  }

  lemma {:induction false} LaterEntry(lines: seq<string>, lo: nat, k: nat, m: nat)
    requires lo <= m < |lines| && k == EntriesUpTo(lines, lo) && k < |Numbers(lines, |lines|)|
    requires Normalise(lines[m]) != ""
    ensures Numbers(lines, |lines|)[k] <= m + 1
  {
    var j := LineHasEntry(lines, |lines|, m + 1);
    EntryUpTo(lines, lo, j);
  }

  /** A span that is not blank is the join of the entries in it. */
  lemma {:induction false} SpanIsRun(lines: seq<string>, lo: nat, hi: nat, k: nat, e: nat)
    requires lo <= hi <= |lines| && SpanText(lines, lo, hi) != ""
    requires k == EntriesUpTo(lines, lo) && e == EntriesUpTo(lines, hi)
    ensures k < e <= |Texts(lines, |lines|)| && SpanText(lines, lo, hi) == Join(Texts(lines, |lines|)[k..e])
  {
    WindowIsRun(lines, lo, hi);
    EntriesGrow(lines, lo, hi);
  }

  /** The window that starts on an entry's line starts with every shorter run from that entry. */
  lemma {:induction false} WindowStartsWithRun(lines: seq<string>, k: nat, hi: nat, e: nat)
    requires hi <= |lines| && k < e == EntriesUpTo(lines, hi) && e <= |Numbers(lines, |lines|)|
    requires hi <= Numbers(lines, |lines|)[k] - 1 + MAX_SPAN
    ensures Join(Texts(lines, |lines|)[k..e]) <= WindowText(lines, Numbers(lines, |lines|)[k] - 1, MAX_SPAN)
  {
    EntryWindow(lines, k, MAX_SPAN);
    EntriesGrow(lines, hi, Min(Numbers(lines, |lines|)[k] - 1 + MAX_SPAN, |lines|));
    JoinPrefix(Texts(lines, |lines|), k, e, WindowEnd(lines, k, MAX_SPAN));
  }

  lemma {:induction false} BeginsWhereWindowStarts(lines: seq<string>, text: string, line: nat)
    requires 1 <= line <= |lines| && Normalise(lines[line - 1]) != "" && Normalise(text) == text != ""
    requires text <= WindowText(lines, line - 1, MAX_SPAN)
    ensures BeginsAt(lines, text, MAX_SPAN, line)
  {
    StartsWith(WindowText(lines, line - 1, MAX_SPAN), text, |Normalise(lines[line - 1])|);
  }

  /** The text of a span begins on the span's first line that is not blank. */
  lemma {:induction false} SpanBegins(lines: seq<string>, lo: nat, hi: nat) returns (line: nat)
    requires lo < hi <= |lines| && hi - lo <= MAX_SPAN && SpanText(lines, lo, hi) != ""
    ensures FirstSolidLine(lines, lo, line)
    ensures line <= hi && BeginsAt(lines, SpanText(lines, lo, hi), MAX_SPAN, line)
  {
    var k;
    k, line := SpanLine(lines, lo, hi);
    SpanLeads(lines, lo, hi, k);
    SpanTextIsNormal(lines, lo, hi);
    BeginsWhereWindowStarts(lines, SpanText(lines, lo, hi), line);
  }

  lemma {:induction false} SpanTextIsNormal(lines: seq<string>, lo: nat, hi: nat)
    requires lo <= hi <= |lines|
    ensures Normalise(SpanText(lines, lo, hi)) == SpanText(lines, lo, hi)
  {
    NormaliseIdempotent(Join(lines[lo..hi]));
  }

  lemma {:induction false} SpanLine(lines: seq<string>, lo: nat, hi: nat) returns (k: nat, line: nat)
    requires lo < hi <= |lines| && SpanText(lines, lo, hi) != ""
    ensures k == EntriesUpTo(lines, lo) < EntriesUpTo(lines, hi) <= |Numbers(lines, |lines|)|
    ensures line == Numbers(lines, |lines|)[k] && FirstSolidLine(lines, lo, line) && line <= hi
  {
    k := EntriesUpTo(lines, lo);
    SpanIsRun(lines, lo, hi, k, EntriesUpTo(lines, hi));
    line := Numbers(lines, |lines|)[k];
    FirstEntryAfter(lines, lo, k);
    EntryUpTo(lines, hi, k);
  }

  lemma {:induction false} SpanLeads(lines: seq<string>, lo: nat, hi: nat, k: nat)
    requires lo < hi <= |lines| && hi - lo <= MAX_SPAN && SpanText(lines, lo, hi) != ""
    requires k == EntriesUpTo(lines, lo) < EntriesUpTo(lines, hi) <= |Numbers(lines, |lines|)|
    requires lo < Numbers(lines, |lines|)[k]
    ensures SpanText(lines, lo, hi) <= WindowText(lines, Numbers(lines, |lines|)[k] - 1, MAX_SPAN)
  {
    SpanIsRun(lines, lo, hi, k, EntriesUpTo(lines, hi));
    WindowStartsWithRun(lines, k, hi, EntriesUpTo(lines, hi));
  }

  lemma {:induction false} StartsWith(text: string, needle: string, limit: int)
    requires needle <= text && 0 < limit
    ensures OccursBefore(text, needle, limit)
  {
    assert Occurs(text, needle, 0);
  }

  /** An anchor built with a span limit of at most `MAX_SPAN` verifies at the line it cites or, when that line is
  blank, at the first line after it that is not. */
  lemma {:induction false} BuiltVerifiesInPlace(lines: seq<string>, file: string, index: int, maxSpan: int, a: Anchor,
      v: Finding)
    requires maxSpan <= MAX_SPAN
    requires FirstQualifying(lines, file, index, maxSpan, Some(a)) && IsFinding(lines, a, v)
    ensures v.ok && 1 <= a.line && FirstSolidLine(lines, a.line - 1, v.line)
    ensures Normalise(lines[a.line - 1]) != "" ==> v.line == a.line
  {
    var lo, hi :| FirstSpan(Quals(lines), |lines|, index, maxSpan, lo, hi) && AnchorOf(lines, file, lo, hi, a);
    BuiltVerifies(lines, file, index, maxSpan, a, v);
    var line := SpanBegins(lines, lo, hi);
    AcceptsOnlyHit(lines, a, v, line);
  }

  lemma {:induction false} AcceptsOnlyHit(lines: seq<string>, a: Anchor, v: Finding, line: int)
    requires IsFinding(lines, a, v) && v.ok && BeginsAt(lines, a.text, MAX_SPAN, line) && Close(line, a.line)
    ensures v.line == line
  {
    assert line in Near(Hits(lines, a.text), a.line);
    assert line in {v.line};
  }

  // ------------------------------------------------------ edits that keep the text

  /** Two versions of a file whose lines normalise alike. */
  predicate SameText(a: seq<string>, b: seq<string>) {
    |a| == |b| && forall i :: 0 <= i < |a| ==> Normalise(a[i]) == Normalise(b[i])
  }

  lemma {:induction false} SameTexts(a: seq<string>, b: seq<string>, n: nat)
    requires SameText(a, b) && n <= |a|
    ensures Texts(a, n) == Texts(b, n)
  {
    if n > 0 { SameTexts(a, b, n - 1); }
  }

  lemma {:induction false} SameSpanText(a: seq<string>, b: seq<string>, lo: nat, hi: nat)
    requires SameText(a, b) && lo <= hi <= |a|
    ensures SpanText(a, lo, hi) == SpanText(b, lo, hi)
  {
    SameTexts(a, b, lo);
    SameTexts(a, b, hi);
    WindowJoins(a, lo, hi);
    WindowJoins(b, lo, hi);
  }

  lemma {:induction false} SameBeginnings(a: seq<string>, b: seq<string>, text: string, span: int, n: int)
    requires SameText(a, b)
    ensures BeginsAt(a, text, span, n) == BeginsAt(b, text, span, n)
  {
    if 1 <= n <= |a| && span > 0 { SameSpanText(a, b, n - 1, Min(n - 1 + span, |a|)); }
  }

  lemma {:induction false} SameHits(a: seq<string>, b: seq<string>, text: string)
    requires SameText(a, b)
    ensures Hits(a, text) == Hits(b, text)
  {
    forall n ensures n in Hits(a, text) <==> n in Hits(b, text) { SameBeginnings(a, b, text, MAX_SPAN, n); }
  }

  /** Reformatting that only changes whitespace inside lines changes no finding. */
  lemma {:induction false} ReformattingKeepsFindings(a: seq<string>, b: seq<string>, anchor: Anchor, v: Finding)
    requires SameText(a, b) && IsFinding(a, anchor, v)
    ensures IsFinding(b, anchor, v)
  {
    SameHits(a, b, anchor.text);
  }

  lemma {:induction false} SameQualifying(a: seq<string>, b: seq<string>, lo: nat, hi: nat)
    requires SameText(a, b)
    ensures SpanQualifies(a, lo, hi) == SpanQualifies(b, lo, hi)
  {
    if lo < hi <= |a| {
      SameSpanText(a, b, lo, hi);
      SameHits(a, b, SpanText(a, lo, hi));
    }
  }

  lemma {:induction false} SameQuals(a: seq<string>, b: seq<string>, lo: int, hi: int)
    requires SameText(a, b)
    ensures Quals(a)(lo, hi) == Quals(b)(lo, hi)
  {
    if 0 <= lo && 0 <= hi { SameQualifying(a, b, lo, hi); }
  }

  /** ... and no anchor that is built. */
  lemma {:induction false} ReformattingKeepsAnchors(a: seq<string>, b: seq<string>, file: string, index: int,
      maxSpan: int, out: Option<Anchor>)
    requires SameText(a, b) && FirstQualifying(a, file, index, maxSpan, out)
    ensures FirstQualifying(b, file, index, maxSpan, out)
  {
    forall lo, hi ensures Quals(a)(lo, hi) == Quals(b)(lo, hi) { SameQuals(a, b, lo, hi); }
    if out.Some? {
      var lo, hi :| FirstSpan(Quals(a), |a|, index, maxSpan, lo, hi) && AnchorOf(a, file, lo, hi, out.value);
      SameSpanText(a, b, lo, hi);
      assert FirstSpan(Quals(b), |b|, index, maxSpan, lo, hi) && AnchorOf(b, file, lo, hi, out.value);
    }
  }
}
