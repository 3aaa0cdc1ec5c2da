/** Span anchors (cdp/anchor.py:41-134): the whole-file index finds exactly what the naive window
scan finds. */
module Anchors {
  import opened Text

  const MIN_ANCHOR_LEN := 12
  const MAX_ANCHOR_LEN := 400
  const MAX_MATCHES_IN_FILE := 3
  const LINE_WINDOW := 5
  const MAX_SPAN := 4

  // --------------------------------------------------------------- the naive scan

  function Min(a: int, b: int): int {
    if a < b then a else b
  }

  /** Lines `i` up to `span` lines on, joined and normalised; blank lines count. */
  function WindowText(lines: seq<string>, i: nat, span: int): string
    requires i < |lines|
  {
    if span <= 0 then "" else Normalise(Join(lines[i..Min(i + span, |lines|)]))
  }

  ghost predicate Occurs(text: string, needle: string, p: int) {
    0 <= p && p + |needle| <= |text| && text[p..p + |needle|] == needle
  }

  ghost predicate OccursBefore(text: string, needle: string, limit: int) {
    exists q :: 0 <= q < limit && Occurs(text, needle, q)
  }

  /** The anchor begins on line `n` (1-based): it occurs in the window that starts there, from a
  position inside the line's own text. */
  ghost predicate BeginsAt(lines: seq<string>, anchor: string, span: int, n: int) {
    && 1 <= n <= |lines| && Normalise(anchor) != ""
    && OccursBefore(WindowText(lines, n - 1, span), Normalise(anchor), |Normalise(lines[n - 1])|)
  }

  ghost predicate Ascending(s: seq<nat>) {
    forall i, j :: 0 <= i < j < |s| ==> s[i] < s[j]
  }

  // ------------------------------------------------------------------- the index

  /** The normalised non-blank lines among the first `n`. */
  function Texts(lines: seq<string>, n: nat): (r: seq<string>)
    requires n <= |lines|
    ensures |r| == |Numbers(lines, n)|
  {
    if n == 0 then []
    else if Normalise(lines[n - 1]) == "" then Texts(lines, n - 1)
    else Texts(lines, n - 1) + [Normalise(lines[n - 1])]
  }

  /** Their 1-based line numbers. */
  function Numbers(lines: seq<string>, n: nat): (r: seq<nat>)
    requires n <= |lines|
    ensures Ascending(r) && forall i :: 0 <= i < |r| ==> 1 <= r[i] <= n
  {
    if n == 0 then []
    else if Normalise(lines[n - 1]) == "" then Numbers(lines, n - 1)
    else Numbers(lines, n - 1) + [n]
  }

  /** Where text `k` starts once the texts are joined by single spaces. */
  function Offset(texts: seq<string>, k: nat): nat
    requires k <= |texts|
  {
    if k == 0 then 0 else Offset(texts, k - 1) + |texts[k - 1]| + 1
  }

  function Offsets(texts: seq<string>, n: nat): (r: seq<nat>)
    requires n <= |texts|
    ensures |r| == n && forall k :: 0 <= k < n ==> r[k] == Offset(texts, k)
  {
    if n == 0 then [] else Offsets(texts, n - 1) + [Offset(texts, n - 1)]
  }

  lemma {:induction false} OffsetOfPrefix(texts: seq<string>, t: string, k: nat)
    requires k <= |texts|
    ensures Offset(texts + [t], k) == Offset(texts, k)
  {
    if k > 0 { OffsetOfPrefix(texts, t, k - 1); }
  }

  /** `_normalised_index`, without its memo. */
  method NormalisedIndex(lines: seq<string>) returns (blob: string, offsets: seq<nat>, numbers: seq<nat>)
    ensures var texts := Texts(lines, |lines|);
      blob == Join(texts) && offsets == Offsets(texts, |texts|) && numbers == Numbers(lines, |lines|)
  {
    var parts := [];
    offsets, numbers := [], [];
    var cursor: nat := 0;
    for index := 0 to |lines|
      invariant Listed(lines, index, parts, numbers)
      invariant Measured(parts, offsets, cursor)
    {
      var text := Normalise(lines[index]);
      ListLine(lines, index, parts, numbers, text);
      if text != "" {
        MeasureText(parts, offsets, cursor, text);
        parts := parts + [text];
        offsets := offsets + [cursor];
        numbers := numbers + [index + 1];
        cursor := cursor + |text| + 1;
      }
    }
    blob := Join(parts);
  }

  /** The offsets of the texts, and where the next one starts. */
  ghost predicate Listed(lines: seq<string>, n: nat, texts: seq<string>, numbers: seq<nat>)
    requires n <= |lines|
  {
    texts == Texts(lines, n) && numbers == Numbers(lines, n)
  }

  lemma {:induction false} ListLine(lines: seq<string>, n: nat, texts: seq<string>, numbers: seq<nat>, text: string)
    requires n < |lines| && Listed(lines, n, texts, numbers) && text == Normalise(lines[n])
    ensures if text == "" then Listed(lines, n + 1, texts, numbers)
      else Listed(lines, n + 1, texts + [text], numbers + [n + 1])
  {
  }

  ghost predicate Measured(texts: seq<string>, offsets: seq<nat>, cursor: nat) {
    cursor == Offset(texts, |texts|) && offsets == Offsets(texts, |texts|)
  }

  lemma {:induction false} MeasureText(texts: seq<string>, offsets: seq<nat>, cursor: nat, t: string)
    requires Measured(texts, offsets, cursor)
    ensures Measured(texts + [t], offsets + [cursor], cursor + |t| + 1)
  {
    PushText(texts, t);
  }

  lemma {:induction false} PushText(texts: seq<string>, t: string)
    ensures Offsets(texts + [t], |texts| + 1) == Offsets(texts, |texts|) + [Offset(texts, |texts|)]
    ensures Offset(texts + [t], |texts| + 1) == Offset(texts, |texts|) + |t| + 1
  {
    var n := |texts|;
    OffsetOfPrefix(texts, t, n);
    forall k | 0 <= k < n ensures Offset(texts + [t], k) == Offset(texts, k) {
      OffsetOfPrefix(texts, t, k);
    }
    assert (texts + [t])[n] == t;
  }

  // ------------------------------------------------- slices of the joined text

  ghost predicate AllNonEmpty(texts: seq<string>) {
    forall i :: 0 <= i < |texts| ==> texts[i] != ""
  }

  lemma {:induction false} OffsetsAscend(texts: seq<string>, j: nat, k: nat)
    requires AllNonEmpty(texts) && j < k <= |texts|
    ensures Offset(texts, j) + |texts[j]| + 1 <= Offset(texts, k)
  {
    if j < k - 1 {
      OffsetsAscend(texts, j, k - 1);
      assert texts[k - 1] != "";
    }
  }

  lemma {:induction false} JoinLength(texts: seq<string>, k: nat, e: nat)
    requires k < e <= |texts|
    ensures |Join(texts[k..e])| + 1 == Offset(texts, e) - Offset(texts, k)
    decreases e
  {
    if e == k + 1 {
      assert texts[k..e] == [texts[k]];
    } else {
      JoinLength(texts, k, e - 1);
      assert texts[k..e] == texts[k..e - 1] + [texts[e - 1]];
      JoinAppend(texts[k..e - 1], [texts[e - 1]]);
    }
  }

  lemma {:induction false} JoinDrop(texts: seq<string>, k: nat)
    requires k < |texts|
    ensures Offset(texts, k) <= |Join(texts)| && Join(texts)[Offset(texts, k)..] == Join(texts[k..])
  {
    if k > 0 {
      assert texts == texts[..k] + texts[k..] && texts[0..k] == texts[..k];
      JoinAppend(texts[..k], texts[k..]);
      JoinLength(texts, 0, k);
    } else {
      assert texts[k..] == texts;
    }
  }

  lemma {:induction false} JoinTake(texts: seq<string>, e: nat)
    requires 0 < e <= |texts|
    ensures Join(texts[..e]) <= Join(texts)
  {
    if e < |texts| {
      assert texts == texts[..e] + texts[e..];
      JoinAppend(texts[..e], texts[e..]);
    } else {
      assert texts[..e] == texts;
    }
  }

  /** The join of a run of texts is a slice of the join of all. */
  lemma {:induction false} JoinSlice(texts: seq<string>, k: nat, e: nat)
    requires k < e <= |texts|
    ensures Offset(texts, k) <= Offset(texts, e) - 1 <= |Join(texts)|
    ensures Join(texts)[Offset(texts, k)..Offset(texts, e) - 1] == Join(texts[k..e])
  {
    JoinLength(texts, k, e);
    JoinDrop(texts, k);
    RunStartsTail(texts, k, e);
    SliceOfTail(Join(texts), Join(texts[k..]), Join(texts[k..e]), Offset(texts, k));
  }

  lemma {:induction false} RunStartsTail(texts: seq<string>, k: nat, e: nat)
    requires k < e <= |texts|
    ensures Join(texts[k..e]) <= Join(texts[k..])
  {
    JoinTake(texts[k..], e - k);
    assert texts[k..][..e - k] == texts[k..e];
  }

  lemma {:induction false} SliceOfTail(whole: string, tail: string, run: string, at: nat)
    requires at <= |whole| && whole[at..] == tail && run <= tail
    ensures at + |run| <= |whole| && whole[at..at + |run|] == run
  {
    assert whole[at..][..|run|] == run;
  }

  lemma {:induction false} SpaceBefore(texts: seq<string>, k: nat)
    requires 0 < k < |texts|
    ensures 0 < Offset(texts, k) <= |Join(texts)| && Join(texts)[Offset(texts, k) - 1] == ' '
  {
    assert texts == texts[..k] + texts[k..] && texts[0..k] == texts[..k];
    JoinAppend(texts[..k], texts[k..]);
    JoinLength(texts, 0, k);
  }

  // -------------------------------------------------------------- the windows

  /** The words of the lines from `i` to `j`, in order. */
  function WordsIn(lines: seq<string>, i: nat, j: nat): seq<string>
    requires i <= j <= |lines|
  {
    if i == j then [] else WordsIn(lines, i, j - 1) + Words(lines[j - 1])
  }

  lemma {:induction false} WordsOfLines(lines: seq<string>, i: nat, j: nat)
    requires i <= j <= |lines|
    ensures Words(Join(lines[i..j])) == WordsIn(lines, i, j)
    decreases j
  {
    if i == j {
      assert lines[i..j] == [];
    } else {
      var head, last := lines[i..j - 1], lines[j - 1];
      assert lines[i..j] == head + [last];
      WordsOfLines(lines, i, j - 1);
      WordsOfOneMore(lines[i..j], head, last);
    }
  }

  lemma {:induction false} WordsOfOneMore(all: seq<string>, head: seq<string>, last: string)
    requires all == head + [last]
    ensures Words(Join(all)) == Words(Join(head)) + Words(last)
  {
    if head == [] {
      assert all == [last];
    } else {
      JoinAppend(head, [last]);
      WordsSplitAtSpace(Join(head), ' ', last);
      assert Join(head) + " " + last == Join(head) + [' '] + last;
    }
  }

  lemma {:induction false} NoWordsIffBlank(s: string)
    ensures Normalise(s) == "" <==> Words(s) == []
  {
    if Words(s) != [] {
      WordsAreWords(s);
      JoinHasSolidEnds(Words(s));
    }
  }

  /** A window normalises to the join of its non-blank normalised lines. */
  lemma {:induction false} WindowJoins(lines: seq<string>, i: nat, j: nat)
    requires i <= j <= |lines|
    ensures Texts(lines, i) <= Texts(lines, j)
    ensures Normalise(Join(lines[i..j])) == Join(Texts(lines, j)[|Texts(lines, i)|..])
  {
    WordsOfLines(lines, i, j);
    JoinsWordsIn(lines, i, j);
  }

  lemma {:induction false} WindowIsRun(lines: seq<string>, i: nat, j: nat)
    requires i <= j <= |lines|
    ensures |Texts(lines, i)| <= |Texts(lines, j)| <= |Texts(lines, |lines|)|
    ensures Normalise(Join(lines[i..j])) == Join(Texts(lines, |lines|)[|Texts(lines, i)|..|Texts(lines, j)|])
  {
    WindowJoins(lines, i, j);
    NumbersSplit(lines, j, |lines|);
    var texts, head := Texts(lines, |lines|), Texts(lines, j);
    assert head == texts[..|head|];
    assert head[|Texts(lines, i)|..] == texts[|Texts(lines, i)|..|head|];
  }

  lemma {:induction false} WindowTextIsRun(lines: seq<string>, i: nat, span: int, k: nat, e: nat)
    requires i < |lines| && span > 0
    requires k == |Texts(lines, i)| && e == |Texts(lines, Min(i + span, |lines|))|
    ensures k <= e <= |Texts(lines, |lines|)|
    ensures WindowText(lines, i, span) == Join(Texts(lines, |lines|)[k..e])
  {
    WindowIsRun(lines, i, Min(i + span, |lines|));
  }

  lemma {:induction false} JoinsWordsIn(lines: seq<string>, i: nat, j: nat)
    requires i <= j <= |lines|
    ensures Texts(lines, i) <= Texts(lines, j)
    ensures Match(WordsIn(lines, i, j), Texts(lines, j)[|Texts(lines, i)|..])
    decreases j
  {
    if i < j {
      JoinsWordsIn(lines, i, j - 1);
      var here := lines[j - 1];
      TextsAfter(lines, i, j);
      MatchOneMore(WordsIn(lines, i, j - 1), Texts(lines, j - 1)[|Texts(lines, i)|..], here,
                   WordsIn(lines, i, j), Texts(lines, j)[|Texts(lines, i)|..]);
    }
  }

  ghost predicate Match(words: seq<string>, texts: seq<string>) {
    Join(words) == Join(texts) && (words == [] <==> texts == [])
  }

  lemma {:induction false} MatchOneMore(words: seq<string>, texts: seq<string>, here: string,
      moreWords: seq<string>, moreTexts: seq<string>)
    requires Match(words, texts) && moreWords == words + Words(here)
    requires moreTexts == texts + if Normalise(here) == "" then [] else [Normalise(here)]
    ensures Match(moreWords, moreTexts)
  {
    NoWordsIffBlank(here);
    JoinsOneMore(words, texts, here);
  }

  lemma {:induction false} TextsAfter(lines: seq<string>, i: nat, j: nat)
    requires i < j <= |lines| && Texts(lines, i) <= Texts(lines, j - 1)
    ensures Texts(lines, i) <= Texts(lines, j)
    ensures Texts(lines, j)[|Texts(lines, i)|..] == Texts(lines, j - 1)[|Texts(lines, i)|..]
      + if Normalise(lines[j - 1]) == "" then [] else [Normalise(lines[j - 1])]
  {
  }

  lemma {:induction false} JoinsOneMore(words: seq<string>, texts: seq<string>, here: string)
    requires Join(words) == Join(texts) && (words == [] <==> texts == [])
    ensures Join(words + Words(here)) == Join(texts + if Normalise(here) == "" then [] else [Normalise(here)])
  {
    NoWordsIffBlank(here);
    if Words(here) == [] {
      assert words + Words(here) == words && texts + [] == texts;
    } else if texts == [] {
      assert words + Words(here) == Words(here);
    } else {
      JoinAppend(words, Words(here));
      JoinAppend(texts, [Normalise(here)]);
    }
  }

  // ------------------------------------------- one entry of the index, one window

  /** Entries up to line `i` come first, and every later one is beyond `i`. */
  lemma {:induction false} NumbersSplit(lines: seq<string>, i: nat, n: nat)
    requires i <= n <= |lines|
    ensures Numbers(lines, i) <= Numbers(lines, n) && Texts(lines, i) <= Texts(lines, n)
    ensures forall m :: |Numbers(lines, i)| <= m < |Numbers(lines, n)| ==> i < Numbers(lines, n)[m]
    decreases n
  {
    if i < n {
      NumbersSplit(lines, i, n - 1);
      NumbersGrow(lines, n);
      forall m | |Numbers(lines, i)| <= m < |Numbers(lines, n)| ensures i < Numbers(lines, n)[m] {
        if m < |Numbers(lines, n - 1)| { assert Numbers(lines, n)[m] == Numbers(lines, n - 1)[m]; }
      }
    }
  }

  lemma {:induction false} NumbersGrow(lines: seq<string>, n: nat)
    requires 0 < n <= |lines|
    ensures Numbers(lines, n - 1) <= Numbers(lines, n) && Texts(lines, n - 1) <= Texts(lines, n)
    ensures forall m :: |Numbers(lines, n - 1)| <= m < |Numbers(lines, n)| ==> Numbers(lines, n)[m] == n
  {
  }

  lemma {:induction false} EntryText(lines: seq<string>, n: nat, k: nat)
    requires n <= |lines| && k < |Texts(lines, n)|
    ensures Texts(lines, n)[k] == Normalise(lines[Numbers(lines, n)[k] - 1]) && Texts(lines, n)[k] != ""
  {
    if k < |Texts(lines, n - 1)| { EntryText(lines, n - 1, k); }
  }

  lemma {:induction false} LineHasEntry(lines: seq<string>, n: nat, line: nat) returns (k: nat)
    requires 1 <= line <= n <= |lines| && Normalise(lines[line - 1]) != ""
    ensures k < |Numbers(lines, n)| && Numbers(lines, n)[k] == line
  {
    if line == n {
      k := |Numbers(lines, n)| - 1;
    } else {
      k := LineHasEntry(lines, n - 1, line);
    }
  }

  /** The first index entry beyond the window that starts on entry `k`'s line. */
  function WindowEnd(lines: seq<string>, k: nat, span: int): nat
    requires span > 0 && k < |Numbers(lines, |lines|)|
  {
    EntriesUpTo(lines, Min(Numbers(lines, |lines|)[k] - 1 + span, |lines|))
  }

  function EntriesUpTo(lines: seq<string>, j: nat): nat
    requires j <= |lines|
  {
    |Texts(lines, j)|
  }

  lemma {:induction false} EntriesBefore(lines: seq<string>, k: nat)
    requires k < |Numbers(lines, |lines|)|
    ensures |Numbers(lines, Numbers(lines, |lines|)[k] - 1)| == k
  {
    var numbers := Numbers(lines, |lines|);
    var i := numbers[k] - 1;
    NumbersSplit(lines, i, |lines|);
    var c := |Numbers(lines, i)|;
    if c < |numbers| { assert i < numbers[c]; }
  }

  lemma {:induction false} EntryUpTo(lines: seq<string>, j: nat, m: nat)
    requires j <= |lines| && m < |Numbers(lines, |lines|)|
    ensures m < EntriesUpTo(lines, j) <==> Numbers(lines, |lines|)[m] <= j
  {
    NumbersSplit(lines, j, |lines|);
    if m < |Numbers(lines, j)| { assert Numbers(lines, j)[m] == Numbers(lines, |lines|)[m]; }
  }

  lemma {:induction false} WithinWindow(lines: seq<string>, k: nat, span: int, m: nat)
    requires span > 0 && k < |Numbers(lines, |lines|)| && m < |Numbers(lines, |lines|)|
    ensures m < WindowEnd(lines, k, span) <==> Numbers(lines, |lines|)[m] - Numbers(lines, |lines|)[k] < span
  {
    EntryUpTo(lines, Min(Numbers(lines, |lines|)[k] - 1 + span, |lines|), m);
  }

  /** The window of entry `k` is the join of the entries within `span` lines of it. */
  lemma {:induction false} EntryWindow(lines: seq<string>, k: nat, span: int)
    requires span > 0 && k < |Numbers(lines, |lines|)|
    ensures k < WindowEnd(lines, k, span) <= |Texts(lines, |lines|)|
    ensures WindowText(lines, Numbers(lines, |lines|)[k] - 1, span)
      == Join(Texts(lines, |lines|)[k..WindowEnd(lines, k, span)])
  {
    var i, e := Numbers(lines, |lines|)[k] - 1, WindowEnd(lines, k, span);
    EntriesBefore(lines, k);
    WithinWindow(lines, k, span, k);
    WindowTextIsRun(lines, i, span, k, e);
  }

  ghost predicate SolidEnds(needle: string) {
    needle != "" && !IsSpace(needle[0]) && !IsSpace(needle[|needle| - 1])
  }

  lemma {:induction false} SliceOfSlice(s: string, lo: nat, hi: nat, a: nat, b: nat)
    requires lo <= hi <= |s| && a <= b <= hi - lo
    ensures s[lo..hi][a..b] == s[lo + a..lo + b]
  {
    forall i | 0 <= i < b - a ensures s[lo..hi][a..b][i] == s[lo + a..lo + b][i] {}
  }

  lemma {:induction false} OccursInSlice(text: string, needle: string, lo: nat, hi: nat, q: int)
    requires lo <= hi <= |text| && 0 <= q
    ensures Occurs(text[lo..hi], needle, q) <==> Occurs(text, needle, lo + q) && lo + q + |needle| <= hi
  {
    if q + |needle| <= hi - lo { SliceOfSlice(text, lo, hi, q, q + |needle|); }
  }

  /** An occurrence never starts or ends on a joining space. */
  lemma {:induction false} NotOnJoin(texts: seq<string>, needle: string, p: nat, k: nat)
    requires SolidEnds(needle) && Occurs(Join(texts), needle, p) && 0 < k <= |texts|
    ensures p != Offset(texts, k) - 1 && p + |needle| != Offset(texts, k)
  {
    var blob := Join(texts);
    assert blob[p] == blob[p..p + |needle|][0];
    assert blob[p + |needle| - 1] == blob[p..p + |needle|][|needle| - 1];
    if k < |texts| {
      SpaceBefore(texts, k);
    } else {
      JoinLength(texts, 0, k);
      assert texts[0..k] == texts;
    }
  }

  /** `p` lies at or after entry `k` and before the next. */
  ghost predicate AtEntry(texts: seq<string>, k: int, p: int) {
    0 <= k < |texts| && Offset(texts, k) <= p < Offset(texts, k + 1)
  }

  /** An occurrence that starts at entry `k` starts inside the entry's own text. */
  lemma {:induction false} StartsInText(texts: seq<string>, needle: string, p: nat, k: nat)
    requires SolidEnds(needle) && Occurs(Join(texts), needle, p) && AtEntry(texts, k, p)
    ensures p - Offset(texts, k) < |texts[k]|
  {
    NotOnJoin(texts, needle, p, k + 1);
  }

  /** An occurrence ends before entry `e` exactly when its last entry does. */
  lemma {:induction false} EndsBefore(texts: seq<string>, needle: string, p: nat, end: nat, e: nat)
    requires SolidEnds(needle) && Occurs(Join(texts), needle, p) && AtEntry(texts, end, p + |needle| - 1)
    requires 0 < e <= |texts|
    ensures end < e <==> p + |needle| <= Offset(texts, e) - 1
  {
    NotOnJoin(texts, needle, p, e);
    if end < e { OffsetsAscendWeak(texts, end + 1, e); } else { OffsetsAscendWeak(texts, e, end); }
  }

  /** An occurrence that starts at entry `k` lies in a run from `k` exactly when its last entry does. */
  lemma {:induction false} OccurrenceInRun(texts: seq<string>, needle: string, p: nat, k: nat, end: nat, e: nat)
    requires SolidEnds(needle) && Occurs(Join(texts), needle, p)
    requires AtEntry(texts, k, p) && AtEntry(texts, end, p + |needle| - 1)
    requires k < e <= |texts|
    ensures end < e <==> Occurs(Join(texts[k..e]), needle, p - Offset(texts, k))
  {
    JoinSlice(texts, k, e);
    OccursInSlice(Join(texts), needle, Offset(texts, k), Offset(texts, e) - 1, p - Offset(texts, k));
    EndsBefore(texts, needle, p, end, e);
  }

  /** The needle occurs at `q` in the window that starts on entry `k`'s line. */
  ghost predicate InWindow(lines: seq<string>, needle: string, span: int, k: nat, q: int) {
    k < |Numbers(lines, |lines|)| && Occurs(WindowText(lines, Numbers(lines, |lines|)[k] - 1, span), needle, q)
  }

  lemma {:induction false} InWindowIsInRun(lines: seq<string>, needle: string, span: int, k: nat, q: int, m: nat)
      returns (e: nat)
    requires span > 0 && k < |Numbers(lines, |lines|)| && m < |Numbers(lines, |lines|)|
    ensures k < e <= |Texts(lines, |lines|)|
    ensures InWindow(lines, needle, span, k, q) <==> Occurs(Join(Texts(lines, |lines|)[k..e]), needle, q)
    ensures m < e <==> Numbers(lines, |lines|)[m] - Numbers(lines, |lines|)[k] < span
  {
    e := WindowEnd(lines, k, span);
    EntryWindow(lines, k, span);
    WithinWindow(lines, k, span, m);
  }

  /** The last entry of an occurrence is within `span` lines of its first exactly when the occurrence lies in
  the first entry's window. */
  lemma {:induction false} OccurrenceInWindow(lines: seq<string>, needle: string, span: int, p: nat, k: nat, end: nat)
    requires SolidEnds(needle) && Occurs(Join(Texts(lines, |lines|)), needle, p)
    requires AtEntry(Texts(lines, |lines|), k, p) && AtEntry(Texts(lines, |lines|), end, p + |needle| - 1)
    ensures Numbers(lines, |lines|)[end] - Numbers(lines, |lines|)[k] < span
      <==> InWindow(lines, needle, span, k, p - Offset(Texts(lines, |lines|), k))
  {
    var texts := Texts(lines, |lines|);
    if span > 0 {
      var e := InWindowIsInRun(lines, needle, span, k, p - Offset(texts, k), end);
      OccurrenceInRun(texts, needle, p, k, end, e);
    } else {
      EntryOrder(texts, k, end, p, p + |needle| - 1);
    }
  }

  lemma {:induction false} EntryOrder(texts: seq<string>, k: nat, m: nat, p: int, q: int)
    requires AtEntry(texts, k, p) && AtEntry(texts, m, q) && p <= q
    ensures k <= m
  {
    if m < k { OffsetsAscendWeak(texts, m + 1, k); }
  }

  lemma {:induction false} OffsetsAscendWeak(texts: seq<string>, j: nat, k: nat)
    requires j <= k <= |texts|
    ensures Offset(texts, j) <= Offset(texts, k)
  {
    if j < k { OffsetsAscendWeak(texts, j, k - 1); }
  }

  /** What occurs in a window occurs in the whole text. */
  lemma {:induction false} WindowInOccurrence(lines: seq<string>, needle: string, span: int, k: nat, q: nat)
    requires span > 0 && InWindow(lines, needle, span, k, q)
    ensures Occurs(Join(Texts(lines, |lines|)), needle, Offset(Texts(lines, |lines|), k) + q)
  {
    var texts := Texts(lines, |lines|);
    var e := InWindowIsInRun(lines, needle, span, k, q, k);
    RunInBlob(texts, needle, k, e, q);
  }

  lemma {:induction false} RunInBlob(texts: seq<string>, needle: string, k: nat, e: nat, q: nat)
    requires k < e <= |texts| && Occurs(Join(texts[k..e]), needle, q)
    ensures Occurs(Join(texts), needle, Offset(texts, k) + q)
  {
    JoinSlice(texts, k, e);
    OccursInSlice(Join(texts), needle, Offset(texts, k), Offset(texts, e) - 1, q);
  }
}
