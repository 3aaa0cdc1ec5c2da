/** `find_matches` (cdp/anchor.py:41-86) refines the naive window scan. */
module AnchorSearch {
  import opened Text
  import opened Anchors

  // ------------------------------------------------------- library searches

  /** `text.find(needle, from)`: the first occurrence at or after `from`, or -1. */
  method Find(text: string, needle: string, from: nat) returns (found: int)
    ensures found < 0 ==> found == -1 && forall p :: from <= p ==> !Occurs(text, needle, p)
    ensures 0 <= found ==> from <= found && Occurs(text, needle, found)
    ensures 0 <= found ==> forall p :: from <= p < found ==> !Occurs(text, needle, p)
  {
    found := from;
    while found + |needle| <= |text|
      invariant from <= found
      invariant forall p :: from <= p < found ==> !Occurs(text, needle, p)
    {
      if text[found..found + |needle|] == needle { return; }
      found := found + 1;
    }
    found := -1;
  }

  /** `bisect.bisect_right`: how many entries are at most `x`. */
  method BisectRight(xs: seq<nat>, x: int) returns (k: nat)
    requires forall i, j :: 0 <= i < j < |xs| ==> xs[i] <= xs[j]
    ensures k <= |xs|
    ensures forall i :: 0 <= i < k ==> xs[i] <= x
    ensures forall i :: k <= i < |xs| ==> x < xs[i]
  {
    k := 0;
    var hi := |xs|;
    while k < hi
      invariant 0 <= k <= hi <= |xs|
      invariant forall i :: 0 <= i < k ==> xs[i] <= x
      invariant forall i :: hi <= i < |xs| ==> x < xs[i]
    {
      var mid := (k + hi) / 2;
      if x < xs[mid] { hi := mid; } else { k := mid + 1; }
    }
  }

  // ------------------------------------------------------------ hits so far

  /** A hit: the needle starts inside entry `k`'s own text, in the window of its line. */
  ghost predicate HitAt(lines: seq<string>, needle: string, span: int, k: nat, q: int) {
    InWindow(lines, needle, span, k, q) && 0 <= q < |Texts(lines, |lines|)[k]|
  }

  ghost predicate Sound(lines: seq<string>, anchor: string, span: int, hits: seq<nat>) {
    forall n {:trigger BeginsAt(lines, anchor, span, n)} :: n in hits ==> BeginsAt(lines, anchor, span, n)
  }

  /** Every hit that starts before `position` is recorded. */
  ghost predicate Complete(lines: seq<string>, needle: string, span: int, hits: seq<nat>, position: int) {
    forall k: nat, q {:trigger HitAt(lines, needle, span, k, q)} ::
      HitAt(lines, needle, span, k, q) && Offset(Texts(lines, |lines|), k) + q < position
      ==> Numbers(lines, |lines|)[k] in hits
  }

  ghost predicate NoneFrom(text: string, needle: string, from: int, to: int) {
    forall p :: from <= p < to ==> !Occurs(text, needle, p)
  }

  lemma {:induction false} HitBegins(lines: seq<string>, anchor: string, span: int, k: nat, q: int)
    requires Normalise(anchor) != "" && HitAt(lines, Normalise(anchor), span, k, q)
    ensures BeginsAt(lines, anchor, span, Numbers(lines, |lines|)[k])
  {
    EntryText(lines, |lines|, k);
  }

  lemma {:induction false} BeginningIsHit(lines: seq<string>, anchor: string, span: int, n: int) returns (k: nat, q: int)
    requires BeginsAt(lines, anchor, span, n)
    ensures HitAt(lines, Normalise(anchor), span, k, q) && Numbers(lines, |lines|)[k] == n
  {
    k := EntryOfLine(lines, n);
    q :| 0 <= q < |Normalise(lines[n - 1])| && Occurs(WindowText(lines, n - 1, span), Normalise(anchor), q);
    OnLineIsHit(lines, Normalise(anchor), span, n, k, q);
  }

  lemma {:induction false} OnLineIsHit(lines: seq<string>, needle: string, span: int, n: nat, k: nat, q: int)
    requires 1 <= n <= |lines| && k < |Numbers(lines, |lines|)| && Numbers(lines, |lines|)[k] == n
    requires 0 <= q < |Texts(lines, |lines|)[k]| && Occurs(WindowText(lines, n - 1, span), needle, q)
    ensures HitAt(lines, needle, span, k, q)
  {
  }

  lemma {:induction false} EntryOfLine(lines: seq<string>, n: nat) returns (k: nat)
    requires 1 <= n <= |lines| && Normalise(lines[n - 1]) != ""
    ensures k < |Numbers(lines, |lines|)| && Numbers(lines, |lines|)[k] == n
    ensures Texts(lines, |lines|)[k] == Normalise(lines[n - 1])
  {
    k := LineHasEntry(lines, |lines|, n);
    EntryText(lines, |lines|, k);
  }

  lemma {:induction false} HitOccurs(lines: seq<string>, needle: string, span: int, k: nat, q: int)
    requires needle != "" && HitAt(lines, needle, span, k, q)
    ensures Occurs(Join(Texts(lines, |lines|)), needle, Offset(Texts(lines, |lines|), k) + q)
    ensures AtEntry(Texts(lines, |lines|), k, Offset(Texts(lines, |lines|), k) + q)
  {
    if span > 0 {
      WindowInOccurrence(lines, needle, span, k, q);
    }
  }

  lemma {:induction false} SameEntry(texts: seq<string>, j: nat, k: nat, p: int)
    requires AtEntry(texts, j, p) && AtEntry(texts, k, p)
    ensures j == k
  {
    EntryOrder(texts, j, k, p, p);
    EntryOrder(texts, k, j, p, p);
  }

  /** Moving past `found` loses nothing once its own line is dealt with. */
  lemma {:induction false} StaysComplete(lines: seq<string>, needle: string, span: int, hits: seq<nat>,
      more: seq<nat>, position: nat, found: nat, start: nat)
    requires needle != "" && Complete(lines, needle, span, hits, position) && position <= found
    requires NoneFrom(Join(Texts(lines, |lines|)), needle, position, found)
    requires AtEntry(Texts(lines, |lines|), start, found)
    requires forall n :: n in hits ==> n in more
    requires HitAt(lines, needle, span, start, found - Offset(Texts(lines, |lines|), start))
      ==> Numbers(lines, |lines|)[start] in more
    ensures Complete(lines, needle, span, more, found + 1)
  {
    var texts, numbers := Texts(lines, |lines|), Numbers(lines, |lines|);
    forall k: nat, q {:trigger HitAt(lines, needle, span, k, q)} |
      HitAt(lines, needle, span, k, q) && Offset(texts, k) + q < found + 1
      ensures numbers[k] in more
    {
      HitOccurs(lines, needle, span, k, q);
      if Offset(texts, k) + q == found { SameEntry(texts, start, k, found); }
    }
  }

  lemma {:induction false} CompleteAtEnd(lines: seq<string>, anchor: string, span: int, hits: seq<nat>, position: nat)
    requires Normalise(anchor) != "" && Complete(lines, Normalise(anchor), span, hits, position)
    requires forall p :: position <= p ==> !Occurs(Join(Texts(lines, |lines|)), Normalise(anchor), p)
    ensures forall n {:trigger BeginsAt(lines, anchor, span, n)} :: BeginsAt(lines, anchor, span, n) ==> n in hits
  {
    forall n {:trigger BeginsAt(lines, anchor, span, n)} | BeginsAt(lines, anchor, span, n) ensures n in hits {
      var k, q := BeginningIsHit(lines, anchor, span, n);
      HitOccurs(lines, Normalise(anchor), span, k, q);
    }
  }

  lemma {:induction false} OffsetsSorted(texts: seq<string>)
    ensures forall i, j :: 0 <= i < j < |texts| ==> Offsets(texts, |texts|)[i] <= Offsets(texts, |texts|)[j]
  {
    forall i, j | 0 <= i < j < |texts| ensures Offset(texts, i) <= Offset(texts, j) {
      OffsetsAscendWeak(texts, i, j);
    }
  }

  /** The entry that covers a position of the joined text. */
  method EntryAt(ghost texts: seq<string>, offsets: seq<nat>, p: nat) returns (k: nat)
    requires offsets == Offsets(texts, |texts|) && p < Offset(texts, |texts|)
    ensures AtEntry(texts, k, p) && forall i :: 0 <= i < |texts| && offsets[i] <= p ==> i <= k
  {
    OffsetsSorted(texts);
    assert texts != [] && offsets[0] == Offset(texts, 0);
    var after := BisectRight(offsets, p);
    k := after - 1;
  }

  lemma {:induction false} OccurrenceFits(texts: seq<string>, needle: string, p: nat)
    requires needle != "" && Occurs(Join(texts), needle, p)
    ensures p <= p + |needle| - 1 < Offset(texts, |texts|)
  {
    assert texts != [];
    assert texts[0..|texts|] == texts;
    JoinLength(texts, 0, |texts|);
  }

  /** The recorded hits ascend, and the last one is entry `last`, which starts at or before `position`. */
  ghost predicate Recorded(lines: seq<string>, hits: seq<nat>, last: int, position: int) {
    && Ascending(hits)
    && (hits != [] ==>
          && 0 <= last < |Texts(lines, |lines|)| && hits[|hits| - 1] == Numbers(lines, |lines|)[last]
          && Offset(Texts(lines, |lines|), last) <= position)
  }

  lemma {:induction false} PushHit(lines: seq<string>, anchor: string, span: int, hits: seq<nat>, last: int,
      position: int, start: nat, found: int)
    requires Recorded(lines, hits, last, position) && Sound(lines, anchor, span, hits)
    requires start < |Texts(lines, |lines|)| && Offset(Texts(lines, |lines|), start) <= found
    requires hits != [] ==> last <= start && hits[|hits| - 1] != Numbers(lines, |lines|)[start]
    requires BeginsAt(lines, anchor, span, Numbers(lines, |lines|)[start])
    ensures Recorded(lines, hits + [Numbers(lines, |lines|)[start]], start, found + 1)
    ensures Sound(lines, anchor, span, hits + [Numbers(lines, |lines|)[start]])
  {
    var line := Numbers(lines, |lines|)[start];
    if hits != [] { assert hits[|hits| - 1] < line; }
  }

  /** The body of the search loop: deal with the occurrence at `found`. */
  method Record(lines: seq<string>, ghost anchor: string, needle: string, span: int, offsets: seq<nat>,
      numbers: seq<nat>, ghost position: nat, found: nat, hits: seq<nat>, ghost last: int)
      returns (more: seq<nat>, ghost newLast: int)
    requires offsets == Offsets(Texts(lines, |lines|), |Texts(lines, |lines|)|) && numbers == Numbers(lines, |lines|)
    requires SolidEnds(needle) && needle == Normalise(anchor) && position <= found
    requires Occurs(Join(Texts(lines, |lines|)), needle, found)
    requires NoneFrom(Join(Texts(lines, |lines|)), needle, position, found)
    requires Recorded(lines, hits, last, position) && Sound(lines, anchor, span, hits)
    requires Complete(lines, needle, span, hits, position)
    ensures Recorded(lines, more, newLast, found + 1) && Sound(lines, anchor, span, more)
    ensures Complete(lines, needle, span, more, found + 1)
  {
    ghost var texts := Texts(lines, |lines|);
    OccurrenceFits(texts, needle, found);
    var start := EntryAt(texts, offsets, found);
    var end := EntryAt(texts, offsets, found + |needle| - 1);
    OccurrenceInWindow(lines, needle, span, found, start, end);
    StartsInText(texts, needle, found, start);
    more, newLast := hits, last;
    if numbers[end] - numbers[start] < span {
      HitBegins(lines, anchor, span, start, found - Offset(texts, start));
      if hits == [] || hits[|hits| - 1] != numbers[start] {
        PushHit(lines, anchor, span, hits, last, position, start, found);
        more, newLast := hits + [numbers[start]], start;
      }
    }
    StaysComplete(lines, needle, span, hits, more, position, found, start);
  }

  /** The indexed search returns, in ascending order, exactly the lines the naive scan reports. */
  method FindMatches(lines: seq<string>, anchor: string, span: int) returns (hits: seq<nat>)
    ensures Ascending(hits)
    ensures forall n {:trigger BeginsAt(lines, anchor, span, n)} :: n in hits <==> BeginsAt(lines, anchor, span, n)
  {
    hits := [];
    var needle := Normalise(anchor);
    if needle == "" { return; }
    NormaliseHasSolidEnds(anchor);
    var blob, offsets, numbers := NormalisedIndex(lines);
    if blob == "" {
      CompleteAtEnd(lines, anchor, span, hits, 0);
      return;
    }
    var position := 0;
    ghost var last := 0;
    while true
      invariant 0 <= position <= |blob|
      invariant Recorded(lines, hits, last, position) && Sound(lines, anchor, span, hits)
      invariant Complete(lines, needle, span, hits, position)
      decreases |blob| - position
    {
      var found := Find(blob, needle, position);
      if found < 0 {
        CompleteAtEnd(lines, anchor, span, hits, position);
        break;
      }
      hits, last := Record(lines, anchor, needle, span, offsets, numbers, position, found, hits, last);
      position := found + 1;
    }
  }
}
