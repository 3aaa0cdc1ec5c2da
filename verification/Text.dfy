/** Whitespace as Python's `str.split()` and `str.strip()` see it, and `normalise_ws`
(cdp/util.py:196-202). */
module Text {

  predicate IsSpace(c: char) {
    var n := c as int;
    0x09 <= n <= 0x0d || 0x1c <= n <= 0x20 || n == 0x85 || n == 0xa0 || n == 0x1680
    || 0x2000 <= n <= 0x200a || n == 0x2028 || n == 0x2029 || n == 0x202f || n == 0x205f || n == 0x3000
  }

  predicate Solid(s: string) {
    forall i :: 0 <= i < |s| ==> !IsSpace(s[i])
  }

  /** The longest prefix without whitespace. */
  function FirstWord(s: string): (w: string)
    ensures w <= s && Solid(w)
    ensures |w| < |s| ==> IsSpace(s[|w|])
  {
    if s == "" || IsSpace(s[0]) then "" else [s[0]] + FirstWord(s[1..])
  }

  /** `s.split()`: the maximal runs of non-whitespace. */
  function Words(s: string): (ws: seq<string>)
    ensures forall w :: w in ws ==> w != "" && Solid(w)
  {
    if s == "" then []
    else if IsSpace(s[0]) then Words(s[1..])
    else [FirstWord(s)] + Words(s[|FirstWord(s)|..])
  }

  /** `" ".join(ws)`. */
  function Join(ws: seq<string>): string {
    if ws == [] then "" else if |ws| == 1 then ws[0] else ws[0] + " " + Join(ws[1..])
  }

  function Normalise(s: string): string {
    Join(Words(s))
  }

  function StripLeft(s: string): (r: string)
    ensures r != "" ==> !IsSpace(r[0])
    ensures |r| <= |s| && r == s[|s| - |r|..]
  {
    if s != "" && IsSpace(s[0]) then StripLeft(s[1..]) else s
  }

  function StripRight(s: string): (r: string)
    ensures r != "" ==> !IsSpace(r[|r| - 1])
    ensures r <= s
  {
    if s != "" && IsSpace(s[|s| - 1]) then StripRight(s[..|s| - 1]) else s
  }

  /** `s.strip()`. */
  function Strip(s: string): string {
    StripRight(StripLeft(s))
  }

  /** A text without whitespace at either end is stripped to itself. */
  lemma {:induction false} NothingToStrip(s: string)
    requires s != "" && !IsSpace(s[0]) && !IsSpace(s[|s| - 1])
    ensures Strip(s) == s
  {
    LeftStays(s);
    RightStays(s);
  }

  lemma {:induction false} LeftStays(s: string)
    requires s != "" && !IsSpace(s[0])
    ensures StripLeft(s) == s
  {
  }

  lemma {:induction false} RightStays(s: string)
    requires s != "" && !IsSpace(s[|s| - 1])
    ensures StripRight(s) == s
  {
  }

  predicate Blank(s: string) {
    forall i :: 0 <= i < |s| ==> IsSpace(s[i])
  }

  /** What is stripped is whitespace, and what is left does not start or end with any. */
  lemma {:induction false} StripExactly(s: string) returns (before: string, after: string)
    ensures s == before + Strip(s) + after && Blank(before) && Blank(after)
    ensures Strip(s) != "" ==> !IsSpace(Strip(s)[0]) && !IsSpace(Strip(s)[|Strip(s)| - 1])
  {
    var left, text := StripLeft(s), Strip(s);
    LeftIsBlank(s);
    RightIsBlank(left);
    before, after := Parts(s, left, text);
    EndsAreSolid(left, text);
  }

  lemma {:induction false} EndsAreSolid(left: string, text: string)
    requires text <= left && (left != "" ==> !IsSpace(left[0])) && (text != "" ==> !IsSpace(text[|text| - 1]))
    ensures text != "" ==> !IsSpace(text[0]) && !IsSpace(text[|text| - 1])
  {
  }

  lemma {:induction false} Parts(s: string, left: string, text: string) returns (before: string, after: string)
    requires |left| <= |s| && left == s[|s| - |left|..] && text <= left
    ensures before == s[..|s| - |left|] && after == left[|text|..] && s == before + text + after
    ensures text != "" ==> text[0] == left[0]
  {
    before, after := s[..|s| - |left|], left[|text|..];
    assert s == before + left && left == text + after;
  }

  lemma {:induction false} LeftIsBlank(s: string)
    ensures Blank(s[..|s| - |StripLeft(s)|])
  {
    if s != "" && IsSpace(s[0]) {
      LeftIsBlank(s[1..]);
      var cut := |s| - |StripLeft(s)|;
      forall i | 0 <= i < cut ensures IsSpace(s[i]) {
        if i > 0 { assert s[i] == s[1..][..cut - 1][i - 1]; }
      }
    }
  }

  lemma {:induction false} RightIsBlank(s: string)
    ensures Blank(s[|StripRight(s)|..])
  {
    if s != "" && IsSpace(s[|s| - 1]) {
      var front := s[..|s| - 1];
      RightIsBlank(front);
      forall i | |StripRight(s)| <= i < |s| ensures IsSpace(s[i]) {
        if i < |s| - 1 { assert s[i] == front[|StripRight(front)|..][i - |StripRight(front)|]; }
      }
      forall i | 0 <= i < |s[|StripRight(s)|..]| ensures IsSpace(s[|StripRight(s)|..][i]) {
        assert s[|StripRight(s)|..][i] == s[|StripRight(s)| + i];
      }
    }
  }

  // -------------------------------------------------------- words and joining

  lemma {:induction false} FirstWordEndsAtSpace(a: string, c: char, b: string)
    requires IsSpace(c)
    ensures FirstWord(a + [c] + b) == FirstWord(a)
  {
    if a != "" && !IsSpace(a[0]) {
      assert (a + [c] + b)[1..] == a[1..] + [c] + b;
      FirstWordEndsAtSpace(a[1..], c, b);
    }
  }

  /** Whitespace separates words, wherever it stands. */
  lemma {:induction false} WordsSplitAtSpace(a: string, c: char, b: string)
    requires IsSpace(c)
    ensures Words(a + [c] + b) == Words(a) + Words(b)
    decreases |a|
  {
    var s := a + [c] + b;
    if a == "" {
      assert s[1..] == b;
    } else if IsSpace(a[0]) {
      assert s[1..] == a[1..] + [c] + b;
      WordsSplitAtSpace(a[1..], c, b);
    } else {
      var w := FirstWord(a);
      FirstWordEndsAtSpace(a, c, b);
      assert s[|w|..] == a[|w|..] + [c] + b;
      WordsSplitAtSpace(a[|w|..], c, b);
      assert Words(s) == [w] + Words(s[|w|..]);
    }
  }

  lemma {:induction false} WordsOfSolid(w: string)
    requires w != "" && Solid(w)
    ensures Words(w) == [w]
  {
    FirstWordOfSolid(w);
    assert w[|w|..] == "";
  }

  lemma {:induction false} FirstWordOfSolid(w: string)
    requires Solid(w)
    ensures FirstWord(w) == w
  {
    if w != "" { FirstWordOfSolid(w[1..]); }
  }

  ghost predicate AreWords(ws: seq<string>) {
    forall i :: 0 <= i < |ws| ==> ws[i] != "" && Solid(ws[i])
  }

  lemma {:induction false} WordsOfJoin(ws: seq<string>)
    requires AreWords(ws)
    ensures Words(Join(ws)) == ws
  {
    if |ws| == 1 {
      WordsOfSolid(ws[0]);
    } else if |ws| > 1 {
      WordsOfJoin(ws[1..]);
      WordsOfSolid(ws[0]);
      WordsSplitAtSpace(ws[0], ' ', Join(ws[1..]));
      assert ws[0] + [' '] + Join(ws[1..]) == Join(ws);
    }
  }

  lemma {:induction false} WordsAreWords(s: string)
    ensures AreWords(Words(s))
  {
    assert forall i :: 0 <= i < |Words(s)| ==> Words(s)[i] in Words(s);
  }

  /** Normalising twice is normalising once. */
  lemma {:induction false} NormaliseIdempotent(s: string)
    ensures Normalise(Normalise(s)) == Normalise(s)
  {
    WordsAreWords(s);
    WordsOfJoin(Words(s));
  }

  lemma {:induction false} JoinAppend(a: seq<string>, b: seq<string>)
    requires a != [] && b != []
    ensures Join(a + b) == Join(a) + " " + Join(b)
  {
    if |a| > 1 {
      JoinAppend(a[1..], b);
      assert (a + b)[1..] == a[1..] + b;
    } else {
      assert (a + b)[1..] == b;
    }
  }

  /** A normalised text neither starts nor ends with whitespace. */
  lemma {:induction false} JoinHasSolidEnds(ws: seq<string>)
    requires AreWords(ws) && ws != []
    ensures Join(ws) != "" && !IsSpace(Join(ws)[0]) && !IsSpace(Join(ws)[|Join(ws)| - 1])
  {
    if |ws| > 1 { JoinHasSolidEnds(ws[1..]); }
  }

  lemma {:induction false} NormaliseHasSolidEnds(s: string)
    requires Normalise(s) != ""
    ensures !IsSpace(Normalise(s)[0]) && !IsSpace(Normalise(s)[|Normalise(s)| - 1])
  {
    WordsAreWords(s);
    JoinHasSolidEnds(Words(s));
  }
}
