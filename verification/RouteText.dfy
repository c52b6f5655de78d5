/** The AllowedIPs lines of a WireGuard configuration: the matches of the regular expression
    (?m)^AllowedIPs\s*=\s*(.+)$ that internal/linuxprofile/server.go collects, with its greedy
    white space that may run across line ends. */
module RouteText {
  import opened NetAddr
  import opened TextSearch

  const KEYWORD := "AllowedIPs"

  predicate IsSpace(c: char) {
    c == ' ' || c == '\t' || c == '\n' || c == '\r' || c == '\U{000C}'
  }

  /** The first position at or after i that holds no space, or the end. */
  function SkipSpaces(s: string, i: nat): (r: nat)
    requires i <= |s|
    ensures i <= r <= |s| && (forall k :: i <= k < r ==> IsSpace(s[k])) && (r < |s| ==> !IsSpace(s[r]))
    decreases |s| - i
  {
    if i < |s| && IsSpace(s[i]) then SkipSpaces(s, i + 1) else i
  }

  predicate LineStart(s: string, i: nat) {
    i == 0 || (i <= |s| && s[i - 1] == '\n')
  }

  datatype Range = Range(first: nat, last: nat)

  /** The captured range after the '=' sign at a. After the run of white space comes the rest of a line;
      at the end of the text the run gives back its last character that is not a newline. */
  function AfterEquals(s: string, a: nat): (r: Option<Range>)
    requires a < |s|
    ensures r.Some? ==> a < r.value.first < r.value.last <= |s|
  {
    var b := SkipSpaces(s, a + 1);
    if b < |s| then Some(Range(b, LineEnd(s, b)))
    else
      var c := AfterLastInk(s, a + 1, |s|);
      if c == a + 1 then None else Some(Range(c - 1, c))
  }

  /** The captured range of a match whose keyword ends at j. */
  function AfterKeyword(s: string, j: nat): (r: Option<Range>)
    requires j <= |s|
    ensures r.Some? ==> j < r.value.first < r.value.last <= |s|
  {
    var a := SkipSpaces(s, j);
    if a == |s| || s[a] != '=' then None else AfterEquals(s, a)
  }

  predicate KeywordAt(s: string, i: nat) {
    LineStart(s, i) && At(s, i, KEYWORD)
  }

  function MatchAt(s: string, i: nat): (r: Option<Range>)
    ensures r.Some? ==> i < r.value.first < r.value.last <= |s|
  {
    if KeywordAt(s, i) then AfterKeyword(s, i + |KEYWORD|) else None
  }

  /** Where the expression matches, if it starts at each position. */
  function Matches(s: string): (ms: seq<Option<Range>>)
    ensures Fits(s, ms) && forall i :: 0 <= i < |s| ==> ms[i] == MatchAt(s, i)
  {
    seq(|s|, i requires 0 <= i < |s| => MatchAt(s, i))
  }

  predicate Fits(s: string, ms: seq<Option<Range>>) {
    |ms| == |s| && forall i :: 0 <= i < |s| && ms[i].Some? ==> i < ms[i].value.first < ms[i].value.last <= |s|
  }

  /** The captures of the matches from a position on, each search going on where the last match ended. */
  function Collect(s: string, ms: seq<Option<Range>>, from: nat): seq<string>
    requires Fits(s, ms)
    decreases |s| - from
  {
    if from >= |s| then []
    else
      match ms[from]
      case None => Collect(s, ms, from + 1)
      case Some(r) => [s[r.first..r.last]] + Collect(s, ms, r.last)
  }

  /** The captures of all matches, left to right. */
  function Captures(s: string): seq<string> {
    Collect(s, Matches(s), 0)
  }

  // ---------------------------------------------------------------- what the expression means

  /** (?m)^AllowedIPs\s*=\s*(.+)$ matches at i with its '=' at a and its capture from b to e: the start of a
      line, the word, white space, '=', white space, at least one character and no newline up to the end
      of a line. */
  ghost predicate IsMatch(s: string, i: nat, a: nat, b: nat, e: nat) {
    && (i == 0 || (i <= |s| && s[i - 1] == '\n')) && At(s, i, "AllowedIPs")
    && i + 10 <= a < b < e <= |s|
    && (forall k :: i + 10 <= k < a ==> IsSpace(s[k])) && s[a] == '=' && (forall k :: a < k < b ==> IsSpace(s[k]))
    && (forall k :: b <= k < e ==> s[k] != '\n') && (e == |s| || s[e] == '\n')
  }

  /** The greedy match: white space before the capture takes all it can. */
  ghost predicate IsGreedyMatch(s: string, i: nat, b: nat, e: nat) {
    && (exists a: nat :: IsMatch(s, i, a, b, e))
    && (forall a': nat, b': nat, e': nat :: IsMatch(s, i, a', b', e') ==> b' <= b)
  }

  /** The position of the '=' is determined. */
  lemma EqualsAt(s: string, i: nat, a: nat, b: nat, e: nat)
    requires IsMatch(s, i, a, b, e)
    ensures KeywordAt(s, i) && SkipSpaces(s, i + 10) == a && MatchAt(s, i) == AfterEquals(s, a)
  {
    var r := SkipSpaces(s, i + 10);
    assert !IsSpace(s[a]);
    assert r <= a;
  }

  /** What is captured after the '=' at a is a match, and no match captures later. */
  lemma CaptureIsGreedy(s: string, i: nat, a: nat)
    requires KeywordAt(s, i) && i + 10 <= a < |s| && s[a] == '=' && (forall k :: i + 10 <= k < a ==> IsSpace(s[k]))
    requires AfterEquals(s, a).Some?
    ensures
      var r := AfterEquals(s, a).value;
      IsMatch(s, i, a, r.first, r.last) && forall b: nat, e: nat :: IsMatch(s, i, a, b, e) ==> b <= r.first
  {
    var r := AfterEquals(s, a).value;
    var first := SkipSpaces(s, a + 1);
    if first < |s| {
      assert r.first == first && s[first] != '\n';
    } else {
      assert forall k :: r.last <= k < |s| ==> s[k] == '\n';
    }
    forall b: nat, e: nat | IsMatch(s, i, a, b, e) ensures b <= r.first {
      assert s[b] != '\n';
    }
  }

  /** Where something matches, something is captured. */
  lemma MatchIsCaptured(s: string, i: nat, a: nat, b: nat, e: nat)
    requires IsMatch(s, i, a, b, e)
    ensures AfterEquals(s, a).Some?
  {
    assert s[b] != '\n';
  }

  /** MatchAt finds the greedy match, and nothing exactly when the expression does not match. */
  lemma MatchExactly(s: string, i: nat, b: nat, e: nat)
    ensures MatchAt(s, i) == Some(Range(b, e)) <==> IsGreedyMatch(s, i, b, e)
  {
    if MatchAt(s, i) == Some(Range(b, e)) {
      var a := SkipSpaces(s, i + 10);
      CaptureIsGreedy(s, i, a);
      forall a': nat, b': nat, e': nat | IsMatch(s, i, a', b', e') ensures b' <= b {
        EqualsAt(s, i, a', b', e');
      }
    }
    if IsGreedyMatch(s, i, b, e) {
      var a: nat :| IsMatch(s, i, a, b, e);
      EqualsAt(s, i, a, b, e);
      MatchIsCaptured(s, i, a, b, e);
      CaptureIsGreedy(s, i, a);
      SameEnd(s, i, a, b, e, AfterEquals(s, a).value.last);
    }
  }

  lemma SameEnd(s: string, i: nat, a: nat, b: nat, e: nat, e': nat)
    requires IsMatch(s, i, a, b, e)
    ensures IsMatch(s, i, a, b, e') ==> e == e'
  {}

  // ---------------------------------------------------------------- trailing newlines do not matter

  predicate Trimmed(t: string) {
    t == "" || t[|t| - 1] != '\n'
  }

  lemma {:induction false} SkipSpacesBefore(t: string, n: nat, i: nat)
    requires i <= |t|
    ensures SkipSpaces(t + Newlines(n), i) == if SkipSpaces(t, i) < |t| then SkipSpaces(t, i) else |t| + n
    decreases |t| - i
  {
    var s := t + Newlines(n);
    if i < |t| {
      assert s[i] == t[i];
      SkipSpacesBefore(t, n, i + 1);
    } else {
      SkipNewlines(t, n, i);
    }
  }

  lemma {:induction false} SkipNewlines(t: string, n: nat, i: nat)
    requires |t| <= i <= |t| + n
    ensures SkipSpaces(t + Newlines(n), i) == |t| + n
    decreases |t| + n - i
  {
    if i < |t| + n {
      SkipNewlines(t, n, i + 1);
    }
  }

  lemma {:induction false} LineEndBefore(t: string, n: nat, i: nat)
    requires i <= |t|
    ensures LineEnd(t + Newlines(n), i) == LineEnd(t, i)
    decreases |t| - i
  {
    var s := t + Newlines(n);
    if i < |t| {
      assert s[i] == t[i];
      LineEndBefore(t, n, i + 1);
    } else {
      assert n > 0 ==> s[i] == '\n';
    }
  }

  lemma {:induction false} LastInkBefore(t: string, n: nat, from: nat)
    requires from <= |t| && Trimmed(t)
    ensures AfterLastInk(t + Newlines(n), from, |t| + n) == |t|
    ensures AfterLastInk(t, from, |t|) == |t|
    decreases n
  {
    var s := t + Newlines(n);
    if n > 0 {
      assert s[|t| + n - 1] == '\n';
      LastInkBefore(t, n - 1, from);
      LastInkSame(t, n, from, |t| + n - 1);
    } else {
      assert s == t;
    }
  }

  /** Characters beyond `stop` play no part. */
  lemma {:induction false} LastInkSame(t: string, n: nat, from: nat, stop: nat)
    requires n > 0 && from <= stop <= |t| + n - 1
    ensures AfterLastInk(t + Newlines(n), from, stop) == AfterLastInk(t + Newlines(n - 1), from, stop)
    decreases stop
  {
    if stop > from {
      assert (t + Newlines(n))[stop - 1] == (t + Newlines(n - 1))[stop - 1];
      LastInkSame(t, n, from, stop - 1);
    }
  }

  lemma KeywordBefore(t: string, n: nat, i: nat)
    ensures KeywordAt(t + Newlines(n), i) <==> KeywordAt(t, i)
  {
    var s := t + Newlines(n);
    assert forall k :: |t| <= k < |s| ==> s[k] == '\n';
    assert forall k :: 0 <= k < |t| ==> s[k] == t[k];
    if At(s, i, KEYWORD) {
      assert KEYWORD[9] == 's';
      assert s[i + 9] == 's';
    }
  }

  lemma AfterEqualsBefore(t: string, n: nat, a: nat)
    requires Trimmed(t) && a < |t|
    ensures AfterEquals(t + Newlines(n), a) == AfterEquals(t, a)
  {
    SkipSpacesBefore(t, n, a + 1);
    if SkipSpaces(t, a + 1) < |t| {
      LineEndBefore(t, n, SkipSpaces(t, a + 1));
    } else {
      LastInkBefore(t, n, a + 1);
    }
  }

  lemma AfterKeywordBefore(t: string, n: nat, j: nat)
    requires Trimmed(t) && j <= |t|
    ensures AfterKeyword(t + Newlines(n), j) == AfterKeyword(t, j)
  {
    var a := SkipSpaces(t, j);
    SkipSpacesBefore(t, n, j);
    if a < |t| {
      assert (t + Newlines(n))[a] == t[a];
      AfterEqualsBefore(t, n, a);
    }
  }

  lemma MatchBefore(t: string, n: nat, i: nat)
    requires Trimmed(t)
    ensures MatchAt(t + Newlines(n), i) == MatchAt(t, i)
  {
    KeywordBefore(t, n, i);
    if KeywordAt(t, i) {
      AfterKeywordBefore(t, n, i + |KEYWORD|);
      MatchAfterKeyword(t, i);
      MatchAfterKeyword(t + Newlines(n), i);
    }
  }

  lemma MatchAfterKeyword(s: string, i: nat)
    requires KeywordAt(s, i)
    ensures MatchAt(s, i) == AfterKeyword(s, i + |KEYWORD|)
  {}

  lemma {:induction false} NothingCollected(s: string, ms: seq<Option<Range>>, from: nat)
    requires Fits(s, ms) && forall i :: from <= i < |s| ==> ms[i] == None
    ensures Collect(s, ms, from) == []
    decreases |s| - from
  {
    if from < |s| {
      NothingCollected(s, ms, from + 1);
    }
  }

  /** A longer text with the same matches, and none behind, has the same captures. */
  lemma {:induction false} SameMatchesSameCaptures(s: string, ms: seq<Option<Range>>, t: string, mt: seq<Option<Range>>, from: nat)
    requires Fits(s, ms) && Fits(t, mt) && t <= s && mt <= ms && forall i :: |t| <= i < |s| ==> ms[i] == None
    ensures Collect(s, ms, from) == Collect(t, mt, from)
    decreases |s| - from
  {
    if from >= |t| {
      NothingCollected(s, ms, from);
    } else {
      match mt[from] {
        case None => SameMatchesSameCaptures(s, ms, t, mt, from + 1);
        case Some(r) =>
          SameMatchesSameCaptures(s, ms, t, mt, r.last);
          assert s[r.first..r.last] == t[r.first..r.last];
      }
    }
  }

  /** The captures of a text do not depend on how many newlines follow it. */
  lemma CapturesIgnoreTrailingNewlines(t: string, n: nat)
    requires Trimmed(t)
    ensures Captures(t + Newlines(n)) == Captures(t)
  {
    var s := t + Newlines(n);
    forall i | 0 <= i < |t| ensures Matches(s)[i] == Matches(t)[i] {
      MatchBefore(t, n, i);
    }
    forall i | |t| <= i < |s| ensures Matches(s)[i] == None {
      NoMatchInNewlines(t, n, i);
    }
    SameMatchesSameCaptures(s, Matches(s), t, Matches(t), 0);
  }

  lemma NoMatchInNewlines(t: string, n: nat, i: nat)
    requires |t| <= i
    ensures MatchAt(t + Newlines(n), i) == None
  {
    KeywordBefore(t, n, i);
  }

  // ---------------------------------------------------------------- a line of our own is always found

  /** At position q starts the line "AllowedIPs = value", and the line before starts at l with a 'P'. */
  ghost predicate OwnLine(s: string, l: nat, q: nat, value: string) {
    && 0 < l < q - 1 < |s| && s[l - 1] == '\n' && s[l] == 'P' && s[q - 1] == '\n'
    && (forall k :: l <= k < q - 1 ==> s[k] != '\n')
    && At(s, q, KEYWORD + " = " + value + "\n")
    && value != "" && (forall k :: 0 <= k < |value| ==> !IsSpace(value[k]))
  }

  lemma OwnLineMatches(s: string, l: nat, q: nat, value: string)
    requires OwnLine(s, l, q, value)
    ensures MatchAt(s, q) == Some(Range(q + 13, q + 13 + |value|)) && s[q + 13..q + 13 + |value|] == value
  {
    LineParts(s, q, KEYWORD, value);
    forall k | q + 13 <= k < q + 13 + |value| ensures !IsSpace(s[k]) {
      assert s[k] == s[q + 13..q + 13 + |value|][k - q - 13];
    }
    OwnLineAfterKeyword(s, q + 10, |value|);
  }

  /** The characters of a line that is known to be at q. */
  lemma LineParts(s: string, q: nat, word: string, value: string)
    requires At(s, q, word + " = " + value + "\n")
    ensures At(s, q, word) && q + |word| + 4 + |value| <= |s|
    ensures var j := q + |word|;
      && s[j] == ' ' && s[j + 1] == '=' && s[j + 2] == ' ' && s[j + 3..j + 3 + |value|] == value
      && s[j + 3 + |value|] == '\n'
  {
    var line := word + " = " + value + "\n";
    var j := q + |word|;
    assert |line| == |word| + 4 + |value|;
    forall k | 0 <= k < |line| ensures s[q + k] == line[k] {}
    assert s[q..q + |line|] == line;
    assert forall k :: 0 <= k < |word| ==> line[k] == word[k];
    assert s[j] == line[|word|] && s[j + 1] == line[|word| + 1] && s[j + 2] == line[|word| + 2];
    assert s[j + 3..j + 3 + |value|] == line[|word| + 3..|word| + 3 + |value|];
  }

  lemma OwnLineAfterKeyword(s: string, j: nat, n: nat)
    requires n > 0 && j + 3 + n < |s| && s[j] == ' ' && s[j + 1] == '=' && s[j + 2] == ' ' && s[j + 3 + n] == '\n'
    requires forall k :: j + 3 <= k < j + 3 + n ==> !IsSpace(s[k])
    ensures AfterKeyword(s, j) == Some(Range(j + 3, j + 3 + n))
  {
    assert SkipSpaces(s, j) == j + 1;
    assert SkipSpaces(s, j + 2) == j + 3;
    LineEndAt(s, j + 3, j + 3 + n);
  }

  lemma LineEndAt(s: string, i: nat, e: nat)
    requires i <= e < |s| && s[e] == '\n' && forall k :: i <= k < e ==> s[k] != '\n'
    ensures LineEnd(s, i) == e
  {
    var r := LineEnd(s, i);
    assert !(r < e) && !(e < r);
  }

  /** A match that starts earlier ends before our line: none of its two runs of white space can reach
      across the line before. */
  lemma EarlierMatchEndsBefore(s: string, l: nat, q: nat, value: string, i: nat)
    requires OwnLine(s, l, q, value) && i < q && MatchAt(s, i).Some?
    ensures MatchAt(s, i).value.last <= q
  {
    var a := SkipSpaces(s, i + |KEYWORD|);
    var b := SkipSpaces(s, a + 1);
    assert s[q] == 'A' by {
      assert (KEYWORD + " = " + value + "\n")[0] == 'A';
      assert s[q + 0] == 'A';
    }
    assert forall k :: i <= k < i + |KEYWORD| ==> s[k] != '\n' by {
      forall k | i <= k < i + |KEYWORD| ensures s[k] != '\n' {
        assert s[i + (k - i)] == KEYWORD[k - i];
        assert KEYWORD[k - i] != '\n';
      }
    }
    assert s[i] == 'A' by {
      assert s[i + 0] == KEYWORD[0];
    }
    NewlineStartsAfterFirstRun(s, i, a, q);
    assert q > a;
    if b >= q {
      // the second run ends at q at the latest, so the line before lies outside of it
      assert b == q;
      assert l <= a;
      if l > i {
        NewlineStartsAfterFirstRun(s, i, a, l);
      }
    }
  }

  /** A line that starts inside a match, with neither white space nor '=', starts after the '='. */
  lemma NewlineStartsAfterFirstRun(s: string, i: nat, a: nat, q: nat)
    requires i + |KEYWORD| <= a < |s| && a == SkipSpaces(s, i + |KEYWORD|) && s[a] == '='
    requires forall k :: i <= k < i + |KEYWORD| ==> s[k] != '\n'
    requires i < q < |s| && s[q - 1] == '\n' && !IsSpace(s[q]) && s[q] != '='
    ensures q > a
  {}

  /** A match that no earlier one runs into is collected. */
  lemma {:induction false} Collected(s: string, ms: seq<Option<Range>>, q: nat, r: Range, from: nat)
    requires Fits(s, ms) && from <= q < |s| && ms[q] == Some(r)
    requires forall i :: 0 <= i < q && ms[i].Some? ==> ms[i].value.last <= q
    ensures s[r.first..r.last] in Collect(s, ms, from)
    decreases |s| - from
  {
    if from < q {
      Collected(s, ms, q, r, if ms[from].None? then from + 1 else ms[from].value.last);
    }
  }

  lemma OwnLineIsCaptured(s: string, l: nat, q: nat, value: string)
    requires OwnLine(s, l, q, value)
    ensures value in Captures(s)
  {
    OwnLineMatches(s, l, q, value);
    forall i | 0 <= i < q && Matches(s)[i].Some? ensures Matches(s)[i].value.last <= q {
      EarlierMatchEndsBefore(s, l, q, value, i);
    }
    Collected(s, Matches(s), q, MatchAt(s, q).value, 0);
  }

  // ---------------------------------------------------------------- the routes on a line

  /** strings.Split(s, ","). */
  function SplitComma(s: string): (parts: seq<string>)
    ensures |parts| > 0
  {
    if s == "" then [""]
    else
      var rest := SplitComma(s[1..]);
      if s[0] == ',' then [""] + rest else [[s[0]] + rest[0]] + rest[1..]
  }

  lemma {:induction false} SplitWithoutComma(s: string)
    requires forall k :: 0 <= k < |s| ==> s[k] != ','
    ensures SplitComma(s) == [s]
    decreases |s|
  {
    if s != "" {
      SplitWithoutComma(s[1..]);
      assert [s[0]] + s[1..] == s;
    }
  }

  /** strings.TrimSpace on ASCII text; it also strips a vertical tab. */
  predicate IsTrimSpace(c: char) {
    IsSpace(c) || c == '\U{000B}'
  }

  function TrimSpace(s: string): string {
    if s == "" then s
    else if IsTrimSpace(s[0]) then TrimSpace(s[1..])
    else if IsTrimSpace(s[|s| - 1]) then TrimSpace(s[..|s| - 1])
    else s
  }

  function JoinComma(parts: seq<string>): string
    requires |parts| > 0
  {
    if |parts| == 1 then parts[0] else parts[0] + "," + JoinComma(parts[1..])
  }

  /** Splitting gives the parts without commas whose joining gives the text back. */
  lemma {:induction false} SplitExactly(s: string)
    ensures JoinComma(SplitComma(s)) == s && forall k :: 0 <= k < |SplitComma(s)| ==> ',' !in SplitComma(s)[k]
    decreases |s|
  {
    if s != "" {
      var rest := SplitComma(s[1..]);
      SplitExactly(s[1..]);
      assert s == [s[0]] + s[1..];
      if s[0] == ',' {
        assert ([""] + rest)[1..] == rest;
        assert "" + "," + JoinComma(rest) == s;
      } else {
        assert ([[s[0]] + rest[0]] + rest[1..])[1..] == rest[1..];
        if |rest| > 1 {
          assert [s[0]] + rest[0] + "," + JoinComma(rest[1..]) == [s[0]] + JoinComma(rest);
        }
      }
    }
  }

  predicate AllSpace(s: string) {
    forall k :: 0 <= k < |s| ==> IsTrimSpace(s[k])
  }

  predicate NoSpaceAtEnds(s: string) {
    s == "" || (!IsTrimSpace(s[0]) && !IsTrimSpace(s[|s| - 1]))
  }

  /** Trimming takes white space off both ends and nothing else. */
  lemma {:induction false} TrimSpaceExactly(s: string) returns (a: string, b: string)
    ensures s == a + TrimSpace(s) + b && AllSpace(a) && AllSpace(b) && NoSpaceAtEnds(TrimSpace(s))
    decreases |s|
  {
    a, b := "", "";
    if s != "" && IsTrimSpace(s[0]) {
      a, b := TrimSpaceExactly(s[1..]);
      FrontSpace(s, a, TrimSpace(s[1..]), b);
      a := [s[0]] + a;
    } else if s != "" && IsTrimSpace(s[|s| - 1]) {
      a, b := TrimSpaceExactly(s[..|s| - 1]);
      BackSpace(s, a, TrimSpace(s[..|s| - 1]), b);
      b := b + [s[|s| - 1]];
    }
  }

  lemma FrontSpace(s: string, a: string, t: string, b: string)
    requires s != "" && s[1..] == a + t + b
    ensures s == [s[0]] + a + t + b
  {
    assert s == [s[0]] + s[1..];
  }

  lemma BackSpace(s: string, a: string, t: string, b: string)
    requires s != "" && s[..|s| - 1] == a + t + b
    ensures s == a + t + (b + [s[|s| - 1]])
  {
    assert s == s[..|s| - 1] + [s[|s| - 1]];
  }
}
