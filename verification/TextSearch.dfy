/** Substring search (strings.Index, Count, Contains) and trimming on configuration text. */
module TextSearch {
  import opened NetAddr

  /** Pattern p occurs in s at position i. */
  predicate At(s: string, i: int, p: string) {
    0 <= i && i + |p| <= |s| && forall k :: 0 <= k < |p| ==> s[i + k] == p[k]
  }

  /** The first occurrence at or after `from`, or -1. */
  function IndexFrom(s: string, p: string, from: nat): (r: int)
    ensures r >= 0 ==> r >= from && At(s, r, p) && forall j :: from <= j < r ==> !At(s, j, p)
    ensures r < 0 ==> forall j :: j >= from ==> !At(s, j, p)
    decreases |s| - from
  {
    if from + |p| > |s| then -1
    else if At(s, from, p) then from
    else IndexFrom(s, p, from + 1)
  }

  function Index(s: string, p: string): int {
    IndexFrom(s, p, 0)
  }

  predicate Contains(s: string, p: string) {
    Index(s, p) >= 0
  }

  /** Occurrences that do not overlap, counted from the left. */
  function CountFrom(s: string, p: string, from: nat): nat
    requires p != ""
    decreases |s| - from
  {
    var i := IndexFrom(s, p, from);
    if i < 0 then 0 else 1 + CountFrom(s, p, i + |p|)
  }

  function Count(s: string, p: string): nat
    requires p != ""
  {
    CountFrom(s, p, 0)
  }

  /** p occurs at i and nowhere else. */
  ghost predicate OnlyAt(s: string, i: int, p: string) {
    At(s, i, p) && forall j :: At(s, j, p) ==> j == i
  }

  ghost predicate Nowhere(s: string, p: string) {
    forall j :: !At(s, j, p)
  }

  lemma OnlyAtCounts(s: string, i: int, p: string)
    requires OnlyAt(s, i, p) && p != ""
    ensures Index(s, p) == i && Count(s, p) == 1
  {
    assert IndexFrom(s, p, 0) == i;
    assert CountFrom(s, p, i + |p|) == 0;
  }

  lemma NowhereCounts(s: string, p: string)
    requires Nowhere(s, p) && p != ""
    ensures Index(s, p) < 0 && Count(s, p) == 0 && !Contains(s, p)
  {}

  /** Two different occurrences that do not overlap count twice at least. */
  lemma TwiceCounts(s: string, i: nat, j: nat, p: string)
    requires p != "" && At(s, i, p) && At(s, j, p) && i + |p| <= j
    ensures Count(s, p) >= 2
  {
    var first := IndexFrom(s, p, 0);
    assert first <= i && first + |p| <= j;
    assert CountFrom(s, p, first + |p|) >= 1;
  }

  lemma ContainsAt(s: string, p: string, i: int)
    requires At(s, i, p)
    ensures Contains(s, p)
  {}

  // ---------------------------------------------------------------- newlines

  /** The end of the line that position i is on. */
  function LineEnd(s: string, i: nat): (r: nat)
    requires i <= |s|
    ensures i <= r <= |s| && (forall k :: i <= k < r ==> s[k] != '\n') && (r < |s| ==> s[r] == '\n')
    decreases |s| - i
  {
    if i < |s| && s[i] != '\n' then LineEnd(s, i + 1) else i
  }

  function Newlines(n: nat): (r: string)
    ensures |r| == n && forall i :: 0 <= i < n ==> r[i] == '\n'
  {
    seq(n, _ => '\n')
  }

  lemma NewlinesSum(a: nat, b: nat)
    ensures Newlines(a) + Newlines(b) == Newlines(a + b)
  {}

  /** The last position from `from` on that holds no newline, plus one; `from` when there is none. */
  function AfterLastInk(s: string, from: nat, stop: nat): (r: nat)
    requires from <= stop <= |s|
    ensures from <= r <= stop && (forall k :: r <= k < stop ==> s[k] == '\n') && (from < r ==> s[r - 1] != '\n')
    decreases stop
  {
    if from < stop && s[stop - 1] == '\n' then AfterLastInk(s, from, stop - 1) else stop
  }

  /** strings.TrimRight(s, "\n"). */
  function TrimRight(s: string): (r: string)
    ensures r <= s && (r == "" || r[|r| - 1] != '\n')
    ensures s == r + Newlines(|s| - |r|)
  {
    s[..AfterLastInk(s, 0, |s|)]
  }

  /** Trimming text that ends in known newlines. */
  lemma TrimOf(t: string, n: nat)
    requires t == "" || t[|t| - 1] != '\n'
    ensures TrimRight(t + Newlines(n)) == t
  {
    var s := t + Newlines(n);
    assert t != "" ==> s[|t| - 1] == t[|t| - 1];
    assert forall k :: |t| <= k < |s| ==> s[k] == '\n';
    assert AfterLastInk(s, 0, |s|) == |t|;
    assert s[..|t|] == t;
  }

  // ---------------------------------------------------------------- reading line by line

  predicate OneLine(s: string) {
    '\n' !in s
  }

  /** The lines of a text, without their line ends. */
  function LinesOf(s: string): seq<string> {
    if s == "" then []
    else
      var e := LineEnd(s, 0);
      [s[..e]] + LinesOf(s[if e < |s| then e + 1 else e..])
  }

  /** Every line with its line end. */
  function Join(lines: seq<string>): string {
    if lines == [] then "" else lines[0] + "\n" + Join(lines[1..])
  }

  lemma FirstLine(line: string, rest: string)
    requires OneLine(line)
    ensures LinesOf(line + "\n" + rest) == [line] + LinesOf(rest)
  {
    var s := line + "\n" + rest;
    assert s[|line|] == '\n';
    forall k | 0 <= k < |line| ensures s[k] != '\n' {
      assert s[k] == line[k] && line[k] in line;
    }
    assert LineEnd(s, 0) == |line|;
    assert s[..|line|] == line && s[|line| + 1..] == rest;
  }

  lemma {:induction false} LinesOfJoin(lines: seq<string>, rest: string)
    requires forall k :: 0 <= k < |lines| ==> OneLine(lines[k])
    ensures LinesOf(Join(lines) + rest) == lines + LinesOf(rest)
    decreases |lines|
  {
    if lines == [] {
      assert Join(lines) + rest == rest;
    } else {
      var tail := Join(lines[1..]) + rest;
      LinesOfJoin(lines[1..], rest);
      FirstLine(lines[0], tail);
      JoinFront(lines, rest);
      Prepend(lines, LinesOf(rest));
    }
  }

  lemma JoinFront(lines: seq<string>, rest: string)
    requires lines != []
    ensures Join(lines) + rest == lines[0] + "\n" + (Join(lines[1..]) + rest)
  {}

  lemma Prepend(lines: seq<string>, rest: seq<string>)
    requires lines != []
    ensures [lines[0]] + (lines[1..] + rest) == lines + rest
  {}

  /** A text that ends in a line end is its lines. */
  lemma {:induction false} JoinOfLines(s: string)
    requires s == "" || s[|s| - 1] == '\n'
    ensures Join(LinesOf(s)) == s && forall k :: 0 <= k < |LinesOf(s)| ==> OneLine(LinesOf(s)[k])
    decreases |s|
  {
    if s != "" {
      var e := LineEnd(s, 0);
      assert e < |s|;
      var rest := s[e + 1..];
      JoinOfLines(rest);
      assert s == s[..e] + "\n" + rest;
      assert LinesOf(s) == [s[..e]] + LinesOf(rest);
    }
  }

  /** Lines of a text that ends in a line end, with more text behind. */
  lemma LinesOfParts(s: string, rest: string)
    requires s == "" || s[|s| - 1] == '\n'
    ensures LinesOf(s + rest) == LinesOf(s) + LinesOf(rest)
  {
    JoinOfLines(s);
    LinesOfJoin(LinesOf(s), rest);
  }

  /** A line of a text, with its line end, occurs in the text with its last line ended. */
  lemma {:induction false} LineOccurs(s: string, line: string) returns (i: nat)
    requires line in LinesOf(s)
    ensures At(s + "\n", i, line + "\n")
    decreases |s|
  {
    var e := LineEnd(s, 0);
    if s[..e] == line {
      i := 0;
      FirstOccurs(s, e);
    } else {
      var d := if e < |s| then e + 1 else e;
      var j := LineOccurs(s[d..], line);
      i := j + d;
      LaterOccurs(s, d, j, line + "\n");
    }
  }

  lemma FirstOccurs(s: string, e: nat)
    requires e <= |s| && (e < |s| ==> s[e] == '\n')
    ensures At(s + "\n", 0, s[..e] + "\n")
  {
    assert (s + "\n")[e] == '\n';
    assert forall k :: 0 <= k < e ==> (s + "\n")[k] == s[..e][k];
  }

  lemma LaterOccurs(s: string, d: nat, j: nat, p: string)
    requires d <= |s| && At(s[d..] + "\n", j, p)
    ensures At(s + "\n", j + d, p)
  {
    assert forall k :: 0 <= k < |s[d..] + "\n"| ==> (s[d..] + "\n")[k] == (s + "\n")[d + k];
    forall k | 0 <= k < |p| ensures (s + "\n")[j + d + k] == p[k] {
      assert (s[d..] + "\n")[j + k] == p[k];
    }
  }

  /** In a text that ends in a line end every line occurs with its own. */
  lemma {:induction false} EndedLineOccurs(s: string, line: string) returns (i: nat)
    requires line in LinesOf(s) && s[|s| - 1] == '\n'
    ensures At(s, i, line + "\n")
    decreases |s|
  {
    var e := LineEnd(s, 0);
    assert e < |s|;
    if s[..e] == line {
      i := 0;
      assert forall k :: 0 <= k < e ==> s[k] == line[k];
    } else {
      var j := EndedLineOccurs(s[e + 1..], line);
      i := j + (e + 1);
      forall k | 0 <= k < |line + "\n"| ensures s[i + k] == (line + "\n")[k] {
        assert s[e + 1..][j + k] == (line + "\n")[k];
      }
    }
  }

  /** What stands before and behind the first occurrence of a character. */
  function Cut(s: string, c: char): Option<(string, string)> {
    if s == "" then None
    else if s[0] == c then Some(("", s[1..]))
    else
      match Cut(s[1..], c)
      case None => None
      case Some((a, b)) => Some(([s[0]] + a, b))
  }

  lemma {:induction false} CutAt(a: string, c: char, b: string)
    requires c !in a
    ensures Cut(a + [c] + b, c) == Some((a, b))
    decreases |a|
  {
    var s := a + [c] + b;
    if a == "" {
      assert s[0] == c && s[1..] == b;
    } else {
      assert s[0] == a[0] && s[1..] == a[1..] + [c] + b;
      CutAt(a[1..], c, b);
      assert [a[0]] + a[1..] == a;
    }
  }
}
