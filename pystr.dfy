/**
 * The Python 2 `str` operations that lastchange.py relies on, restricted to
 * what the script needs: whitespace stripping, prefix tests, `rfind`,
 * ASCII `upper`, single-character `replace`, `splitlines` and the
 * argument-less `rsplit`.
 */
module PyStr {

  /** Whitespace as Python 2 `str.isspace` sees it: space, \t, \n, \r, \v, \f. */
  predicate IsSpace(c: char) {
    c == ' ' || c == '\t' || c == '\n' || c == '\r' || c as int == 0x0B || c as int == 0x0C
  }

  /** Line boundaries of Python 2 `str.splitlines`: \n, \r (and the pair \r\n). */
  predicate IsLineBreak(c: char) {
    c == '\n' || c == '\r'
  }

  predicate NoSpace(s: string) {
    forall i :: 0 <= i < |s| ==> !IsSpace(s[i])
  }

  predicate AllSpace(s: string) {
    forall i :: 0 <= i < |s| ==> IsSpace(s[i])
  }

  predicate NoLineBreak(s: string) {
    forall i :: 0 <= i < |s| ==> !IsLineBreak(s[i])
  }

  /** `s.startswith(p)` */
  predicate StartsWith(s: string, p: string) {
    p <= s
  }

  // ---------------------------------------------------------------- strip

  /** `s.lstrip()`: drops the leading whitespace and nothing else. */
  function LStrip(s: string): (r: string)
    ensures |r| <= |s| && r == s[|s| - |r|..]
    ensures r == [] || !IsSpace(r[0])
    ensures forall i :: 0 <= i < |s| - |r| ==> IsSpace(s[i])
  {
    if s != [] && IsSpace(s[0]) then LStrip(s[1..]) else s
  }

  /** `s.rstrip()`: drops the trailing whitespace and nothing else. */
  function RStrip(s: string): (r: string)
    ensures |r| <= |s| && r == s[..|r|]
    ensures r == [] || !IsSpace(r[|r| - 1])
    ensures forall i :: |r| <= i < |s| ==> IsSpace(s[i])
  {
    if s != [] && IsSpace(s[|s| - 1]) then RStrip(s[..|s| - 1]) else s
  }

  /** `s.strip()` */
  function Strip(s: string): (r: string)
  {
    RStrip(LStrip(s))
  }

  /** `r` is the slice of `s` starting at `a`, and everything around it is
      whitespace. */
  predicate TrimmedAt(s: string, r: string, a: int) {
    0 <= a && a + |r| <= |s| && s[a..a + |r|] == r && AllSpace(s[..a]) && AllSpace(s[a + |r|..])
  }

  /** What `strip` keeps is a piece of `s` that neither starts nor ends with
      whitespace, and everything it drops around that piece is whitespace. */
  lemma StripTrims(s: string)
    ensures var r := Strip(s);
      r == [] || (!IsSpace(r[0]) && !IsSpace(r[|r| - 1]))
    ensures exists a :: TrimmedAt(s, Strip(s), a)
  {
    TrimmedSlice(s, LStrip(s), Strip(s));
    assert TrimmedAt(s, Strip(s), |s| - |LStrip(s)|);
  }

  /** Dropping leading whitespace and then trailing whitespace leaves a slice
      of `s` with whitespace on both sides. */
  lemma TrimmedSlice(s: string, l: string, r: string)
    requires |l| <= |s| && l == s[|s| - |l|..] && forall i :: 0 <= i < |s| - |l| ==> IsSpace(s[i])
    requires l == [] || !IsSpace(l[0])
    requires |r| <= |l| && r == l[..|r|] && forall i :: |r| <= i < |l| ==> IsSpace(l[i])
    requires r == [] || !IsSpace(r[|r| - 1])
    ensures r == [] || (!IsSpace(r[0]) && !IsSpace(r[|r| - 1]))
    ensures TrimmedAt(s, r, |s| - |l|)
  {
    var a := |s| - |l|;
    assert r != [] ==> r[0] == l[0];
    assert s[a..a + |r|] == l[..|r|];
    forall i | 0 <= i < a
      ensures IsSpace(s[..a][i])
    {
      assert s[..a][i] == s[i];
    }
    var tail := s[a + |r|..];
    forall i | 0 <= i < |tail|
      ensures IsSpace(tail[i])
    {
      assert tail[i] == l[|r| + i];
    }
  }

  /** `s.strip()` is empty exactly when `s` is all whitespace. */
  lemma StripEmptyIff(s: string)
    ensures Strip(s) == [] <==> AllSpace(s)
  {
    if AllSpace(s) {
      LStripAllSpace(s);
    } else {
      var l := LStrip(s);
      assert l != [];
      assert !IsSpace(l[0]);
    }
  }

  lemma {:induction false} LStripAllSpace(s: string)
    requires AllSpace(s)
    ensures LStrip(s) == []
  {
    if s != [] {
      assert IsSpace(s[0]);
      LStripAllSpace(s[1..]);
    }
  }

  /** Stripping a string that holds no whitespace gives it back unchanged. */
  lemma StripNoSpace(s: string)
    requires NoSpace(s)
    ensures Strip(s) == s
  {
    assert s != [] ==> !IsSpace(s[0]) && !IsSpace(s[|s| - 1]);
  }

  // ---------------------------------------------------------------- rfind

  /** `pat` occurs in `s` starting at index `i`. */
  predicate OccursAt(s: string, pat: string, i: int) {
    0 <= i && i + |pat| <= |s| && s[i..i + |pat|] == pat
  }

  /** The last occurrence of `pat` starting at or before `k`, or -1. */
  function LastOccurrenceUpTo(s: string, pat: string, k: int): (r: int)
    requires k <= |s| - |pat|
    ensures r == -1 || (0 <= r <= k && OccursAt(s, pat, r))
    ensures forall i :: r < i <= k ==> !OccursAt(s, pat, i)
    decreases k + 1
  {
    if k < 0 then -1
    else if s[k..k + |pat|] == pat then k
    else LastOccurrenceUpTo(s, pat, k - 1)
  }

  /** `s.rfind(pat)`: the index of the last occurrence of `pat`, or -1. */
  function RFind(s: string, pat: string): (r: int)
    ensures r == -1 || OccursAt(s, pat, r)
    ensures forall i :: r < i ==> !OccursAt(s, pat, i)
  {
    LastOccurrenceUpTo(s, pat, |s| - |pat|)
  }

  // ---------------------------------------------------------------- upper

  /** ASCII upper-casing of one character. */
  function UpperChar(c: char): (u: char)
    ensures !('a' <= u <= 'z')
    ensures 'a' <= c <= 'z' ==> u as int == c as int - 32
    ensures !('a' <= c <= 'z') ==> u == c
  {
    if 'a' <= c <= 'z' then (c as int - 32) as char else c
  }

  /** `s.upper()`, ASCII only: a character-by-character mapping. */
  function Upper(s: string): (r: string)
    ensures |r| == |s|
    ensures forall i :: 0 <= i < |s| ==> r[i] == UpperChar(s[i])
  {
    if s == [] then [] else [UpperChar(s[0])] + Upper(s[1..])
  }

  // ---------------------------------------------------------------- replace

  /** `s.replace(c, d)` for one-character `c` and `d`. */
  function ReplaceChar(s: string, c: char, d: char): (r: string)
    ensures |r| == |s|
    ensures forall i :: 0 <= i < |s| ==> r[i] == (if s[i] == c then d else s[i])
  {
    if s == [] then [] else [if s[0] == c then d else s[0]] + ReplaceChar(s[1..], c, d)
  }

  // ---------------------------------------------------------------- splitlines

  /** The index of the first line break in `s`, or |s| when there is none. */
  function LineEnd(s: string): (k: nat)
    ensures k <= |s|
    ensures k < |s| ==> IsLineBreak(s[k])
    ensures forall i :: 0 <= i < k ==> !IsLineBreak(s[i])
  {
    if s == [] || IsLineBreak(s[0]) then 0 else 1 + LineEnd(s[1..])
  }

  /** `s.splitlines()`: the lines of `s` without their terminators; a final
      terminator does not open an empty last line. */
  function SplitLines(s: string): (lines: seq<string>)
    ensures forall i :: 0 <= i < |lines| ==> NoLineBreak(lines[i])
    ensures lines == [] <==> s == []
    decreases |s|
  {
    if s == [] then []
    else
      var k := LineEnd(s);
      if k == |s| then [s]
      else
        var w := if s[k] == '\r' && k + 1 < |s| && s[k + 1] == '\n' then 2 else 1;
        [s[..k]] + SplitLines(s[k + w..])
  }

  lemma NoLineBreakConcat(a: string, b: string)
    requires NoLineBreak(a) && NoLineBreak(b)
    ensures NoLineBreak(a + b)
  {
    assert forall i :: |a| <= i < |a + b| ==> (a + b)[i] == b[i - |a|];
  }

  /** The text made of `lines`, each followed by "\n". */
  function JoinLines(lines: seq<string>): string
  {
    if lines == [] then "" else lines[0] + "\n" + JoinLines(lines[1..])
  }

  /** A line without breaks followed by a terminator ("\n", "\r\n", or a
      "\r" that is not the start of "\r\n") is split off as one line. */
  lemma SplitLinesTerminated(line: string, term: string, rest: string)
    requires NoLineBreak(line)
    requires term == "\n" || term == "\r\n" || (term == "\r" && (rest == [] || rest[0] != '\n'))
    ensures SplitLines(line + term + rest) == [line] + SplitLines(rest)
  {
    var s := line + term + rest;
    var k := LineEnd(s);
    assert s[|line|] == term[0];
    assert forall i :: 0 <= i < |line| ==> s[i] == line[i];
    assert k == |line|;
    assert s[..k] == line;
    assert |term| == 2 ==> s[k + 1] == '\n';
    assert |term| == 1 && rest != [] ==> s[k + 1] == rest[0];
    assert s[k + |term|..] == rest;
  }

  /** A line without breaks followed by "\n" is split off as one line. */
  lemma SplitLinesCons(line: string, rest: string)
    requires NoLineBreak(line)
    ensures SplitLines(line + "\n" + rest) == [line] + SplitLines(rest)
  {
    SplitLinesTerminated(line, "\n", rest);
  }

  /** A last line without a terminator is still a line. */
  lemma SplitLinesUnterminated(line: string)
    requires NoLineBreak(line) && line != []
    ensures SplitLines(line) == [line]
  {
  }

  /** `splitlines` undoes `JoinLines` for lines that hold no line break. */
  lemma {:induction false} SplitJoinLines(lines: seq<string>)
    requires forall i :: 0 <= i < |lines| ==> NoLineBreak(lines[i])
    ensures SplitLines(JoinLines(lines)) == lines
  {
    if lines != [] {
      SplitLinesCons(lines[0], JoinLines(lines[1..]));
      SplitJoinLines(lines[1..]);
    }
  }

  /** `splitlines` also recovers the lines when the last one has no
      terminator. */
  lemma {:induction false} SplitJoinLinesLast(lines: seq<string>, last: string)
    requires forall i :: 0 <= i < |lines| ==> NoLineBreak(lines[i])
    requires NoLineBreak(last) && last != []
    ensures SplitLines(JoinLines(lines) + last) == lines + [last]
  {
    if lines == [] {
      assert JoinLines(lines) + last == last;
      SplitLinesUnterminated(last);
    } else {
      assert JoinLines(lines) + last == lines[0] + "\n" + (JoinLines(lines[1..]) + last);
      SplitLinesCons(lines[0], JoinLines(lines[1..]) + last);
      SplitJoinLinesLast(lines[1..], last);
      assert [lines[0]] + (lines[1..] + [last]) == lines + [last];
    }
  }

  // ---------------------------------------------------------------- rsplit

  /** Where the maximal whitespace-free suffix of `t` starts. */
  function TokenStart(t: string): (b: nat)
    ensures b <= |t|
    ensures forall i :: b <= i < |t| ==> !IsSpace(t[i])
    ensures b == 0 || IsSpace(t[b - 1])
    ensures t != [] && !IsSpace(t[|t| - 1]) ==> b < |t|
  {
    if t == [] || IsSpace(t[|t| - 1]) then |t| else TokenStart(t[..|t| - 1])
  }

  /** `w` is the whitespace-free run that ends `t`: a suffix of `t` preceded
      by whitespace or by nothing. */
  predicate LastRun(t: string, w: string) {
    |w| <= |t| && t[|t| - |w|..] == w && (|w| == |t| || IsSpace(t[|t| - |w| - 1]))
  }

  /** `s.rsplit()`: the whitespace-separated words of `s`, built from the
      right; runs of whitespace separate, and no word is empty. */
  function RSplit(s: string): (words: seq<string>)
    ensures forall i :: 0 <= i < |words| ==> words[i] != [] && NoSpace(words[i])
    ensures words == [] <==> AllSpace(s)
    ensures words != [] ==> LastRun(RStrip(s), words[|words| - 1])
    decreases |s|
  {
    var t := RStrip(s);
    if t == [] then []
    else
      var b := TokenStart(t);
      assert LastRun(t, t[b..]);
      RSplit(t[..b]) + [t[b..]]
  }

  /** The last word of `s` is `word` when `s` is some text, whitespace,
      `word` and trailing whitespace. */
  lemma LastWord(front: string, sep: char, word: string, trail: string)
    requires IsSpace(sep) && word != [] && NoSpace(word) && AllSpace(trail)
    ensures var words := RSplit(front + [sep] + word + trail);
      words != [] && words[|words| - 1] == word
  {
    var s := front + [sep] + word + trail;
    var core := front + [sep] + word;
    assert s == core + trail;
    var t := RStrip(s);
    // RStrip keeps exactly `core`: it ends in a non-space and only `trail` follows.
    assert !IsSpace(s[|core| - 1]);
    assert forall i :: |core| <= i < |s| ==> s[i] == trail[i - |core|];
    assert |t| == |core|;
    assert t == core;
    var b := TokenStart(t);
    assert IsSpace(t[|front|]);
    assert forall i :: |front| < i < |t| ==> t[i] == word[i - |front| - 1];
    assert b == |front| + 1;
    assert t[b..] == word;
  }
}
