/**
 * The C header that lastchange.py generates with `--header`: the include
 * guard it derives from the header's path, and the fixed template into
 * which the guard, the macro name and the revision string are inserted.
 */
module Header {
  import opened PyStr

  /** The path marker after whose last occurrence the guard text begins. */
  const SrcMarker := "src/"

  /** The first line of every generated header. */
  const Banner := "/* Generated by lastchange.py, do not edit.*/"

  /** The part of `path` the guard is made from: everything after the last
      "src/", or the whole path when it holds no "src/". */
  function GuardSource(path: string): (t: string)
  {
    var srcIndex := RFind(path, SrcMarker);
    if srcIndex != -1 then path[srcIndex + 4..] else path
  }

  /** The guard character that stands for `c`: upper-cased, with '/', '.'
      and '\' turned into '_'. */
  function GuardChar(c: char): (g: char)
    ensures g != '/' && g != '.' && g != '\\' && !('a' <= g <= 'z')
  {
    var u := UpperChar(c);
    if u == '/' || u == '.' || u == '\\' then '_' else u
  }

  /** `.upper().replace('/', '_').replace('.', '_').replace('\\', '_')`:
      the three replacements compose into `GuardChar`, character by character. */
  function GuardText(t: string): (u: string)
    ensures |u| == |t| && forall i :: 0 <= i < |t| ==> u[i] == GuardChar(t[i])
  {
    var upper := Upper(t);
    var a := ReplaceChar(upper, '/', '_');
    var b := ReplaceChar(a, '.', '_');
    ReplaceChar(b, '\\', '_')
  }

  /** `GetHeaderGuard(path)`. */
  function GetHeaderGuard(path: string): (g: string)
    ensures |g| > 0 && g[|g| - 1] == '_'
    ensures forall i :: 0 <= i < |g| ==> g[i] != '/' && g[i] != '.' && g[i] != '\\'
    ensures forall i :: 0 <= i < |g| ==> !('a' <= g[i] <= 'z')
  {
    var t := GuardSource(path);
    var u := GuardText(t);
    assert forall i :: 0 <= i < |u| ==> u[i] == GuardChar(t[i]);
    u + "_"
  }

  /** The guard is the source text translated character by character, then "_". */
  lemma GuardChars(path: string)
    ensures var t, g := GuardSource(path), GetHeaderGuard(path);
      |g| == |t| + 1 && forall i :: 0 <= i < |t| ==> g[i] == GuardChar(t[i])
  {
  }

  /** No occurrence of "src/" in `q`. */
  ghost predicate NoSrcMarker(q: string) {
    forall i :: !OccursAt(q, SrcMarker, i)
  }

  /** Without "src/" in the path, the whole path is used. */
  lemma GuardSourceWithoutMarker(q: string)
    requires NoSrcMarker(q)
    ensures GuardSource(q) == q
  {
  }

  /** With "src/" in the path, only the text after its last occurrence is used:
      whatever precedes that occurrence has no effect on the guard. */
  lemma GuardSourceAfterLastMarker(p: string, q: string)
    requires NoSrcMarker(q)
    ensures GuardSource(p + SrcMarker + q) == q
    ensures GetHeaderGuard(p + SrcMarker + q) == GetHeaderGuard(q)
  {
    var s := p + SrcMarker + q;
    assert OccursAt(s, SrcMarker, |p|);
    forall i | |p| < i
      ensures !OccursAt(s, SrcMarker, i)
    {
      if |p| + 4 <= i && i + 4 <= |s| {
        assert s[i..i + 4] == q[i - |p| - 4..i - |p|];
        assert !OccursAt(q, SrcMarker, i - |p| - 4);
      } else if i + 4 <= |s| {
        // "src/" cannot start inside "src/" itself except at its first character
        assert s[i] == SrcMarker[i - |p|];
        assert s[i..i + 4][0] == s[i];
      }
    }
    var r := RFind(s, SrcMarker);
    assert !(r < |p|);
    assert r == |p|;
    assert s[|p| + 4..] == q;
  }

  /** `expected` is what `GuardChar` makes of `tail`, followed by "_". */
  predicate TranslatesTo(tail: string, expected: string) {
    |expected| == |tail| + 1 && expected[|tail|] == '_' &&
    forall i :: 0 <= i < |tail| ==> expected[i] == GuardChar(tail[i])
  }

  /** A guard is determined by its source text, character by character. */
  lemma GuardFromChars(path: string, expected: string)
    requires TranslatesTo(GuardSource(path), expected)
    ensures GetHeaderGuard(path) == expected
  {
    GuardChars(path);
  }

  // The three lemmas below take the literals as parameters pinned by
  // `requires`, so that each literal is unfolded character by character once,
  // in a small proof of its own, rather than inside the example lemmas.

  lemma FooBarChars(tail: string, expected: string)
    requires tail == "foo/bar.h" && expected == "FOO_BAR_H_"
    ensures TranslatesTo(tail, expected)
  {
  }

  lemma BazQuxChars(tail: string, expected: string)
    requires tail == "baz/qux.h" && expected == "BAZ_QUX_H_"
    ensures TranslatesTo(tail, expected)
  {
  }

  lemma BuildVersionChars(tail: string, expected: string)
    requires tail == "build/version.h" && expected == "BUILD_VERSION_H_"
    ensures TranslatesTo(tail, expected)
  {
  }

  // The example lemmas below likewise take their paths as parameters pinned
  // by `requires`, for the same reason: each path literal is then unfolded
  // once, in the small lemma that needs its characters.

  /** The example of a path under "src/": "x/src/foo/bar.h" and "foo/bar.h"
      both give "FOO_BAR_H_". */
  lemma GuardExample(path: string, tail: string)
    requires path == "x/src/foo/bar.h" && tail == "foo/bar.h"
    ensures GetHeaderGuard(path) == GetHeaderGuard(tail) == "FOO_BAR_H_"
  {
    NoMarkerIn(tail);
    assert path == "x/" + SrcMarker + tail;
    GuardSourceAfterLastMarker("x/", tail);
    GuardSourceWithoutMarker(tail);
    FooBarChars(tail, "FOO_BAR_H_");
    GuardFromChars(tail, "FOO_BAR_H_");
  }

  /** The example of a path without "src/": "baz/qux.h" gives "BAZ_QUX_H_". */
  lemma GuardExampleWithoutSrc(path: string)
    requires path == "baz/qux.h"
    ensures GetHeaderGuard(path) == "BAZ_QUX_H_"
  {
    NoMarkerIn(path);
    GuardSourceWithoutMarker(path);
    BazQuxChars(path, "BAZ_QUX_H_");
    GuardFromChars(path, "BAZ_QUX_H_");
  }

  /** The guard of "src/build/version.h" is "BUILD_VERSION_H_". */
  lemma GuardExampleVersionHeader(path: string, tail: string)
    requires path == "src/build/version.h" && tail == "build/version.h"
    ensures GetHeaderGuard(path) == "BUILD_VERSION_H_"
  {
    VersionHeaderSource(path, tail);
    BuildVersionChars(tail, "BUILD_VERSION_H_");
    GuardFromChars(path, "BUILD_VERSION_H_");
  }

  lemma VersionHeaderSource(path: string, tail: string)
    requires path == "src/build/version.h" && tail == "build/version.h"
    ensures GuardSource(path) == tail
  {
    NoMarkerIn(tail);
    assert path == "" + SrcMarker + tail;
    GuardSourceAfterLastMarker("", tail);
  }

  /** A string in which 's' is never followed by 'r' holds no "src/". */
  lemma NoMarkerIn(q: string)
    requires forall i :: 0 <= i < |q| - 1 ==> q[i] != 's' || q[i + 1] != 'r'
    ensures NoSrcMarker(q)
  {
    forall i
      ensures !OccursAt(q, SrcMarker, i)
    {
      if 0 <= i && i + 4 <= |q| {
        assert q[i..i + 4][0] == q[i] && q[i..i + 4][1] == q[i + 1];
      }
    }
  }

  /** `GetHeaderContents(path, define, version)`. */
  function GetHeaderContents(path: string, define: string, version: string): (r: string)
  {
    HeaderTemplate(GetHeaderGuard(path), define, version)
  }

  /** The header template with the guard, the macro name and the version
      filled in. */
  function HeaderTemplate(headerGuard: string, define: string, version: string): string
  {
    Banner + "\n" + (
    "" + "\n" + (
    "#ifndef " + headerGuard + "\n" + (
    "#define " + headerGuard + "\n" + (
    "" + "\n" + (
    "#define " + define + " \"" + version + "\"" + "\n" + (
    "" + "\n" + (
    "#endif  // " + headerGuard + "\n")))))))
  }

  /** The lines of the generated header, in order. */
  function HeaderLines(guard: string, define: string, version: string): seq<string>
  {
    [ Banner, "",
      "#ifndef " + guard, "#define " + guard, "",
      "#define " + define + " \"" + version + "\"", "",
      "#endif  // " + guard ]
  }

  /** The header text is its eight lines, each ended by "\n". */
  lemma HeaderIsJoinedLines(path: string, define: string, version: string)
    ensures GetHeaderContents(path, define, version)
         == JoinLines(HeaderLines(GetHeaderGuard(path), define, version))
  {
    TemplateIsJoinedLines(GetHeaderGuard(path), define, version);
  }

  lemma TemplateIsJoinedLines(guard: string, define: string, version: string)
    ensures HeaderTemplate(guard, define, version) == JoinLines(HeaderLines(guard, define, version))
  {
    var ls := HeaderLines(guard, define, version);
    assert JoinLines(ls[7..]) == ls[7] + "\n" + JoinLines([]);
    assert JoinLines(ls[6..]) == ls[6] + "\n" + JoinLines(ls[7..]);
    assert JoinLines(ls[5..]) == ls[5] + "\n" + JoinLines(ls[6..]);
    assert JoinLines(ls[4..]) == ls[4] + "\n" + JoinLines(ls[5..]);
    assert JoinLines(ls[3..]) == ls[3] + "\n" + JoinLines(ls[4..]);
    assert JoinLines(ls[2..]) == ls[2] + "\n" + JoinLines(ls[3..]);
    assert JoinLines(ls[1..]) == ls[1] + "\n" + JoinLines(ls[2..]);
    assert JoinLines(ls) == ls[0] + "\n" + JoinLines(ls[1..]);
  }

  /** The guard has a line break only where the path has one. */
  lemma GuardNoLineBreak(path: string)
    requires NoLineBreak(path)
    ensures NoLineBreak(GetHeaderGuard(path))
  {
    var t := GuardSource(path);
    assert forall i :: 0 <= i < |t| ==> t[i] == path[|path| - |t| + i];
    GuardChars(path);
  }

  /** Read line by line, the header begins with the banner comment, names the
      guard in its `#ifndef`, its guard `#define` and its `#endif` comment,
      and holds the line `#define {define} "{version}"`. */
  lemma HeaderLinesOf(path: string, define: string, version: string)
    requires NoLineBreak(path) && NoLineBreak(define) && NoLineBreak(version)
    ensures var g := GetHeaderGuard(path);
      var lines := SplitLines(GetHeaderContents(path, define, version));
      |lines| == 8 &&
      lines[0] == Banner &&
      lines[2] == "#ifndef " + g &&
      lines[3] == "#define " + g &&
      lines[5] == "#define " + define + " \"" + version + "\"" &&
      lines[7] == "#endif  // " + g
  {
    var g := GetHeaderGuard(path);
    GuardNoLineBreak(path);
    var ls := HeaderLines(g, define, version);
    HeaderIsJoinedLines(path, define, version);
    forall i | 0 <= i < |ls|
      ensures NoLineBreak(ls[i])
    {
      ConcatNoLineBreak(ls, i, g, define, version);
    }
    SplitJoinLines(ls);
  }

  // The banner is checked in two halves: a character-by-character check of
  // the whole 45-character literal is too costly for the verifier.

  lemma BannerHalfNoLineBreak(half: string)
    requires half == "/* Generated by lastchan"
    ensures NoLineBreak(half)
  {
  }

  lemma BannerOtherHalfNoLineBreak(half: string)
    requires half == "ge.py, do not edit.*/"
    ensures NoLineBreak(half)
  {
  }

  /** The banner is a single line. */
  lemma BannerNoLineBreak(banner: string, h1: string, h2: string)
    requires banner == Banner && h1 == "/* Generated by lastchan" && h2 == "ge.py, do not edit.*/"
    ensures NoLineBreak(banner)
  {
    assert banner == h1 + h2;
    BannerHalfNoLineBreak(h1);
    BannerOtherHalfNoLineBreak(h2);
    NoLineBreakConcat(h1, h2);
  }

  /** Every line of the header is free of line breaks when what is inserted is. */
  lemma ConcatNoLineBreak(ls: seq<string>, i: int, g: string, define: string, version: string)
    requires NoLineBreak(g) && NoLineBreak(define) && NoLineBreak(version)
    requires ls == HeaderLines(g, define, version) && 0 <= i < |ls|
    ensures NoLineBreak(ls[i])
  {
    assert NoLineBreak("#ifndef ") && NoLineBreak("#define ") && NoLineBreak("#endif  // ");
    assert NoLineBreak(" \"") && NoLineBreak("\"");
    BannerNoLineBreak(Banner, "/* Generated by lastchan", "ge.py, do not edit.*/");
    NoLineBreakConcat("#ifndef ", g);
    NoLineBreakConcat("#define ", g);
    NoLineBreakConcat("#endif  // ", g);
    NoLineBreakConcat("#define ", define);
    NoLineBreakConcat("#define " + define, " \"");
    NoLineBreakConcat("#define " + define + " \"", version);
    NoLineBreakConcat("#define " + define + " \"" + version, "\"");
  }
}
