/**
 * Revision resolution in lastchange.py: the Git hash and the
 * Cr-Commit-Position trailer of the most recent commit (FetchGitRevision),
 * and the policy around it (FetchVersionInfo): a fixed override table
 * consulted first, and the sentinel ("0", "0") when nothing is found.
 *
 * The two Git processes (`git log -1 --format=%H [--grep=FILTER]` and
 * `git cat-file commit HASH`) are not run: what they would report is given
 * as a `ProcResult` each.
 */
module Revision {
  import opened Wrappers
  import opened PyStr

  /** `VersionInfo(revision_id, full_revision_string)`. */
  datatype VersionInfo = VersionInfo(revisionId: string, revision: string)

  /** What a Git process reported: it could not be launched (the OSError
      that RunGitCommand swallows), or it exited with a return code and
      printed `stdout`. */
  datatype ProcResult = LaunchFailed | Exited(returnCode: int, stdout: string)

  /** The trailer key whose last occurrence carries the commit position. */
  const PositionKey := "Cr-Commit-Position:"

  /** What the caller falls back to when no revision is found. */
  const Sentinel := VersionInfo("0", "0")

  predicate IsPositionLine(line: string) {
    StartsWith(line, PositionKey)
  }

  /** No line of `lines` is a position line. */
  predicate NoPositionLine(lines: seq<string>) {
    forall i :: 0 <= i < |lines| ==> !IsPositionLine(lines[i])
  }

  /** A position line has at least one word, so `rsplit()[-1]` exists. */
  lemma PositionLineHasWord(line: string)
    requires IsPositionLine(line)
    ensures RSplit(line) != []
  {
    assert line[0] == PositionKey[0];
    assert !IsSpace(line[0]);
  }

  /** `line.rsplit()[-1].strip()` for a position line: its last word, that is
      the whitespace-free run that ends the line once trailing whitespace is
      dropped. */
  function LinePosition(line: string): (pos: string)
    requires IsPositionLine(line)
    ensures pos != [] && NoSpace(pos)
    ensures LastRun(RStrip(line), pos)
  {
    PositionLineHasWord(line);
    var words := RSplit(line);
    var last := words[|words| - 1];
    StripNoSpace(last);
    Strip(last)
  }

  /** Whatever follows the key, the position is the last word: the line's
      final whitespace-free token, with trailing whitespace ignored. */
  lemma LinePositionIsLastToken(mid: string, sep: char, word: string, trail: string)
    requires IsSpace(sep) && word != [] && NoSpace(word) && AllSpace(trail)
    ensures IsPositionLine(PositionKey + mid + [sep] + word + trail)
    ensures LinePosition(PositionKey + mid + [sep] + word + trail) == word
  {
    var line := PositionKey + mid + [sep] + word + trail;
    assert line[..|PositionKey|] == PositionKey;
    LastWord(PositionKey + mid, sep, word, trail);
    StripNoSpace(word);
  }

  /** A position line without whitespace is its own last word. */
  lemma LinePositionNoSpace(line: string)
    requires IsPositionLine(line) && NoSpace(line)
    ensures LinePosition(line) == line
  {
    assert RStrip(line) == line;
    var pos := LinePosition(line);
    assert forall i :: 0 <= i < |line| ==> !IsSpace(line[i]);
  }

  /** The index of the last position line, or -1 when there is none. */
  function LastPositionLine(lines: seq<string>): (k: int)
    ensures -1 <= k < |lines|
    ensures k >= 0 ==> IsPositionLine(lines[k])
    ensures forall j :: k < j < |lines| ==> !IsPositionLine(lines[j])
  {
    if lines == [] then -1
    else if IsPositionLine(lines[|lines| - 1]) then |lines| - 1
    else LastPositionLine(lines[..|lines| - 1])
  }

  /** The commit position the trailer scan finds in `lines`: the last word of
      the last position line, or "" when no line is a position line. */
  function CommitPosition(lines: seq<string>): string
  {
    var k := LastPositionLine(lines);
    if k < 0 then "" else LinePosition(lines[k])
  }

  /** The scan of FetchGitRevision: walk the lines of the commit object from
      the end and stop at the first position line met. */
  method ScanPosition(lines: seq<string>) returns (pos: string)
    ensures pos == CommitPosition(lines)
    ensures pos == "" <==> NoPositionLine(lines)
  {
    pos := "";
    var i := |lines|;
    while i > 0
      invariant 0 <= i <= |lines|
      invariant forall j :: i <= j < |lines| ==> !IsPositionLine(lines[j])
      invariant pos == ""
    {
      i := i - 1;
      if IsPositionLine(lines[i]) {
        pos := LinePosition(lines[i]);
        assert LastPositionLine(lines) == i;
        break;
      }
    }
  }

  /** The hash the log step yields: its stripped output when it ran with
      return code 0, and "" otherwise. */
  function LogHash(log: ProcResult): string
  {
    if log.Exited? && log.returnCode == 0 then Strip(log.stdout) else ""
  }

  /** The position the cat-file step yields: "" unless it ran with return
      code 0 and printed something. */
  function CatFilePosition(cat: ProcResult): string
  {
    if cat.Exited? && cat.returnCode == 0 && cat.stdout != "" then
      CommitPosition(SplitLines(cat.stdout))
    else ""
  }

  /** `FetchGitRevision(directory, filter)`, on the two process results. */
  function GitRevision(log: ProcResult, cat: ProcResult): Option<VersionInfo>
  {
    var hsh := LogHash(log);
    if hsh == "" then None
    else Some(VersionInfo(hsh, hsh + "-" + CatFilePosition(cat)))
  }

  /** The log step fails exactly when it cannot be launched, exits nonzero, or
      prints nothing but whitespace; then there is no revision. */
  lemma GitRevisionNoneIff(log: ProcResult, cat: ProcResult)
    ensures GitRevision(log, cat).None? <==>
      (log.LaunchFailed? || log.returnCode != 0 || AllSpace(log.stdout))
  {
    if log.Exited? {
      StripEmptyIff(log.stdout);
    }
  }

  /** A found revision is the stripped hash, "-", and a commit position that
      holds no whitespace and is empty exactly when the cat-file step failed
      or the commit carries no position line; `revision_id` is the hash. */
  lemma GitRevisionShape(log: ProcResult, cat: ProcResult)
    requires GitRevision(log, cat).Some?
    ensures var v := GitRevision(log, cat).value;
      var n := |v.revisionId|;
      log.Exited? && v.revisionId == Strip(log.stdout) && n > 0 &&
      |v.revision| > n && v.revision[..n] == v.revisionId && v.revision[n] == '-' &&
      NoSpace(v.revision[n + 1..]) &&
      (v.revision[n + 1..] == "" <==>
        (cat.LaunchFailed? || cat.returnCode != 0 || cat.stdout == "" ||
         NoPositionLine(SplitLines(cat.stdout))))
  {
    CatFilePositionShape(cat);
    var hsh, pos := LogHash(log), CatFilePosition(cat);
    HyphenJoin(hsh, pos);
  }

  lemma HyphenJoin(hsh: string, pos: string)
    ensures var n, j := |hsh|, hsh + "-" + pos;
      |j| > n && j[..n] == hsh && j[n] == '-' && j[n + 1..] == pos
  {
    var j := hsh + "-" + pos;
    assert j[..|hsh|] == hsh;
    assert j[|hsh| + 1..] == pos;
  }

  /** The cat-file step yields a position without whitespace, empty exactly
      when the step failed or no line of the commit is a position line. */
  lemma CatFilePositionShape(cat: ProcResult)
    ensures NoSpace(CatFilePosition(cat))
    ensures CatFilePosition(cat) == "" <==>
      (cat.LaunchFailed? || cat.returnCode != 0 || cat.stdout == "" ||
       NoPositionLine(SplitLines(cat.stdout)))
  {
    if cat.Exited? && cat.returnCode == 0 && cat.stdout != "" {
      var lines := SplitLines(cat.stdout);
      var k := LastPositionLine(lines);
      if k >= 0 {
        assert IsPositionLine(lines[k]);
      }
    }
  }

  /** The position comes from the last position line, whatever comes before
      it. */
  lemma PositionOfTrailer(front: seq<string>, line: string, back: seq<string>)
    requires IsPositionLine(line) && NoPositionLine(back)
    ensures CommitPosition(front + [line] + back) == LinePosition(line)
  {
    var lines := front + [line] + back;
    assert lines[|front|] == line;
    assert forall j :: |front| < j < |lines| ==> lines[j] == back[j - |front| - 1];
    assert LastPositionLine(lines) == |front|;
  }

  /** A commit whose last position line is "Cr-Commit-Position: ... WORD" has
      position WORD. */
  lemma PositionOfTrailerWord(front: seq<string>, mid: string, word: string, back: seq<string>)
    requires word != [] && NoSpace(word) && NoPositionLine(back)
    ensures CommitPosition(front + [PositionKey + mid + " " + word] + back) == word
  {
    var line := PositionKey + mid + " " + word;
    assert line == PositionKey + mid + [' '] + word + "";
    LinePositionIsLastToken(mid, ' ', word, "");
    PositionOfTrailer(front, line, back);
  }

  /** `FetchGitRevision(directory, filter)`: the log step gives the hash, then
      the cat-file step's lines are scanned for the commit position. */
  method FetchGitRevision(log: ProcResult, cat: ProcResult) returns (r: Option<VersionInfo>)
    ensures r == GitRevision(log, cat)
    ensures r.None? <==> (log.LaunchFailed? || log.returnCode != 0 || AllSpace(log.stdout))
  {
    GitRevisionNoneIff(log, cat);
    var hsh := "";
    if log.Exited? {
      var output := Strip(log.stdout);
      if log.returnCode == 0 && output != "" {
        hsh := output;
      }
    }
    if hsh == "" {
      return None;
    }
    var pos := "";
    if cat.Exited? && cat.returnCode == 0 && cat.stdout != "" {
      pos := ScanPosition(SplitLines(cat.stdout));
    }
    r := Some(VersionInfo(hsh, hsh + "-" + pos));
  }

  // ---------------------------------------------------------------- overrides

  /** The output path whose revision is pinned. */
  const LastChangeFile := "src/build/util/LASTCHANGE"

  /** The pinned revisions, checked in this order before Git is asked. */
  function Override(outFile: Option<string>, versionMacro: Option<string>): Option<VersionInfo>
  {
    if outFile == Some(LastChangeFile) then
      Some(VersionInfo("a7c1b21614f6b5763bd597ab8fefd8678c073df9",
                       "a7c1b21614f6b5763bd597ab8fefd8678c073df9-refs/heads/master@{#764932}"))
    else if versionMacro == Some("GPU_LISTS_VERSION") then
      Some(VersionInfo("6f4691ebdde8d27536a757ac13fd972e3b265ce4",
                       "6f4691ebdde8d27536a757ac13fd972e3b265ce4-refs/branch-heads/3497@{#948}"))
    else if versionMacro == Some("SKIA_COMMIT_HASH") then
      Some(VersionInfo("caab4546ccda874f74cb979eee680fbc2cc7e2e0",
                       "caab4546ccda874f74cb979eee680fbc2cc7e2e0-"))
    else None
  }

  /** `FetchVersionInfo(directory, filter, out_file, version_macro)`. */
  function FetchVersionInfo(outFile: Option<string>, versionMacro: Option<string>,
                            log: ProcResult, cat: ProcResult): VersionInfo
  {
    match Override(outFile, versionMacro)
    case Some(pinned) => pinned
    case None => GitRevision(log, cat).GetOr(Sentinel)
  }

  /** The entry for src/build/util/LASTCHANGE wins whatever the macro name,
      including the names that have entries of their own. */
  lemma OutFileOverrideFirst(versionMacro: Option<string>, log: ProcResult, cat: ProcResult)
    ensures FetchVersionInfo(Some(LastChangeFile), versionMacro, log, cat).revisionId
         == "a7c1b21614f6b5763bd597ab8fefd8678c073df9"
  {
  }

  /** When an entry matches, the Git results play no part in the answer. */
  lemma OverrideIgnoresGit(outFile: Option<string>, versionMacro: Option<string>,
                           log1: ProcResult, cat1: ProcResult, log2: ProcResult, cat2: ProcResult)
    requires Override(outFile, versionMacro).Some?
    ensures FetchVersionInfo(outFile, versionMacro, log1, cat1)
         == FetchVersionInfo(outFile, versionMacro, log2, cat2)
         == Override(outFile, versionMacro).value
  {
  }

  /** Without an override the answer is the sentinel exactly when the log
      step fails, and otherwise carries the stripped log output as its id. */
  lemma SentinelIff(outFile: Option<string>, versionMacro: Option<string>,
                    log: ProcResult, cat: ProcResult)
    requires Override(outFile, versionMacro).None?
    ensures var v := FetchVersionInfo(outFile, versionMacro, log, cat);
      (v == Sentinel <==> (log.LaunchFailed? || log.returnCode != 0 || AllSpace(log.stdout))) &&
      (v != Sentinel ==> v.revisionId == Strip(log.stdout))
  {
    GitRevisionNoneIff(log, cat);
    if GitRevision(log, cat).Some? {
      GitRevisionShape(log, cat);
      var v := GitRevision(log, cat).value;
      assert v.revision[|v.revisionId|] == '-';
      assert |v.revision| >= 2;
    }
  }
}
