# lastchange.py, modelled in Dafny

`build/util/lastchange.py` finds the revision the source tree was built from and writes it out. It can write it as a plain `LASTCHANGE=<revision>` line, as a C header, or print it. The model covers:

- the Git step, which gets the hash of the last commit and the `Cr-Commit-Position:` trailer of that commit;
- the fixed override table and the `("0", "0")` fallback;
- the header guard and the header template;
- `WriteIfChanged`, over a map from file names to contents;
- the decisions `main` takes: which positional argument names the output file, when the arguments are refused, which revision string is emitted, and where it goes.

Modules:

- `PyStr` (`pystr.dfy`) holds the Python 2 `str` operations the script relies on: `strip`, `startswith`, `rfind`, ASCII `upper`, one-character `replace`, `splitlines` and the argument-less `rsplit`. Each has a contract saying what it computes. `SplitLines` undoes `JoinLines` for lines that hold no line break.
- `Header` (`header.dfy`) holds `GetHeaderGuard` and `GetHeaderContents`.
- `Revision` (`revision.dfy`) holds `FetchGitRevision` and `FetchVersionInfo`.
  - The two Git processes are not run. What each would report is an input, a `ProcResult`: it could not be launched, or it exited with a return code and printed some output.
  - The backward scan over the commit's lines is the loop method `ScanPosition`. It is proved equal to the function `CommitPosition`.
  - `FetchGitRevision` is a method proved equal to the function `GitRevision`. `FetchVersionInfo` uses that function.
- `Dispatch` (`dispatch.dfy`) holds `main` as a function, `MainPlan`, from the parsed options, the leftover arguments and the two Git results to a `Plan`. A plan is either a usage error, or standard output plus the ordered list of (file, contents) pairs handed to `WriteIfChanged`. The positional-argument loop is the method `TakeOutFile`, proved equal to `PositionalOutFile`.
- `Workspace` (`workspace.dfy`) holds the class `Host`.
  - Its fields are the file map, standard output and the log of files actually rewritten.
  - Its methods are `WriteIfChanged`, `WriteOutputs` (the out-file write, then the header write) and `Run`, which is `main`. `Run` is proved to carry out `MainPlan` exactly.
- `Wrappers` (`wrappers.dfy`) holds `Option`.

Python truth values are kept. `-o ""` is "given" for the positional loop, because the loop tests `is None`. It is also false for the output test, because that test is `if out_file`. So with `-o ""` no positional argument is taken, and, when neither `--header` nor `--print-only` is given, the plain form goes to standard output.

Two behaviours of the code worth knowing:

- The full revision string that Git yields is always `hash + "-" + position`, so an empty position leaves a trailing `-` (`GitRevisionShape`). The `("0", "0")` sentinel and the pinned entries are literals and need not have this shape.
- On a refused run only the "Unexpected arguments" line goes to standard error; `parser.print_help()` writes the help text to standard output.

## Model

| member | source | states |
|---|---|---|
| PyStr.LStrip | build/util/lastchange.py:66 | the result is a suffix of the input that does not start with whitespace, and everything dropped is whitespace |
| PyStr.RStrip | build/util/lastchange.py:66 | the result is a prefix of the input that does not end with whitespace, and everything dropped is whitespace |
| PyStr.StripTrims | build/util/lastchange.py:66 | `strip()` keeps a slice of the input that neither starts nor ends with whitespace, and what lies on either side of it is all whitespace |
| PyStr.StripEmptyIff | build/util/lastchange.py:66-67 | `strip()` is empty exactly when the input is all whitespace |
| PyStr.StripNoSpace | build/util/lastchange.py:81 | `strip()` gives back a string without whitespace unchanged |
| PyStr.RFind | build/util/lastchange.py:111 | `rfind` returns -1 or an index where the pattern occurs, and the pattern occurs at no later index |
| PyStr.Upper | build/util/lastchange.py:116 | `upper()` has the input's length and upper-cases each ASCII letter in place, leaving other characters alone |
| PyStr.ReplaceChar | build/util/lastchange.py:117 | `replace(c, d)` has the input's length and replaces exactly the occurrences of `c` |
| PyStr.SplitLines | build/util/lastchange.py:79 | no line returned by `splitlines()` holds a line break, and the result is empty exactly for the empty text |
| PyStr.SplitLinesTerminated | build/util/lastchange.py:79 | a break-free line followed by "\n", "\r\n", or a "\r" not followed by "\n", is split off as one line and the rest is split on its own |
| PyStr.SplitLinesUnterminated | build/util/lastchange.py:79 | a nonempty break-free text without terminator is one line |
| PyStr.SplitJoinLinesLast | build/util/lastchange.py:79 | `splitlines()` recovers break-free lines joined with "\n" terminators followed by a last line without terminator |
| PyStr.SplitJoinLines | build/util/lastchange.py:79 | `splitlines()` recovers the lines of a text made of break-free lines, each ended by "\n" |
| PyStr.RSplit | build/util/lastchange.py:81 | `rsplit()` returns nonempty words without whitespace, returns none exactly for an all-whitespace input, and its last word is the whitespace-free run that ends the input once trailing whitespace is dropped |
| PyStr.LastWord | build/util/lastchange.py:81 | `rsplit()[-1]` of text, a space, a word and trailing whitespace is that word |
| Header.GetHeaderGuard | build/util/lastchange.py:104-117 | the guard ends with `_` and holds no `/`, `.`, `\` or lower-case ASCII letter |
| Header.GuardText | build/util/lastchange.py:116-117 | upper-casing followed by the three replacements maps each character through `GuardChar`, keeping the length |
| Header.GuardChars | build/util/lastchange.py:111-117 | the guard is the selected part of the path translated character by character, followed by `_` |
| Header.GuardSourceWithoutMarker | build/util/lastchange.py:111-115 | a path without `src/` is used whole |
| Header.GuardSourceAfterLastMarker | build/util/lastchange.py:111-117 | for `p + "src/" + q` with no `src/` in `q`, the guard is made from `q` alone, whatever `p` is |
| Header.GuardFromChars | build/util/lastchange.py:116-117 | a string that translates the selected part character by character and ends with `_` is the guard |
| Header.GuardExample | build/util/lastchange.py:111-117 | `x/src/foo/bar.h` and `foo/bar.h` both give `FOO_BAR_H_` |
| Header.GuardExampleWithoutSrc | build/util/lastchange.py:111-117 | `baz/qux.h`, which holds no `src/`, gives `BAZ_QUX_H_` |
| Header.GuardExampleVersionHeader | build/util/lastchange.py:111-117 | `src/build/version.h` gives `BUILD_VERSION_H_` |
| Header.GuardNoLineBreak | build/util/lastchange.py:111-117 | the guard of a path without line breaks has none |
| Header.HeaderIsJoinedLines | build/util/lastchange.py:120-139 | the header text is its eight template lines, each ended by "\n" |
| Header.HeaderLinesOf | build/util/lastchange.py:120-139 | read back line by line, the header has eight lines: the banner comment first, then `#ifndef GUARD`, `#define GUARD`, `#define DEFINE "VERSION"` and `#endif  // GUARD` in their places |
| Revision.LinePosition | build/util/lastchange.py:81 | the position taken from a `Cr-Commit-Position:` line is nonempty, holds no whitespace, and is the run that ends the line once trailing whitespace is dropped, preceded by whitespace or by nothing |
| Revision.LinePositionIsLastToken | build/util/lastchange.py:80-81 | for `Cr-Commit-Position:` + anything + whitespace + WORD + trailing whitespace, the position is WORD |
| Revision.LinePositionNoSpace | build/util/lastchange.py:80-81 | a position line without whitespace is its own position |
| Revision.LastPositionLine | build/util/lastchange.py:79-80 | returns -1 or the index of a position line, and no later line is a position line |
| Revision.ScanPosition | build/util/lastchange.py:74-82 | the backward scan with `break` yields the position of the last position line, and yields "" exactly when no line is a position line |
| Revision.CatFilePositionShape | build/util/lastchange.py:74-82 | the position found holds no whitespace, and is empty exactly when cat-file could not be launched, exited nonzero, printed nothing, or the commit has no position line |
| Revision.PositionOfTrailer | build/util/lastchange.py:79-82 | the commit position is the position of the last position line, whatever lines come before it |
| Revision.PositionOfTrailerWord | build/util/lastchange.py:79-82 | a commit whose last position line is `Cr-Commit-Position:` + anything + a space + WORD has position WORD |
| Revision.GitRevisionNoneIff | build/util/lastchange.py:60-73 | there is no revision exactly when the log step could not be launched, exited nonzero, or printed only whitespace |
| Revision.GitRevisionShape | build/util/lastchange.py:60-83 | a found revision has the stripped log output as its id, and its full string is that id, `-`, and the commit position (possibly empty) |
| Revision.FetchGitRevision | build/util/lastchange.py:51-83 | the method returns `GitRevision` of the two process results, and returns None exactly in the log-failure cases |
| Revision.OutFileOverrideFirst | build/util/lastchange.py:91-96 | the `src/build/util/LASTCHANGE` entry wins over the macro-name entries |
| Revision.OverrideIgnoresGit | build/util/lastchange.py:91-98 | when an entry matches, the Git results play no part |
| Revision.SentinelIff | build/util/lastchange.py:97-101 | without an override, the answer is `("0", "0")` exactly when the log step fails, and otherwise its id is the stripped log output |
| Dispatch.PositionalAtMostOne | build/util/lastchange.py:195-197 | at most one positional argument is taken: with `-o` none, without it the first one when there is one |
| Dispatch.TakeOutFile | build/util/lastchange.py:195-197 | the `while` loop over `args` yields the output file and leftover arguments of `PositionalOutFile` |
| Dispatch.UsageIff | build/util/lastchange.py:195-201 | the run is refused exactly when more arguments are given than the one positional slot left free by `-o` |
| Dispatch.StrayArgumentsRefused | build/util/lastchange.py:195-201 | an output file followed by two stray arguments is refused, with or without `-o` |
| Dispatch.PrintOnlyOverrides | build/util/lastchange.py:213-214 | with `--print-only` nothing is written, whatever the file options, and standard output gets the revision and "\n" |
| Dispatch.PlainRoundTrip | build/util/lastchange.py:216 | the revision can be read back unchanged from `LASTCHANGE=<revision>\n` |
| Dispatch.PlainToStdout | build/util/lastchange.py:216-218 | with neither an output file nor a header file, nothing is written, and standard output holds the plain form of the resolved revision |
| Dispatch.FileOutputs | build/util/lastchange.py:219-225 | with a file option, nothing is printed; the plain form goes to the output file and the header to the header file, in that order, one write each |
| Dispatch.RevisionIdOnlyEmitsId | build/util/lastchange.py:208-211 | whatever version info is resolved (Git, a pinned entry or the sentinel), `--revision-id-only` emits its `revision_id` alone, otherwise its full `revision` string |
| Dispatch.NoOverrideForDefaultMacro | build/util/lastchange.py:91-98 | with the default macro name `LAST_CHANGE` and a file other than `src/build/util/LASTCHANGE`, no override applies |
| Dispatch.DefaultRunWritesFile | build/util/lastchange.py:191-227 | with default options and one positional file, that file alone receives the plain form of `hash-position`, and nothing is printed |
| Dispatch.LaunchFailurePrintsSentinel | build/util/lastchange.py:98-100 | when Git cannot be launched and no file is named, the run still proceeds and prints `LASTCHANGE=0\n` |
| Workspace.SecondWriteIsNoOp | build/util/lastchange.py:142-155 | writing the same contents twice rewrites the file at most once, and leaves the files as after the first write |
| Workspace.WritesInSequence | build/util/lastchange.py:220-225 | handing two batches of writes over one after the other has the effect of handing over the concatenated batch |
| Workspace.Host.WriteIfChanged | build/util/lastchange.py:142-155 | afterwards the file holds the contents and no other file changes; the file is rewritten and logged exactly when it was missing or held something else |
| Workspace.Host.WriteOutputs | build/util/lastchange.py:219-225 | the output-file write and then the header write leave the files and the rewrite log as `FileWrites` prescribes |
| Workspace.Host.Run | build/util/lastchange.py:191-227 | a refused run returns 2 and writes nothing; otherwise it returns 0, prints exactly the plan's output, and applies exactly the plan's writes, in order |

## Left out

- `RunGitCommand` and `subprocess.Popen`, with the cygwin and win32 shell handling, are not modelled. What each Git process reports is an input: it could not be launched, or it exited with a return code and printed some output. The command arguments are therefore not modelled: the `--grep` filter, the hash given to `cat-file`, and the `-s` source directory with its `__file__`-based default.
- The `logging.error` calls and `logging.basicConfig` are left out; they only produce diagnostics.
- optparse is not modelled: the option table and its defaults are the `Options` datatype, and `DefaultOptions` is the no-option case. Malformed options, which optparse rejects on its own, are not modelled.
- Host.Run: on a refused run the contract states the exit code and that no file is written. It says nothing about the text that run prints: the "Unexpected arguments" message on standard error is not modelled, and neither is optparse's help text on standard output.
- `sys.exit` is modelled as the value `Run` returns.
- Python's `print` is modelled as appending the text and "\n" to the `stdout` field.
- Real filesystem behaviour is not modelled: `EnvironmentError` on reading, unlinking, encodings, permissions. A file missing from the map counts as unreadable, so it is always written.
- PyStr.RSplit: the contract pins the last word only; that the earlier words are the input's other whitespace-separated runs, in order, is not stated, because the script uses only the last word.
- PyStr.Upper: upper-cases ASCII letters only; Python 2 `str.upper()` on non-ASCII bytes under a locale is not modelled.
- Strings are sequences of characters; byte-level encoding of Git's output is not modelled.
- net/third_party/quiche/src/quic/platform/api/quic_socket_address.cc is not part of this model. Every member of it forwards to `QuicSocketAddressImpl`, whose source is not available.
