/**
 * What `main` of lastchange.py decides from its options: which output file
 * a positional argument names, when the invocation is refused, which
 * revision string is emitted, and where it goes (standard output, the
 * `-o` file, the `--header` file).
 */
module Dispatch {
  import opened Wrappers
  import opened Revision
  import opened Header

  /** The macro name used with `--header` when `-m` is not given. */
  const DefaultVersionMacro := "LAST_CHANGE"

  /** The options `main` acts on, as optparse leaves them. `-s` and
      `--filter` only shape the Git commands, whose results are inputs here. */
  datatype Options = Options(
    output: Option<string>,      // -o/--output FILE
    header: Option<string>,      // --header FILE
    versionMacro: string,        // -m/--version-macro NAME
    revisionIdOnly: bool,        // --revision-id-only
    printOnly: bool)             // --print-only

  /** No option given. */
  const DefaultOptions := Options(None, None, DefaultVersionMacro, false, false)

  /** Python truth of an optional string: present and not empty. */
  predicate Truthy(s: Option<string>) {
    s.Some? && s.value != ""
  }

  /** The output file and the arguments left over after the positional loop. */
  function PositionalOutFile(output: Option<string>, args: seq<string>): (Option<string>, seq<string>)
  {
    if output.None? && args != [] then (Some(args[0]), args[1..]) else (output, args)
  }

  /** At most one positional argument is consumed, the first, and only
      when `-o` was not given. */
  lemma PositionalAtMostOne(output: Option<string>, args: seq<string>)
    ensures var (outFile, rest) := PositionalOutFile(output, args);
      |rest| >= |args| - 1 && rest == args[|args| - |rest|..] &&
      (output.Some? ==> outFile == output && rest == args) &&
      (output.None? && args != [] ==> outFile == Some(args[0]) && rest == args[1..]) &&
      (output.None? ==> (rest == [] <==> |args| <= 1)) &&
      (outFile.None? <==> output.None? && args == [])
  {
  }

  /** `while len(args) and out_file is None: out_file = args.pop(0)`. */
  method TakeOutFile(output: Option<string>, args: seq<string>) returns (outFile: Option<string>, rest: seq<string>)
    ensures (outFile, rest) == PositionalOutFile(output, args)
    ensures output.Some? ==> outFile == output && rest == args
    ensures output.None? && args != [] ==> outFile == Some(args[0]) && rest == args[1..]
  {
    outFile, rest := output, args;
    while |rest| > 0 && outFile.None?
      invariant output.Some? ==> outFile == output && rest == args
      invariant output.None? ==> (outFile.None? && rest == args) ||
                                 (args != [] && outFile == Some(args[0]) && rest == args[1..])
      decreases |rest|
    {
      if outFile.None? {
        outFile := Some(rest[0]);
        rest := rest[1..];
      }
    }
  }

  /** The revision string `main` emits. */
  function EmittedRevision(v: VersionInfo, revisionIdOnly: bool): string
  {
    if revisionIdOnly then v.revisionId else v.revision
  }

  /** The plain form, `LASTCHANGE=%s\n`. */
  function PlainContents(revision: string): string
  {
    "LASTCHANGE=" + revision + "\n"
  }

  /** Reads the revision back out of a plain-form text. */
  function ParsePlain(text: string): Option<string>
  {
    if |text| >= 12 && text[..11] == "LASTCHANGE=" && text[|text| - 1] == '\n'
    then Some(text[11..|text| - 1])
    else None
  }

  /** The plain form carries the revision unchanged. */
  lemma PlainRoundTrip(revision: string)
    ensures ParsePlain(PlainContents(revision)) == Some(revision)
  {
    var text := PlainContents(revision);
    assert text[..11] == "LASTCHANGE=";
    assert text[11..|text| - 1] == revision;
  }

  /** What one run of `main` does: refuse the arguments, or print `stdout`
      and hand each (file, contents) pair of `writes` to WriteIfChanged, in
      order. */
  datatype Plan = Usage | Proceed(stdout: string, writes: seq<(string, string)>)

  /** `main(argv)`, with the Git results given. */
  function MainPlan(opts: Options, args: seq<string>, log: ProcResult, cat: ProcResult): Plan
  {
    var (outFile, rest) := PositionalOutFile(opts.output, args);
    if rest != [] then Usage
    else
      var info := FetchVersionInfo(outFile, Some(opts.versionMacro), log, cat);
      var revision := EmittedRevision(info, opts.revisionIdOnly);
      if opts.printOnly then Proceed(revision + "\n", [])
      else
        var contents := PlainContents(revision);
        if !Truthy(outFile) && !Truthy(opts.header) then Proceed(contents, [])
        else Proceed("", FileWrites(outFile, opts.header, opts.versionMacro, revision))
  }

  /** The files written when at least one file option is given: the plain
      form to the output file, then the header to the header file. */
  function FileWrites(outFile: Option<string>, header: Option<string>, versionMacro: string,
                      revision: string): seq<(string, string)>
  {
    OutFileWrite(outFile, revision) + HeaderWrite(header, versionMacro, revision)
  }

  /** The plain form, to the output file when one is named. */
  function OutFileWrite(outFile: Option<string>, revision: string): seq<(string, string)>
  {
    if Truthy(outFile) then [(outFile.value, PlainContents(revision))] else []
  }

  /** The header, to the header file when one is named. */
  function HeaderWrite(header: Option<string>, versionMacro: string, revision: string): seq<(string, string)>
  {
    if Truthy(header) then [(header.value, GetHeaderContents(header.value, versionMacro, revision))] else []
  }

  /** The revision `main` resolves: the output file it settled on selects
      the override, the macro name too. */
  function ResolvedRevision(opts: Options, args: seq<string>, log: ProcResult, cat: ProcResult): string
  {
    var outFile := PositionalOutFile(opts.output, args).0;
    EmittedRevision(FetchVersionInfo(outFile, Some(opts.versionMacro), log, cat), opts.revisionIdOnly)
  }

  /** Arguments are refused exactly when some positional argument is left
      after the output file has been settled. */
  lemma UsageIff(opts: Options, args: seq<string>, log: ProcResult, cat: ProcResult)
    ensures MainPlan(opts, args, log, cat).Usage? <==>
      |args| > (if opts.output.None? then 1 else 0)
  {
  }

  /** With `--print-only` nothing is written, whatever file options are
      given; the revision goes to standard output on a line of its own. */
  lemma PrintOnlyOverrides(opts: Options, args: seq<string>, log: ProcResult, cat: ProcResult)
    requires opts.printOnly && MainPlan(opts, args, log, cat).Proceed?
    ensures MainPlan(opts, args, log, cat)
         == Proceed(ResolvedRevision(opts, args, log, cat) + "\n", [])
  {
  }

  /** With no file to write, the plain form goes to standard output. */
  lemma PlainToStdout(opts: Options, args: seq<string>, log: ProcResult, cat: ProcResult)
    requires !opts.printOnly && MainPlan(opts, args, log, cat).Proceed?
    requires !Truthy(PositionalOutFile(opts.output, args).0) && !Truthy(opts.header)
    ensures var plan := MainPlan(opts, args, log, cat);
      plan.writes == [] &&
      ParsePlain(plan.stdout) == Some(ResolvedRevision(opts, args, log, cat))
  {
    PlainRoundTrip(ResolvedRevision(opts, args, log, cat));
  }

  /** With an output file the plain form is written there and nothing is
      printed; with a header file as well, the header is written after it. */
  lemma FileOutputs(opts: Options, args: seq<string>, log: ProcResult, cat: ProcResult)
    requires !opts.printOnly && MainPlan(opts, args, log, cat).Proceed?
    requires Truthy(PositionalOutFile(opts.output, args).0) || Truthy(opts.header)
    ensures var plan := MainPlan(opts, args, log, cat);
      var outFile := PositionalOutFile(opts.output, args).0;
      var revision := ResolvedRevision(opts, args, log, cat);
      plan.stdout == "" &&
      |plan.writes| == (if Truthy(outFile) then 1 else 0) + (if Truthy(opts.header) then 1 else 0) &&
      (Truthy(outFile) ==> plan.writes[0] == (outFile.value, PlainContents(revision))) &&
      (Truthy(opts.header) ==>
        plan.writes[|plan.writes| - 1] ==
        (opts.header.value, GetHeaderContents(opts.header.value, opts.versionMacro, revision)))
  {
  }

  /** `--revision-id-only` emits the resolved `revisionId` alone, otherwise
      the full `revision` string is emitted; this holds for every resolved
      value: a Git result, a pinned entry or the `("0", "0")` sentinel. */
  lemma RevisionIdOnlyEmitsId(opts: Options, args: seq<string>, log: ProcResult, cat: ProcResult,
                              v: VersionInfo)
    requires FetchVersionInfo(PositionalOutFile(opts.output, args).0, Some(opts.versionMacro), log, cat) == v
    ensures ResolvedRevision(opts, args, log, cat) == if opts.revisionIdOnly then v.revisionId else v.revision
  {
  }

  /** Default options and one output file: the file receives the plain form
      of "hash-position" and nothing is printed. */
  lemma DefaultRunWritesFile(file: string, log: ProcResult, cat: ProcResult, id: string, pos: string)
    requires file != "" && file != LastChangeFile
    requires GitRevision(log, cat) == Some(VersionInfo(id, id + "-" + pos))
    ensures MainPlan(DefaultOptions, [file], log, cat)
         == Proceed("", [(file, PlainContents(id + "-" + pos))])
  {
    var opts := DefaultOptions;
    NoOverrideForDefaultMacro(Some(file));
    assert [file][1..] == [];
    assert PositionalOutFile(opts.output, [file]) == (Some(file), []);
    var revision := id + "-" + pos;
    assert FetchVersionInfo(Some(file), Some(opts.versionMacro), log, cat) == VersionInfo(id, revision);
    assert FileWrites(Some(file), None, opts.versionMacro, revision) == [(file, PlainContents(revision))];
  }

  /** The default macro name has no pinned revision of its own. */
  lemma NoOverrideForDefaultMacro(outFile: Option<string>)
    requires outFile != Some(LastChangeFile)
    ensures Override(outFile, Some(DefaultVersionMacro)).None?
  {
    assert |DefaultVersionMacro| != |"GPU_LISTS_VERSION"|;
    assert |DefaultVersionMacro| != |"SKIA_COMMIT_HASH"|;
  }

  /** When Git cannot be launched and no override applies, the tool still
      succeeds and prints "LASTCHANGE=0\n". */
  lemma LaunchFailurePrintsSentinel(cat: ProcResult)
    ensures MainPlan(DefaultOptions, [], LaunchFailed, cat) == Proceed("LASTCHANGE=0\n", [])
  {
  }

  /** An output file followed by two stray arguments is refused. */
  lemma StrayArgumentsRefused(file: string, a: string, b: string, log: ProcResult, cat: ProcResult)
    ensures MainPlan(DefaultOptions, [file, a, b], log, cat) == Usage
    ensures MainPlan(DefaultOptions.(output := Some(file)), [a, b], log, cat) == Usage
  {
  }
}
