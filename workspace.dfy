/**
 * The state lastchange.py touches: the files it may write, standard output,
 * and the record of which files were (re)written in the order it happened.
 * `WriteIfChanged` and `main` are methods on it.
 */
module Workspace {
  import opened Wrappers
  import opened Revision
  import opened Header
  import opened Dispatch

  /** WriteIfChanged writes unless the file already holds exactly `contents`;
      a missing file always counts as different. */
  predicate NeedsWrite(files: map<string, string>, fileName: string, contents: string) {
    !(fileName in files && files[fileName] == contents)
  }

  /** The files after handing each pair of `writes` to WriteIfChanged. */
  function ApplyWrites(files: map<string, string>, writes: seq<(string, string)>): map<string, string>
    decreases |writes|
  {
    if writes == [] then files
    else ApplyWrites(files[writes[0].0 := writes[0].1], writes[1..])
  }

  /** The files actually rewritten while handing `writes` to WriteIfChanged. */
  function WrittenFiles(files: map<string, string>, writes: seq<(string, string)>): seq<string>
    decreases |writes|
  {
    if writes == [] then []
    else
      var (f, c) := writes[0];
      (if NeedsWrite(files, f, c) then [f] else []) + WrittenFiles(files[f := c], writes[1..])
  }

  /** Writing the same contents twice: the second time nothing is written,
      and the files are as after the first time. */
  lemma SecondWriteIsNoOp(files: map<string, string>, fileName: string, contents: string)
    ensures !NeedsWrite(files[fileName := contents], fileName, contents)
    ensures WrittenFiles(files, [(fileName, contents), (fileName, contents)])
         == (if NeedsWrite(files, fileName, contents) then [fileName] else [])
    ensures ApplyWrites(files, [(fileName, contents), (fileName, contents)]) == files[fileName := contents]
  {
    var once := files[fileName := contents];
    var w := (fileName, contents);
    assert [w, w][1..] == [w] && [w][1..] == [];
    assert once[fileName := contents] == once;
    assert WrittenFiles(once, [w]) == [] + WrittenFiles(once, []);
    assert WrittenFiles(files, [w, w]) ==
      (if NeedsWrite(files, fileName, contents) then [fileName] else []) + WrittenFiles(once, [w]);
    assert ApplyWrites(once, [w]) == ApplyWrites(once, []);
  }

  /** One write hands one pair to WriteIfChanged. */
  lemma SingleWrite(files: map<string, string>, fileName: string, contents: string)
    ensures ApplyWrites(files, [(fileName, contents)]) == files[fileName := contents]
    ensures WrittenFiles(files, [(fileName, contents)])
         == if NeedsWrite(files, fileName, contents) then [fileName] else []
  {
    assert [(fileName, contents)][1..] == [];
  }

  class Host {
    var files: map<string, string>
    var stdout: string
    var writeLog: seq<string>

    constructor (initial: map<string, string>)
      ensures files == initial && stdout == "" && writeLog == []
    {
      files := initial;
      stdout := "";
      writeLog := [];
    }

    /** `WriteIfChanged(file_name, contents)`: read the old contents if the
        file exists, return if they are the same, otherwise delete the file
        and write it anew. */
    method WriteIfChanged(fileName: string, contents: string)
      modifies this
      ensures fileName in files && files[fileName] == contents
      ensures files == old(files)[fileName := contents]
      ensures forall f :: f != fileName ==> (f in files <==> f in old(files))
      ensures forall f :: f != fileName && f in files ==> files[f] == old(files)[f]
      ensures !NeedsWrite(old(files), fileName, contents) ==> files == old(files)
      ensures writeLog == old(writeLog) + if NeedsWrite(old(files), fileName, contents) then [fileName] else []
      ensures stdout == old(stdout)
    {
      if fileName in files {
        var oldContents := files[fileName];
        if contents == oldContents {
          assert files[fileName := contents] == files;
          return;
        }
        files := files - {fileName};
      }
      files := files[fileName := contents];
      writeLog := writeLog + [fileName];
    }

    /** The file writes of `main`: the plain form to the output file when one
        is named, then the header to the header file when one is named. */
    method WriteOutputs(outFile: Option<string>, header: Option<string>, versionMacro: string,
                        revision: string)
      modifies this
      ensures var writes := FileWrites(outFile, header, versionMacro, revision);
        files == ApplyWrites(old(files), writes) &&
        writeLog == old(writeLog) + WrittenFiles(old(files), writes)
      ensures stdout == old(stdout)
    {
      ghost var files0, log0 := files, writeLog;
      ghost var first := OutFileWrite(outFile, revision);
      ghost var second := HeaderWrite(header, versionMacro, revision);
      if Truthy(outFile) {
        var contents := PlainContents(revision);
        SingleWrite(files, outFile.value, contents);
        WriteIfChanged(outFile.value, contents);
      }
      ghost var log1 := writeLog;
      assert log1 == log0 + WrittenFiles(files0, first);
      if Truthy(header) {
        var headerContents := GetHeaderContents(header.value, versionMacro, revision);
        SingleWrite(files, header.value, headerContents);
        WriteIfChanged(header.value, headerContents);
      }
      WritesInSequence(files0, first, second);
      AppendAssoc(log0, WrittenFiles(files0, first), WrittenFiles(ApplyWrites(files0, first), second));
    }

    /** `main(argv)`: settle the output file, refuse leftover arguments with
        exit code 2, resolve the revision, then print or write it. */
    method Run(opts: Options, args: seq<string>, log: ProcResult, cat: ProcResult) returns (exitCode: int)
      modifies this
      ensures var plan := MainPlan(opts, args, log, cat);
        match plan
        case Usage =>
          exitCode == 2 && files == old(files) && writeLog == old(writeLog)
        case Proceed(out, writes) =>
          exitCode == 0 &&
          stdout == old(stdout) + out &&
          files == ApplyWrites(old(files), writes) &&
          writeLog == old(writeLog) + WrittenFiles(old(files), writes)
    {
      var outFile, rest := TakeOutFile(opts.output, args);
      if rest != [] {
        return 2;
      }
      var info := FetchVersionInfo(outFile, Some(opts.versionMacro), log, cat);
      var revision := EmittedRevision(info, opts.revisionIdOnly);
      if opts.printOnly {
        stdout := stdout + (revision + "\n");
      } else {
        var contents := PlainContents(revision);
        if !Truthy(outFile) && !Truthy(opts.header) {
          stdout := stdout + contents;
        } else {
          WriteOutputs(outFile, opts.header, opts.versionMacro, revision);
        }
      }
      exitCode := 0;
    }
  }

  /** Regrouping a concatenation. Stated on its own, because inside
      WriteOutputs, with the file map in scope, the same fact is costly. */
  lemma AppendAssoc(a: seq<string>, b: seq<string>, c: seq<string>)
    ensures a + b + c == a + (b + c)
  {
  }

  /** Handing two batches of writes to WriteIfChanged one after the other. */
  lemma {:induction false} WritesInSequence(files: map<string, string>, first: seq<(string, string)>,
                                            second: seq<(string, string)>)
    ensures ApplyWrites(files, first + second) == ApplyWrites(ApplyWrites(files, first), second)
    ensures WrittenFiles(files, first + second)
         == WrittenFiles(files, first) + WrittenFiles(ApplyWrites(files, first), second)
    decreases |first|
  {
    if first != [] {
      assert (first + second)[0] == first[0];
      assert (first + second)[1..] == first[1..] + second;
      WritesInSequence(files[first[0].0 := first[0].1], first[1..], second);
    } else {
      assert first + second == second;
    }
  }
}
