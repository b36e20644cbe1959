/**
 * The head engine of `headr` (src/lib.rs): for each configured file, in order,
 * report an open failure on standard error or print a banner (when several
 * files are given) followed by the file's first bytes or first lines on
 * standard output; a failed read aborts the whole run.
 *
 * I/O is abstracted: the file system and standard input are values (`Env`),
 * and the two output streams are sequences the run builds up.
 */
module Head {
  import opened Lines

  datatype Option<T> = None | Some(value: T)

  datatype Result<T> = Ok(value: T) | Err(error: string)

  /** The parsed command line: files in order, the line count, the optional byte count. */
  datatype Config = Config(files: seq<string>, lines: nat, bytes: Option<nat>)

  /**
   * A read error inside an opened stream: the byte at index `at` cannot be
   * read, and a read that would deliver it fails with `message`. Invalid UTF-8
   * seen by `read_line` is modelled the same way.
   */
  datatype Fault = Fault(at: nat, message: string)

  /** The bytes an opened file or standard input would deliver, and where reading fails. */
  datatype Stream = Stream(content: string, fault: Option<Fault>)

  /** What opening a name yields: a readable stream or the open error's description. */
  datatype Source = OpenFailed(message: string) | Opened(stream: Stream)

  /** The outside world of one run: standard input and the files that exist. */
  datatype Env = Env(stdin: Stream, disk: map<string, Source>)

  /** What one file contributes to standard output, and the read error that stopped it, if any. */
  datatype Emitted = Emitted(out: string, error: Option<string>)

  /** How the run ends: normally, or through `?` on a read error. */
  datatype Status = Completed | Aborted(message: string)

  datatype Report = Report(stdout: string, stderr: string, status: Status)

  /** The description `File::open` gives for a name that does not exist. */
  const NotFound: string := "No such file or directory (os error 2)"

  /** The files of a command line: the positional arguments, or standard input alone. */
  function FileArgs(positional: seq<string>): (files: seq<string>)
    ensures files != []
    ensures positional != [] ==> files == positional
    ensures positional == [] ==> files == ["-"]
  {
    if positional == [] then ["-"] else positional
  }

  /** `open`: the name "-" is standard input, which always opens; any other name is looked up on disk. */
  function Open(filename: string, env: Env): (s: Source)
    ensures filename == "-" ==> s == Opened(env.stdin)
    ensures s.Opened? ==> filename == "-" || filename in env.disk
    ensures filename != "-" && filename !in env.disk ==> s == OpenFailed(NotFound)
  {
    if filename == "-" then Opened(env.stdin)
    else if filename in env.disk then env.disk[filename]
    else OpenFailed(NotFound)
  }

  /**
   * The text `println!` writes before a file's contents when several files are
   * given: the header line `==> <name> <==`, preceded by a newline for every
   * file but the first (a blank line only when the output before it ended with
   * a newline, which a byte-mode head need not).
   */
  function Banner(filename: string, fileNum: nat): (b: string)
    ensures |b| == (if fileNum > 0 then 1 else 0) + |filename| + 9
    ensures b[0] == '\n' <==> fileNum > 0
    ensures b[|b| - |filename| - 9..] == "==> " + filename + " <==\n"
  {
    (if fileNum > 0 then "\n" else "") + "==> " + filename + " <==\n"
  }

  /**
   * Byte mode: one read of at most `n` bytes through a `take(n)` handle. The
   * read is taken to deliver all the bytes available up to the bound.
   */
  function ByteMode(file: Stream, n: nat): (e: Emitted)
    ensures |e.out| <= n && |e.out| <= |file.content| && e.out == file.content[..|e.out|]
    ensures e.error.None? ==> |e.out| == Min(n, |file.content|)
    ensures e.error.Some? <==> file.fault.Some? && file.fault.value.at < Min(n, |file.content|)
    ensures e.error.Some? ==> e.out == [] && e.error.value == file.fault.value.message
  {
    var k := Min(n, |file.content|);
    if file.fault.Some? && file.fault.value.at < k then Emitted([], Some(file.fault.value.message))
    else Emitted(file.content[..k], None)
  }

  /**
   * `read_line` at position `pos`: the next line with its newline, empty at the
   * end of the stream, or the stream's error when that line holds the faulty byte.
   */
  function ReadLine(file: Stream, pos: nat): (r: Result<string>)
    requires pos <= |file.content|
    ensures r.Ok? ==> pos + |r.value| <= |file.content| && r.value == file.content[pos..pos + |r.value|]
    ensures r.Ok? ==> (r.value == [] <==> pos == |file.content|)
    ensures r.Err? ==> file.fault.Some? && pos <= file.fault.value.at && r.error == file.fault.value.message
  {
    var line := file.content[pos..LineEnd(file.content, pos)];
    if file.fault.Some? && pos <= file.fault.value.at < pos + |line| then Err(file.fault.value.message)
    else Ok(line)
  }

  /**
   * Line mode: the first `n` lines, or, when one of them holds the faulty
   * byte, the whole lines before it followed by the error.
   */
  function LineMode(file: Stream, n: nat): (e: Emitted)
    ensures |e.out| <= |file.content| && e.out == file.content[..|e.out|]
    ensures e.error.None? ==> e.out == TakeLines(file.content, 0, n)
    ensures e.error.Some? <==> file.fault.Some? && file.fault.value.at < LinesEnd(file.content, 0, n)
    ensures e.error.Some? ==> |e.out| <= file.fault.value.at && e.error.value == file.fault.value.message
    ensures e.error.Some? ==>
              e.out == TakeLines(file.content, 0, LinesBefore(file.content, 0, file.fault.value.at))
  {
    var c := file.content;
    match file.fault
    case None => Emitted(c[..LinesEnd(c, 0, n)], None)
    case Some(f) =>
      if f.at < LinesEnd(c, 0, n) then Emitted(c[..LinesEnd(c, 0, LinesBefore(c, 0, f.at))], Some(f.message))
      else Emitted(c[..LinesEnd(c, 0, n)], None)
  }

  /** The mode is chosen by the byte count alone. */
  function Emit(config: Config, file: Stream): Emitted {
    match config.bytes
    case Some(n) => ByteMode(file, n)
    case None => LineMode(file, config.lines)
  }

  /** What the loop finds for one file: an open failure, or what reading it emitted. */
  datatype Outcome = NotOpened(message: string) | Read(emitted: Emitted)

  /** Open the `i`-th file and, if it opens, read it in the configured mode. */
  function FileOutcome(config: Config, env: Env, i: nat): Outcome
    requires i < |config.files|
  {
    match Open(config.files[i], env)
    case OpenFailed(msg) => NotOpened(msg)
    case Opened(file) => Read(Emit(config, file))
  }

  /** The outcomes of all configured files, in order. */
  function Outcomes(config: Config, env: Env): (outs: seq<Outcome>)
    ensures |outs| == |config.files|
  {
    seq(|config.files|, i requires 0 <= i < |config.files| => FileOutcome(config, env, i))
  }

  /** What one file writes: a banner and contents on standard output, errors on standard error. */
  datatype Writes = Writes(banner: string, contents: string, errors: string)

  /**
   * What the `fileNum`-th file writes: for an open failure, `<name>: <error>`
   * on standard error; for a file that opens, its banner (when there are
   * several files) and then its contents on standard output.
   */
  function Written(files: seq<string>, fileNum: nat, outcome: Outcome): (w: Writes)
    requires fileNum < |files|
    ensures outcome.NotOpened? ==>
      && w.banner == [] && w.contents == []
      && w.errors == files[fileNum] + ": " + outcome.message + "\n"
    ensures outcome.Read? ==> w.errors == [] && w.contents == outcome.emitted.out
    ensures outcome.Read? ==> (w.banner != [] <==> |files| > 1)
    ensures outcome.Read? && |files| > 1 ==> (w.banner[0] == '\n' <==> fileNum > 0)
  {
    var filename := files[fileNum];
    match outcome
    case NotOpened(msg) => Writes("", "", filename + ": " + msg + "\n")
    case Read(e) => Writes(if |files| > 1 then Banner(filename, fileNum) else "", e.out, "")
  }

  /** Whether an outcome is a file that opened and then failed to be read. */
  predicate Aborts(o: Outcome) {
    o.Read? && o.emitted.error.Some?
  }

  /** The effect of the `fileNum`-th file on a run that has not aborted. */
  function Step(files: seq<string>, fileNum: nat, outcome: Outcome, r: Report): Report
    requires fileNum < |files|
  {
    var w := Written(files, fileNum, outcome);
    Report(r.stdout + w.banner + w.contents, r.stderr + w.errors,
           if Aborts(outcome) then Aborted(outcome.emitted.error.value) else Completed)
  }

  /** The outputs after the loop has handled the first `k` files (or stopped at a read error). */
  function Fold(files: seq<string>, outs: seq<Outcome>, k: nat): Report
    requires |outs| == |files| && k <= |files|
  {
    if k == 0 then Report("", "", Completed)
    else
      var r := Fold(files, outs, k - 1);
      if r.status.Aborted? then r else Step(files, k - 1, outs[k - 1], r)
  }

  /**
   * The outputs of the whole run. When it is aborted, the message is the
   * error of the first file whose read failed.
   */
  function RunReport(config: Config, env: Env): (r: Report)
    ensures var outs := Outcomes(config, env);
      r.status.Aborted? ==>
        exists i :: 0 <= i < |config.files| && Aborts(outs[i])
          && (forall j :: 0 <= j < i ==> !Aborts(outs[j]))
          && r.status.message == outs[i].emitted.error.value
  {
    var outs := Outcomes(config, env);
    AbortedByFirstReadError(config.files, outs, |config.files|);
    Fold(config.files, outs, |config.files|)
  }

  /**
   * `read_line` at the end of the first `k` lines reads line `k` (counting
   * from 0): it fails when that line holds the faulty byte, returns nothing at
   * the end of the stream, and otherwise returns exactly that line.
   */
  lemma ReadLineReadsNextLine(file: Stream, k: nat)
    requires file.fault.None? || LinesEnd(file.content, 0, k) <= file.fault.value.at
    ensures var c, pos := file.content, LinesEnd(file.content, 0, k);
      match ReadLine(file, pos)
      case Err(_) =>
        pos < |c| && file.fault.Some? && file.fault.value.at < LinesEnd(c, 0, k + 1)
      case Ok(line) =>
        && (line == [] ==> pos == |c|)
        && (line != [] ==>
              && LinesEnd(c, 0, k + 1) == pos + |line|
              && c[..pos] + line == c[..pos + |line|]
              && (file.fault.None? || pos + |line| <= file.fault.value.at))
  {
    var c, pos := file.content, LinesEnd(file.content, 0, k);
    if pos < |c| {
      LinesEndStep(c, 0, k);
    }
  }

  /** Line mode when line `k` (counting from 0) holds the faulty byte. */
  lemma LineModeAtFault(file: Stream, n: nat, k: nat)
    requires k < n && file.fault.Some?
    requires LinesEnd(file.content, 0, k) <= file.fault.value.at < LinesEnd(file.content, 0, k + 1)
    ensures LineMode(file, n) == Emitted(file.content[..LinesEnd(file.content, 0, k)], Some(file.fault.value.message))
  {
    LinesBeforeInLine(file.content, 0, k, file.fault.value.at);
    LinesEndMonotone(file.content, 0, k + 1, n);
  }

  /** The line-mode loop: up to `lines` calls of `read_line`, each line printed and the buffer cleared. */
  method PrintLines(file: Stream, lines: nat) returns (e: Emitted)
    ensures e == LineMode(file, lines)
  {
    var c := file.content;
    var pos := 0;
    var printed := "";
    var line := "";
    for k := 0 to lines
      invariant pos == LinesEnd(c, 0, k)
      invariant printed == c[..pos]
      invariant line == ""
      invariant file.fault.None? || pos <= file.fault.value.at
    {
      var read := ReadLine(file, pos);
      ReadLineReadsNextLine(file, k);
      if read.Err? {
        LineModeAtFault(file, lines, k);
        return Emitted(printed, Some(read.error));
      }
      line := line + read.value;
      if |read.value| == 0 {
        LinesEndSaturated(c, 0, k, lines);
        return Emitted(printed, None);
      }
      pos := pos + |read.value|;
      printed := printed + line;
      line := "";
    }
    return Emitted(printed, None);
  }

  /**
   * The byte-mode branch: a zeroed buffer of `numBytes` bytes, one `read`
   * through a handle limited to `numBytes`, and the filled part printed.
   */
  method PrintBytes(file: Stream, numBytes: nat) returns (e: Emitted)
    ensures e == ByteMode(file, numBytes)
  {
    var buffer := new char[numBytes](_ => '\0');
    var bytesRead := Min(numBytes, |file.content|);
    if file.fault.Some? && file.fault.value.at < bytesRead {
      return Emitted([], Some(file.fault.value.message));
    }
    for i := 0 to bytesRead
      invariant buffer[..i] == file.content[..i]
    {
      buffer[i] := file.content[i];
    }
    return Emitted(buffer[..bytesRead], None);
  }

  /** The body of `run` for a file that opened: byte mode when a byte count is given, else line mode. */
  method PrintFile(config: Config, file: Stream) returns (e: Emitted)
    ensures e == Emit(config, file)
  {
    if config.bytes.Some? {
      e := PrintBytes(file, config.bytes.value);
    } else {
      e := PrintLines(file, config.lines);
    }
  }

  /** `run`: the loop over the configured files. */
  method Run(config: Config, env: Env) returns (r: Report)
    ensures r == RunReport(config, env)
  {
    ghost var outs := Outcomes(config, env);
    var numFiles := |config.files|;
    var stdout, stderr := "", "";
    for fileNum := 0 to numFiles
      invariant Fold(config.files, outs, fileNum) == Report(stdout, stderr, Completed)
    {
      var filename := config.files[fileNum];
      match Open(filename, env)
      case OpenFailed(msg) =>
        stderr := stderr + filename + ": " + msg + "\n";
        OpenFailureSkipped(config, env, fileNum);
      case Opened(file) =>
        OpenedFileShown(config, env, fileNum);
        if numFiles > 1 {
          stdout := stdout + Banner(filename, fileNum);
        }
        var emitted := PrintFile(config, file);
        stdout := stdout + emitted.out;
        if emitted.error.Some? {
          r := Report(stdout, stderr, Aborted(emitted.error.value));
          AbortIsFinal(config.files, outs, fileNum, numFiles);
          return;
        }
    }
    r := Report(stdout, stderr, Completed);
  }

  /** Once a read error aborted the run, the files after it change nothing. */
  lemma {:induction false} AbortIsFinal(files: seq<string>, outs: seq<Outcome>, i: nat, k: nat)
    requires |outs| == |files| && i < k <= |files|
    requires Fold(files, outs, i + 1).status.Aborted?
    ensures Fold(files, outs, k) == Fold(files, outs, i + 1)
  {
    if k > i + 1 {
      AbortIsFinal(files, outs, i, k - 1);
      assert Fold(files, outs, k - 1).status.Aborted?;
    }
  }

  /** Files are handled in order: later files only append to both outputs. */
  lemma {:induction false} OutputsOnlyGrow(files: seq<string>, outs: seq<Outcome>, j: nat, k: nat)
    requires |outs| == |files| && j <= k <= |files|
    ensures Fold(files, outs, j).stdout <= Fold(files, outs, k).stdout
    ensures Fold(files, outs, j).stderr <= Fold(files, outs, k).stderr
  {
    if j < k {
      OutputsOnlyGrow(files, outs, j, k - 1);
      var r := Fold(files, outs, k - 1);
      if r.status.Completed? {
        var w := Written(files, k - 1, outs[k - 1]);
        PrefixExtended(Fold(files, outs, j).stdout, r.stdout, w.banner);
        PrefixExtended(Fold(files, outs, j).stdout, r.stdout + w.banner, w.contents);
        PrefixExtended(Fold(files, outs, j).stderr, r.stderr, w.errors);
      }
    }
  }

  /** A prefix of `b` is a prefix of anything `b` is extended to. */
  lemma PrefixExtended(a: string, b: string, x: string)
    requires a <= b
    ensures a <= b + x
  {
  }

  /** The run completes exactly when no file that opens fails to be read. */
  lemma {:induction false} CompletedIffNoReadError(files: seq<string>, outs: seq<Outcome>, k: nat)
    requires |outs| == |files| && k <= |files|
    ensures Fold(files, outs, k).status.Completed? <==> forall i :: 0 <= i < k ==> !Aborts(outs[i])
  {
    if k > 0 {
      CompletedIffNoReadError(files, outs, k - 1);
    }
  }

  /** An aborted run carries the error of the first file whose read failed. */
  lemma {:induction false} AbortedByFirstReadError(files: seq<string>, outs: seq<Outcome>, k: nat)
    requires |outs| == |files| && k <= |files|
    ensures var r := Fold(files, outs, k);
      r.status.Aborted? ==>
        exists i :: 0 <= i < k && Aborts(outs[i])
          && (forall j :: 0 <= j < i ==> !Aborts(outs[j]))
          && r.status.message == outs[i].emitted.error.value
  {
    if k > 0 {
      var r := Fold(files, outs, k - 1);
      if r.status.Aborted? {
        AbortedByFirstReadError(files, outs, k - 1);
      } else if Aborts(outs[k - 1]) {
        CompletedIffNoReadError(files, outs, k - 1);
        assert Fold(files, outs, k).status.message == outs[k - 1].emitted.error.value;
      }
    }
  }

  /**
   * A file that cannot be opened adds `<name>: <error>` and a newline to
   * standard error, nothing to standard output, and the run goes on.
   */
  lemma OpenFailureSkipped(config: Config, env: Env, i: nat)
    requires i < |config.files|
    requires Fold(config.files, Outcomes(config, env), i).status.Completed?
    requires Open(config.files[i], env).OpenFailed?
    ensures var outs := Outcomes(config, env);
      var before, after := Fold(config.files, outs, i), Fold(config.files, outs, i + 1);
      && after.stdout == before.stdout
      && after.stderr == before.stderr + config.files[i] + ": " + Open(config.files[i], env).message + "\n"
      && after.status.Completed?
  {
    // Hints only: naming this file's outcome and the fold step keeps the proof cheap.
    var outs := Outcomes(config, env);
    var o := NotOpened(Open(config.files[i], env).message);
    assert outs[i] == o;
    assert Fold(config.files, outs, i + 1) == Step(config.files, i, o, Fold(config.files, outs, i));
  }

  /**
   * A file that opens adds its banner (when there are several files: the
   * header line, preceded by a newline unless it is the first file) and then
   * its contents to standard output; the run stops there when reading it failed.
   */
  lemma OpenedFileShown(config: Config, env: Env, i: nat)
    requires i < |config.files|
    requires Fold(config.files, Outcomes(config, env), i).status.Completed?
    requires Open(config.files[i], env).Opened?
    ensures var outs := Outcomes(config, env);
      var before, after := Fold(config.files, outs, i), Fold(config.files, outs, i + 1);
      var e := Emit(config, Open(config.files[i], env).stream);
      && after.stdout
           == before.stdout + (if |config.files| > 1 then Banner(config.files[i], i) else "") + e.out
      && after.stderr == before.stderr
      && (after.status.Completed? <==> e.error.None?)
      && (e.error.Some? ==> after.status == Aborted(e.error.value))
  {
  }

  /** With a single file there is no banner: standard output is that file's head alone. */
  lemma SingleFileNoBanner(config: Config, env: Env)
    requires |config.files| == 1
    ensures var src := Open(config.files[0], env);
      RunReport(config, env).stdout == (if src.Opened? then Emit(config, src.stream).out else "")
  {
    var outs := Outcomes(config, env);
    assert outs[0] == FileOutcome(config, env, 0);
    assert Fold(config.files, outs, 0) == Report("", "", Completed);
    assert RunReport(config, env) == Step(config.files, 0, outs[0], Report("", "", Completed));
  }

  /** In byte mode the line count plays no part in the run. */
  lemma ByteModeIgnoresLines(files: seq<string>, a: nat, b: nat, n: nat, env: Env)
    ensures RunReport(Config(files, a, Some(n)), env) == RunReport(Config(files, b, Some(n)), env)
  {
    var ca, cb := Config(files, a, Some(n)), Config(files, b, Some(n));
    forall i | 0 <= i < |files|
      ensures Outcomes(ca, env)[i] == Outcomes(cb, env)[i]
    {
      assert Outcomes(ca, env)[i] == FileOutcome(ca, env, i);
      assert Outcomes(cb, env)[i] == FileOutcome(cb, env, i);
    }
    assert Outcomes(ca, env) == Outcomes(cb, env);
  }

  /** Line mode never prints more than `n` lines, whether or not a read fails. */
  lemma LineModeAtMost(file: Stream, n: nat)
    ensures LineCount(LineMode(file, n).out, 0) <= n
    ensures n == 0 ==> LineMode(file, n).out == []
  {
    var c := file.content;
    if file.fault.Some? && file.fault.value.at < LinesEnd(c, 0, n) {
      var j := LinesBefore(c, 0, file.fault.value.at);
      TakeLinesCount(c, 0, j);
      if n < j {
        LinesEndMonotone(c, 0, n, j);
      }
    } else {
      TakeLinesCount(c, 0, n);
    }
  }

  /**
   * Without a read error, line mode prints min(n, LineCount) lines, and all of
   * the stream when `n` covers every line of it.
   */
  lemma LineModeLines(file: Stream, n: nat)
    requires LineMode(file, n).error.None?
    ensures LineCount(LineMode(file, n).out, 0) == Min(n, LineCount(file.content, 0))
    ensures LineCount(file.content, 0) <= n ==> LineMode(file, n).out == file.content
  {
    var c := file.content;
    assert LineMode(file, n).out == TakeLines(c, 0, n);
    TakeLinesCount(c, 0, n);
    if LineCount(c, 0) <= n {
      LinesEndWhole(c, 0, n);
    }
  }

  /**
   * Two files in byte mode where the first cannot be opened: its error goes
   * to standard error, and the second file's banner still starts with the
   * newline of a later file, because the file index counts every file, opened
   * or not.
   */
  lemma FailedFirstThenBytes(a: string, b: string, lines: nat, n: nat, env: Env, content: string)
    requires a != "-" && a !in env.disk
    requires b != "-" && b in env.disk && env.disk[b] == Opened(Stream(content, None))
    ensures RunReport(Config([a, b], lines, Some(n)), env)
      == Report("\n==> " + b + " <==\n" + content[..Min(n, |content|)],
                a + ": " + NotFound + "\n", Completed)
  {
    var config := Config([a, b], lines, Some(n));
    OpenFailureSkipped(config, env, 0);
    OpenedFileShown(config, env, 1);
    assert Banner(b, 1) == "\n==> " + b + " <==\n";
  }

  /**
   * With no file arguments the run reads standard input alone: no banner, its
   * head on standard output, and an abort exactly when reading it fails.
   */
  lemma NoFilesReadsStdin(lines: nat, bytes: Option<nat>, env: Env)
    ensures var e := Emit(Config(FileArgs([]), lines, bytes), env.stdin);
      RunReport(Config(FileArgs([]), lines, bytes), env)
        == Report(e.out, "", if e.error.Some? then Aborted(e.error.value) else Completed)
  {
    var config := Config(FileArgs([]), lines, bytes);
    assert config.files == ["-"];
    OpenedFileShown(config, env, 0);
  }
}
