# headr head engine in Dafny

This project models the core of `headr`, a `head` clone: the file loop `run`
in `src/lib.rs`, the `open` dispatch it calls and the `Config` it reads.
For each configured file, in order, the run does one of two things:

- If the file cannot be opened, it writes `<name>: <error>` to standard error
  and moves on.
- If the file opens, it writes a banner `==> <name> <==` when there are
  several files. The banner is preceded by a newline (a blank line only when
  the previous output ended with one) unless this is the first file. Then it writes the first N bytes (byte mode, `-c`) or the first
  N lines (line mode, `-n`).

A read error in either mode aborts the whole run.

I/O is abstracted away. Standard input and the file system form a value
(`Head.Env`). An opened file is a `Head.Stream`: the bytes it would deliver,
plus an optional `Head.Fault`. A fault is the position of the first byte that
cannot be read, and the error message a read reaching it returns. A fault
fires only when a read delivers the byte at its position, so `at` must lie
inside the content: an error that the program would meet while reading past
the last byte (for example when finishing the last line) is expressed by
adding a placeholder byte at `at`. In line mode a fault also stands for
invalid UTF-8 that `read_line` rejects; in byte mode, which decodes lossily,
a fault stands for an I/O error only. Each
character of a `string` stands for one byte. The two output streams are
sequences the run appends to. `Head.Report` is what the run ends with:
standard output, standard error, and whether it completed or was aborted
by `?`.

Two modules:

- `lines.dfy` (`Lines`) is the line structure `BufRead::read_line` sees. A
  line runs through the next newline, or to the end of the stream. The
  module proves the facts the loop relies on: where the first `k` lines end,
  how many lines there are, and what prefix the first `k` lines form.
- `head.dfy` (`Head`) has the following parts.
  - The datatypes and `Open`.
  - The two modes. Each is a specification function (`ByteMode`,
    `LineMode`), and the imperative code is proved equal to it: `PrintBytes`
    fills an array buffer, and `PrintLines` loops over `read_line` with a
    line buffer it clears after each print.
  - The whole run, specified by `RunReport`. Each file's `Outcome` is
    folded in order: `Written` gives what the file writes, `Step` applies
    it and `Fold` walks the files. The method `Run` is proved equal to
    `RunReport`.
  - Lemmas about the fold: order, abort, the banner rule, the error path,
    and mode selection.

Two points of the model deserve stating up front:

- `run` does one `read` in byte mode, which may return fewer than
  min(N, length) bytes; the model assumes it returns all of them.
- An open failure never changes the outcome of the run: `run` returns
  `Ok(())` after it, and the model keeps the status `Completed`.

## Model

| member | source | states |
|---|---|---|
| Head.FileArgs | src/lib.rs:16-17 | the file list is never empty: the positional arguments when there are any, otherwise the single name "-" |
| Head.Open | src/lib.rs:43-48 | "-" always opens standard input; a name opens only if it exists; a missing name fails with the not-found description |
| Head.Banner | src/lib.rs:56-62 | the banner starts with a newline exactly when the file is not the first (file_num > 0), and ends with the header line `==> <name> <==` and its newline |
| Head.ByteMode | src/lib.rs:64-68 | byte mode emits a prefix of the stream of at most n bytes; it emits all min(n, length) of them without error, and fails, emitting nothing, exactly when the faulty byte lies within those bytes |
| Head.PrintBytes | src/lib.rs:64-68 | the buffer-and-single-read code emits exactly what ByteMode specifies |
| Head.ReadLine | src/lib.rs:72 | `read_line` returns a stretch of the stream starting at the reader's position, empty exactly at end of stream, and fails only with the stream's error at or after that position; that it fails exactly when the line holds the faulty byte is ReadLineReadsNextLine |
| Head.ReadLineReadsNextLine | src/lib.rs:72-77 | after k lines, `read_line` returns exactly line k and appending it yields the first k+1 lines; or it returns nothing at end of stream; or it fails exactly when line k holds the faulty byte |
| Head.LineMode | src/lib.rs:69-78 | line mode emits a prefix of the stream: the first n lines when none of them holds the faulty byte; otherwise it fails with the stream's error after emitting the whole lines that end at or before the faulty byte (LinesBefore, whose next line ends past it), as LineModeAtFault also states per line |
| Head.LineModeAtFault | src/lib.rs:71-72 | when line k (k < n) holds the faulty byte, line mode emits exactly the first k lines and the error |
| Head.PrintLines | src/lib.rs:69-78 | the loop of at most n `read_line` calls emits exactly what LineMode specifies: it stops early on a zero-length read, and because the buffer is cleared after each print no line is repeated |
| Head.LineModeAtMost | src/lib.rs:71-75 | line mode never emits more than n lines, and emits nothing when n is 0 |
| Head.LineModeLines | src/lib.rs:70-77 | without a read error, line mode emits min(n, number of lines) lines, and the whole stream when n covers all its lines |
| Head.PrintFile | src/lib.rs:64-79 | an opened file is read in byte mode when a byte count is given and in line mode otherwise, as Emit specifies |
| Head.Written | src/lib.rs:53-62 | a file that cannot be opened writes only `<name>: <error>` and a newline, to standard error; a file that opens writes nothing to standard error and its contents to standard output, after a banner exactly when there are several files, which starts with a newline exactly when the file is not the first |
| Head.RunReport | src/lib.rs:50-84 | the run, as the in-order fold of every file's writes that stops at the first read error; when it is aborted, the message is the error of the first file that opened and failed to be read |
| Head.AbortedByFirstReadError | src/lib.rs:67-72 | after any number of files, an aborted run carries the error of the earliest file whose read failed, and no file before it failed |
| Head.Run | src/lib.rs:50-84 | the loop's standard output, standard error and final status equal RunReport, the in-order fold over the files |
| Head.OpenFailureSkipped | src/lib.rs:53-54 | a file that cannot be opened adds exactly `<name>: <error>` and a newline to standard error, nothing to standard output, and the run goes on |
| Head.OpenedFileShown | src/lib.rs:55-79 | a file that opens adds its banner (only when there are several files) and then its contents to standard output, nothing to standard error; the run stops exactly when reading it failed, aborted with that read's error |
| Head.SingleFileNoBanner | src/lib.rs:56 | with one file, standard output is that file's contents alone, with no banner |
| Head.FailedFirstThenBytes | src/lib.rs:52-68 | when the first of two files fails to open, the second file's banner still starts with the leading newline of a later file, because the file index counts every file |
| Head.AbortIsFinal | src/lib.rs:67-72 | after a read error aborts the run (`?`), no later file changes either output or the status |
| Head.OutputsOnlyGrow | src/lib.rs:52-81 | files are handled in order: each later file only appends to standard output and standard error |
| Head.CompletedIffNoReadError | src/lib.rs:50-84 | the run completes exactly when no file that opened failed to be read; open failures never end the run |
| Head.NoFilesReadsStdin | src/lib.rs:16-17 | with no file arguments the run reads standard input alone: no banner, its head on standard output, nothing on standard error, and an abort exactly when reading it fails |
| Head.ByteModeIgnoresLines | src/lib.rs:64 | when a byte count is given, the line count has no effect on the run |
| Lines.LineEnd | src/lib.rs:72 | a line ends after its first byte, and if it ends before the end of the stream, its last byte is a newline |
| Lines.LineEndFirstNewline | src/lib.rs:72 | a line ends at the first newline after its start: no newline appears before its last byte |
| Lines.LinesEnd | src/lib.rs:71-75 | the first `count` lines from a position end within the stream, and past that position unless the count is 0 or the stream is exhausted |
| Lines.TakeLines | src/lib.rs:70-77 | the lines read one after another concatenate to exactly the stretch of the stream up to where they end |
| Lines.LineCount | src/lib.rs:72-74 | the number of data-returning `read_line` calls is at most the number of bytes left, and is 0 exactly at the end of the stream |
| Lines.LinesBefore | src/lib.rs:71-72 | counts the whole lines that end at or before a given position, and no fewer: for a position inside the stream the next line ends after it |
| Lines.LinesBeforeInLine | src/lib.rs:71-72 | a position inside line k has exactly k whole lines before it |
| Lines.PrefixLineEnd | src/lib.rs:72 | a line that ends within a prefix of the stream is the same line in that prefix |
| Lines.LinesEndBoundary | src/lib.rs:72-77 | the first lines end at their start, at the end of the stream, or just after a newline |
| Lines.LinesEndStep | src/lib.rs:72-77 | reading one more line after the first k ends where that line ends |
| Lines.LinesEndSaturated | src/lib.rs:73-74 | once the lines read reach the end of the stream, asking for more changes nothing |
| Lines.LinesEndMonotone | src/lib.rs:71 | asking for more lines never ends earlier |
| Lines.LinesEndWhole | src/lib.rs:71-75 | asking for at least as many lines as the stream has yields the whole stream |
| Lines.TakeLinesCount | src/lib.rs:70-77 | the first k lines, read as a stream of their own, hold exactly min(k, number of lines) lines |

## Left out

- Command-line parsing through clap (`get_args` and the derive attributes, src/lib.rs:10-41) is not modelled. This includes the default line count of 10 and the rejection of `-n` together with `-c`. `Config` is a plain datatype, and `FileArgs` states only the default file list.
- The `main` function and its mapping of the run's result to an exit status are not part of this model.
- Opening real files and standard input, and `BufReader` buffering, are left out. `Open` looks names up in an `Env` value instead.
- Every open of "-" yields the same standard-input stream. Standard input being consumed by an earlier "-" in the same run is not modelled.
- Open errors other than a missing file are left out. They are the messages stored in `Env.disk`.
- `String::from_utf8_lossy` and UTF-8 decoding in general are left out: the output is the raw bytes. In line mode, `read_line` rejecting invalid UTF-8 counts as a read error, a `Fault` placed at the offending line. In byte mode a `Fault` stands for an I/O error only, since `from_utf8_lossy` never fails.
- Head.ByteMode: assumes the single `read` through the `take` handle returns all min(n, length) available bytes. The OS may legally return fewer, and such short reads are not modelled. A read error is all-or-nothing: the read either fails or delivers the whole range.
- Head.ReadLine: a read error is placed at a byte position in the stream. A failure that depends on timing, or on how the buffer splits the reads, is not modelled.
- The `num_bytes as u64` cast and the allocation size of the `vec` buffer are left out: byte counts are unbounded naturals.
- `print!`, `println!` and `eprintln!` are appends to the output sequences. Interleaving with other writers and flushing are left out.
