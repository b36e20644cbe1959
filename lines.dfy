/**
 * The line structure of a byte stream, as `BufRead::read_line` sees it: a line
 * runs up to and including the next newline, or to the end of the stream when
 * no newline follows. Each character of a `string` here stands for one byte.
 *
 * Positions are indices into one fixed stream `s`; a line "starts at `from`"
 * when a reader positioned at `from` would read it next.
 */
module Lines {

  function Min(a: nat, b: nat): nat {
    if a <= b then a else b
  }

  /** Where the line that starts at `from` ends: just after the next newline, or at the end of `s`. */
  function LineEnd(s: string, from: nat): (e: nat)
    requires from <= |s|
    ensures from <= e <= |s|
    ensures from < |s| ==> from < e
    ensures from < e < |s| ==> s[e - 1] == '\n'
    decreases |s| - from
  {
    if from == |s| then from
    else if s[from] == '\n' then from + 1
    else LineEnd(s, from + 1)
  }

  /** Where the (at most) `count` lines that start at `from` end. */
  function LinesEnd(s: string, from: nat, count: nat): (e: nat)
    requires from <= |s|
    ensures from <= e <= |s|
    ensures count > 0 && from < |s| ==> from < e
    decreases count
  {
    if count == 0 || from == |s| then from
    else LinesEnd(s, LineEnd(s, from), count - 1)
  }

  /**
   * The (at most) `count` lines that start at `from`, each with its newline,
   * one after the other: exactly the stretch of `s` up to where those lines end.
   */
  function TakeLines(s: string, from: nat, count: nat): (r: string)
    requires from <= |s|
    ensures r == s[from..LinesEnd(s, from, count)]
    decreases count
  {
    if count == 0 || from == |s| then []
    else
      var e := LineEnd(s, from);
      var rest := TakeLines(s, e, count - 1);
      assert s[from..e] + s[e..LinesEnd(s, e, count - 1)] == s[from..LinesEnd(s, e, count - 1)];
      s[from..e] + rest
  }

  /** The number of lines from `from` on: how many `read_line` calls there return data. */
  function LineCount(s: string, from: nat): (c: nat)
    requires from <= |s|
    ensures c <= |s| - from
    ensures c == 0 <==> from == |s|
    decreases |s| - from
  {
    if from == |s| then 0 else 1 + LineCount(s, LineEnd(s, from))
  }

  /**
   * The number of whole lines from `from` on that end at or before position
   * `pos`: when `pos` lies in the stream, the next line ends after it.
   */
  function LinesBefore(s: string, from: nat, pos: nat): (k: nat)
    requires from <= |s| && from <= pos
    ensures LinesEnd(s, from, k) <= pos
    ensures pos < |s| ==> pos < LinesEnd(s, from, k + 1)
    decreases |s| - from
  {
    if from == |s| then 0
    else
      var e := LineEnd(s, from);
      if e <= pos then 1 + LinesBefore(s, e, pos) else 0
  }

  /** A line ends at the first newline after its start: none comes before its last byte. */
  lemma {:induction false} LineEndFirstNewline(s: string, from: nat)
    requires from <= |s|
    ensures forall j :: from <= j < LineEnd(s, from) - 1 ==> s[j] != '\n'
    decreases |s| - from
  {
    if from < |s| && s[from] != '\n' {
      LineEndFirstNewline(s, from + 1);
    }
  }

  /** A line that ends within the first `m` bytes of `s` is the same line in that prefix. */
  lemma {:induction false} PrefixLineEnd(s: string, m: nat, from: nat)
    requires from <= m <= |s|
    requires LineEnd(s, from) <= m
    ensures LineEnd(s[..m], from) == LineEnd(s, from)
    decreases |s| - from
  {
    if from == |s| {
      assert s[..m] == s;
    } else if s[from] != '\n' {
      assert s[..m][from] == s[from];
      PrefixLineEnd(s, m, from + 1);
    }
  }

  /** The lines stop at a line boundary: their start, the end of `s`, or just after a newline. */
  lemma {:induction false} LinesEndBoundary(s: string, from: nat, count: nat)
    requires from <= |s|
    ensures var e := LinesEnd(s, from, count);
      e == from || e == |s| || s[e - 1] == '\n'
    decreases count
  {
    if count > 0 && from < |s| {
      var e := LineEnd(s, from);
      LinesEndBoundary(s, e, count - 1);
    }
  }

  /** Reading one more line after the first `k` ends exactly where that line ends. */
  lemma {:induction false} LinesEndStep(s: string, from: nat, k: nat)
    requires from <= |s|
    requires LinesEnd(s, from, k) < |s|
    ensures LinesEnd(s, from, k + 1) == LineEnd(s, LinesEnd(s, from, k))
    decreases k
  {
    if k > 0 {
      LinesEndStep(s, LineEnd(s, from), k - 1);
    }
  }

  /** Once the first `k` lines reach the end of `s`, asking for more lines changes nothing. */
  lemma {:induction false} LinesEndSaturated(s: string, from: nat, k: nat, m: nat)
    requires from <= |s| && k <= m
    requires LinesEnd(s, from, k) == |s|
    ensures LinesEnd(s, from, m) == |s|
    decreases k
  {
    if from < |s| {
      LinesEndSaturated(s, LineEnd(s, from), k - 1, m - 1);
    }
  }

  /** Asking for more lines never ends earlier. */
  lemma {:induction false} LinesEndMonotone(s: string, from: nat, k: nat, m: nat)
    requires from <= |s| && k <= m
    ensures LinesEnd(s, from, k) <= LinesEnd(s, from, m)
    decreases k
  {
    if k > 0 && from < |s| {
      LinesEndMonotone(s, LineEnd(s, from), k - 1, m - 1);
    }
  }

  /** Asking for at least as many lines as there are reaches the end of `s`. */
  lemma {:induction false} LinesEndWhole(s: string, from: nat, k: nat)
    requires from <= |s|
    requires LineCount(s, from) <= k
    ensures LinesEnd(s, from, k) == |s|
    decreases k
  {
    if from < |s| {
      LinesEndWhole(s, LineEnd(s, from), k - 1);
    }
  }

  /** A position inside line `k` (counting from 0) has exactly `k` whole lines before it. */
  lemma {:induction false} LinesBeforeInLine(s: string, from: nat, k: nat, pos: nat)
    requires from <= |s|
    requires LinesEnd(s, from, k) <= pos < LinesEnd(s, from, k + 1)
    ensures LinesBefore(s, from, pos) == k
    decreases k
  {
    if from == |s| {
      assert false;
    } else if k > 0 {
      LinesBeforeInLine(s, LineEnd(s, from), k - 1, pos);
    }
  }

  /** The first `k` lines, read as a stream of their own, hold exactly min(k, LineCount) lines. */
  lemma {:induction false} TakeLinesCount(s: string, from: nat, k: nat)
    requires from <= |s|
    ensures var m := LinesEnd(s, from, k);
      LineCount(s[..m], from) == Min(k, LineCount(s, from))
    decreases k
  {
    var m := LinesEnd(s, from, k);
    if k > 0 && from < |s| {
      var e := LineEnd(s, from);
      TakeLinesCount(s, e, k - 1);
      PrefixLineEnd(s, m, from);
      assert LineCount(s[..m], from) == 1 + LineCount(s[..m], e);
    }
  }
}
