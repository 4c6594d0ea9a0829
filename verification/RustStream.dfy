/**
 The Rust scanner on a text as one stream. A turn depends only on the rest of its line, but for the column that it
 records with a comment: with the columns left out, the line scanner is one of the stream scanners.
 */
module RustStream {
  import opened LineStreams
  import opened Sequences
  import opened TextLines
  import opened Wrappers
  import R = RustComments

  type State = R.State

  // ----- A turn on the rest of a line -----

  /** The state without the columns of its comments. */
  function Uncut(st: State): State { st.(out := UncutAll(st.out)) }

  function UncutAll(out: seq<R.Comment>): seq<R.Comment> {
    if out == [] then [] else UncutAll(out[..|out| - 1]) + [out[|out| - 1].(start := 0)]
  }

  function RustTurn(s: string, n: nat, st: State): (string, State)
    requires s != []
  {
    var r := R.RustStep(s, 0, n, st);
    (Drop(s, r.0), r.1)
  }

  const RUST: Step<State> := (s: string, n: nat, st: State) => if s == [] then (s, st) else RustTurn(s, n, st)

  lemma OneTurn(s: string, n: nat, st: State)
    ensures s != [] ==> Advance(RUST, s, n, st) == RustTurn(s, n, st)
  {
  }

  lemma UncutSnoc(out: seq<R.Comment>, c: R.Comment)
    ensures UncutAll(out + [c]) == UncutAll(out) + [c.(start := 0)]
  {
    assert (out + [c])[..|out|] == out;
  }

  // ----- Columns do not matter -----

  lemma {:induction false} BlockShift(line: string, i: nat, j: nat, depth: nat)
    requires i + j <= |line|
    ensures R.BlockScan(line, i + j, depth)
      == (i + R.BlockScan(line[i..], j, depth).0, R.BlockScan(line[i..], j, depth).1)
    decreases |line| - i - j
  {
    hide R.BlockScan;
    assert line[i..][j..] == line[i + j..];
    BlockUnfold(line, i + j, depth);
    BlockUnfold(line[i..], j, depth);
    if depth > 0 && i + j < |line| {
      if "/*" <= line[i + j..] {
        BlockShift(line, i, j + 2, depth + 1);
      } else if "*/" <= line[i + j..] {
        BlockShift(line, i, j + 2, depth - 1);
      } else {
        BlockShift(line, i, j + 1, depth);
      }
    }
  }

  lemma BlockUnfold(line: string, i: nat, depth: nat)
    requires i <= |line|
    ensures R.BlockScan(line, i, depth) ==
      if depth == 0 || i == |line| then (i, depth)
      else if "/*" <= line[i..] then R.BlockScan(line, i + 2, depth + 1)
      else if "*/" <= line[i..] then R.BlockScan(line, i + 2, depth - 1)
      else R.BlockScan(line, i + 1, depth)
  {
  }

  lemma {:induction false} FindShift(line: string, pattern: string, i: nat, j: nat)
    requires i + j <= |line|
    ensures var (found, here) := (R.Find(line, pattern, i + j), R.Find(line[i..], pattern, j));
      (found.Some? <==> here.Some?) && (found.Some? ==> found.value == i + here.value)
    decreases |line| - i - j
  {
    var s := line[i..];
    assert s[j..] == line[i + j..];
    if pattern <= s[j..] {
      assert R.Find(s, pattern, j) == Some(j);
    } else if i + j < |line| {
      FindShift(line, pattern, i, j + 1);
    }
  }

  lemma {:induction false} StringShift(line: string, i: nat, j: nat)
    requires i <= |line|
    ensures R.StringScan(line, i + j) == (i + R.StringScan(line[i..], j).0, R.StringScan(line[i..], j).1)
    decreases if i + j < |line| then |line| - i - j else 0
  {
    if i + j < |line| {
      assert line[i..][j] == line[i + j];
      StringShift(line, i, if line[i + j] == '\\' then j + 2 else j + 1);
    }
  }

  lemma {:induction false} QuoteShift(line: string, i: nat, end: nat, escaped: bool)
    requires i <= |line| && 0 < end
    ensures R.QuoteScan(line, i, i + end, escaped) == i + R.QuoteScan(line[i..], 0, end, escaped)
    decreases if i + end < |line| then |line| - i - end else 0
  {
    if i + end < |line| && end <= 12 {
      assert line[i..][end] == line[i + end];
      if line[i + end] != '\'' || escaped {
        QuoteShift(line, i, end + 1, line[i + end] == '\\' && !escaped);
      }
    }
  }

  lemma CodeShift(line: string, i: nat, n: nat, st: State)
    requires i < |line|
    ensures var (r, r0) := (R.CodeStep(line, i, n, st), R.CodeStep(line[i..], 0, n, Uncut(st)));
      r.0 == i + r0.0 && Uncut(r.1) == r0.1
  {
    hide R.BlockScan, R.RawOpener, R.QuoteScan, TrimNewlines, UncutAll;
    var s := line[i..];
    assert s[0..] == s;
    if R.RawOpener(s).None? && s[0] == '\'' {
      QuoteShift(line, i, 1, false);
    } else if "//" <= s {
      UncutSnoc(st.out, R.Comment(n, i, TrimNewlines(s), R.RustLine, None));
    } else if "/*" <= s {
      BlockShift(line, i, 2, 1);
      var (end, depth) := R.BlockScan(s, 2, 1);
      assert line[i..i + end] == s[0..end];
      UncutSnoc(st.out, R.Comment(n, i, line[i..i + end], R.RustBlock, Some(st.blockId + 1)));
    }
  }

  lemma TurnShift(line: string, i: nat, n: nat, st: State)
    requires i < |line|
    ensures var (r, r0) := (R.RustStep(line, i, n, st), R.RustStep(line[i..], 0, n, Uncut(st)));
      r.0 == i + r0.0 && Uncut(r.1) == r0.1
  {
    hide R.CodeStep, R.BlockScan, R.Find, R.StringScan, UncutAll;
    var s := line[i..];
    if st.blockDepth > 0 {
      BlockShift(line, i, 0, st.blockDepth);
      var (end, depth) := R.BlockScan(s, 0, st.blockDepth);
      assert line[i..i + end] == s[0..end];
      UncutSnoc(st.out, R.Comment(n, i, line[i..i + end], R.RustBlock, Some(st.blockId)));
    } else if st.rawEnd.Some? {
      FindShift(line, st.rawEnd.value, i, 0);
    } else if st.inString {
      StringShift(line, i, 0);
    } else {
      CodeShift(line, i, n, st);
    }
  }

  lemma {:induction false} LineUncut(line: string, i: nat, n: nat, st: State)
    ensures Uncut(R.RunLine(line, i, n, st)) == RunLine(RUST, Drop(line, i), n, Uncut(st))
    decreases if i < |line| then |line| - i else 0
  {
    hide R.RustStep, Uncut, Advance;
    if i < |line| {
      var r := R.RustStep(line, i, n, st);
      TurnShift(line, i, n, st);
      OneTurn(line[i..], n, Uncut(st));
      LineUncut(line, r.0, n, r.1);
      assert Drop(line[i..], r.0 - i) == Drop(line, r.0);
    }
  }

  /** The scan of a list of lines, without the columns. */
  lemma {:induction false} LinesUncut(lines: seq<string>, n: nat, st: State)
    ensures Uncut(R.RunLines(lines, n, st)) == RunLines(RUST, lines, n, Uncut(st))
  {
    hide R.RunLine, Uncut, RunLine;
    if lines != [] {
      LineUncut(lines[0], 0, n, st);
      assert Drop(lines[0], 0) == lines[0];
      LinesUncut(lines[1..], n + 1, R.RunLine(lines[0], 0, n, st));
    }
  }

  lemma TurnsLeaveSuffix()
    ensures LeavesSuffix(RUST)
  {
    hide R.RustStep;
    forall s: string, n: nat, st: State | s != []
      ensures Advance(RUST, s, n, st).0 == s[|s| - |Advance(RUST, s, n, st).0|..]
    {
      OneTurn(s, n, st);
    }
  }

  /** The stream scanner and the line scanner agree on every text. */
  lemma TextIsLines(t: string, n: nat, st: State)
    ensures RunText(RUST, t, n, Uncut(st)) == Uncut(R.RunLines(SplitLines(t), n, st))
  {
    hide RunText, RunLines, R.RunLines, LeavesSuffix, Uncut, SplitLines;
    TurnsLeaveSuffix();
    RunTextIsRunLines(RUST, t, n, Uncut(st));
    LinesUncut(SplitLines(t), n, st);
  }

  // ----- One turn, read off the text -----

  lemma Take(t: string, n: nat, st: State, k: nat, st1: State)
    requires 0 < k <= LineLen(t) && RustTurn(t[..LineLen(t)], n, st) == (t[..LineLen(t)][k..], st1)
    ensures RunText(RUST, t, n, st) == RunText(RUST, t[k..], NextLine(n, t[k - 1]), st1)
  {
    hide RunText, Advance, RustTurn;
    OneTurn(t[..LineLen(t)], n, st);
    LineStreams.Take(RUST, t, n, st, k, st1);
  }

  /** A turn that would have gone the same way some characters further on. */
  lemma Skip(t: string, n: nat, st: State, k: nat, st1: State)
    requires 0 < k <= LineLen(t)
    requires k < LineLen(t) ==> RustTurn(t[..LineLen(t)], n, st) == RustTurn(t[..LineLen(t)][k..], n, st1)
    requires k == LineLen(t) ==> RustTurn(t[..LineLen(t)], n, st) == ([], st1)
    ensures RunText(RUST, t, n, st) == RunText(RUST, t[k..], NextLine(n, t[k - 1]), st1)
  {
    hide RunText, RustTurn, LineLen, Advance;
    var l := LineLen(t);
    var line := t[..l];
    var r := RustTurn(line, n, st);
    OneTurn(line, n, st);
    TextTurn(RUST, t, n, st, l - |r.0|);
    if k < l {
      LineLenRest(t, k);
      Slices(t, k, l);
      OneTurn(line[k..], n, st1);
      TextTurn(RUST, t[k..], n, st1, l - k - |r.0|);
      assert t[k..][l - k - |r.0|..] == t[l - |r.0|..];
    }
  }

}
