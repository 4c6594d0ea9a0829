/**
 The Nix scanner of `backend/scripts/ci/comment_hygiene_gate.py` (`nix_comments`): strings of two kinds, interpolation
 nested in both, and comments. `NixStep` is one turn of its inner loop, on the rest of the current line.
 */
module NixComments {
  import opened Wrappers
  import opened LineStreams
  import opened TextLines

  datatype Family = HashLine | NixBlock

  /** `path` and `source` are copies of the input and are not modelled. */
  datatype Comment = Comment(line: nat, text: string, family: Family, blockId: Option<nat>)

  datatype Mode = Normal | Multi | Double | Block

  datatype State = State(mode: Mode, stack: seq<(Mode, nat)>, blockId: nat, active: Option<nat>, out: seq<Comment>)
  {
    /** Each open interpolation counts its own opening brace and returns to the string it interrupted. */
    predicate Valid() {
      && (forall k | 0 <= k < |stack| :: stack[k].1 >= 1 && stack[k].0 in {Multi, Double})
      && (mode == Block <==> active.Some?)
    }

    function Top(): (Mode, nat)
      requires stack != []
    {
      stack[|stack| - 1]
    }

    function WithTop(top: (Mode, nat)): State
      requires stack != []
    {
      this.(stack := stack[..|stack| - 1] + [top])
    }

    function Push(): State { this.(stack := stack + [(mode, 1)], mode := Normal) }

    function Emit(c: Comment): State { this.(out := out + [c]) }
  }

  const START := State(Normal, [], 0, None, [])

  /** The offset of the first `*` `/`, like `str.find`. */
  function FindClose(s: string): (r: Option<nat>)
    ensures r.Some? ==> r.value + 2 <= |s|
  {
    if |s| < 2 then None
    else if "*/" <= s then Some(0)
    else
      match FindClose(s[1..])
      case None => None
      case Some(k) => Some(k + 1)
  }

  function NormalStep(s: string, n: nat, st: State): (string, State)
    requires s != []
  {
    if st.stack != [] && s[0] == '{' then (s[1..], st.WithTop((st.Top().0, st.Top().1 + 1)))
    else if st.stack != [] && s[0] == '}' then
      var (returnMode, depth) := st.Top();
      (s[1..],
       if depth <= 1 then st.(stack := st.stack[..|st.stack| - 1], mode := returnMode)
       else st.WithTop((returnMode, depth - 1)))
    else if "''" <= s then (s[2..], st.(mode := Multi))
    else if s[0] == '"' then (s[1..], st.(mode := Double))
    else if "/*" <= s then
      var begun := st.(blockId := st.blockId + 1, active := Some(st.blockId + 1), mode := Block);
      (match FindClose(s[2..])
       case None => ([], begun.Emit(Comment(n, TrimNewlines(s), NixBlock, begun.active)))
       case Some(k) =>
         (s[k + 4..], begun.Emit(Comment(n, s[..k + 4], NixBlock, begun.active)).(mode := Normal, active := None)))
    else if s[0] == '#' then ([], st.Emit(Comment(n, TrimNewlines(s), HashLine, None)))
    else (s[1..], st)
  }

  function BlockStep(s: string, n: nat, st: State): (string, State)
    requires s != []
  {
    match FindClose(s)
    case None => ([], st.Emit(Comment(n, TrimNewlines(s), NixBlock, st.active)))
    case Some(k) =>
      (s[k + 2..], st.Emit(Comment(n, s[..k + 2], NixBlock, st.active)).(mode := Normal, active := None))
  }

  function MultiStep(s: string, st: State): (string, State)
    requires s != []
  {
    if "''${" <= s then (s[4..], st)
    else if "'''" <= s || "''\\" <= s then (s[3..], st)
    else if "${" <= s then (s[2..], st.Push())
    else if "''" <= s then (s[2..], st.(mode := Normal))
    else (s[1..], st)
  }

  function DoubleStep(s: string, st: State): (string, State)
    requires s != []
  {
    if s[0] == '\\' then (Drop(s, 2), st)
    else if "${" <= s then (s[2..], st.Push())
    else if s[0] == '"' then (s[1..], st.(mode := Normal))
    else (s[1..], st)
  }

  /** One turn on the rest of a line: what remains of it, and the new state. */
  function NixStep(s: string, n: nat, st: State): (r: (string, State))
    requires s != []
    ensures |r.0| < |s|
  {
    match st.mode
    case Normal => NormalStep(s, n, st)
    case Multi => MultiStep(s, st)
    case Double => DoubleStep(s, st)
    case Block => BlockStep(s, n, st)
  }

  const NIX: Step<State> := (s: string, n: nat, st: State) => if s == [] then (s, st) else NixStep(s, n, st)

  lemma OneTurn(s: string, n: nat, st: State)
    ensures s != [] ==> Advance(NIX, s, n, st) == NixStep(s, n, st)
  {
    hide NixStep;
  }

  /** A line is scanned turn by turn. */
  lemma LineStep(s: string, n: nat, st: State)
    ensures RunLine(NIX, [], n, st) == st
    ensures s != [] ==> RunLine(NIX, s, n, st) == RunLine(NIX, NixStep(s, n, st).0, n, NixStep(s, n, st).1)
  {
    hide NixStep, Advance, RunLine;
    OneTurn(s, n, st);
    LineTurn(NIX, s, n, st);
  }

  lemma StepLeavesSuffix(s: string, n: nat, st: State)
    requires s != []
    ensures NixStep(s, n, st).0 == s[|s| - |NixStep(s, n, st).0|..]
  {
  }

  lemma {:induction false} StepKeepsValid(s: string, n: nat, st: State)
    requires s != [] && st.Valid()
    ensures NixStep(s, n, st).1.Valid()
  {
  }

  // ----- The scanner as written -----

  method BlockTurn(line: string, start: nat, n: nat, st: State) returns (i: nat, st': State)
    requires start < |line|
    ensures start < i && (Drop(line, i), st') == BlockStep(line[start..], n, st)
  {
    var end := FindClose(line[start..]);
    if end.None? {
      st' := st.Emit(Comment(n, TrimNewlines(line[start..]), NixBlock, st.active));
      i := |line|;
      assert line[i..] == [];
    } else {
      assert line[start..][..end.value + 2] == line[start..start + end.value + 2];
      assert line[start..][end.value + 2..] == line[start + end.value + 2..];
      st' := st.Emit(Comment(n, line[start..start + end.value + 2], NixBlock, st.active));
      i := start + end.value + 2;
      st' := st'.(mode := Normal, active := None);
    }
  }

  method MultiTurn(line: string, start: nat, st: State) returns (i: nat, st': State)
    requires start < |line|
    ensures start < i && (Drop(line, i), st') == MultiStep(line[start..], st)
  {
    i, st' := start, st;
    if "''${" <= line[i..] {
      i := i + 4;
    } else if "'''" <= line[i..] || "''\\" <= line[i..] {
      i := i + 3;
    } else if "${" <= line[i..] {
      st' := st'.Push();
      i := i + 2;
    } else if "''" <= line[i..] {
      st' := st'.(mode := Normal);
      i := i + 2;
    } else {
      i := i + 1;
    }
  }

  method DoubleTurn(line: string, start: nat, st: State) returns (i: nat, st': State)
    requires start < |line|
    ensures start < i && (Drop(line, i), st') == DoubleStep(line[start..], st)
  {
    i, st' := start, st;
    if line[i] == '\\' {
      i := i + 2;
    } else if "${" <= line[i..] {
      st' := st'.Push();
      i := i + 2;
    } else {
      if line[i] == '"' {
        st' := st'.(mode := Normal);
      }
      i := i + 1;
    }
  }

  method NormalTurn(line: string, start: nat, n: nat, st: State) returns (i: nat, st': State)
    requires start < |line| && st.Valid() && st.mode == Normal
    ensures start < i && (Drop(line, i), st') == NormalStep(line[start..], n, st)
  {
    hide FindClose, TrimNewlines;
    assert line[start..][1..] == line[start + 1..];
    i, st' := start, st;
    if st.stack != [] && line[i] == '{' {
      var (returnMode, depth) := st.stack[|st.stack| - 1];
      st' := st.WithTop((returnMode, depth + 1));
      i := i + 1;
    } else if st.stack != [] && line[i] == '}' {
      var (returnMode, depth) := st.stack[|st.stack| - 1];
      depth := depth - 1;
      if depth == 0 {
        st' := st.(stack := st.stack[..|st.stack| - 1], mode := returnMode);
      } else {
        st' := st.WithTop((returnMode, depth));
      }
      i := i + 1;
    } else if "''" <= line[i..] {
      assert line[start..][2..] == line[start + 2..];
      st' := st.(mode := Multi);
      i := i + 2;
    } else if line[i] == '"' {
      st' := st.(mode := Double);
      i := i + 1;
    } else if "/*" <= line[i..] {
      i, st' := OpenBlockTurn(line, start, n, st);
    } else if line[i] == '#' {
      st' := st.Emit(Comment(n, TrimNewlines(line[i..]), HashLine, None));
      i := |line|;
      assert line[i..] == [];
    } else {
      i := i + 1;
    }
  }

  method OpenBlockTurn(line: string, start: nat, n: nat, st: State) returns (i: nat, st': State)
    requires start < |line| && "/*" <= line[start..]
    ensures start < i <= |line| && (line[i..], st') ==
      var begun := st.(blockId := st.blockId + 1, active := Some(st.blockId + 1), mode := Block);
      var s := line[start..];
      (match FindClose(s[2..])
       case None => ([], begun.Emit(Comment(n, TrimNewlines(s), NixBlock, begun.active)))
       case Some(k) =>
         (s[k + 4..], begun.Emit(Comment(n, s[..k + 4], NixBlock, begun.active)).(mode := Normal, active := None)))
  {
    hide FindClose, TrimNewlines;
    i := start;
    st' := st.(blockId := st.blockId + 1, active := Some(st.blockId + 1), mode := Block);
    var end := FindClose(line[i + 2..]);
    assert line[start..][2..] == line[i + 2..];
    if end.None? {
      st' := st'.Emit(Comment(n, TrimNewlines(line[i..]), NixBlock, st'.active));
      i := |line|;
      assert line[i..] == [];
    } else {
      assert line[start..][..end.value + 4] == line[i..i + 2 + end.value + 2];
      assert line[start..][end.value + 4..] == line[i + 2 + end.value + 2..];
      st' := st'.Emit(Comment(n, line[i..i + 2 + end.value + 2], NixBlock, st'.active));
      i := i + 2 + end.value + 2;
      st' := st'.(mode := Normal, active := None);
    }
  }

  /** Scans a list of lines, whatever they hold. */
  method Scan(lines: seq<string>) returns (final: State)
    ensures final == RunLines(NIX, lines, 1, START) && final.Valid()
  {
    hide NormalStep, MultiStep, DoubleStep, BlockStep, RunLine;
    var st := START;
    var lineno := 1;
    while lineno <= |lines|
      invariant 1 <= lineno <= |lines| + 1 && st.Valid()
      invariant RunLines(NIX, lines[lineno - 1..], lineno, st) == RunLines(NIX, lines, 1, START)
    {
      var line := lines[lineno - 1];
      ghost var goal := RunLine(NIX, line, lineno, st);
      var i := 0;
      while i < |line|
        invariant st.Valid() && RunLine(NIX, Drop(line, i), lineno, st) == goal
        decreases |line| - i
      {
        StepKeepsValid(line[i..], lineno, st);
        LineStep(line[i..], lineno, st);
        if st.mode == Block {
          i, st := BlockTurn(line, i, lineno, st);
        } else if st.mode == Multi {
          i, st := MultiTurn(line, i, st);
        } else if st.mode == Double {
          i, st := DoubleTurn(line, i, st);
        } else {
          i, st := NormalTurn(line, i, lineno, st);
        }
      }
      LineStep("", lineno, st);
      assert Drop(line, i) == "";
      assert lines[lineno - 1..][1..] == lines[lineno..];
      lineno := lineno + 1;
    }
    final := st;
  }

}
