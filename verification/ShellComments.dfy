/**
 The shell scanner of `backend/scripts/ci/comment_hygiene_gate.py` (`shell_comments`): quotes, command substitutions
 with their own parentheses, arithmetic, here-documents and comments. `ShellStep` is one turn of its inner loop.
 */
module ShellComments {
  import opened Wrappers
  import opened TextLines
  import opened ShellHeredoc

  /** A `#` comment; `path` and `source` are copies of the input and are not modelled. */
  datatype Comment = Comment(line: nat, text: string)

  datatype State = State(
    quote: Quote,
    substitutions: seq<(Quote, nat)>,
    arithmeticDepth: nat,
    heredocs: seq<Heredoc>,
    out: seq<Comment>)
  {
    /** Each open substitution counts its own parenthesis. */
    predicate Valid() {
      forall k | 0 <= k < |substitutions| :: substitutions[k].1 >= 1
    }

    function Top(): (Quote, nat)
      requires substitutions != []
    {
      substitutions[|substitutions| - 1]
    }

    function WithTop(top: (Quote, nat)): State
      requires substitutions != []
    {
      this.(substitutions := substitutions[..|substitutions| - 1] + [top])
    }

    function Push(): State {
      this.(substitutions := substitutions + [(quote, 1)], quote := Unquoted)
    }

    function Emit(c: Comment): State { this.(out := out + [c]) }
  }

  const START := State(Unquoted, [], 0, [], [])

  /** A `#` starts a comment at the start of a line or after a word boundary. */
  predicate StartsComment(prev: Option<char>) {
    prev.None? || IsSpace(prev.value) || prev.value in {';', '|', '&', '(', ')'}
  }

  function ArithmeticStep(s: string, st: State): (string, State)
    requires s != [] && st.arithmeticDepth > 0
  {
    (s[1..],
     if s[0] == '(' then st.(arithmeticDepth := st.arithmeticDepth + 1)
     else if s[0] == ')' then st.(arithmeticDepth := st.arithmeticDepth - 1)
     else st)
  }

  function SingleStep(s: string, st: State): (string, State)
    requires s != []
  {
    (s[1..], if s[0] == '\'' then st.(quote := Unquoted) else st)
  }

  function DoubleStep(s: string, st: State): (string, State)
    requires s != []
  {
    if s[0] == '\\' then (Drop(s, 2), st)
    else if "$((" <= s then (s[3..], st.(arithmeticDepth := 2))
    else if "$(" <= s then (s[2..], st.Push())
    else if s[0] == '"' then (s[1..], st.(quote := Unquoted))
    else (s[1..], st)
  }

  function UnquotedStep(prev: Option<char>, s: string, n: nat, st: State): (string, State)
    requires s != []
  {
    if s[0] == '\'' then (s[1..], st.(quote := Single))
    else if s[0] == '"' then (s[1..], st.(quote := Double))
    else if "((" <= s then (s[2..], st.(arithmeticDepth := 2))
    else if "$((" <= s then (s[3..], st.(arithmeticDepth := 2))
    else if "$(" <= s then (s[2..], st.Push())
    else if st.substitutions != [] && s[0] == '(' then (s[1..], st.WithTop((st.Top().0, st.Top().1 + 1)))
    else if st.substitutions != [] && s[0] == ')' then
      var (prior, depth) := st.Top();
      (s[1..],
       if depth <= 1 then st.(substitutions := st.substitutions[..|st.substitutions| - 1], quote := prior)
       else st.WithTop((prior, depth - 1)))
    else if ParseHeredoc(prev, s).Some? then
      var (heredoc, rest) := ParseHeredoc(prev, s).value;
      (rest, st.(heredocs := st.heredocs + [heredoc]))
    else if s[0] == '#' && StartsComment(prev) then
      ([], if n == 1 && prev.None? && "#!" <= s then st else st.Emit(Comment(n, TrimNewlines(s))))
    else (s[1..], st)
  }

  /** One turn on the rest of a line, given the character before it: what remains, and the new state. */
  function ShellStep(prev: Option<char>, s: string, n: nat, st: State): (r: (string, State))
    requires s != []
    ensures |r.0| < |s|
  {
    ParseLeavesSuffix(prev, s);
    if st.arithmeticDepth > 0 then ArithmeticStep(s, st)
    else
      match st.quote
      case Single => SingleStep(s, st)
      case Double => DoubleStep(s, st)
      case Unquoted => UnquotedStep(prev, s, n, st)
  }

  lemma StepLeavesSuffix(prev: Option<char>, s: string, n: nat, st: State)
    requires s != []
    ensures ShellStep(prev, s, n, st).0 == s[|s| - |ShellStep(prev, s, n, st).0|..]
  {
    hide ParseHeredoc;
    ParseLeavesSuffix(prev, s);
  }

  lemma StepKeepsValid(prev: Option<char>, s: string, n: nat, st: State)
    requires s != [] && st.Valid()
    ensures ShellStep(prev, s, n, st).1.Valid()
  {
    hide ParseHeredoc;
  }

  function RunLine(prev: Option<char>, s: string, n: nat, st: State): State
    decreases |s|
  {
    if s == [] then st
    else
      var r := ShellStep(prev, s, n, st);
      RunLine(Some(s[|s| - |r.0| - 1]), r.0, n, r.1)
  }

  // ----- Here-document bodies -----

  function TrimTabs(s: string): string {
    if s != [] && s[0] == '\t' then TrimTabs(s[1..]) else s
  }

  /** A line that ends the body of a here-document. */
  predicate Terminates(line: string, heredoc: Heredoc) {
    (if heredoc.stripTabs then TrimTabs(TrimNewlines(line)) else TrimNewlines(line)) == heredoc.delimiter
  }

  /** While here-documents are pending, a line is only compared with the first one's delimiter. */
  function BodyLine(line: string, st: State): State
    requires st.heredocs != []
  {
    if Terminates(line, st.heredocs[0]) then st.(heredocs := st.heredocs[1..]) else st
  }

  function RunWholeLine(line: string, n: nat, st: State): State {
    if st.heredocs != [] then BodyLine(line, st) else RunLine(None, line, n, st)
  }

  function RunLines(lines: seq<string>, n: nat, st: State): State {
    if lines == [] then st else RunLines(lines[1..], n + 1, RunWholeLine(lines[0], n, st))
  }

  // ----- The scanner as written -----

  function PrevOf(line: string, i: nat): Option<char>
    requires i <= |line|
  {
    if i == 0 then None else Some(line[i - 1])
  }

  method QuotedTurn(line: string, start: nat, st: State) returns (i: nat, st': State)
    requires start < |line| && (st.arithmeticDepth > 0 || st.quote != Unquoted)
    ensures start < i
    ensures (Drop(line, i), st') == ShellStep(PrevOf(line, start), line[start..], 0, st)
  {
    i, st' := start, st;
    var ch := line[i];
    if st.arithmeticDepth > 0 {
      if ch == '(' {
        st' := st.(arithmeticDepth := st.arithmeticDepth + 1);
      } else if ch == ')' {
        st' := st.(arithmeticDepth := st.arithmeticDepth - 1);
      }
      i := i + 1;
    } else if st.quote == Single {
      if ch == '\'' {
        st' := st.(quote := Unquoted);
      }
      i := i + 1;
    } else if ch == '\\' {
      i := i + 2;
    } else if "$((" <= line[i..] {
      st' := st.(arithmeticDepth := 2);
      i := i + 3;
    } else if "$(" <= line[i..] {
      st' := st.Push();
      i := i + 2;
    } else {
      if ch == '"' {
        st' := st.(quote := Unquoted);
      }
      i := i + 1;
    }
  }

  method UnquotedTurn(line: string, start: nat, n: nat, st: State) returns (i: nat, st': State)
    requires start < |line| && st.arithmeticDepth == 0 && st.quote == Unquoted && st.Valid()
    ensures start < i
    ensures (Drop(line, i), st') == ShellStep(PrevOf(line, start), line[start..], n, st)
  {
    hide ParseHeredoc;
    i, st' := start, st;
    var ch := line[i];
    if ch == '\'' {
      st' := st.(quote := Single);
      i := i + 1;
    } else if ch == '"' {
      st' := st.(quote := Double);
      i := i + 1;
    } else if "((" <= line[i..] {
      st' := st.(arithmeticDepth := 2);
      i := i + 2;
    } else if "$((" <= line[i..] {
      st' := st.(arithmeticDepth := 2);
      i := i + 3;
    } else if "$(" <= line[i..] {
      st' := st.Push();
      i := i + 2;
    } else if st.substitutions != [] && ch == '(' {
      var (prior, depth) := st.Top();
      st' := st.WithTop((prior, depth + 1));
      i := i + 1;
    } else if st.substitutions != [] && ch == ')' {
      var (prior, depth) := st.Top();
      depth := depth - 1;
      if depth == 0 {
        st' := st.(substitutions := st.substitutions[..|st.substitutions| - 1], quote := prior);
      } else {
        st' := st.WithTop((prior, depth));
      }
      i := i + 1;
    } else {
      var parsed := ParseShellHeredoc(line, i);
      if parsed.Some? {
        st' := st.(heredocs := st.heredocs + [parsed.value.0]);
        i := parsed.value.1;
      } else if ch == '#' && (i == 0 || IsSpace(line[i - 1]) || line[i - 1] in {';', '|', '&', '(', ')'}) {
        if !(n == 1 && i == 0 && "#!" <= line[i..]) {
          st' := st.Emit(Comment(n, TrimNewlines(line[i..])));
        }
        i := |line|;
        assert line[i..] == [];
      } else {
        i := i + 1;
      }
    }
  }

  lemma QuotedStepIgnoresLine(prev: Option<char>, s: string, n: nat, m: nat, st: State)
    requires s != [] && (st.arithmeticDepth > 0 || st.quote != Unquoted)
    ensures ShellStep(prev, s, n, st) == ShellStep(prev, s, m, st)
  {
    hide ParseHeredoc;
  }

  method ScanLine(line: string, n: nat, start: State) returns (st: State)
    requires start.Valid()
    ensures st == RunLine(None, line, n, start) && st.Valid()
  {
    hide ShellStep;
    st := start;
    var i := 0;
    while i < |line|
      invariant st.Valid()
      invariant RunLine(None, line, n, start) == if i < |line| then RunLine(PrevOf(line, i), line[i..], n, st) else st
      decreases |line| - i
    {
      ghost var rest, before, at := line[i..], st, i;
      StepKeepsValid(PrevOf(line, i), rest, n, st);
      if st.arithmeticDepth > 0 || st.quote != Unquoted {
        QuotedStepIgnoresLine(PrevOf(line, i), rest, 0, n, st);
        i, st := QuotedTurn(line, i, st);
      } else {
        i, st := UnquotedTurn(line, i, n, st);
      }
      ghost var r := ShellStep(PrevOf(line, at), rest, n, before);
      assert r.0 == Drop(line, i);
      assert |r.0| == if i < |line| then |line| - i else 0;
      assert i < |line| ==> rest[|rest| - |r.0| - 1] == line[i - 1];
      assert i >= |line| ==> forall p | true :: RunLine(p, r.0, n, st) == st;
    }
  }

  /** Scans a list of lines, whatever they hold. */
  method Scan(lines: seq<string>) returns (st: State)
    ensures st == RunLines(lines, 1, START) && st.Valid()
  {
    hide RunLine, Terminates;
    st := START;
    var lineno := 1;
    while lineno <= |lines|
      invariant 1 <= lineno <= |lines| + 1 && st.Valid()
      invariant RunLines(lines[lineno - 1..], lineno, st) == RunLines(lines, 1, START)
    {
      var line := lines[lineno - 1];
      if st.heredocs != [] {
        var current := st.heredocs[0];
        if Terminates(line, current) {
          st := st.(heredocs := st.heredocs[1..]);
        }
      } else {
        st := ScanLine(line, lineno, st);
      }
      assert lines[lineno - 1..][1..] == lines[lineno..];
      lineno := lineno + 1;
    }
  }

}
