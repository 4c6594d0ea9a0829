/**
 The TOML scanner of `backend/scripts/ci/comment_hygiene_gate.py` (`toml_comments`, `consume_toml_multiline`):
 strings of four kinds, two of which run over lines, and comments. `TomlStep` is one turn of its inner loop, on the
 rest of a line.
 */
module TomlComments {
  import opened LineStreams
  import opened TextLines
  import opened Wrappers

  datatype Mode = Normal | MultiBasic | MultiLiteral

  datatype Comment = Comment(line: nat, text: string)

  datatype State = State(mode: Mode, out: seq<Comment>)

  const START := State(Normal, [])

  function Quote(literal: bool): char { if literal then '\'' else '"' }

  function Delimiter(literal: bool): string { if literal then "'''" else "\"\"\"" }

  /** The length of the run of a quote at the start. */
  function QuoteRun(s: string, quote: char): (n: nat)
    ensures n <= |s| && (s != [] && s[0] == quote ==> n > 0)
  {
    if s != [] && s[0] == quote then 1 + QuoteRun(s[1..], quote) else 0
  }

  /** What follows the end of a multi-line string on this line, or nothing when it does not end here. */
  function Consume(s: string, literal: bool): (r: Option<string>)
    ensures r.Some? ==> |r.value| < |s|
    decreases |s|
  {
    if s == [] then None
    else if !literal && s[0] == '\\' then Consume(Drop(s, 2), literal)
    else if Delimiter(literal) <= s then Some(s[QuoteRun(s, Quote(literal))..])
    else Consume(s[1..], literal)
  }

  /** What follows a string on one line, its opening quote taken; an unfinished one takes the whole line. */
  function SkipBasic(s: string): (rest: string)
    ensures |rest| <= |s|
    decreases |s|
  {
    if s == [] then [] else if s[0] == '\\' then SkipBasic(Drop(s, 2)) else if s[0] == '"' then s[1..]
      else SkipBasic(s[1..])
  }

  function SkipLiteral(s: string): (rest: string)
    ensures |rest| <= |s|
  {
    if s == [] then [] else if s[0] == '\'' then s[1..] else SkipLiteral(s[1..])
  }

  function MultiOf(literal: bool): Mode { if literal then MultiLiteral else MultiBasic }

  /** The rest of a line inside a multi-line string. */
  function InMulti(s: string, literal: bool, st: State): (string, State) {
    match Consume(s, literal)
    case Some(rest) => (rest, st.(mode := Normal))
    case None => ([], st.(mode := MultiOf(literal)))
  }

  function TomlStep(s: string, n: nat, st: State): (r: (string, State))
    requires s != []
    ensures |r.0| < |s|
  {
    if st.mode != Normal then InMulti(s, st.mode == MultiLiteral, st)
    else if Delimiter(false) <= s then InMulti(s[3..], false, st)
    else if Delimiter(true) <= s then InMulti(s[3..], true, st)
    else if s[0] == '"' then (SkipBasic(s[1..]), st)
    else if s[0] == '\'' then (SkipLiteral(s[1..]), st)
    else if s[0] == '#' then ([], st.(out := st.out + [Comment(n, TrimNewlines(s))]))
    else (s[1..], st)
  }

  const TOML: Step<State> := (s: string, n: nat, st: State) => if s == [] then (s, st) else TomlStep(s, n, st)

  lemma OneTurn(s: string, n: nat, st: State)
    ensures s != [] ==> Advance(TOML, s, n, st) == TomlStep(s, n, st)
  {
    hide TomlStep;
  }

  /** A line is scanned turn by turn. */
  lemma LineStep(s: string, n: nat, st: State)
    ensures RunLine(TOML, [], n, st) == st
    ensures s != [] ==> RunLine(TOML, s, n, st) == RunLine(TOML, TomlStep(s, n, st).0, n, TomlStep(s, n, st).1)
  {
    hide TomlStep, Advance, RunLine;
    OneTurn(s, n, st);
    LineTurn(TOML, s, n, st);
  }

  // ----- The scanner as written -----

  method CountRun(line: string, start: nat, quote: char) returns (run: nat)
    requires start <= |line|
    ensures run == QuoteRun(line[start..], quote)
  {
    run := 0;
    while start + run < |line| && line[start + run] == quote
      invariant start + run <= |line|
      invariant run + QuoteRun(line[start + run..], quote) == QuoteRun(line[start..], quote)
    {
      assert line[start + run..][1..] == line[start + run + 1..];
      run := run + 1;
    }
  }

  lemma ConsumeTurn(line: string, i: nat, literal: bool)
    ensures i >= |line| ==> Consume(Drop(line, i), literal) == None
    ensures i < |line| ==>
      Consume(Drop(line, i), literal) ==
        if !literal && line[i] == '\\' then Consume(Drop(line, i + 2), literal)
        else if Delimiter(literal) <= line[i..] then Some(line[i..][QuoteRun(line[i..], Quote(literal))..])
        else Consume(Drop(line, i + 1), literal)
  {
    hide QuoteRun, Delimiter, Quote;
    if i < |line| {
      assert Drop(line[i..], 2) == Drop(line, i + 2) && line[i..][1..] == Drop(line, i + 1);
    }
  }

  method ConsumeTomlMultiline(line: string, start: nat, literal: bool) returns (i: nat, closed: bool)
    ensures start <= i && closed == Consume(Drop(line, start), literal).Some?
    ensures closed ==> i <= |line| && line[i..] == Consume(Drop(line, start), literal).value
  {
    hide QuoteRun, Consume, Delimiter, Quote, Drop;
    i := start;
    while i < |line|
      invariant start <= i && Consume(Drop(line, i), literal) == Consume(Drop(line, start), literal)
    {
      ConsumeTurn(line, i, literal);
      if !literal && line[i] == '\\' {
        i := i + 2;
        continue;
      }
      if Delimiter(literal) <= line[i..] {
        var run := CountRun(line, i, Quote(literal));
        assert line[i..][run..] == line[i + run..];
        return i + run, true;
      }
      i := i + 1;
    }
    ConsumeTurn(line, i, literal);
    closed := false;
  }

  method SkipBasicString(line: string, start: nat) returns (i: nat)
    requires start <= |line|
    ensures start <= i && Drop(line, i) == SkipBasic(line[start..])
  {
    i := start;
    while i < |line|
      invariant start <= i && SkipBasic(Drop(line, i)) == SkipBasic(line[start..])
    {
      if line[i] == '\\' {
        i := i + 2;
      } else if line[i] == '"' {
        i := i + 1;
        break;
      } else {
        i := i + 1;
      }
    }
  }

  method SkipLiteralString(line: string, start: nat) returns (i: nat)
    requires start <= |line|
    ensures start <= i <= |line| && line[i..] == SkipLiteral(line[start..])
  {
    i := start;
    while i < |line| && line[i] != '\''
      invariant start <= i <= |line| && SkipLiteral(line[i..]) == SkipLiteral(line[start..])
    {
      assert line[i..][1..] == line[i + 1..];
      i := i + 1;
    }
    if i < |line| {
      assert line[i..][1..] == line[i + 1..];
      i := i + 1;
    }
  }

  /** One turn of the inner loop. */
  method Turn(line: string, start: nat, n: nat, st: State) returns (i: nat, st': State)
    requires start < |line|
    ensures start < i && (Drop(line, i), st') == TomlStep(line[start..], n, st)
  {
    hide Consume, SkipBasic, SkipLiteral, Drop;
    DropAll(line, start);
    i, st' := start, st;
    var closed;
    if st.mode != Normal {
      i, closed := ConsumeTomlMultiline(line, start, st.mode == MultiLiteral);
      i, st' := EndTurn(line, i, closed, st.mode == MultiLiteral, st);
      return;
    }
    assert line[start..][1..] == line[start + 1..];
    if Delimiter(false) <= line[start..] {
      assert line[start..][3..] == line[start + 3..];
      DropAll(line, start + 3);
      i, closed := ConsumeTomlMultiline(line, start + 3, false);
      i, st' := EndTurn(line, i, closed, false, st);
    } else if Delimiter(true) <= line[start..] {
      assert line[start..][3..] == line[start + 3..];
      DropAll(line, start + 3);
      i, closed := ConsumeTomlMultiline(line, start + 3, true);
      i, st' := EndTurn(line, i, closed, true, st);
    } else if line[start] == '"' {
      i := SkipBasicString(line, start + 1);
    } else if line[start] == '\'' {
      i := SkipLiteralString(line, start + 1);
      DropAll(line, i);
    } else if line[start] == '#' {
      st' := st.(out := st.out + [Comment(n, TrimNewlines(line[start..]))]);
      i := |line|;
      DropAll(line, i);
    } else {
      i := start + 1;
      DropAll(line, i);
    }
  }

  /** A string that has ended gives way to what follows it; one that has not takes the rest of the line. */
  method EndTurn(line: string, end: nat, closed: bool, literal: bool, st: State) returns (i: nat, st': State)
    requires closed ==> end <= |line|
    ensures closed ==> i == end && (Drop(line, i), st') == (line[end..], st.(mode := Normal))
    ensures !closed ==> (Drop(line, i), st') == ("", st.(mode := MultiOf(literal))) && i == |line|
  {
    if closed {
      i, st' := end, st.(mode := Normal);
    } else {
      i, st' := |line|, st.(mode := MultiOf(literal));
      assert line[i..] == "";
    }
  }

  /** Scans a list of lines, whatever they hold. */
  method Scan(lines: seq<string>) returns (final: State)
    ensures final == RunLines(TOML, lines, 1, START)
  {
    hide TomlStep, RunLine;
    final := START;
    for k := 0 to |lines|
      invariant RunLines(TOML, lines[k..], k + 1, final) == RunLines(TOML, lines, 1, START)
    {
      var line := lines[k];
      ghost var goal := RunLine(TOML, line, k + 1, final);
      var i := 0;
      while i < |line|
        invariant RunLine(TOML, Drop(line, i), k + 1, final) == goal
        decreases |line| - i
      {
        LineStep(Drop(line, i), k + 1, final);
        i, final := Turn(line, i, k + 1, final);
      }
      LineStep("", k + 1, final);
      assert Drop(line, i) == "";
      assert lines[k..][1..] == lines[k + 1..];
    }
  }
}
