/**
 The Rust scanner of `backend/scripts/ci/comment_hygiene_gate.py` (`rust_comments`), and what its block segments promise
 for every input. `RustStep` is one turn of the inner loop at column `i`.
 */
module RustComments {
  import opened Wrappers
  import opened TextLines

  datatype Family = RustLine | RustBlock

  /** `start` is the column the text was cut at; `path` and `source` are copies of the input and are not modelled. */
  datatype Comment = Comment(line: nat, start: nat, text: string, family: Family, blockId: Option<nat>)

  /** What closes a raw string: a quote and the opener's hashes. */
  type RawEnd = s: string | s != [] witness "\""

  datatype State = State(blockDepth: nat, blockId: nat, rawEnd: Option<RawEnd>, inString: bool, out: seq<Comment>)
  {
    function Emit(c: Comment): State { this.(out := out + [c]) }
  }

  const START := State(0, 0, None, false, [])

  /** From column `i` at depth `depth`: where the block closes, or the end of the line, and the depth there. */
  function BlockScan(line: string, i: nat, depth: nat): (r: (nat, nat))
    requires i <= |line|
    ensures i <= r.0 <= |line| && (r.1 == 0 || r.0 == |line|)
    ensures i < |line| && depth > 0 ==> i < r.0
    decreases |line| - i
  {
    if depth == 0 || i == |line| then (i, depth)
    else if "/*" <= line[i..] then BlockScan(line, i + 2, depth + 1)
    else if "*/" <= line[i..] then BlockScan(line, i + 2, depth - 1)
    else BlockScan(line, i + 1, depth)
  }

  /** The first column at or after `i` where `pattern` starts, like `str.find`. */
  function Find(line: string, pattern: string, i: nat): (r: Option<nat>)
    requires i <= |line|
    ensures r.Some? ==> i <= r.value <= |line| && pattern <= line[r.value..]
    decreases |line| - i
  {
    if pattern <= line[i..] then Some(i) else if i == |line| then None else Find(line, pattern, i + 1)
  }

  /** Past the end of a string literal that is open at `i`, or past the end of the line. */
  function StringScan(line: string, i: nat): (r: (nat, bool))
    ensures i <= r.0 && (r.1 ==> r.0 >= |line|) && (i < |line| ==> i < r.0)
    decreases if i < |line| then |line| - i else 0
  {
    if i >= |line| then (i, true)
    else if line[i] == '\\' then StringScan(line, i + 2)
    else if line[i] == '"' then (i + 1, false)
    else StringScan(line, i + 1)
  }

  /** The bounded look-ahead after a quote: past a closing quote within twelve columns, or just past the quote. */
  function QuoteScan(line: string, i: nat, end: nat, escaped: bool): (r: nat)
    requires i < end
    ensures i < r
    decreases if end < |line| then |line| - end else 0
  {
    if end < |line| && end - i <= 12 then
      if line[end] == '\'' && !escaped then end + 1
      else QuoteScan(line, i, end + 1, line[end] == '\\' && !escaped)
    else i + 1
  }

  function Hashes(s: string): (n: nat)
    ensures n <= |s|
  {
    if s != [] && s[0] == '#' then 1 + Hashes(s[1..]) else 0
  }

  function Repeat(c: char, n: nat): (s: string)
    ensures |s| == n
  {
    if n == 0 then [] else [c] + Repeat(c, n - 1)
  }

  /** The opener of a raw string: its length, and what closes it. */
  function RawOpener(s: string): (r: Option<(nat, RawEnd)>)
    ensures r.Some? ==> r.value.0 > 0
  {
    var prefix := if "br" <= s || "rb" <= s then 2 else if "r" <= s then 1 else 0;
    if prefix == 0 then None
    else
      var hashes := Hashes(s[prefix..]);
      if hashes <= 255 && prefix + hashes < |s| && s[prefix + hashes] == '"'
      then Some((prefix + hashes + 1, "\"" + Repeat('#', hashes)))
      else None
  }

  function BlockStep(line: string, i: nat, n: nat, st: State): (nat, State)
    requires i < |line| && st.blockDepth > 0
  {
    var (end, depth) := BlockScan(line, i, st.blockDepth);
    (end, st.(blockDepth := depth).Emit(Comment(n, i, line[i..end], RustBlock, Some(st.blockId))))
  }

  function CodeStep(line: string, i: nat, n: nat, st: State): (nat, State)
    requires i < |line|
  {
    var s := line[i..];
    if RawOpener(s).Some? then (i + RawOpener(s).value.0, st.(rawEnd := Some(RawOpener(s).value.1)))
    else if "b\"" <= s then (i + 2, st.(inString := true))
    else if s[0] == '"' then (i + 1, st.(inString := true))
    else if s[0] == '\'' then (QuoteScan(line, i, i + 1, false), st)
    else if "//" <= s then (|line|, st.Emit(Comment(n, i, TrimNewlines(s), RustLine, None)))
    else if "/*" <= s then
      var (end, depth) := BlockScan(line, i + 2, 1);
      (end, st.(blockDepth := depth, blockId := st.blockId + 1)
              .Emit(Comment(n, i, line[i..end], RustBlock, Some(st.blockId + 1))))
    else (i + 1, st)
  }

  /** One turn at column `i`: the next column, and the new state. */
  function RustStep(line: string, i: nat, n: nat, st: State): (r: (nat, State))
    requires i < |line|
    ensures i < r.0
  {
    if st.blockDepth > 0 then BlockStep(line, i, n, st)
    else if st.rawEnd.Some? then
      match Find(line, st.rawEnd.value, i)
      case None => (|line|, st)
      case Some(end) => (end + |st.rawEnd.value|, st.(rawEnd := None))
    else if st.inString then
      var (end, open) := StringScan(line, i);
      (end, st.(inString := open))
    else CodeStep(line, i, n, st)
  }

  function RunLine(line: string, i: nat, n: nat, st: State): State
    decreases if i < |line| then |line| - i else 0
  {
    if i >= |line| then st else RunLine(line, RustStep(line, i, n, st).0, n, RustStep(line, i, n, st).1)
  }

  function RunLines(lines: seq<string>, n: nat, st: State): State {
    if lines == [] then st else RunLines(lines[1..], n + 1, RunLine(lines[0], 0, n, st))
  }

  // ----- The scanner as written -----

  method ScanBlock(line: string, start: nat, startDepth: nat) returns (i: nat, depth: nat)
    requires start <= |line| && startDepth > 0
    ensures (i, depth) == BlockScan(line, start, startDepth)
  {
    i, depth := start, startDepth;
    while i < |line|
      invariant i <= |line| && depth > 0
      invariant BlockScan(line, i, depth) == BlockScan(line, start, startDepth)
      decreases |line| - i
    {
      if "/*" <= line[i..] {
        depth := depth + 1;
        i := i + 2;
      } else if "*/" <= line[i..] {
        depth := depth - 1;
        i := i + 2;
        if depth == 0 {
          break;
        }
      } else {
        i := i + 1;
      }
    }
  }

  method ScanString(line: string, start: nat) returns (i: nat, inString: bool)
    requires start < |line|
    ensures (i, inString) == StringScan(line, start)
  {
    i, inString := start, true;
    while i < |line|
      invariant inString && StringScan(line, i) == StringScan(line, start)
      decreases |line| - i
    {
      if line[i] == '\\' {
        i := i + 2;
      } else if line[i] == '"' {
        i := i + 1;
        inString := false;
        break;
      } else {
        i := i + 1;
      }
    }
  }

  method ScanQuote(line: string, start: nat) returns (i: nat)
    requires start < |line|
    ensures i == QuoteScan(line, start, start + 1, false)
  {
    var end := start + 1;
    var escaped := false;
    while end < |line| && end - start <= 12
      invariant start < end && QuoteScan(line, start, end, escaped) == QuoteScan(line, start, start + 1, false)
      decreases |line| - end
    {
      if line[end] == '\'' && !escaped {
        return end + 1;
      }
      escaped := line[end] == '\\' && !escaped;
      if line[end] != '\\' {
        escaped := false;
      }
      end := end + 1;
    }
    return start + 1;
  }

  method CodeTurn(line: string, start: nat, n: nat, st: State) returns (i: nat, st': State)
    requires start < |line|
    ensures (i, st') == CodeStep(line, start, n, st)
  {
    i, st' := start, st;
    var raw := RawOpener(line[i..]);
    if raw.Some? {
      st' := st.(rawEnd := Some(raw.value.1));
      i := i + raw.value.0;
    } else if "b\"" <= line[i..] {
      st' := st.(inString := true);
      i := i + 2;
    } else if line[i] == '"' {
      st' := st.(inString := true);
      i := i + 1;
    } else if line[i] == '\'' {
      i := ScanQuote(line, i);
    } else if "//" <= line[i..] {
      st' := st.Emit(Comment(n, i, TrimNewlines(line[i..]), RustLine, None));
      i := |line|;
    } else if "/*" <= line[i..] {
      st' := st.(blockId := st.blockId + 1);
      var end, depth := ScanBlock(line, i + 2, 1);
      st' := st'.(blockDepth := depth).Emit(Comment(n, i, line[i..end], RustBlock, Some(st'.blockId)));
      i := end;
    } else {
      i := i + 1;
    }
  }

  method ScanLine(line: string, n: nat, start: State) returns (st: State)
    ensures st == RunLine(line, 0, n, start)
  {
    hide CodeStep, BlockScan, StringScan, Find;
    st := start;
    var i := 0;
    while i < |line|
      invariant RunLine(line, i, n, st) == RunLine(line, 0, n, start)
      decreases |line| - i
    {
      if st.blockDepth > 0 {
        var end, depth := ScanBlock(line, i, st.blockDepth);
        st := st.(blockDepth := depth).Emit(Comment(n, i, line[i..end], RustBlock, Some(st.blockId)));
        i := end;
      } else if st.rawEnd.Some? {
        var end := Find(line, st.rawEnd.value, i);
        if end.None? {
          i := |line|;
        } else {
          i := end.value + |st.rawEnd.value|;
          st := st.(rawEnd := None);
        }
      } else if st.inString {
        var end, open := ScanString(line, i);
        st := st.(inString := open);
        i := end;
      } else {
        i, st := CodeTurn(line, i, n, st);
      }
    }
  }

  /** Scans a list of lines, whatever they hold. */
  method Scan(lines: seq<string>) returns (st: State)
    ensures st == RunLines(lines, 1, START)
  {
    hide RunLine;
    st := START;
    var lineno := 1;
    while lineno <= |lines|
      invariant 1 <= lineno <= |lines| + 1
      invariant RunLines(lines[lineno - 1..], lineno, st) == RunLines(lines, 1, START)
    {
      st := ScanLine(lines[lineno - 1], lineno, st);
      assert lines[lineno - 1..][1..] == lines[lineno..];
      lineno := lineno + 1;
    }
  }

  // ----- Nesting, read off a text -----

  /** The nesting depth after a text that starts at depth `d`; openers and closers are read left to right. */
  function DepthAfter(t: string, d: int): int
    decreases |t|
  {
    if t == [] then d
    else if "/*" <= t then DepthAfter(t[2..], d + 1)
    else if "*/" <= t then DepthAfter(t[2..], d - 1)
    else DepthAfter(t[1..], d)
  }

  /** The depth is above zero at every token boundary before the end. */
  predicate StaysOpen(t: string, d: int)
    decreases |t|
  {
    t == [] || (d > 0 &&
      if "/*" <= t then StaysOpen(t[2..], d + 1)
      else if "*/" <= t then StaysOpen(t[2..], d - 1)
      else StaysOpen(t[1..], d))
  }

  /** Two texts read one after the other, when no token straddles them. */
  lemma {:induction false} ReadOn(a: string, b: string, d: int)
    requires a != [] ==> a[|a| - 1] !in {'/', '*'}
    requires StaysOpen(a, d) && (b != [] ==> StaysOpen(b, DepthAfter(a, d)))
    ensures DepthAfter(a + b, d) == DepthAfter(b, DepthAfter(a, d))
    ensures StaysOpen(a + b, d)
    decreases |a|
  {
    if a == [] {
      assert a + b == b;
    } else {
      assert (a + b)[0] == a[0] && (|a| > 1 ==> (a + b)[1] == a[1]);
      var k := if "/*" <= a || "*/" <= a then 2 else 1;
      assert "/*" <= a + b <==> "/*" <= a;
      assert "*/" <= a + b <==> "*/" <= a;
      assert (a + b)[k..] == a[k..] + b;
      ReadOn(a[k..], b, if "/*" <= a then d + 1 else if "*/" <= a then d - 1 else d);
    }
  }

  lemma {:induction false} BlockScanDepth(line: string, i: nat, depth: nat)
    requires i <= |line|
    ensures var (end, after) := BlockScan(line, i, depth);
      StaysOpen(line[i..end], depth) && DepthAfter(line[i..end], depth) == after
    decreases |line| - i
  {
    hide StaysOpen, DepthAfter;
    var (end, after) := BlockScan(line, i, depth);
    if depth == 0 || i == |line| {
      assert line[i..end] == [];
      DepthOfNothing(depth);
    } else if "/*" <= line[i..] {
      BlockScanDepth(line, i + 2, depth + 1);
      DepthOfToken("/*", line[i + 2..end], depth);
      TokenThen(line, i, 2, end);
      assert line[i..][..2] == "/*";
    } else if "*/" <= line[i..] {
      BlockScanDepth(line, i + 2, depth - 1);
      DepthOfToken("*/", line[i + 2..end], depth);
      TokenThen(line, i, 2, end);
      assert line[i..][..2] == "*/";
    } else {
      BlockScanDepth(line, i + 1, depth);
      TokenThen(line, i, 1, end);
      assert line[i..end] == line[i..][..end - i];
      PrefixOfPrefix("/*", line[i..], end - i);
      PrefixOfPrefix("*/", line[i..], end - i);
      DepthOfChar(line[i..end], depth);
    }
  }

  lemma DepthOfNothing(d: int)
    ensures StaysOpen([], d) && DepthAfter([], d) == d
  {
  }

  lemma TokenThen(line: string, i: nat, k: nat, end: nat)
    requires i + k <= end <= |line|
    ensures line[i..end] == line[i..][..k] + line[i + k..end] && line[i..end][k..] == line[i + k..end]
  {
  }

  lemma DepthOfToken(token: string, t: string, d: int)
    requires token in {"/*", "*/"} && d > 0
    ensures var next := if token == "/*" then d + 1 else d - 1;
      && (StaysOpen(token + t, d) <==> StaysOpen(t, next))
      && DepthAfter(token + t, d) == DepthAfter(t, next)
  {
    assert (token + t)[2..] == t && (token + t)[0] == token[0] && (token + t)[1] == token[1];
  }

  lemma DepthOfChar(t: string, d: int)
    requires t != [] && d > 0 && !("/*" <= t) && !("*/" <= t)
    ensures StaysOpen(t, d) <==> StaysOpen(t[1..], d)
    ensures DepthAfter(t, d) == DepthAfter(t[1..], d)
  {
  }

  lemma PrefixOfPrefix(p: string, s: string, m: nat)
    requires m <= |s|
    ensures p <= s[..m] ==> p <= s
  {
  }

  // ----- What the segments promise -----

  function EndOf(c: Comment): nat { c.start + |c.text| }

  /** The comment is cut from its line. */
  predicate Placed(c: Comment, lines: seq<string>) {
    1 <= c.line <= |lines| && EndOf(c) <= |lines[c.line - 1]| && lines[c.line - 1][c.start..EndOf(c)] == c.text
  }

  /** The segment goes on with the block of the segment before it. */
  predicate Continues(out: seq<Comment>, k: nat)
    requires k < |out|
  {
    k > 0 && out[k].blockId.Some? && out[k - 1].blockId == out[k].blockId
  }

  /** The nesting depth at the end of a comment; zero for a line comment. */
  function DepthAt(out: seq<Comment>, k: nat): int
    requires k < |out|
  {
    if out[k].blockId.None? then 0
    else if Continues(out, k) then DepthAfter(out[k].text, DepthAt(out, k - 1))
    else DepthAfter(AfterOpener(out[k].text), 1)
  }

  function AfterOpener(t: string): string { if |t| < 2 then [] else t[2..] }

  predicate Before(a: Comment, b: Comment) {
    a.line < b.line || (a.line == b.line && EndOf(a) <= b.start)
  }

  /** A block opens with its opener under a number of its own, once everything before it is closed. */
  predicate Opens(out: seq<Comment>, k: nat)
    requires k < |out|
  {
    && out[k].blockId.Some? && "/*" <= out[k].text && StaysOpen(AfterOpener(out[k].text), 1)
    && forall j | 0 <= j < k && out[j].blockId.Some? :: out[j].blockId.value < out[k].blockId.value
  }

  /** A block goes on from the end of one line to the start of the next, still open. */
  predicate GoesOn(out: seq<Comment>, k: nat, lines: seq<string>)
    requires 0 < k < |out|
  {
    && out[k].line == out[k - 1].line + 1 && out[k].start == 0
    && 1 <= out[k - 1].line <= |lines| && EndOf(out[k - 1]) == |lines[out[k - 1].line - 1]|
    && DepthAt(out, k - 1) > 0 && StaysOpen(out[k].text, DepthAt(out, k - 1))
  }

  predicate Linked(out: seq<Comment>, k: nat, lines: seq<string>)
    requires k < |out|
  {
    && Placed(out[k], lines)
    && (out[k].family == RustBlock <==> out[k].blockId.Some?)
    && (Continues(out, k) ==> GoesOn(out, k, lines))
    && (out[k].blockId.Some? && !Continues(out, k) ==> Opens(out, k))
    && (k > 0 ==> Before(out[k - 1], out[k]))
    && (k > 0 && !Continues(out, k) ==> DepthAt(out, k - 1) == 0)
  }

  /** What holds with the cursor at column `i` of line `n`. */
  ghost predicate Inv(st: State, lines: seq<string>, n: nat, i: nat) {
    && 1 <= n <= |lines| + 1
    && (forall k | 0 <= k < |st.out| :: Linked(st.out, k, lines))
    && (forall k | 0 <= k < |st.out| && st.out[k].blockId.Some? :: st.out[k].blockId.value <= st.blockId)
    && (st.out != [] ==> var last := st.out[|st.out| - 1]; last.line < n || (last.line == n && EndOf(last) <= i))
    && (st.out != [] && st.blockDepth == 0 ==> DepthAt(st.out, |st.out| - 1) == 0)
    && (st.blockDepth > 0 ==>
          && st.out != [] && st.out[|st.out| - 1].blockId == Some(st.blockId)
          && DepthAt(st.out, |st.out| - 1) == st.blockDepth
          && var last := st.out[|st.out| - 1];
          && 1 <= last.line <= |lines| && EndOf(last) == |lines[last.line - 1]|
          && ((last.line == n - 1 && i == 0) || (last.line == n && i >= |lines[n - 1]|)))
  }

  lemma {:induction false} DepthAtPrefix(out: seq<Comment>, c: Comment, k: nat)
    requires k < |out|
    ensures DepthAt(out + [c], k) == DepthAt(out, k)
    ensures Continues(out + [c], k) == Continues(out, k)
  {
    hide DepthAfter;
    assert (out + [c])[k] == out[k];
    if k > 0 {
      assert (out + [c])[k - 1] == out[k - 1];
      DepthAtPrefix(out, c, k - 1);
    }
  }

  lemma LinkedPrefix(out: seq<Comment>, c: Comment, k: nat, lines: seq<string>)
    requires k < |out| && Linked(out, k, lines)
    ensures Linked(out + [c], k, lines)
  {
    hide DepthAfter, DepthAt, StaysOpen, Placed;
    DepthAtPrefix(out, c, k);
    assert (out + [c])[k] == out[k];
    assert forall j | 0 <= j < k :: (out + [c])[j] == out[j];
    if k > 0 {
      DepthAtPrefix(out, c, k - 1);
    }
  }

  lemma EmitLinks(out: seq<Comment>, c: Comment, lines: seq<string>)
    requires forall k | 0 <= k < |out| :: Linked(out, k, lines)
    requires Linked(out + [c], |out|, lines)
    ensures forall k | 0 <= k < |out + [c]| :: Linked(out + [c], k, lines)
  {
    hide Linked;
    forall k | 0 <= k < |out + [c]| ensures Linked(out + [c], k, lines) {
      if k < |out| {
        LinkedPrefix(out, c, k, lines);
      }
    }
  }

  lemma {:induction false} TrimPrefix(s: string)
    ensures |TrimNewlines(s)| <= |s| && TrimNewlines(s) == s[..|TrimNewlines(s)|]
  {
    if s != [] && s[|s| - 1] == '\n' {
      TrimPrefix(s[..|s| - 1]);
    }
  }

  /** A line comment, with nothing open. */
  lemma EmitLine(st: State, lines: seq<string>, n: nat, i: nat, i2: nat, c: Comment)
    requires Inv(st, lines, n, i) && st.blockDepth == 0 && n <= |lines| && i <= i2
    requires Placed(c, lines) && c.line == n && i <= c.start && EndOf(c) <= i2 && c.family == RustLine
    requires c.blockId == None
    ensures Inv(st.Emit(c), lines, n, i2)
  {
    hide DepthAfter, StaysOpen, Placed;
    var out := st.out + [c];
    if st.out != [] {
      DepthAtPrefix(st.out, c, |st.out| - 1);
      assert out[|st.out| - 1] == st.out[|st.out| - 1];
    }
    assert out[|st.out|] == c;
    EmitLinks(st.out, c, lines);
  }

  /** The first segment of a block. */
  lemma EmitOpening(st: State, lines: seq<string>, n: nat, i: nat, end: nat, depth: nat)
    requires Inv(st, lines, n, i) && st.blockDepth == 0 && n <= |lines| && i + 2 <= |lines[n - 1]|
    requires "/*" <= lines[n - 1][i..]
    requires (end, depth) == BlockScan(lines[n - 1], i + 2, 1)
    ensures var c := Comment(n, i, lines[n - 1][i..end], RustBlock, Some(st.blockId + 1));
      Inv(st.(blockDepth := depth, blockId := st.blockId + 1).Emit(c), lines, n, end)
  {
    hide DepthAfter, StaysOpen, BlockScan;
    var line := lines[n - 1];
    BlockScanDepth(line, i + 2, 1);
    var c := Comment(n, i, line[i..end], RustBlock, Some(st.blockId + 1));
    assert c.text[2..] == line[i + 2..end] && c.text[..2] == line[i..][..2];
    var out := st.out + [c];
    assert out[|st.out|] == c;
    assert forall j | 0 <= j < |st.out| :: out[j] == st.out[j];
    if st.out != [] {
      DepthAtPrefix(st.out, c, |st.out| - 1);
    }
    assert !Continues(out, |st.out|);
    assert DepthAt(out, |st.out|) == depth;
    EmitLinks(st.out, c, lines);
  }

  /** A segment that goes on with the open block, at the start of a line. */
  lemma EmitContinuing(st: State, lines: seq<string>, n: nat, end: nat, depth: nat)
    requires Inv(st, lines, n, 0) && st.blockDepth > 0 && n <= |lines| && lines[n - 1] != []
    requires (end, depth) == BlockScan(lines[n - 1], 0, st.blockDepth)
    ensures var c := Comment(n, 0, lines[n - 1][0..end], RustBlock, Some(st.blockId));
      Inv(st.(blockDepth := depth).Emit(c), lines, n, end)
  {
    hide DepthAfter, StaysOpen, BlockScan;
    var line := lines[n - 1];
    BlockScanDepth(line, 0, st.blockDepth);
    var c := Comment(n, 0, line[0..end], RustBlock, Some(st.blockId));
    var out := st.out + [c];
    assert out[|st.out|] == c && out[|st.out| - 1] == st.out[|st.out| - 1];
    DepthAtPrefix(st.out, c, |st.out| - 1);
    assert Continues(out, |st.out|);
    assert DepthAt(out, |st.out|) == depth;
    EmitLinks(st.out, c, lines);
  }

  /** A turn that emits nothing, with nothing open. */
  lemma InvOnward(st: State, st2: State, lines: seq<string>, n: nat, i: nat, i2: nat)
    requires Inv(st, lines, n, i) && st.blockDepth == 0 && i <= i2
    requires st2.out == st.out && st2.blockDepth == 0 && st2.blockId == st.blockId
    ensures Inv(st2, lines, n, i2)
  {
    hide Linked, DepthAt;
  }

  /** Inside a block a turn starts at the start of its line. */
  lemma InvOpen(st: State, lines: seq<string>, n: nat, i: nat)
    requires Inv(st, lines, n, i) && st.blockDepth > 0 && n <= |lines| && i < |lines[n - 1]|
    ensures i == 0
  {
    hide Linked, DepthAt;
  }

  lemma StepKeepsInv(lines: seq<string>, i: nat, n: nat, st: State)
    requires 1 <= n <= |lines| && i < |lines[n - 1]| && Inv(st, lines, n, i)
    ensures var (i2, st2) := RustStep(lines[n - 1], i, n, st); Inv(st2, lines, n, i2)
  {
    hide Inv, BlockScan, StringScan, QuoteScan, RawOpener, Find, TrimNewlines, Placed;
    var line := lines[n - 1];
    var (i2, st2) := RustStep(line, i, n, st);
    if st.blockDepth > 0 {
      InvOpen(st, lines, n, i);
      var (end, depth) := BlockScan(line, 0, st.blockDepth);
      EmitContinuing(st, lines, n, end, depth);
    } else if st.rawEnd.Some? || st.inString || RawOpener(line[i..]).Some? {
      InvOnward(st, st2, lines, n, i, i2);
    } else if "//" <= line[i..] {
      assert line[i..][0] == '/';
      EmitTrimmed(st, lines, n, i);
    } else if "/*" <= line[i..] {
      assert line[i..][0] == '/';
      var (end, depth) := BlockScan(line, i + 2, 1);
      EmitOpening(st, lines, n, i, end, depth);
    } else {
      InvOnward(st, st2, lines, n, i, i2);
    }
  }

  lemma EmitTrimmed(st: State, lines: seq<string>, n: nat, i: nat)
    requires 1 <= n <= |lines| && i < |lines[n - 1]| && Inv(st, lines, n, i) && st.blockDepth == 0
    ensures Inv(st.Emit(Comment(n, i, TrimNewlines(lines[n - 1][i..]), RustLine, None)), lines, n, |lines[n - 1]|)
  {
    hide Inv, TrimNewlines;
    var line := lines[n - 1];
    var s := line[i..];
    TrimPrefix(s);
    assert line[i..i + |TrimNewlines(s)|] == s[..|TrimNewlines(s)|];
    EmitLine(st, lines, n, i, |line|, Comment(n, i, TrimNewlines(s), RustLine, None));
  }

  lemma {:induction false} LineKeepsInv(lines: seq<string>, i: nat, n: nat, st: State) returns (end: nat)
    requires 1 <= n <= |lines| && Inv(st, lines, n, i)
    ensures end >= |lines[n - 1]| && Inv(RunLine(lines[n - 1], i, n, st), lines, n, end)
    decreases if i < |lines[n - 1]| then |lines[n - 1]| - i else 0
  {
    hide Inv, RustStep;
    if i < |lines[n - 1]| {
      StepKeepsInv(lines, i, n, st);
      end := LineKeepsInv(lines, RustStep(lines[n - 1], i, n, st).0, n, RustStep(lines[n - 1], i, n, st).1);
    } else {
      end := i;
    }
  }

  lemma NextLineInv(lines: seq<string>, i: nat, n: nat, st: State)
    requires 1 <= n <= |lines| && i >= |lines[n - 1]| && lines[n - 1] != [] && Inv(st, lines, n, i)
    ensures Inv(st, lines, n + 1, 0)
  {
    hide Linked, DepthAt;
  }

  lemma {:induction false} RunKeepsInv(lines: seq<string>, n: nat, st: State)
    requires 1 <= n <= |lines| + 1 && (forall k | 0 <= k < |lines| :: lines[k] != []) && Inv(st, lines, n, 0)
    ensures Inv(RunLines(lines[n - 1..], n, st), lines, |lines| + 1, 0)
    decreases |lines| + 1 - n
  {
    hide Inv, RunLine;
    if n <= |lines| {
      var i := LineKeepsInv(lines, 0, n, st);
      var st1 := RunLine(lines[n - 1], 0, n, st);
      NextLineInv(lines, i, n, st1);
      RunKeepsInv(lines, n + 1, st1);
      assert lines[n - 1..][1..] == lines[n..];
    }
  }

  /** Every scan of every file ends in a state where all its comments are linked. */
  lemma ScanLinks(lines: seq<string>)
    requires forall k | 0 <= k < |lines| :: lines[k] != []
    ensures Inv(RunLines(lines, 1, START), lines, |lines| + 1, 0)
  {
    hide RunLines;
    RunKeepsInv(lines, 1, START);
    assert lines[0..] == lines;
  }

  // ----- Whole blocks -----

  function Joined(out: seq<Comment>, j: nat, k: nat): string
    requires j <= k < |out|
  {
    if j == k then out[k].text else Joined(out, j, k - 1) + out[k].text
  }

  /**
   Segments j to k of one block, from its first: they are consecutive lines, and joined they are a block comment that
   stays open at every token boundary before its end, with the depth the scanner recorded.
   */
  lemma {:induction false} BlockIsNested(lines: seq<string>, out: seq<Comment>, j: nat, k: nat)
    requires Whole(lines) && j <= k < |out|
    requires forall m | 0 <= m < |out| :: Linked(out, m, lines)
    requires out[j].blockId.Some? && !Continues(out, j)
    requires forall m | j < m <= k :: Continues(out, m)
    ensures out[k].blockId == out[j].blockId && out[k].line == out[j].line + (k - j)
    ensures "/*" <= Joined(out, j, k) && StaysOpen(Joined(out, j, k)[2..], 1)
    ensures DepthAfter(Joined(out, j, k)[2..], 1) == DepthAt(out, k)
  {
    hide StaysOpen, DepthAfter, Linked, DepthAt, Joined, Whole;
    assert Linked(out, k, lines);
    if j < k {
      BlockIsNested(lines, out, j, k - 1);
      assert Linked(out, k - 1, lines);
      GoesOnFacts(lines, out, k);
      JoinedMore(out, j, k);
      ReadOn(Joined(out, j, k - 1)[2..], out[k].text, 1);
    } else {
      OpensFacts(lines, out, j);
    }
  }

  lemma OpensFacts(lines: seq<string>, out: seq<Comment>, j: nat)
    requires j < |out| && Linked(out, j, lines) && out[j].blockId.Some? && !Continues(out, j)
    ensures Joined(out, j, j) == out[j].text && "/*" <= out[j].text && StaysOpen(out[j].text[2..], 1)
    ensures DepthAfter(out[j].text[2..], 1) == DepthAt(out, j)
  {
    hide StaysOpen, DepthAfter, Placed;
  }

  /** Where a segment goes on, the one before it runs to the end of its line, and the depth is read on. */
  lemma GoesOnFacts(lines: seq<string>, out: seq<Comment>, k: nat)
    requires k < |out| && Continues(out, k) && Linked(out, k, lines) && Linked(out, k - 1, lines) && Whole(lines)
    ensures out[k].line == out[k - 1].line + 1 && out[k].blockId == out[k - 1].blockId
    ensures StaysOpen(out[k].text, DepthAt(out, k - 1))
    ensures DepthAt(out, k) == DepthAfter(out[k].text, DepthAt(out, k - 1))
    ensures out[k - 1].text != [] && out[k - 1].text[|out[k - 1].text| - 1] !in {'/', '*'}
  {
    hide StaysOpen, DepthAfter, Before, Whole;
    SegmentEnd(lines, out[k - 1]);
    LineThere(lines, out[k - 1].line - 1);
  }

  lemma LineThere(lines: seq<string>, i: nat)
    requires Whole(lines) && i < |lines|
    ensures lines[i] != []
  {
  }

  lemma JoinedMore(out: seq<Comment>, j: nat, k: nat)
    requires j < k < |out| && "/*" <= Joined(out, j, k - 1)
    requires out[k - 1].text != [] && out[k - 1].text[|out[k - 1].text| - 1] !in {'/', '*'}
    ensures var a := Joined(out, j, k - 1);
      && "/*" <= Joined(out, j, k) && Joined(out, j, k)[2..] == a[2..] + out[k].text
      && (a[2..] != [] ==> a[2..][|a[2..]| - 1] !in {'/', '*'})
  {
    JoinedEnd(out, j, k - 1);
    var a, b := Joined(out, j, k - 1), out[k].text;
    assert (a + b)[..2] == a[..2];
  }

  lemma {:induction false} JoinedEnd(out: seq<Comment>, j: nat, k: nat)
    requires j <= k < |out|
    ensures out[k].text != [] ==>
      Joined(out, j, k) != [] && Joined(out, j, k)[|Joined(out, j, k)| - 1] == out[k].text[|out[k].text| - 1]
  {
  }

  /** A segment that reaches the end of a line other than the last ends in a line break. */
  lemma SegmentEnd(lines: seq<string>, c: Comment)
    requires Whole(lines) && Placed(c, lines) && c.line < |lines| && EndOf(c) == |lines[c.line - 1]|
    ensures c.text != [] ==> c.text[|c.text| - 1] !in {'/', '*'}
  {
    if c.text != [] {
      assert c.text[|c.text| - 1] == lines[c.line - 1][|lines[c.line - 1]| - 1];
    }
  }

  /** Comments never overlap: each ends before every later one starts. */
  lemma {:induction false} SpansIncrease(out: seq<Comment>, j: nat, k: nat)
    requires j < k < |out| && forall m | 0 < m < |out| :: Before(out[m - 1], out[m])
    ensures Before(out[j], out[k])
  {
    assert Before(out[k - 1], out[k]);
    if j < k - 1 {
      SpansIncrease(out, j, k - 1);
    }
  }

  /**
   The scan of any file: its comments are cut from the file in order, and every block that is not closed where it ends
   runs to the end of the file.
   */
  lemma FileBlocks(text: string, k: nat)
    requires var out := RunLines(SplitLines(text), 1, START).out;
      k < |out| && out[k].blockId.Some? && (k + 1 < |out| ==> !Continues(out, k + 1))
    ensures var lines := SplitLines(text);
      var st := RunLines(lines, 1, START);
      && (forall m | 0 <= m < |st.out| :: Linked(st.out, m, lines))
      && (DepthAt(st.out, k) != 0 ==>
            k == |st.out| - 1 && st.blockDepth > 0 && st.out[k].line == |lines|
              && EndOf(st.out[k]) == |lines[|lines| - 1]|)
  {
    hide RunLines, SplitLines, DepthAt;
    var lines := SplitLines(text);
    SplitLinesWhole(text);
    ScanLinks(lines);
    var out := RunLines(lines, 1, START).out;
    if k + 1 < |out| {
      assert Linked(out, k + 1, lines);
    }
  }

}
