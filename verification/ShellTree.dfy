/**
 Balanced shell text as an inductive tree, and the proof that the line scanner reads every printed tree back: it
 returns to the quote, substitution stack and arithmetic depth it started with, here-document bodies are consumed
 first-in first-out without a trace, and exactly the comments of the tree are emitted. The exception is a line that
 ends inside quotes or arithmetic while a here-document waits: there, and only there, the scanner takes what is still
 quoted for a body.
 */
module ShellTree {
  import opened Sequences
  import opened ShellComments
  import opened ShellHeredoc
  import opened TextLines
  import opened Wrappers

  /** Command text, as a chain of items. */
  datatype Script =
    | End
    | Plain(c: char, rest: Script)
    | SingleString(text: string, rest: Script)
    | DoubleString(parts: Parts, rest: Script)
    | Arithmetic(dollar: bool, sum: Sum, rest: Script)
    | Substitution(inner: Script, rest: Script)
    | Paren(inner: Script, rest: Script)
    | Redirect(stripTabs: bool, blanks: string, spelling: string, delimiter: string, rest: Script)
    | HereString(rest: Script)
    | LineEnd(comment: Option<string>, bodies: seq<Body>, rest: Script)

  /** The inside of a double-quoted string. */
  datatype Parts =
    | PartsEnd
    | Text(c: char, rest: Parts)
    | Escape(c: char, rest: Parts)
    | QuotedSubstitution(inner: Script, rest: Parts)
    | QuotedArithmetic(sum: Sum, rest: Parts)

  /** An arithmetic expression: characters and balanced parentheses. */
  datatype Sum = SumEnd | Operand(c: char, rest: Sum) | Group(inner: Sum, rest: Sum)

  /** One here-document body: its lines, then the line that ends it. */
  datatype Body = Body(lines: seq<string>, terminator: string)

  /** A tree is its first item and the rest. */
  function Print(t: Script): string
    decreases t, 1
  {
    if t.End? then "" else Head(t) + Print(t.rest)
  }

  function Head(t: Script): string
    requires !t.End?
    decreases t, 0
  {
    match t
    case Plain(c, _) => [c]
    case SingleString(text, _) => "'" + text + "'"
    case DoubleString(parts, _) => "\"" + PrintParts(parts) + "\""
    case Arithmetic(dollar, sum, _) => (if dollar then "$((" else "((") + PrintSum(sum) + "))"
    case Substitution(inner, _) => "$(" + Print(inner) + ")"
    case Paren(inner, _) => "(" + Print(inner) + ")"
    case Redirect(stripTabs, blanks, spelling, _, _) => Operator(stripTabs, blanks, spelling)
    case HereString(_) => "<<<"
    case LineEnd(comment, bodies, _) => LineTail(comment) + PrintBodies(bodies)
  }

  function PrintParts(s: Parts): string {
    match s
    case PartsEnd => ""
    case Text(c, rest) => [c] + PrintParts(rest)
    case Escape(c, rest) => ['\\', c] + PrintParts(rest)
    case QuotedSubstitution(inner, rest) => "$(" + Print(inner) + ")" + PrintParts(rest)
    case QuotedArithmetic(sum, rest) => "$((" + PrintSum(sum) + "))" + PrintParts(rest)
  }

  function PrintSum(s: Sum): string {
    match s
    case SumEnd => ""
    case Operand(c, rest) => [c] + PrintSum(rest)
    case Group(inner, rest) => "(" + PrintSum(inner) + ")" + PrintSum(rest)
  }

  function LineTail(comment: Option<string>): string {
    (if comment.Some? then "#" + comment.value else "") + "\n"
  }

  function PrintBodies(bodies: seq<Body>): string {
    if bodies == [] then ""
    else Concat(bodies[0].lines) + bodies[0].terminator + PrintBodies(bodies[1..])
  }

  // ----- Unambiguous trees -----

  /** The character before the cursor, when it is on the same line. */
  function PrevChar(c: char): Option<char> { if IsBreak(c) then None else Some(c) }

  function PrevAfter(prev: Option<char>, text: string): Option<char> {
    if text == [] then prev else PrevChar(text[|text| - 1])
  }

  predicate IsFullLine(line: string) {
    line != [] && NoBreak(line[..|line| - 1]) && IsBreak(line[|line| - 1])
  }

  predicate Tabs(s: string) { forall i | 0 <= i < |s| :: s[i] == '\t' }

  /**
   The line that ends a body: the delimiter and a newline, after tabs where the operator strips them. Stripping takes
   all the tabs a line starts with, so that no line is a delimiter that starts with one.
   */
  predicate EndsBody(line: string, heredoc: Heredoc) {
    exists k | 0 <= k <= |line| :: DelimiterAt(line, k, heredoc)
  }

  predicate DelimiterAt(line: string, k: nat, heredoc: Heredoc)
    requires k <= |line|
  {
    && Tabs(line[..k]) && line[k..] == heredoc.delimiter + "\n"
    && (if heredoc.stripTabs then !("\t" <= heredoc.delimiter) else k == 0)
  }

  predicate BodyOk(heredoc: Heredoc, body: Body) {
    && NoBreak(heredoc.delimiter)
    && (forall k | 0 <= k < |body.lines| :: IsFullLine(body.lines[k]) && !EndsBody(body.lines[k], heredoc))
    && IsFullLine(body.terminator) && EndsBody(body.terminator, heredoc)
  }

  predicate BodiesOk(queue: seq<Heredoc>, bodies: seq<Body>) {
    |bodies| == |queue| && forall k | 0 <= k < |queue| :: BodyOk(queue[k], bodies[k])
  }

  /** The here-documents still waiting for a body after a tree. */
  function QueueAfter(t: Script, queue: seq<Heredoc>): seq<Heredoc>
    decreases t, 1
  {
    if t.End? then queue else QueueAfter(t.rest, HeadQueue(t, queue))
  }

  function HeadQueue(t: Script, queue: seq<Heredoc>): seq<Heredoc>
    requires !t.End?
    decreases t, 0
  {
    match t
    case DoubleString(parts, _) => QueueAfterParts(parts, queue)
    case Substitution(inner, _) => QueueAfter(inner, queue)
    case Paren(inner, _) => QueueAfter(inner, queue)
    case Redirect(stripTabs, _, _, delimiter, _) => queue + [Heredoc(delimiter, stripTabs)]
    case LineEnd(_, _, _) => []
    case _ => queue
  }

  function QueueAfterParts(s: Parts, queue: seq<Heredoc>): seq<Heredoc> {
    match s
    case PartsEnd => queue
    case QuotedSubstitution(inner, rest) => QueueAfterParts(rest, QueueAfter(inner, queue))
    case _ => QueueAfterParts(s.rest, queue)
  }

  /**
   The tree followed by `after`, on a line whose last character was `prev`, with `queue` waiting for bodies, which
   follow the next line end in commands. Backslashes outside quotes are not part of the grammar.
   */
  predicate WellFormed(t: Script, prev: Option<char>, queue: seq<Heredoc>, after: string)
    decreases t, 1
  {
    t.End? ||
    (HeadFits(t, prev, queue, Print(t.rest) + after)
    && WellFormed(t.rest, PrevAfter(prev, Head(t)), HeadQueue(t, queue), after))
  }

  predicate HeadFits(t: Script, prev: Option<char>, queue: seq<Heredoc>, follow: string)
    requires !t.End?
    decreases t, 0
  {
    match t
    case Plain(c, _) => PlainOk(prev, c, follow) && (IsBreak(c) ==> queue == [])
    case SingleString(text, _) => '\'' !in text
    case DoubleString(parts, _) => WellFormedParts(parts, queue, "\"" + follow)
    case Arithmetic(_, sum, _) => WellFormedSum(sum)
    case Substitution(inner, _) => !("(" <= Print(inner)) && WellFormed(inner, Some('('), queue, ")" + follow)
    case Paren(inner, _) => !("(" <= Print(inner)) && WellFormed(inner, Some('('), queue, ")" + follow)
    case Redirect(stripTabs, blanks, spelling, delimiter, _) =>
      && prev != Some('<') && AllBlank(blanks) && NoBreak(spelling) && delimiter != []
      && Spells(spelling, delimiter) && (!stripTabs && blanks == [] ==> spelling[..1] != "-")
      && WordEnds(follow)
    case HereString(_) => !("<" <= follow)
    case LineEnd(comment, bodies, _) =>
      && (comment.Some? ==> NoBreak(comment.value) && WordStart(prev))
      && BodiesOk(queue, bodies)
  }

  /** Where a `#` starts a comment: at the start of a line, after white space or after an operator character. */
  predicate WordStart(prev: Option<char>) {
    prev.None? || prev.value in ";|&()" || IsSpace(prev.value)
  }

  predicate PlainOk(prev: Option<char>, c: char, follow: string) {
    && c !in {'\'', '"', '\\', '(', ')'}
    && (c == '$' ==> !("(" <= follow))
    && (c == '<' ==> !("<" <= follow))
    && (c == '#' ==> !WordStart(prev))
  }

  predicate WellFormedParts(s: Parts, queue: seq<Heredoc>, after: string) {
    match s
    case PartsEnd => true
    case Text(c, rest) =>
      && c !in {'"', '\\'} && (c == '$' ==> !("(" <= PrintParts(rest) + after))
      && WellFormedParts(rest, queue, after)
    case Escape(_, rest) => WellFormedParts(rest, queue, after)
    case QuotedSubstitution(inner, rest) =>
      && !("(" <= Print(inner)) && WellFormed(inner, Some('('), queue, ")" + (PrintParts(rest) + after))
      && WellFormedParts(rest, QueueAfter(inner, queue), after)
    case QuotedArithmetic(sum, rest) => WellFormedSum(sum) && WellFormedParts(rest, queue, after)
  }

  predicate WellFormedSum(s: Sum) {
    match s
    case SumEnd => true
    case Operand(c, rest) => c !in {'(', ')'} && WellFormedSum(rest)
    case Group(inner, rest) => WellFormedSum(inner) && WellFormedSum(rest)
  }

  /** No line ends inside quotes or arithmetic while a here-document waits. */
  predicate QuotesClear(t: Script, queue: seq<Heredoc>)
    decreases t, 1
  {
    t.End? || (HeadClear(t, queue) && QuotesClear(t.rest, HeadQueue(t, queue)))
  }

  predicate HeadClear(t: Script, queue: seq<Heredoc>)
    requires !t.End?
    decreases t, 0
  {
    match t
    case SingleString(text, _) => queue != [] ==> NoBreak(text)
    case DoubleString(parts, _) => PartsClear(parts, queue)
    case Arithmetic(_, sum, _) => queue != [] ==> NoBreak(PrintSum(sum))
    case Substitution(inner, _) => QuotesClear(inner, queue)
    case Paren(inner, _) => QuotesClear(inner, queue)
    case _ => true
  }

  predicate PartsClear(s: Parts, queue: seq<Heredoc>) {
    match s
    case PartsEnd => true
    case Text(c, rest) => (IsBreak(c) ==> queue == []) && PartsClear(rest, queue)
    case Escape(c, rest) => (IsBreak(c) ==> queue == []) && PartsClear(rest, queue)
    case QuotedSubstitution(inner, rest) => QuotesClear(inner, queue) && PartsClear(rest, QueueAfter(inner, queue))
    case QuotedArithmetic(sum, rest) => (queue != [] ==> NoBreak(PrintSum(sum))) && PartsClear(rest, queue)
  }

  // ----- The comments of a tree -----

  /** The interpreter line of a script is not a comment. */
  function LineComment(comment: Option<string>, prev: Option<char>, n: nat): seq<Comment> {
    if comment.None? || (n == 1 && prev.None? && "!" <= comment.value) then [] else [Comment(n, "#" + comment.value)]
  }

  function Comments(t: Script, prev: Option<char>, n: nat): seq<Comment>
    decreases t, 1
  {
    if t.End? then []
    else HeadComments(t, prev, n) + Comments(t.rest, PrevAfter(prev, Head(t)), n + Breaks(Head(t)))
  }

  function HeadComments(t: Script, prev: Option<char>, n: nat): seq<Comment>
    requires !t.End?
    decreases t, 0
  {
    match t
    case DoubleString(parts, _) => CommentsParts(parts, n)
    case Substitution(inner, _) => Comments(inner, Some('('), n)
    case Paren(inner, _) => Comments(inner, Some('('), n)
    case LineEnd(comment, _, _) => LineComment(comment, prev, n)
    case _ => []
  }

  function CommentsParts(s: Parts, n: nat): seq<Comment> {
    match s
    case PartsEnd => []
    case Text(c, rest) => CommentsParts(rest, n + Breaks([c]))
    case Escape(c, rest) => CommentsParts(rest, n + Breaks(['\\', c]))
    case QuotedSubstitution(inner, rest) =>
      Comments(inner, Some('('), n) + CommentsParts(rest, n + Breaks("$(" + Print(inner) + ")"))
    case QuotedArithmetic(sum, rest) => CommentsParts(rest, n + Breaks("$((" + PrintSum(sum) + "))"))
  }

  // ----- Scanning text as one stream -----

  /** Inside quotes or arithmetic. */
  predicate Inside(st: State) { st.quote != Unquoted || st.arithmeticDepth > 0 }

  /** Some line is taken for a here-document's while quotes or arithmetic are open. */
  predicate Misread(lines: seq<string>, n: nat, st: State) {
    lines != [] && ((st.heredocs != [] && Inside(st)) || Misread(lines[1..], n + 1, RunWholeLine(lines[0], n, st)))
  }

  /**
   The scanner on a text that is not cut into lines: a turn still sees only the rest of its line. The result says too
   whether part of the text was taken for a here-document's while quotes or arithmetic were open.
   */
  function RunText(prev: Option<char>, t: string, n: nat, st: State): (State, bool)
    decreases |t|
  {
    if t == [] then (st, false)
    else if prev.None? && st.heredocs != [] then
      var (st', misread) := RunText(None, t[LineLen(t)..], n + 1, BodyLine(t[..LineLen(t)], st));
      (st', misread || Inside(st))
    else
      var r := ShellStep(prev, t[..LineLen(t)], n, st);
      var k := LineLen(t) - |r.0|;
      RunText(PrevChar(t[k - 1]), t[k..], NextLine(n, t[k - 1]), r.1)
  }

  /** At the start of a line nothing waits for a body: the line is scanned as commands. */
  predicate Calm(prev: Option<char>, st: State) { prev.None? ==> st.heredocs == [] }

  lemma LineTurn(prev: Option<char>, s: string, n: nat, st: State)
    ensures RunLine(prev, [], n, st) == st
    ensures s != [] ==>
      var r := ShellStep(prev, s, n, st);
      RunLine(prev, s, n, st) == RunLine(Some(s[|s| - |r.0| - 1]), r.0, n, r.1)
  {
    hide ShellStep;
  }

  lemma TextTurn(prev: Option<char>, t: string, n: nat, st: State, k: nat)
    requires t != [] && Calm(prev, st) && k == LineLen(t) - |ShellStep(prev, t[..LineLen(t)], n, st).0|
    ensures RunText(prev, t, n, st)
      == RunText(PrevChar(t[k - 1]), t[k..], NextLine(n, t[k - 1]), ShellStep(prev, t[..LineLen(t)], n, st).1)
  {
    hide ShellStep, LineLen, BodyLine, PrevChar, NextLine, IsBreak;
  }

  lemma BodyTurn(t: string, n: nat, st: State)
    requires t != [] && st.heredocs != []
    ensures var (st', misread) := RunText(None, t[LineLen(t)..], n + 1, BodyLine(t[..LineLen(t)], st));
      RunText(None, t, n, st) == (st', misread || Inside(st))
  {
    hide ShellStep, BodyLine;
  }

  lemma EmptyText(prev: Option<char>, n: nat, st: State)
    ensures RunText(prev, [], n, st) == (st, false)
  {
  }

  /** A line scanned to its end, from any point on it. */
  lemma {:induction false} RunFirstLine(prev: Option<char>, t: string, n: nat, st: State)
    requires t != [] && Calm(prev, st)
    ensures RunText(prev, t, n, st) == RunText(None, t[LineLen(t)..], n + 1, RunLine(prev, t[..LineLen(t)], n, st))
    decreases |t|
  {
    hide ShellStep, LineLen, RunLine, RunText;
    var l := LineLen(t);
    var line := t[..l];
    var r := ShellStep(prev, line, n, st);
    var k := l - |r.0|;
    TextTurn(prev, t, n, st, k);
    LineTurn(prev, line, n, st);
    StepLeavesSuffix(prev, line, n, st);
    if k < l {
      LineLenRest(t, k);
      Slices(t, k, l);
      assert !IsBreak(t[k - 1]);
      RunFirstLine(Some(t[k - 1]), t[k..], n, r.1);
    } else {
      LineTurn(Some(line[l - 1]), r.0, n, r.1);
      if !IsBreak(t[l - 1]) {
        assert t[l..] == [];
        EmptyText(Some(t[l - 1]), n, r.1);
        EmptyText(None, n + 1, r.1);
      }
    }
  }

  /** The stream scanner and the line scanner agree on every text. */
  lemma {:induction false} RunTextIsRunLines(t: string, n: nat, st: State)
    ensures RunText(None, t, n, st) == (RunLines(SplitLines(t), n, st), Misread(SplitLines(t), n, st))
    decreases |t|
  {
    hide ShellStep, LineLen, RunLine, BodyLine;
    if t != [] {
      var l := LineLen(t);
      if st.heredocs == [] {
        RunFirstLine(None, t, n, st);
      } else {
        BodyTurn(t, n, st);
      }
      RunTextIsRunLines(t[l..], n + 1, RunWholeLine(t[..l], n, st));
      assert SplitLines(t)[1..] == SplitLines(t[l..]);
    }
  }

  // ----- Reading a piece of text -----

  /** Reading `text` before `after` takes the scanner from `st` to `st2`, and leaves it ready for commands. */
  ghost predicate Reads(prev: Option<char>, text: string, after: string, n: nat, st: State, st2: State) {
    && RunText(prev, text + after, n, st) == RunText(PrevAfter(prev, text), after, n + Breaks(text), st2)
    && Calm(PrevAfter(prev, text), st2)
  }

  lemma ReadNothing(prev: Option<char>, after: string, n: nat, st: State)
    requires Calm(prev, st)
    ensures Reads(prev, "", after, n, st, st)
  {
    hide RunText;
    assert "" + after == after;
  }

  lemma Chain(prev: Option<char>, a: string, b: string, after: string, n: nat, st: State, st1: State, st2: State)
    requires Reads(prev, a, b + after, n, st, st1)
    requires Reads(PrevAfter(prev, a), b, after, n + Breaks(a), st1, st2)
    ensures Reads(prev, a + b, after, n, st, st2)
  {
    hide RunText, Breaks;
    assert a + b + after == a + (b + after);
    BreaksAppend(a, b);
    if b == [] {
      assert a + b == a;
    }
  }

  lemma Take(prev: Option<char>, text: string, after: string, n: nat, st: State, st1: State)
    requires text != [] && Calm(prev, st) && |text| <= LineLen(text + after)
    requires var line := (text + after)[..LineLen(text + after)]; ShellStep(prev, line, n, st) == (line[|text|..], st1)
    ensures RunText(prev, text + after, n, st)
      == RunText(PrevAfter(prev, text), after, NextLine(n, text[|text| - 1]), st1)
  {
    hide RunText, ShellStep, LineLen;
    TextTurn(prev, text + after, n, st, |text|);
    assert (text + after)[|text|..] == after && (text + after)[|text| - 1] == text[|text| - 1];
  }

  /** One turn over one character. */
  lemma TakeChar(prev: Option<char>, c: char, after: string, n: nat, st: State, st1: State)
    requires Calm(prev, st) && (IsBreak(c) ==> st1.heredocs == [])
    requires var line := ([c] + after)[..LineLen([c] + after)]; ShellStep(prev, line, n, st) == (line[1..], st1)
    ensures Reads(prev, [c], after, n, st, st1)
  {
    hide RunText, ShellStep, LineLen;
    Take(prev, [c], after, n, st, st1);
    BreakAlone(c);
  }

  /** One turn over a token without line breaks. */
  lemma TakeToken(prev: Option<char>, text: string, after: string, n: nat, st: State, st1: State)
    requires text != [] && Calm(prev, st) && NoBreak(text)
    requires var line := text + after[..LineLen(after)]; ShellStep(prev, line, n, st) == (line[|text|..], st1)
    ensures Reads(prev, text, after, n, st, st1)
  {
    hide RunText, ShellStep, LineLen;
    LineLenAppend(text, after);
    assert (text + after)[..LineLen(text + after)] == text + after[..LineLen(after)];
    Take(prev, text, after, n, st, st1);
    BreaksNone(text);
  }

  // ----- Single turns -----

  lemma NoHeredoc(prev: Option<char>, s: string)
    requires !("<<" <= s)
    ensures ParseHeredoc(prev, s) == None
  {
  }

  /** The rest of the line after one character that does not end it. */
  lemma LineAfterChar(c: char, after: string)
    ensures var line := ([c] + after)[..LineLen([c] + after)];
      line != [] && line[0] == c && line == [c] + if IsBreak(c) then "" else after[..LineLen(after)]
  {
    if !IsBreak(c) {
      LineLenAppend([c], after);
    }
  }

  lemma ReadInSum(prev: Option<char>, c: char, after: string, n: nat, st: State)
    requires st.arithmeticDepth > 0 && Calm(prev, st) && (IsBreak(c) ==> st.heredocs == [])
    ensures Reads(prev, [c], after, n, st,
      if c == '(' then st.(arithmeticDepth := st.arithmeticDepth + 1)
      else if c == ')' then st.(arithmeticDepth := st.arithmeticDepth - 1)
      else st)
  {
    hide RunText, UnquotedStep, SingleStep, DoubleStep;
    LineAfterChar(c, after);
    var line := ([c] + after)[..LineLen([c] + after)];
    TakeChar(prev, c, after, n, st, ShellStep(prev, line, n, st).1);
  }

  lemma ReadInSingle(prev: Option<char>, c: char, after: string, n: nat, st: State)
    requires st.arithmeticDepth == 0 && st.quote == Single && Calm(prev, st) && (IsBreak(c) ==> st.heredocs == [])
    ensures Reads(prev, [c], after, n, st, if c == '\'' then st.(quote := Unquoted) else st)
  {
    hide RunText, UnquotedStep, ArithmeticStep, DoubleStep;
    LineAfterChar(c, after);
    var line := ([c] + after)[..LineLen([c] + after)];
    TakeChar(prev, c, after, n, st, ShellStep(prev, line, n, st).1);
  }

  lemma ReadInDouble(prev: Option<char>, c: char, after: string, n: nat, st: State)
    requires st.arithmeticDepth == 0 && st.quote == Double && Calm(prev, st) && (IsBreak(c) ==> st.heredocs == [])
    requires c != '\\' && (c == '$' ==> !("(" <= after))
    ensures Reads(prev, [c], after, n, st, if c == '"' then st.(quote := Unquoted) else st)
  {
    hide RunText, UnquotedStep, ArithmeticStep, SingleStep;
    LineAfterChar(c, after);
    var line := ([c] + after)[..LineLen([c] + after)];
    LineStartsWith("(", after);
    PrefixRest("$(", 1, line);
    PrefixRest("$((", 2, line);
    assert "$("[1..] == "(" && "$("[0] == '$' && "$(("[0] == '$' && "$(("[1] == '(';
    assert !IsBreak(c) ==> line[1..] == after[..LineLen(after)];
    assert "$((" <= line ==> "$(" <= line;
    TakeChar(prev, c, after, n, st, ShellStep(prev, line, n, st).1);
  }

  lemma ReadEscape(prev: Option<char>, c: char, after: string, n: nat, st: State)
    requires st.arithmeticDepth == 0 && st.quote == Double && Calm(prev, st) && (IsBreak(c) ==> st.heredocs == [])
    ensures Reads(prev, ['\\', c], after, n, st, st)
  {
    hide RunText, UnquotedStep, ArithmeticStep, SingleStep, LineLen, Breaks;
    var t := ['\\', c] + after;
    LineLenAppend(['\\'], [c] + after);
    assert t == ['\\'] + ([c] + after);
    var line := t[..LineLen(t)];
    assert |line| >= 2 && line[0] == '\\';
    Take(prev, ['\\', c], after, n, st, st);
    assert ['\\', c] == ['\\'] + [c];
    BreaksAppend(['\\'], [c]);
    BreakAlone('\\');
    BreakAlone(c);
  }

  /** Quotes, substitutions and arithmetic open the same way wherever they are allowed. */
  lemma ReadOpen(prev: Option<char>, token: string, after: string, n: nat, st: State)
    requires st.arithmeticDepth == 0 && Calm(prev, st)
    requires token in {"'", "\"", "((", "$((", "$("} && (token == "$(" ==> !("(" <= after))
    requires st.quote == Unquoted || (st.quote == Double && token in {"$((", "$("})
    ensures Reads(prev, token, after, n, st,
      if token == "'" then st.(quote := Single)
      else if token == "\"" then st.(quote := Double)
      else if token == "$(" then st.Push()
      else st.(arithmeticDepth := 2))
  {
    hide RunText, ParseHeredoc, ArithmeticStep, SingleStep;
    var line := token + after[..LineLen(after)];
    LineStartsWith("(", after);
    assert line[..|token|] == token && line[0] == token[0];
    PrefixRest("$((", 2, line);
    assert "$(("[2..] == "(";
    assert token == "$(" ==> line[2..] == after[..LineLen(after)];
    TakeToken(prev, token, after, n, st, ShellStep(prev, line, n, st).1);
  }

  lemma ReadOpenParen(prev: Option<char>, after: string, n: nat, st: State)
    requires st.arithmeticDepth == 0 && st.quote == Unquoted && Calm(prev, st) && !("(" <= after)
    ensures Reads(prev, "(", after, n, st,
      if st.substitutions == [] then st else st.WithTop((st.Top().0, st.Top().1 + 1)))
  {
    hide RunText, ArithmeticStep, SingleStep, DoubleStep;
    var line := "(" + after[..LineLen(after)];
    LineStartsWith("(", after);
    PrefixRest("((", 1, line);
    assert "(("[1..] == "(" && line[1..] == after[..LineLen(after)];
    TakeToken(prev, "(", after, n, st, ShellStep(prev, line, n, st).1);
  }

  lemma ReadCloseParen(prev: Option<char>, after: string, n: nat, st: State)
    requires st.arithmeticDepth == 0 && st.quote == Unquoted && Calm(prev, st) && st.Valid()
    ensures Reads(prev, ")", after, n, st,
      if st.substitutions == [] then st
      else if st.Top().1 == 1 then st.(substitutions := st.substitutions[..|st.substitutions| - 1], quote := st.Top().0)
      else st.WithTop((st.Top().0, st.Top().1 - 1)))
  {
    hide RunText, ArithmeticStep, SingleStep, DoubleStep;
    var line := ")" + after[..LineLen(after)];
    assert line[0] == ')';
    TakeToken(prev, ")", after, n, st, ShellStep(prev, line, n, st).1);
  }

  lemma ReadPlain(prev: Option<char>, c: char, after: string, n: nat, st: State)
    requires st.arithmeticDepth == 0 && st.quote == Unquoted && Calm(prev, st)
    requires PlainOk(prev, c, after) && (IsBreak(c) ==> st.heredocs == [])
    ensures Reads(prev, [c], after, n, st, st)
  {
    hide RunText, ArithmeticStep, SingleStep, DoubleStep;
    LineAfterChar(c, after);
    var line := ([c] + after)[..LineLen([c] + after)];
    LineStartsWith("(", after);
    LineStartsWith("<", after);
    assert !IsBreak(c) ==> line[1..] == after[..LineLen(after)];
    PrefixRest("$(", 1, line);
    PrefixRest("<<", 1, line);
    assert "$("[1..] == "(" && "$("[0] == '$' && "<<"[1..] == "<" && "<<"[0] == '<';
    assert "$((" <= line ==> "$(" <= line;
    NoHeredoc(prev, line);
    TakeChar(prev, c, after, n, st, st);
  }

  /** An angle bracket that is not the start of a here-document operator. */
  lemma ReadAngle(prev: Option<char>, after: string, n: nat, st: State)
    requires st.arithmeticDepth == 0 && st.quote == Unquoted && Calm(prev, st)
    requires prev == Some('<') || "<<" <= after || !("<" <= after)
    ensures Reads(prev, "<", after, n, st, st)
  {
    hide RunText, ArithmeticStep, SingleStep, DoubleStep, ParseHeredoc, LineLen, Reads;
    var line := "<" + after[..LineLen(after)];
    NoOperator(prev, after);
    assert line[0] == '<' && line[1..] == after[..LineLen(after)];
    TakeToken(prev, "<", after, n, st, st);
  }

  lemma NoOperator(prev: Option<char>, after: string)
    requires prev == Some('<') || "<<" <= after || !("<" <= after)
    ensures ParseHeredoc(prev, "<" + after[..LineLen(after)]) == None
  {
    hide Word, SkipBlanks, LineLen;
    var rest := after[..LineLen(after)];
    if "<<" <= after {
      LineStartsWith("<<", after);
      assert ("<" + rest)[1..] == rest && "<<<"[1..] == "<<";
      PrefixRest("<<<", 1, "<" + rest);
    } else if !("<" <= after) {
      LineStartsWith("<", after);
      assert ("<" + rest)[1..] == rest && "<<"[1..] == "<";
      PrefixRest("<<", 1, "<" + rest);
    }
  }

  lemma ReadHereString(prev: Option<char>, after: string, n: nat, st: State)
    requires st.arithmeticDepth == 0 && st.quote == Unquoted && Calm(prev, st) && !("<" <= after)
    ensures Reads(prev, "<<<", after, n, st, st)
  {
    hide RunText, Breaks;
    var (one, two) := ("<" + after, "<" + ("<" + after));
    assert "<<" <= two && "<" + "<" == "<<" && "<<" + "<" == "<<<";
    BreaksNone("<");
    BreaksNone("<<");
    ReadAngle(prev, two, n, st);
    ReadAngle(Some('<'), one, n, st);
    Chain(prev, "<", "<", one, n, st, st, st);
    ReadAngle(Some('<'), after, n, st);
    Chain(prev, "<<", "<", after, n, st, st, st);
  }

  lemma ReadRedirect(prev: Option<char>, stripTabs: bool, blanks: string, spelling: string, d: string, after: string,
      n: nat, st: State)
    requires st.arithmeticDepth == 0 && st.quote == Unquoted && Calm(prev, st)
    requires Spells(spelling, d) && d != [] && AllBlank(blanks) && WordEnds(after) && prev != Some('<')
    requires NoBreak(spelling)
    requires !stripTabs && blanks == [] ==> spelling[..1] != "-"
    ensures var operator := Operator(stripTabs, blanks, spelling);
      Reads(prev, operator, after, n, st, st.(heredocs := st.heredocs + [Heredoc(d, stripTabs)]))
  {
    hide RunText, ArithmeticStep, SingleStep, DoubleStep, ParseHeredoc, Spells;
    var operator := Operator(stripTabs, blanks, spelling);
    var rest := after[..LineLen(after)];
    OperatorRoundTrip(prev, stripTabs, blanks, spelling, d, rest);
    var line := operator + rest;
    assert line[0] == '<' && line[|operator|..] == rest;
    assert NoBreak(operator) by { assert forall i | 0 <= i < |blanks| :: !IsBreak(blanks[i]); }
    PlainAfterOperator(operator);
    TakeToken(prev, operator, after, n, st, st.(heredocs := st.heredocs + [Heredoc(d, stripTabs)]));
  }

  lemma PlainAfterOperator(operator: string)
    requires operator != [] && NoBreak(operator)
    ensures forall prev :: PrevAfter(prev, operator) == Some(operator[|operator| - 1])
  {
  }

  lemma TailStep(prev: Option<char>, comment: Option<string>, n: nat, st: State)
    requires st.arithmeticDepth == 0 && st.quote == Unquoted
    requires comment.Some? ==> NoBreak(comment.value) && WordStart(prev)
    ensures ShellStep(prev, LineTail(comment), n, st) == ([], st.(out := st.out + LineComment(comment, prev, n)))
  {
    var line := LineTail(comment);
    assert line[0] == if comment.Some? then '#' else '\n';
    NotPrefix("<<", line);
    NoHeredoc(prev, line);
    assert st.out + [] == st.out;
    if comment.Some? {
      assert line == "#" + comment.value + "\n";
      TrimNothing("#" + comment.value);
      ShebangOf(comment.value);
    } else {
      assert line[1..] == [];
    }
  }

  /** The end of a line, with its comment if it has one. */
  lemma ReadLineTail(prev: Option<char>, comment: Option<string>, after: string, n: nat, st: State)
    requires st.arithmeticDepth == 0 && st.quote == Unquoted && Calm(prev, st)
    requires comment.Some? ==> NoBreak(comment.value) && WordStart(prev)
    ensures RunText(prev, LineTail(comment) + after, n, st)
      == RunText(None, after, n + 1, st.(out := st.out + LineComment(comment, prev, n)))
    ensures Breaks(LineTail(comment)) == 1
  {
    hide RunText, ShellStep, Breaks, LineComment;
    var body := if comment.Some? then "#" + comment.value else "";
    var tail := LineTail(comment);
    assert tail == body + "\n" && tail + after == body + ("\n" + after);
    assert IsFullLine(tail) by { assert tail[..|tail| - 1] == body; }
    FullLineFirst(tail, after);
    assert tail[|tail|..] == [];
    TailStep(prev, comment, n, st);
    Take(prev, tail, after, n, st, st.(out := st.out + LineComment(comment, prev, n)));
  }

  lemma ShebangOf(text: string)
    ensures "#!" <= "#" + text + "\n" <==> "!" <= text
  {
    var line := "#" + text + "\n";
    assert line[0] == '#' && line[1] == if text == [] then '\n' else text[0];
  }

  // ----- Here-document bodies -----

  lemma {:induction false} TabsGone(t: string, d: string)
    requires Tabs(t) && !("\t" <= d)
    ensures TrimTabs(t + d) == d
    decreases |t|
  {
    if t == "" {
      assert t + d == d;
    } else {
      assert (t + d)[0] == t[0] && (t + d)[1..] == t[1..] + d;
      TabsGone(t[1..], d);
    }
  }

  lemma {:induction false} TabsBefore(s: string) returns (k: nat)
    ensures k <= |s| && Tabs(s[..k]) && TrimTabs(s) == s[k..] && !("\t" <= s[k..])
    decreases |s|
  {
    if s != "" && s[0] == '\t' {
      var rest := TabsBefore(s[1..]);
      k := rest + 1;
      assert s[..k] == [s[0]] + s[1..][..rest] && s[k..] == s[1..][rest..];
    } else {
      k := 0;
      assert s[0..] == s;
    }
  }

  lemma TerminatesOnly(s: string, heredoc: Heredoc)
    requires NoBreak(s) && Terminates(s + "\n", heredoc)
    ensures EndsBody(s + "\n", heredoc)
  {
    hide NoBreak, TrimTabs, Tabs;
    var line := s + "\n";
    var k := 0;
    TrimNothing(s);
    TabsNone(s);
    if heredoc.stripTabs {
      k := TabsBefore(s);
    }
    assert line[..k] == s[..k] && line[k..] == s[k..] + "\n";
    assert DelimiterAt(line, k, heredoc);
  }

  lemma DelimiterTerminates(s: string, k: nat, heredoc: Heredoc)
    requires NoBreak(s) && k <= |s| + 1 && DelimiterAt(s + "\n", k, heredoc)
    ensures Terminates(s + "\n", heredoc)
  {
    hide NoBreak, TrimTabs, Tabs;
    var (line, d) := (s + "\n", heredoc.delimiter);
    TrimNothing(s);
    assert |line[k..]| == |d| + 1;
    assert line[k..] == s[k..] + "\n";
    LastDropped(s[k..], d);
    assert line[..k] == s[..k];
    assert s == s[..k] + d;
    if heredoc.stripTabs {
      TabsGone(s[..k], d);
    }
  }

  /** A line that ends in a newline. */
  lemma NewlineTerminates(s: string, heredoc: Heredoc)
    requires NoBreak(s)
    ensures Terminates(s + "\n", heredoc) <==> EndsBody(s + "\n", heredoc)
  {
    hide NoBreak, DelimiterAt, Terminates;
    if Terminates(s + "\n", heredoc) {
      TerminatesOnly(s, heredoc);
    }
    if k :| 0 <= k <= |s + "\n"| && DelimiterAt(s + "\n", k, heredoc) {
      DelimiterTerminates(s, k, heredoc);
    }
  }

  lemma TabsNone(s: string)
    ensures Tabs(s[..0]) && s[0..] == s
  {
  }

  lemma LastDropped(a: string, b: string)
    requires a + "\n" == b + "\n"
    ensures a == b
  {
    assert (a + "\n")[..|a|] == a && (b + "\n")[..|b|] == b;
  }

  /** A line that ends otherwise ends no body. */
  lemma OtherBreakContinues(line: string, heredoc: Heredoc)
    requires IsFullLine(line) && line[|line| - 1] != '\n' && NoBreak(heredoc.delimiter)
    ensures !Terminates(line, heredoc) && !EndsBody(line, heredoc)
  {
    hide IsBreak;
    var last := line[|line| - 1];
    var k := TabsBefore(line);
    assert IsBreak(last);
    assert last != '\t' by { TabNoBreak(); }
    assert line[k..] != "" && line[k..][|line[k..]| - 1] == last;
    hide TrimTabs;
    forall k | 0 <= k <= |line| ensures !DelimiterAt(line, k, heredoc) {
      if |line[k..]| > 0 {
        assert line[k..][|line[k..]| - 1] == last;
      }
    }
  }

  lemma TabNoBreak()
    ensures !IsBreak('\t')
  {
  }

  /** The scanner ends a body at exactly the lines that are its delimiter, tabs before it stripped or not. */
  lemma TerminatesIff(line: string, heredoc: Heredoc)
    requires IsFullLine(line) && NoBreak(heredoc.delimiter)
    ensures Terminates(line, heredoc) <==> EndsBody(line, heredoc)
  {
    hide Terminates, EndsBody, NoBreak;
    if line[|line| - 1] == '\n' {
      assert line == line[..|line| - 1] + "\n";
      NewlineTerminates(line[..|line| - 1], heredoc);
    } else {
      OtherBreakContinues(line, heredoc);
    }
  }

  /** Tabs before the delimiter end a body exactly when the operator strips them. */
  lemma TabbedDelimiter(t: string, d: string, strip: bool)
    requires Tabs(t) && d != "" && NoBreak(d) && d[0] != '\t'
    ensures Terminates(t + d + "\n", Heredoc(d, strip)) <==> strip || t == ""
  {
    hide Terminates;
    var (line, heredoc) := (t + d + "\n", Heredoc(d, strip));
    assert NoBreak(t + d) by { TabNoBreak(); }
    NewlineTerminates(t + d, heredoc);
    assert line[..|t|] == t && line[|t|..] == d + "\n";
    if strip || t == "" {
      assert DelimiterAt(line, |t|, heredoc);
    }
    if k :| 0 <= k <= |line| && DelimiterAt(line, k, heredoc) {
      assert |line| - k == |d| + 1;
    }
  }

  lemma BodyTerminates(heredoc: Heredoc, body: Body)
    requires BodyOk(heredoc, body)
    ensures forall k | 0 <= k < |body.lines| :: IsFullLine(body.lines[k]) && !Terminates(body.lines[k], heredoc)
    ensures IsFullLine(body.terminator) && Terminates(body.terminator, heredoc)
  {
    hide Terminates, EndsBody, IsFullLine, NoBreak;
    forall k | 0 <= k < |body.lines| ensures !Terminates(body.lines[k], heredoc) {
      TerminatesIff(body.lines[k], heredoc);
    }
    TerminatesIff(body.terminator, heredoc);
  }

  lemma FullLineFirst(line: string, after: string)
    requires IsFullLine(line)
    ensures LineLen(line + after) == |line| && (line + after)[..|line|] == line && (line + after)[|line|..] == after
    ensures Breaks(line) == 1
  {
    var k := |line| - 1;
    LineLenAppend(line[..k], line[k..] + after);
    assert line + after == line[..k] + (line[k..] + after);
    BreaksNone(line[..k]);
    BreaksAppend(line[..k], [line[k]]);
    BreakAlone(line[k]);
    assert line == line[..k] + [line[k]];
  }

  lemma ReadBodyLine(line: string, after: string, n: nat, st: State)
    requires IsFullLine(line) && st.heredocs != []
    ensures var (st', misread) := RunText(None, after, n + Breaks(line), BodyLine(line, st));
      RunText(None, line + after, n, st) == (st', misread || Inside(st))
  {
    hide RunText, BodyLine, LineLen, Breaks;
    FullLineFirst(line, after);
    BodyTurn(line + after, n, st);
  }

  lemma {:induction false} ReadBodyLines(lines: seq<string>, after: string, n: nat, st: State)
    requires st.heredocs != []
    requires forall k | 0 <= k < |lines| :: IsFullLine(lines[k]) && !Terminates(lines[k], st.heredocs[0])
    ensures var (st', misread) := RunText(None, after, n + Breaks(Concat(lines)), st);
      RunText(None, Concat(lines) + after, n, st) == (st', misread || (lines != [] && Inside(st)))
  {
    hide RunText, Breaks, Terminates;
    if lines == [] {
      assert Concat(lines) + after == after;
      BreaksNone("");
    } else {
      var rest := Concat(lines[1..]);
      assert Concat(lines) + after == lines[0] + (rest + after);
      ReadBodyLine(lines[0], rest + after, n, st);
      ReadBodyLines(lines[1..], after, n + Breaks(lines[0]), st);
      BreaksAppend(lines[0], rest);
    }
  }

  /**
   Bodies are consumed in the order their operators were written, and emit nothing, wherever the line before them
   ended: a quote that was open is open after them, though it be closed in their text.
   */
  lemma {:induction false} ReadBodies(bodies: seq<Body>, after: string, n: nat, st: State)
    requires BodiesOk(st.heredocs, bodies)
    ensures var (st', misread) := RunText(None, after, n + Breaks(PrintBodies(bodies)), st.(heredocs := []));
      RunText(None, PrintBodies(bodies) + after, n, st) == (st', misread || (bodies != [] && Inside(st)))
    decreases |bodies|
  {
    hide RunText, Breaks, Terminates, BodyOk;
    if bodies == [] {
      assert PrintBodies(bodies) + after == after;
      BreaksNone("");
    } else {
      var lines, terminator, rest := bodies[0].lines, bodies[0].terminator, PrintBodies(bodies[1..]);
      BodyTerminates(st.heredocs[0], bodies[0]);
      assert PrintBodies(bodies) + after == Concat(lines) + (terminator + (rest + after));
      ReadBodyLines(lines, terminator + (rest + after), n, st);
      var m := n + Breaks(Concat(lines));
      ReadBodyLine(terminator, rest + after, m, st);
      var st1 := st.(heredocs := st.heredocs[1..]);
      assert BodiesOk(st1.heredocs, bodies[1..]) by {
        forall k | 0 <= k < |bodies[1..]| ensures BodyOk(st1.heredocs[k], bodies[1..][k]) {
          assert BodyOk(st.heredocs[k + 1], bodies[k + 1]);
        }
      }
      ReadBodies(bodies[1..], after, m + Breaks(terminator), st1);
      BreaksAppend(Concat(lines) + terminator, rest);
      BreaksAppend(Concat(lines), terminator);
    }
  }

  // ----- Whole trees -----

  /** The effect of a tree on the scanner: its comments are out, its here-documents wait; all else is as before. */
  function After(st: State, queue: seq<Heredoc>, comments: seq<Comment>): State {
    st.(heredocs := queue, out := st.out + comments)
  }

  /** The scanner reads commands. */
  predicate Ready(prev: Option<char>, st: State) {
    st.arithmeticDepth == 0 && st.quote == Unquoted && Calm(prev, st) && st.Valid()
  }

  lemma NoBreakParts(a: string, b: string)
    requires NoBreak(a + b)
    ensures NoBreak(a) && NoBreak(b)
  {
    assert forall i | 0 <= i < |a| :: a[i] == (a + b)[i];
    assert forall i | 0 <= i < |b| :: b[i] == (a + b)[|a| + i];
  }

  lemma AfterAfter(st: State, q1: seq<Heredoc>, c1: seq<Comment>, q2: seq<Heredoc>, c2: seq<Comment>)
    ensures After(After(st, q1, c1), q2, c2) == After(st, q2, c1 + c2)
    ensures After(st, st.heredocs, []) == st
  {
    assert st.out + c1 + c2 == st.out + (c1 + c2);
    assert st.out + [] == st.out;
  }

  /** Balanced parentheses bring the arithmetic depth back. */
  lemma {:induction false} ReadSum(prev: Option<char>, s: Sum, after: string, n: nat, st: State)
    requires WellFormedSum(s) && st.arithmeticDepth > 0 && Calm(prev, st)
    requires st.heredocs != [] ==> NoBreak(PrintSum(s))
    ensures Reads(prev, PrintSum(s), after, n, st, st)
    decreases s, 0
  {
    hide Reads, Breaks;
    match s
    case SumEnd => ReadNothing(prev, after, n, st);
    case Operand(c, rest) =>
      if st.heredocs != [] { NoBreakParts([c], PrintSum(rest)); assert !IsBreak([c][0]); }
      ReadInSum(prev, c, PrintSum(rest) + after, n, st);
      ReadSum(PrevAfter(prev, [c]), rest, after, n + Breaks([c]), st);
      Chain(prev, [c], PrintSum(rest), after, n, st, st, st);
    case Group(inner, rest) =>
      var text := "(" + PrintSum(inner) + ")";
      if st.heredocs != [] {
        NoBreakParts(text, PrintSum(rest));
        NoBreakParts("(" + PrintSum(inner), ")");
        NoBreakParts("(", PrintSum(inner));
      }
      ReadGroup(prev, inner, PrintSum(rest) + after, n, st);
      ReadSum(PrevAfter(prev, text), rest, after, n + Breaks(text), st);
      Chain(prev, text, PrintSum(rest), after, n, st, st, st);
  }

  lemma {:induction false} ReadGroup(prev: Option<char>, inner: Sum, after: string, n: nat, st: State)
    requires WellFormedSum(inner) && st.arithmeticDepth > 0 && Calm(prev, st)
    requires st.heredocs != [] ==> NoBreak(PrintSum(inner))
    ensures Reads(prev, "(" + PrintSum(inner) + ")", after, n, st, st)
    decreases inner, 1
  {
    hide Breaks, RunText;
    var deeper := st.(arithmeticDepth := st.arithmeticDepth + 1);
    ReadInSum(prev, '(', PrintSum(inner) + (")" + after), n, st);
    ReadSum(Some('('), inner, ")" + after, n + Breaks("("), deeper);
    Chain(prev, "(", PrintSum(inner), ")" + after, n, st, deeper, deeper);
    ReadInSum(PrevAfter(prev, "(" + PrintSum(inner)), ')', after, n + Breaks("(" + PrintSum(inner)), deeper);
    Chain(prev, "(" + PrintSum(inner), ")", after, n, st, deeper, st);
  }

  /** A whole arithmetic expansion or command, wherever it is allowed. */
  lemma {:induction false} ReadArithmetic(prev: Option<char>, token: string, sum: Sum, after: string, n: nat, st: State)
    requires WellFormedSum(sum) && st.arithmeticDepth == 0 && Calm(prev, st)
    requires token in {"((", "$(("} && (st.quote == Unquoted || (st.quote == Double && token == "$(("))
    requires st.heredocs != [] ==> NoBreak(PrintSum(sum))
    ensures Reads(prev, token + PrintSum(sum) + "))", after, n, st, st)
  {
    hide Breaks, RunText, Reads;
    var inside := st.(arithmeticDepth := 2);
    var body := PrintSum(sum);
    ReadOpen(prev, token, body + ("))" + after), n, st);
    assert PrevAfter(prev, token) == Some('(');
    ReadSum(Some('('), sum, "))" + after, n + Breaks(token), inside);
    Chain(prev, token, body, "))" + after, n, st, inside, inside);
    ReadsCalm(prev, token + body, "))" + after, n, st, inside);
    CloseSum(PrevAfter(prev, token + body), after, n + Breaks(token + body), st);
    Chain(prev, token + body, "))", after, n, st, inside, st);
  }

  lemma ReadsCalm(prev: Option<char>, text: string, after: string, n: nat, st: State, st2: State)
    requires Reads(prev, text, after, n, st, st2)
    ensures Calm(PrevAfter(prev, text), st2)
  {
  }

  /** Two closing parentheses leave the arithmetic. */
  lemma CloseSum(prev: Option<char>, after: string, n: nat, st: State)
    requires st.arithmeticDepth == 0 && Calm(prev, st)
    ensures Reads(prev, "))", after, n, st.(arithmeticDepth := 2), st)
  {
    hide Breaks, RunText, Reads;
    var (inside, closing) := (st.(arithmeticDepth := 2), st.(arithmeticDepth := 1));
    ReadInSum(prev, ')', ")" + after, n, inside);
    ReadInSum(Some(')'), ')', after, n + Breaks(")"), closing);
    Chain(prev, ")", ")", after, n, inside, closing, st);
    assert ")" + ")" == "))";
  }

  lemma {:induction false} ReadSingleText(prev: Option<char>, text: string, after: string, n: nat, st: State)
    requires '\'' !in text && st.arithmeticDepth == 0 && st.quote == Single && Calm(prev, st)
    requires st.heredocs != [] ==> NoBreak(text)
    ensures Reads(prev, text, after, n, st, st)
    decreases |text|
  {
    hide Reads, Breaks;
    if text == [] {
      ReadNothing(prev, after, n, st);
    } else {
      assert text == [text[0]] + text[1..];
      assert text[1..] + after == text[1..] + after;
      ReadInSingle(prev, text[0], text[1..] + after, n, st);
      CalmAfter(prev, text[0], st);
      ReadSingleText(PrevAfter(prev, [text[0]]), text[1..], after, n + Breaks([text[0]]), st);
      Chain(prev, [text[0]], text[1..], after, n, st, st, st);
    }
  }

  lemma CalmAfter(prev: Option<char>, c: char, st: State)
    requires IsBreak(c) ==> st.heredocs == []
    ensures Calm(PrevAfter(prev, [c]), st)
  {
  }

  lemma {:induction false} ReadSingleString(prev: Option<char>, text: string, after: string, n: nat, st: State)
    requires '\'' !in text && Ready(prev, st) && (st.heredocs != [] ==> NoBreak(text))
    ensures Reads(prev, "'" + text + "'", after, n, st, st)
  {
    hide Breaks, RunText;
    var inside := st.(quote := Single);
    ReadOpen(prev, "'", text + ("'" + after), n, st);
    ReadSingleText(Some('\''), text, "'" + after, n + Breaks("'"), inside);
    Chain(prev, "'", text, "'" + after, n, st, inside, inside);
    ReadInSingle(PrevAfter(prev, "'" + text), '\'', after, n + Breaks("'" + text), inside);
    Chain(prev, "'" + text, "'", after, n, st, inside, st);
  }

  /** A command substitution, in commands or between double quotes. */
  lemma {:induction false} ReadSubstitution(prev: Option<char>, inner: Script, follow: string, n: nat, st: State)
    requires !("(" <= Print(inner)) && WellFormed(inner, Some('('), st.heredocs, ")" + follow)
    requires QuotesClear(inner, st.heredocs)
    requires st.arithmeticDepth == 0 && st.quote != Single && Calm(prev, st) && st.Valid()
    ensures Reads(prev, "$(" + Print(inner) + ")", follow, n, st,
      After(st, QueueAfter(inner, st.heredocs), Comments(inner, Some('('), n)))
    decreases inner, 3
  {
    hide Breaks, RunText, Print, WellFormed, QuotesClear, QueueAfter, Comments;
    var text, pushed := Print(inner), st.Push();
    assert !("(" <= text + (")" + follow)) by {
      assert (text + (")" + follow))[0] == if text == [] then ')' else text[0];
    }
    ReadOpen(prev, "$(", text + (")" + follow), n, st);
    BreaksNone("$(");
    assert pushed.Top() == (st.quote, 1);
    ReadScript(inner, Some('('), ")" + follow, n, pushed);
    var q, cs := QueueAfter(inner, st.heredocs), Comments(inner, Some('('), n);
    var inside := After(pushed, q, cs);
    Chain(prev, "$(", text, ")" + follow, n, st, pushed, inside);
    ReadCloseParen(PrevAfter(prev, "$(" + text), follow, n + Breaks("$(" + text), inside);
    assert pushed.substitutions[..|pushed.substitutions| - 1] == st.substitutions;
    Chain(prev, "$(" + text, ")", follow, n, st, inside, After(st, q, cs));
  }

  lemma {:induction false} ReadParen(prev: Option<char>, inner: Script, follow: string, n: nat, st: State)
    requires !("(" <= Print(inner)) && WellFormed(inner, Some('('), st.heredocs, ")" + follow)
    requires QuotesClear(inner, st.heredocs)
    requires Ready(prev, st)
    ensures Reads(prev, "(" + Print(inner) + ")", follow, n, st,
      After(st, QueueAfter(inner, st.heredocs), Comments(inner, Some('('), n)))
    decreases inner, 3
  {
    hide Breaks, RunText, Print, WellFormed, QuotesClear, QueueAfter, Comments;
    var text := Print(inner);
    var deeper := if st.substitutions == [] then st else st.WithTop((st.Top().0, st.Top().1 + 1));
    assert !("(" <= text + (")" + follow)) by {
      assert (text + (")" + follow))[0] == if text == [] then ')' else text[0];
    }
    ReadOpenParen(prev, text + (")" + follow), n, st);
    BreaksNone("(");
    ReadScript(inner, Some('('), ")" + follow, n, deeper);
    var q, cs := QueueAfter(inner, st.heredocs), Comments(inner, Some('('), n);
    var inside := After(deeper, q, cs);
    Chain(prev, "(", text, ")" + follow, n, st, deeper, inside);
    ReadCloseParen(PrevAfter(prev, "(" + text), follow, n + Breaks("(" + text), inside);
    if st.substitutions != [] {
      ParenCloses(st, q, cs);
    }
    Chain(prev, "(" + text, ")", follow, n, st, inside, After(st, q, cs));
  }

  lemma ParenCloses(st: State, q: seq<Heredoc>, cs: seq<Comment>)
    requires st.Valid() && st.substitutions != []
    ensures var inside := After(st.WithTop((st.Top().0, st.Top().1 + 1)), q, cs);
      inside.substitutions != [] && inside.Top().1 > 1
      && inside.WithTop((inside.Top().0, inside.Top().1 - 1)) == After(st, q, cs)
  {
    assert st.substitutions == st.substitutions[..|st.substitutions| - 1] + [st.Top()];
  }

  /** A double-quoted string. */
  lemma {:induction false} ReadDoubleString(prev: Option<char>, parts: Parts, follow: string, n: nat, st: State)
    requires WellFormedParts(parts, st.heredocs, "\"" + follow) && PartsClear(parts, st.heredocs) && Ready(prev, st)
    ensures Reads(prev, "\"" + PrintParts(parts) + "\"", follow, n, st,
      After(st, QueueAfterParts(parts, st.heredocs), CommentsParts(parts, n)))
    decreases parts, 3
  {
    hide Breaks, RunText, PrintParts, WellFormedParts, PartsClear, QueueAfterParts, CommentsParts;
    var text, quoted := PrintParts(parts), st.(quote := Double);
    ReadOpen(prev, "\"", text + ("\"" + follow), n, st);
    BreaksNone("\"");
    ReadParts(parts, Some('"'), "\"" + follow, n, quoted);
    var q, cs := QueueAfterParts(parts, st.heredocs), CommentsParts(parts, n);
    var inside := After(quoted, q, cs);
    Chain(prev, "\"", text, "\"" + follow, n, st, quoted, inside);
    ReadInDouble(PrevAfter(prev, "\"" + text), '"', follow, n + Breaks("\"" + text), inside);
    Chain(prev, "\"" + text, "\"", follow, n, st, inside, After(st, q, cs));
  }

  /** An item followed by the rest of its chain. */
  lemma Then(prev: Option<char>, a: string, b: string, after: string, n: nat, st: State,
    q1: seq<Heredoc>, c1: seq<Comment>, q2: seq<Heredoc>, c2: seq<Comment>)
    requires Reads(prev, a, b + after, n, st, After(st, q1, c1))
    requires Reads(PrevAfter(prev, a), b, after, n + Breaks(a), After(st, q1, c1), After(After(st, q1, c1), q2, c2))
    ensures Reads(prev, a + b, after, n, st, After(st, q2, c1 + c2))
  {
    hide Reads, Breaks;
    AfterAfter(st, q1, c1, q2, c2);
    Chain(prev, a, b, after, n, st, After(st, q1, c1), After(st, q2, c1 + c2));
  }

  lemma {:induction false} ReadParts(s: Parts, prev: Option<char>, after: string, n: nat, st: State)
    requires WellFormedParts(s, st.heredocs, after) && PartsClear(s, st.heredocs)
    requires st.arithmeticDepth == 0 && st.quote == Double && Calm(prev, st) && st.Valid()
    ensures Reads(prev, PrintParts(s), after, n, st, After(st, QueueAfterParts(s, st.heredocs), CommentsParts(s, n)))
    decreases s, 2
  {
    hide Breaks, Reads, Print, WellFormed, QuotesClear, QueueAfter, Comments;
    match s
    case PartsEnd =>
      assert st.out + [] == st.out;
      ReadNothing(prev, after, n, st);
    case Text(c, rest) =>
      ReadInDouble(prev, c, PrintParts(rest) + after, n, st);
      ReadPartsQuietly(prev, [c], rest, after, n, st);
    case Escape(c, rest) =>
      ReadEscape(prev, c, PrintParts(rest) + after, n, st);
      ReadPartsQuietly(prev, ['\\', c], rest, after, n, st);
    case QuotedSubstitution(inner, rest) =>
      ReadSubstitution(prev, inner, PrintParts(rest) + after, n, st);
      ReadPartsRest(prev, "$(" + Print(inner) + ")", rest, after, n, st, QueueAfter(inner, st.heredocs),
        Comments(inner, Some('('), n));
    case QuotedArithmetic(sum, rest) =>
      ReadArithmetic(prev, "$((", sum, PrintParts(rest) + after, n, st);
      ReadPartsQuietly(prev, "$((" + PrintSum(sum) + "))", rest, after, n, st);
  }

  lemma {:induction false} ReadPartsQuietly(prev: Option<char>, a: string, rest: Parts, after: string, n: nat,
      st: State)
    requires Reads(prev, a, PrintParts(rest) + after, n, st, st)
    requires WellFormedParts(rest, st.heredocs, after) && PartsClear(rest, st.heredocs) && Calm(PrevAfter(prev, a), st)
    requires st.arithmeticDepth == 0 && st.quote == Double && st.Valid()
    ensures Reads(prev, a + PrintParts(rest), after, n, st,
      After(st, QueueAfterParts(rest, st.heredocs), CommentsParts(rest, n + Breaks(a))))
    decreases rest, 5
  {
    hide Breaks, Reads, PrintParts, WellFormedParts, PartsClear, QueueAfterParts, CommentsParts;
    assert st.out + [] == st.out;
    ReadPartsRest(prev, a, rest, after, n, st, st.heredocs, []);
    assert [] + CommentsParts(rest, n + Breaks(a)) == CommentsParts(rest, n + Breaks(a));
  }

  /** What remains of a double-quoted text after one of its parts. */
  lemma {:induction false} ReadPartsRest(prev: Option<char>, a: string, rest: Parts, after: string, n: nat, st: State,
    q: seq<Heredoc>, cs: seq<Comment>)
    requires Reads(prev, a, PrintParts(rest) + after, n, st, st.(heredocs := q, out := st.out + cs))
    requires WellFormedParts(rest, q, after) && PartsClear(rest, q) && Calm(PrevAfter(prev, a), st.(heredocs := q))
    requires st.arithmeticDepth == 0 && st.quote == Double && st.Valid()
    ensures Reads(prev, a + PrintParts(rest), after, n, st,
      After(st, QueueAfterParts(rest, q), cs + CommentsParts(rest, n + Breaks(a))))
    decreases rest, 4
  {
    hide Breaks, Reads, PrintParts, WellFormedParts, PartsClear, QueueAfterParts, CommentsParts;
    ReadParts(rest, PrevAfter(prev, a), after, n + Breaks(a), After(st, q, cs));
    Then(prev, a, PrintParts(rest), after, n, st, q, cs, QueueAfterParts(rest, q), CommentsParts(rest, n + Breaks(a)));
  }

  /** What remains of a chain after an item that leaves the scanner as it was but for comments and waiting bodies. */
  lemma {:induction false} ReadRest(prev: Option<char>, a: string, rest: Script, after: string, n: nat, st: State,
    q: seq<Heredoc>, cs: seq<Comment>)
    requires Reads(prev, a, Print(rest) + after, n, st, After(st, q, cs))
    requires WellFormed(rest, PrevAfter(prev, a), q, after) && QuotesClear(rest, q) && Ready(prev, st)
    ensures Reads(prev, a + Print(rest), after, n, st,
      After(st, QueueAfter(rest, q), cs + Comments(rest, PrevAfter(prev, a), n + Breaks(a))))
    decreases rest, 4
  {
    hide Breaks, RunText, Print, WellFormed, QuotesClear, QueueAfter, Comments, PrevAfter;
    var next := PrevAfter(prev, a);
    ReadScript(rest, next, after, n + Breaks(a), After(st, q, cs));
    Then(prev, a, Print(rest), after, n, st, q, cs, QueueAfter(rest, q), Comments(rest, next, n + Breaks(a)));
  }

  /** The end of a line, the bodies that were waiting, and the start of the next line. */
  lemma ReadLineEnd(prev: Option<char>, comment: Option<string>, bodies: seq<Body>, after: string, n: nat, st: State)
    requires Ready(prev, st) && BodiesOk(st.heredocs, bodies)
    requires comment.Some? ==> NoBreak(comment.value) && WordStart(prev)
    ensures var text := LineTail(comment) + PrintBodies(bodies);
      PrevAfter(prev, text) == None && Reads(prev, text, after, n, st, After(st, [], LineComment(comment, prev, n)))
  {
    hide RunText, Breaks, LineComment, BodyOk;
    var tail, text := LineTail(comment), PrintBodies(bodies);
    assert tail + text + after == tail + (text + after);
    ReadLineTail(prev, comment, text + after, n, st);
    ReadBodies(bodies, after, n + 1, st.(out := st.out + LineComment(comment, prev, n)));
    BreaksAppend(tail, text);
    BodiesEndLines(st.heredocs, bodies);
  }

  lemma {:induction false} BodiesEndLines(queue: seq<Heredoc>, bodies: seq<Body>)
    requires BodiesOk(queue, bodies)
    ensures bodies != [] ==> PrintBodies(bodies) != [] && IsBreak(PrintBodies(bodies)[|PrintBodies(bodies)| - 1])
    decreases |bodies|
  {
    hide EndsBody, NoBreak, IsBreak;
    if bodies != [] {
      assert BodyOk(queue[0], bodies[0]);
      assert forall k | 0 <= k < |bodies[1..]| :: bodies[1..][k] == bodies[k + 1] && queue[1..][k] == queue[k + 1];
      BodiesEndLines(queue[1..], bodies[1..]);
    }
  }

  /** The first item and the rest. */
  lemma Unfold(t: Script, prev: Option<char>, queue: seq<Heredoc>, after: string, n: nat)
    requires !t.End?
    ensures Print(t) == Head(t) + Print(t.rest) && QueueAfter(t, queue) == QueueAfter(t.rest, HeadQueue(t, queue))
    ensures Comments(t, prev, n)
      == HeadComments(t, prev, n) + Comments(t.rest, PrevAfter(prev, Head(t)), n + Breaks(Head(t)))
    ensures WellFormed(t, prev, queue, after) ==>
      HeadFits(t, prev, queue, Print(t.rest) + after)
      && WellFormed(t.rest, PrevAfter(prev, Head(t)), HeadQueue(t, queue), after)
    ensures QuotesClear(t, queue) <==> HeadClear(t, queue) && QuotesClear(t.rest, HeadQueue(t, queue))
  {
    hide Head, HeadQueue, HeadComments, HeadFits, HeadClear, Breaks, PrevAfter;
  }

  /** The first item of a tree, before what follows it. */
  lemma {:induction false} ReadHead(t: Script, prev: Option<char>, follow: string, n: nat, st: State)
    requires !t.End? && HeadFits(t, prev, st.heredocs, follow) && HeadClear(t, st.heredocs) && Ready(prev, st)
    ensures Reads(prev, Head(t), follow, n, st, After(st, HeadQueue(t, st.heredocs), HeadComments(t, prev, n)))
    decreases t, 1
  {
    hide Breaks, Reads, RunText, Print, PrintParts, PrintSum, WellFormed, WellFormedParts, WellFormedSum, QuotesClear;
    hide PartsClear, QueueAfter, QueueAfterParts, Comments, CommentsParts, LineComment, Spells, Operator, BodiesOk;
    hide PlainOk;
    AfterAfter(st, [], [], [], []);
    match t
    case Plain(c, _) => ReadPlain(prev, c, follow, n, st);
    case SingleString(text, _) => ReadSingleString(prev, text, follow, n, st);
    case DoubleString(parts, _) => ReadDoubleString(prev, parts, follow, n, st);
    case Arithmetic(dollar, sum, _) => ReadArithmetic(prev, if dollar then "$((" else "((", sum, follow, n, st);
    case Substitution(inner, _) => ReadSubstitution(prev, inner, follow, n, st);
    case Paren(inner, _) => ReadParen(prev, inner, follow, n, st);
    case Redirect(stripTabs, blanks, spelling, delimiter, _) =>
      ReadRedirect(prev, stripTabs, blanks, spelling, delimiter, follow, n, st);
      assert st.out + [] == st.out;
    case HereString(_) => ReadHereString(prev, follow, n, st);
    case LineEnd(comment, bodies, _) => ReadLineEnd(prev, comment, bodies, follow, n, st);
  }

  lemma ReadEnd(prev: Option<char>, after: string, n: nat, st: State)
    requires Ready(prev, st)
    ensures Reads(prev, Print(End), after, n, st, After(st, QueueAfter(End, st.heredocs), Comments(End, prev, n)))
  {
    hide Reads;
    AfterAfter(st, [], [], [], []);
    ReadNothing(prev, after, n, st);
  }

  /**
   Scanning a well-formed tree from commands, whatever substitutions surround it, comes back to the same quote,
   substitution stack and arithmetic depth; its comments are emitted and nothing else.
   */
  lemma {:induction false} ReadScript(t: Script, prev: Option<char>, after: string, n: nat, st: State)
    requires WellFormed(t, prev, st.heredocs, after) && QuotesClear(t, st.heredocs) && Ready(prev, st)
    ensures Reads(prev, Print(t), after, n, st, After(st, QueueAfter(t, st.heredocs), Comments(t, prev, n)))
    decreases t, 2
  {
    hide Breaks, Reads, RunText, Print, WellFormed, QuotesClear, QueueAfter, Comments, Ready, PrevAfter;
    hide Head, HeadQueue, HeadComments, HeadFits, HeadClear;
    if t.End? {
      ReadEnd(prev, after, n, st);
    } else {
      var q := st.heredocs;
      Unfold(t, prev, q, after, n);
      ReadHead(t, prev, Print(t.rest) + after, n, st);
      ReadRest(prev, Head(t), t.rest, after, n, st, HeadQueue(t, q), HeadComments(t, prev, n));
    }
  }

  // ----- Where a waiting here-document is begun too early -----

  lemma Onward(prev: Option<char>, a: string, b: string, after: string, n: nat, st: State, st1: State)
    requires Reads(prev, a, b + after, n, st, st1)
    ensures RunText(prev, a + b + after, n, st) == RunText(PrevAfter(prev, a), b + after, n + Breaks(a), st1)
  {
    hide RunText, Breaks;
    assert a + b + after == a + (b + after);
  }

  /** A line end inside quotes or arithmetic: what follows is taken for a body. */
  lemma BreakMisread(prev: Option<char>, text: string, after: string, n: nat, st: State)
    requires text != [] && IsBreak(text[|text| - 1]) && Calm(prev, st) && |text| <= LineLen(text + after)
    requires st.heredocs != [] && Inside(st) && after != []
    requires var line := (text + after)[..LineLen(text + after)]; ShellStep(prev, line, n, st) == (line[|text|..], st)
    ensures RunText(prev, text + after, n, st).1
  {
    hide RunText, ShellStep, LineLen, BodyLine;
    Take(prev, text, after, n, st, st);
    BodyTurn(after, NextLine(n, text[|text| - 1]), st);
  }

  lemma MisreadInSum(prev: Option<char>, c: char, after: string, n: nat, st: State)
    requires st.arithmeticDepth > 0 && Calm(prev, st) && IsBreak(c) && st.heredocs != [] && after != []
    ensures RunText(prev, [c] + after, n, st).1
  {
    hide RunText, UnquotedStep, SingleStep, DoubleStep;
    LineAfterChar(c, after);
    BreakMisread(prev, [c], after, n, st);
  }

  lemma MisreadInSingle(prev: Option<char>, c: char, after: string, n: nat, st: State)
    requires st.arithmeticDepth == 0 && st.quote == Single && Calm(prev, st)
    requires IsBreak(c) && st.heredocs != [] && after != []
    ensures RunText(prev, [c] + after, n, st).1
  {
    hide RunText, UnquotedStep, ArithmeticStep, DoubleStep;
    LineAfterChar(c, after);
    BreakMisread(prev, [c], after, n, st);
  }

  lemma MisreadInDouble(prev: Option<char>, c: char, after: string, n: nat, st: State)
    requires st.arithmeticDepth == 0 && st.quote == Double && Calm(prev, st)
    requires IsBreak(c) && st.heredocs != [] && after != []
    ensures RunText(prev, [c] + after, n, st).1
  {
    hide RunText, UnquotedStep, ArithmeticStep, SingleStep;
    LineAfterChar(c, after);
    BreakMisread(prev, [c], after, n, st);
  }

  lemma MisreadEscape(prev: Option<char>, c: char, after: string, n: nat, st: State)
    requires st.arithmeticDepth == 0 && st.quote == Double && Calm(prev, st)
    requires IsBreak(c) && st.heredocs != [] && after != []
    ensures RunText(prev, ['\\', c] + after, n, st).1
  {
    hide RunText, UnquotedStep, ArithmeticStep, SingleStep, LineLen;
    var t := ['\\', c] + after;
    LineLenAppend(['\\'], [c] + after);
    LineAfterChar(c, after);
    assert t == ['\\'] + ([c] + after);
    var line := t[..LineLen(t)];
    assert |line| >= 2 && line[0] == '\\';
    BreakMisread(prev, ['\\', c], after, n, st);
  }

  lemma {:induction false} MisreadSum(prev: Option<char>, s: Sum, after: string, n: nat, st: State)
    requires WellFormedSum(s) && st.arithmeticDepth > 0 && Calm(prev, st)
    requires st.heredocs != [] && !NoBreak(PrintSum(s)) && after != []
    ensures RunText(prev, PrintSum(s) + after, n, st).1
    decreases s
  {
    hide RunText, Breaks, Reads;
    match s
    case SumEnd =>
    case Operand(c, rest) =>
      var tail := PrintSum(rest);
      assert [c] + tail + after == [c] + (tail + after);
      if IsBreak(c) {
        MisreadInSum(prev, c, tail + after, n, st);
      } else {
        BreaksLater([c], tail);
        ReadInSum(prev, c, tail + after, n, st);
        Onward(prev, [c], tail, after, n, st, st);
        MisreadSum(PrevAfter(prev, [c]), rest, after, n + Breaks([c]), st);
      }
    case Group(inner, rest) =>
      var (text, tail) := ("(" + PrintSum(inner) + ")", PrintSum(rest));
      if NoBreak(PrintSum(inner)) {
        BreaksLater(text, tail);
        ReadGroup(prev, inner, tail + after, n, st);
        Onward(prev, text, tail, after, n, st, st);
        MisreadSum(PrevAfter(prev, text), rest, after, n + Breaks(text), st);
      } else {
        var deeper := st.(arithmeticDepth := st.arithmeticDepth + 1);
        var follow := ")" + (tail + after);
        ReadInSum(prev, '(', PrintSum(inner) + follow, n, st);
        Onward(prev, "(", PrintSum(inner), follow, n, st, deeper);
        MisreadSum(Some('('), inner, follow, n + Breaks("("), deeper);
        assert text + tail + after == "(" + PrintSum(inner) + follow;
      }
  }

  lemma BreaksLater(a: string, b: string)
    requires NoBreak(a) && !NoBreak(a + b)
    ensures !NoBreak(b)
  {
  }

  lemma MisreadArithmetic(prev: Option<char>, token: string, sum: Sum, after: string, n: nat, st: State)
    requires WellFormedSum(sum) && st.arithmeticDepth == 0 && Calm(prev, st)
    requires token in {"((", "$(("} && (st.quote == Unquoted || (st.quote == Double && token == "$(("))
    requires st.heredocs != [] && !NoBreak(PrintSum(sum))
    ensures RunText(prev, token + PrintSum(sum) + "))" + after, n, st).1
  {
    hide Breaks, RunText, Reads;
    var inside := st.(arithmeticDepth := 2);
    var (body, follow) := (PrintSum(sum), "))" + after);
    ReadOpen(prev, token, body + follow, n, st);
    assert PrevAfter(prev, token) == Some('(');
    Onward(prev, token, body, follow, n, st, inside);
    MisreadSum(Some('('), sum, follow, n + Breaks(token), inside);
    assert token + body + "))" + after == token + body + follow;
  }

  lemma {:induction false} MisreadSingleText(prev: Option<char>, text: string, after: string, n: nat, st: State)
    requires '\'' !in text && st.arithmeticDepth == 0 && st.quote == Single && Calm(prev, st)
    requires st.heredocs != [] && !NoBreak(text) && after != []
    ensures RunText(prev, text + after, n, st).1
    decreases |text|
  {
    hide RunText, Breaks, Reads;
    var (c, tail) := (text[0], text[1..]);
    assert text == [c] + tail && [c] + tail + after == [c] + (tail + after);
    if IsBreak(c) {
      MisreadInSingle(prev, c, tail + after, n, st);
    } else {
      BreaksLater([c], tail);
      ReadInSingle(prev, c, tail + after, n, st);
      Onward(prev, [c], tail, after, n, st, st);
      MisreadSingleText(PrevAfter(prev, [c]), tail, after, n + Breaks([c]), st);
    }
  }

  lemma MisreadSingleString(prev: Option<char>, text: string, after: string, n: nat, st: State)
    requires '\'' !in text && Ready(prev, st) && st.heredocs != [] && !NoBreak(text)
    ensures RunText(prev, "'" + text + "'" + after, n, st).1
  {
    hide Breaks, RunText, Reads;
    var (inside, follow) := (st.(quote := Single), "'" + after);
    ReadOpen(prev, "'", text + follow, n, st);
    Onward(prev, "'", text, follow, n, st, inside);
    MisreadSingleText(Some('\''), text, follow, n + Breaks("'"), inside);
    assert "'" + text + "'" + after == "'" + text + follow;
  }

  lemma {:induction false} MisreadSubstitution(prev: Option<char>, inner: Script, follow: string, n: nat, st: State)
    requires !("(" <= Print(inner)) && WellFormed(inner, Some('('), st.heredocs, ")" + follow)
    requires !QuotesClear(inner, st.heredocs)
    requires st.arithmeticDepth == 0 && st.quote != Single && Calm(prev, st) && st.Valid()
    ensures RunText(prev, "$(" + Print(inner) + ")" + follow, n, st).1
    decreases inner, 3
  {
    hide Breaks, RunText, Print, WellFormed, QuotesClear, Reads;
    var (text, pushed, close) := (Print(inner), st.Push(), ")" + follow);
    assert !("(" <= text + close) by { assert (text + close)[0] == if text == [] then ')' else text[0]; }
    ReadOpen(prev, "$(", text + close, n, st);
    Onward(prev, "$(", text, close, n, st, pushed);
    MisreadScript(inner, Some('('), close, n + Breaks("$("), pushed);
    assert "$(" + text + ")" + follow == "$(" + text + close;
  }

  lemma {:induction false} MisreadParen(prev: Option<char>, inner: Script, follow: string, n: nat, st: State)
    requires !("(" <= Print(inner)) && WellFormed(inner, Some('('), st.heredocs, ")" + follow)
    requires !QuotesClear(inner, st.heredocs) && Ready(prev, st)
    ensures RunText(prev, "(" + Print(inner) + ")" + follow, n, st).1
    decreases inner, 3
  {
    hide Breaks, RunText, Print, WellFormed, QuotesClear, Reads;
    var (text, close) := (Print(inner), ")" + follow);
    var deeper := if st.substitutions == [] then st else st.WithTop((st.Top().0, st.Top().1 + 1));
    assert !("(" <= text + close) by { assert (text + close)[0] == if text == [] then ')' else text[0]; }
    ReadOpenParen(prev, text + close, n, st);
    Onward(prev, "(", text, close, n, st, deeper);
    MisreadScript(inner, Some('('), close, n + Breaks("("), deeper);
    assert "(" + text + ")" + follow == "(" + text + close;
  }

  lemma {:induction false} MisreadDoubleString(prev: Option<char>, parts: Parts, follow: string, n: nat, st: State)
    requires WellFormedParts(parts, st.heredocs, "\"" + follow) && !PartsClear(parts, st.heredocs) && Ready(prev, st)
    ensures RunText(prev, "\"" + PrintParts(parts) + "\"" + follow, n, st).1
    decreases parts, 3
  {
    hide Breaks, RunText, PrintParts, WellFormedParts, PartsClear, Reads;
    var (text, quoted, close) := (PrintParts(parts), st.(quote := Double), "\"" + follow);
    ReadOpen(prev, "\"", text + close, n, st);
    Onward(prev, "\"", text, close, n, st, quoted);
    MisreadParts(parts, Some('"'), close, n + Breaks("\""), quoted);
    assert "\"" + text + "\"" + follow == "\"" + text + close;
  }

  lemma {:induction false} MisreadParts(s: Parts, prev: Option<char>, after: string, n: nat, st: State)
    requires WellFormedParts(s, st.heredocs, after) && !PartsClear(s, st.heredocs) && after != []
    requires st.arithmeticDepth == 0 && st.quote == Double && Calm(prev, st) && st.Valid()
    ensures RunText(prev, PrintParts(s) + after, n, st).1
    decreases s, 2
  {
    hide Breaks, Reads, RunText, Print, WellFormed, QuotesClear, QueueAfter, Comments;
    var q := st.heredocs;
    AfterAfter(st, [], [], [], []);
    match s
    case PartsEnd =>
    case Text(c, rest) =>
      assert [c] + PrintParts(rest) + after == [c] + (PrintParts(rest) + after);
      if IsBreak(c) && q != [] {
        MisreadInDouble(prev, c, PrintParts(rest) + after, n, st);
      } else {
        ReadInDouble(prev, c, PrintParts(rest) + after, n, st);
        MisreadPartsRest(prev, [c], rest, after, n, st, q, []);
      }
    case Escape(c, rest) =>
      assert ['\\', c] + PrintParts(rest) + after == ['\\', c] + (PrintParts(rest) + after);
      if IsBreak(c) && q != [] {
        MisreadEscape(prev, c, PrintParts(rest) + after, n, st);
      } else {
        ReadEscape(prev, c, PrintParts(rest) + after, n, st);
        MisreadPartsRest(prev, ['\\', c], rest, after, n, st, q, []);
      }
    case QuotedSubstitution(inner, rest) =>
      var (text, follow) := ("$(" + Print(inner) + ")", PrintParts(rest) + after);
      assert text + PrintParts(rest) + after == text + follow;
      if QuotesClear(inner, q) {
        ReadSubstitution(prev, inner, follow, n, st);
        MisreadPartsRest(prev, text, rest, after, n, st, QueueAfter(inner, q), Comments(inner, Some('('), n));
      } else {
        MisreadSubstitution(prev, inner, follow, n, st);
      }
    case QuotedArithmetic(sum, rest) =>
      var (text, follow) := ("$((" + PrintSum(sum) + "))", PrintParts(rest) + after);
      assert text + PrintParts(rest) + after == text + follow;
      if q != [] && !NoBreak(PrintSum(sum)) {
        MisreadArithmetic(prev, "$((", sum, follow, n, st);
      } else {
        ReadArithmetic(prev, "$((", sum, follow, n, st);
        MisreadPartsRest(prev, text, rest, after, n, st, q, []);
      }
  }

  lemma {:induction false} MisreadPartsRest(prev: Option<char>, a: string, rest: Parts, after: string, n: nat,
      st: State,
    q: seq<Heredoc>, cs: seq<Comment>)
    requires Reads(prev, a, PrintParts(rest) + after, n, st, After(st, q, cs))
    requires WellFormedParts(rest, q, after) && !PartsClear(rest, q) && after != []
    requires st.arithmeticDepth == 0 && st.quote == Double && st.Valid()
    ensures RunText(prev, a + PrintParts(rest) + after, n, st).1
    decreases rest, 4
  {
    hide Breaks, RunText, PrintParts, WellFormedParts, PartsClear;
    var st1 := After(st, q, cs);
    Onward(prev, a, PrintParts(rest), after, n, st, st1);
    MisreadParts(rest, PrevAfter(prev, a), after, n + Breaks(a), st1);
  }

  /** The first item of a tree, when a line ends inside it while a here-document waits. */
  lemma {:induction false} MisreadHead(t: Script, prev: Option<char>, follow: string, n: nat, st: State)
    requires !t.End? && HeadFits(t, prev, st.heredocs, follow) && !HeadClear(t, st.heredocs) && Ready(prev, st)
    ensures RunText(prev, Head(t) + follow, n, st).1
    decreases t, 1
  {
    hide Breaks, Reads, RunText, Print, PrintParts, PrintSum, WellFormed, WellFormedParts, WellFormedSum, QuotesClear;
    hide PartsClear, Spells, Operator, BodiesOk;
    match t
    case SingleString(text, _) => MisreadSingleString(prev, text, follow, n, st);
    case DoubleString(parts, _) => MisreadDoubleString(prev, parts, follow, n, st);
    case Arithmetic(dollar, sum, _) => MisreadArithmetic(prev, if dollar then "$((" else "((", sum, follow, n, st);
    case Substitution(inner, _) => MisreadSubstitution(prev, inner, follow, n, st);
    case Paren(inner, _) => MisreadParen(prev, inner, follow, n, st);
    case _ =>
  }

  /** A script in which a line ends inside quotes or arithmetic while a here-document waits is misread. */
  lemma {:induction false} MisreadScript(t: Script, prev: Option<char>, after: string, n: nat, st: State)
    requires WellFormed(t, prev, st.heredocs, after) && !QuotesClear(t, st.heredocs) && Ready(prev, st)
    ensures RunText(prev, Print(t) + after, n, st).1
    decreases t, 2
  {
    hide Breaks, RunText, Print, WellFormed, QueueAfter, Comments, PrevAfter;
    hide Head, HeadQueue, HeadComments, HeadFits, HeadClear;
    if !t.End? {
      hide QuotesClear;
      var q := st.heredocs;
      var (text, tail) := (Head(t), Print(t.rest));
      Unfold(t, prev, q, after, n);
      assert text + tail + after == text + (tail + after);
      if HeadClear(t, q) {
        var st1 := After(st, HeadQueue(t, q), HeadComments(t, prev, n));
        ReadHead(t, prev, tail + after, n, st);
        Onward(prev, text, tail, after, n, st, st1);
        MisreadScript(t.rest, PrevAfter(prev, text), after, n + Breaks(text), st1);
      } else {
        MisreadHead(t, prev, tail + after, n, st);
      }
    }
  }

  // ----- Whole files -----

  /** The state the file scanner is to reach on a script. */
  function Scanned(t: Script): State { State(Unquoted, [], 0, QueueAfter(t, []), Comments(t, None, 1)) }

  /**
   The file scanner on a whole well-formed script: it takes quoted text for a here-document's exactly when a line ends
   inside quotes or arithmetic while one waits, and otherwise reads the script back.
   */
  lemma FileRoundTrip(t: Script)
    requires WellFormed(t, None, [], "")
    ensures Misread(SplitLines(Print(t)), 1, START) <==> !QuotesClear(t, [])
    ensures QuotesClear(t, []) ==> RunLines(SplitLines(Print(t)), 1, START) == Scanned(t)
  {
    hide RunText, RunLines, SplitLines, Print, WellFormed, Comments, QueueAfter, Breaks, QuotesClear, Misread;
    RunTextIsRunLines(Print(t), 1, START);
    assert Print(t) + "" == Print(t);
    if QuotesClear(t, []) {
      ReadScript(t, None, "", 1, START);
      EmptyText(PrevAfter(None, Print(t)), 1 + Breaks(Print(t)), After(START, QueueAfter(t, []), Comments(t, None, 1)));
      assert [] + Comments(t, None, 1) == Comments(t, None, 1);
    } else {
      MisreadScript(t, None, "", 1, START);
    }
  }

  // ----- What happens then -----

  function BodyLines(bodies: seq<Body>): seq<string> {
    if bodies == [] then [] else bodies[0].lines + [bodies[0].terminator] + BodyLines(bodies[1..])
  }

  /**
   Whatever a line leaves open, the lines up to the ends of the bodies it makes wait are consumed as bodies, those with
   closing quotes too, and the scanner goes on with what the line left open.
   */
  lemma {:induction false} Swallowed(bodies: seq<Body>, rest: seq<string>, n: nat, st: State)
    requires BodiesOk(st.heredocs, bodies)
    ensures RunLines(BodyLines(bodies) + rest, n, st) == RunLines(rest, n + |BodyLines(bodies)|, st.(heredocs := []))
    decreases |bodies|
  {
    hide BodyOk, RunLines;
    if bodies == [] {
      assert BodyLines(bodies) + rest == rest;
    } else {
      var (lines, terminator, more) := (bodies[0].lines, bodies[0].terminator, BodyLines(bodies[1..]));
      assert BodyLines(bodies) + rest == lines + ([terminator] + (more + rest));
      SwallowedLines(st.heredocs[0], bodies[0], [terminator] + (more + rest), n, st);
      var (st1, m) := (st.(heredocs := st.heredocs[1..]), n + |lines| + 1);
      assert ([terminator] + (more + rest))[1..] == more + rest;
      assert forall k | 0 <= k < |bodies[1..]| ::
        bodies[1..][k] == bodies[k + 1] && st1.heredocs[k] == st.heredocs[k + 1];
      Swallowed(bodies[1..], rest, m, st1);
    }
  }

  lemma SwallowedLines(heredoc: Heredoc, body: Body, rest: seq<string>, n: nat, st: State)
    requires st.heredocs != [] && st.heredocs[0] == heredoc && BodyOk(heredoc, body)
    requires rest != [] && rest[0] == body.terminator
    ensures RunLines(body.lines + rest, n, st)
      == RunLines(rest[1..], n + |body.lines| + 1, st.(heredocs := st.heredocs[1..]))
  {
    hide Terminates, BodyOk;
    BodyTerminates(heredoc, body);
    SkipLines(body.lines, rest, n, st);
  }

  lemma {:induction false} SkipLines(lines: seq<string>, rest: seq<string>, n: nat, st: State)
    requires st.heredocs != [] && forall k | 0 <= k < |lines| :: !Terminates(lines[k], st.heredocs[0])
    ensures RunLines(lines + rest, n, st) == RunLines(rest, n + |lines|, st)
    decreases |lines|
  {
    hide Terminates;
    if lines == [] {
      assert lines + rest == rest;
    } else {
      assert (lines + rest)[0] == lines[0] && (lines + rest)[1..] == lines[1..] + rest;
      SkipLines(lines[1..], rest, n + 1, st);
    }
  }

  /** `cat <<A 'x⏎y'`, with the body `b` after the line that ends the quoted word. */
  function QuotedOverLineEnd(): Script {
    Redirect(false, "", "A", "A", Plain(' ', SingleString("x\ny", LineEnd(None, [Body(["b\n"], "A\n")], End))))
  }

  lemma QuotedOverLineEndText()
    ensures Print(QuotedOverLineEnd()) == "<<A 'x\n" + "y'\nb\nA\n"
    ensures PrintBodies([Body(["y'\n", "b\n"], "A\n")]) == "y'\nb\nA\n"
  {
    assert Concat(["b\n"]) == "b\n" && Concat(["y'\n", "b\n"]) == "y'\nb\n";
    assert PrintBodies([Body(["b\n"], "A\n")]) == "b\nA\n";
  }

  lemma FullLines()
    ensures IsFullLine("y'\n") && IsFullLine("b\n") && IsFullLine("A\n")
  {
    assert "y'\n"[..2] == "y'" && "b\n"[..1] == "b" && "A\n"[..1] == "A";
  }

  lemma Terminators()
    ensures BodyOk(Heredoc("A", false), Body(["b\n"], "A\n"))
    ensures BodyOk(Heredoc("A", false), Body(["y'\n", "b\n"], "A\n"))
  {
    hide IsFullLine, Tabs;
    FullLines();
    TabsNone("A\n");
    assert "A" + "\n" == "A\n" && NoBreak("A");
    assert DelimiterAt("A\n", 0, Heredoc("A", false));
    assert "y'\n"[0] != 'A' && "b\n"[0] != 'A' && "y'\n"[0..] == "y'\n" && "b\n"[0..] == "b\n";
    assert !EndsBody("y'\n", Heredoc("A", false)) && !EndsBody("b\n", Heredoc("A", false));
  }

  lemma QuotedOverLineEndFits()
    ensures WellFormed(QuotedOverLineEnd(), None, [], "")
  {
    hide BodyOk, WordEnds, Spells;
    Terminators();
    var t := QuotedOverLineEnd();
    var follow := Print(t.rest) + "";
    assert follow[0] == ' ';
    SpaceEnds(follow);
    assert HeadFits(t, None, [], follow);
    var a := Heredoc("A", false);
    var line := LineEnd(None, [Body(["b\n"], "A\n")], End);
    assert [] + [a] == [a];
    assert BodiesOk([a], [Body(["b\n"], "A\n")]);
    assert WellFormed(line, Some('\''), [a], "");
    assert WellFormed(SingleString("x\ny", line), PrevChar(' '), [a], "");
    assert WellFormed(t.rest, PrevAfter(None, Head(t)), [a], "");
  }

  /** The delimiter of the example, bare. */
  lemma BareA()
    ensures Spells("A", "A")
  {
  }

  lemma SpaceEnds(x: string)
    requires x != "" && x[0] == ' '
    ensures WordEnds(x) && Spells("A", "A") && "A"[..1] != "-"
  {
    hide Spells;
    BareA();
    assert "A"[..1][0] == 'A';
  }

  const WAITING := Heredoc("A", false)

  lemma OperatorTurn(n: nat, st: State)
    requires st.arithmeticDepth == 0 && st.quote == Unquoted
    ensures ShellStep(None, "<<A 'x\n", n, st) == (" 'x\n", st.(heredocs := st.heredocs + [WAITING]))
  {
    hide ParseHeredoc, WordEnds, Spells;
    var (line, rest) := ("<<A 'x\n", " 'x\n");
    SpaceEnds(rest);
    assert Operator(false, "", "A") + rest == line;
    OperatorRoundTrip(None, false, "", "A", "A", rest);
    assert line[0] == '<' && line[1] == '<';
  }

  lemma QuoteTurns(n: nat, st: State)
    requires st.arithmeticDepth == 0 && st.quote == Unquoted
    ensures RunLine(Some('A'), " 'x\n", n, st) == st.(quote := Single)
  {
    hide ParseHeredoc, RunLine;
    var quoted := st.(quote := Single);
    assert " 'x\n"[0] == ' ' && " 'x\n"[1..] == "'x\n" && "'x\n"[1..] == "x\n" && "x\n"[1..] == "\n" && "\n"[1..] == "";
    NotPrefix("<<", " 'x\n");
    NoHeredoc(Some('A'), " 'x\n");
    LineTurn(Some('A'), " 'x\n", n, st);
    LineTurn(Some(' '), "'x\n", n, st);
    LineTurn(Some('\''), "x\n", n, quoted);
    LineTurn(Some('x'), "\n", n, quoted);
    LineTurn(Some('\n'), "", n, quoted);
  }

  lemma FirstLineTurns()
    ensures RunWholeLine("<<A 'x\n", 1, START) == START.(heredocs := [WAITING], quote := Single)
  {
    hide RunLine, ShellStep;
    assert START.heredocs + [WAITING] == [WAITING];
    OperatorTurn(1, START);
    LineTurn(None, "<<A 'x\n", 1, START);
    QuoteTurns(1, START.(heredocs := [WAITING]));
  }

  lemma LaterLines()
    ensures RunLines(["y'\n", "b\n", "A\n"], 2, START.(heredocs := [WAITING], quote := Single))
      == START.(quote := Single)
  {
    hide BodyOk, RunWholeLine;
    Terminators();
    var body := Body(["y'\n", "b\n"], "A\n");
    Swallowed([body], [], 2, START.(heredocs := [WAITING], quote := Single));
    assert BodyLines([]) == [];
    assert BodyLines([body]) + [] == ["y'\n", "b\n", "A\n"];
  }

  lemma QuotedNotClear(t: Script, queue: seq<Heredoc>)
    requires t.Redirect? && t.rest.Plain? && t.rest.rest.SingleString? && !NoBreak(t.rest.rest.text)
    ensures !QuotesClear(t, queue)
  {
    var longer := queue + [Heredoc(t.delimiter, t.stripTabs)];
    assert !QuotesClear(t.rest.rest, longer);
    assert !QuotesClear(t.rest, longer);
  }

  /** A balanced script whose quote is still open at its end: its second line went into the body. */
  lemma QuotedOverLineEndMisread()
    ensures WellFormed(QuotedOverLineEnd(), None, [], "") && !QuotesClear(QuotedOverLineEnd(), [])
    ensures var lines := ["<<A 'x\n", "y'\n", "b\n", "A\n"];
      Concat(lines) == Print(QuotedOverLineEnd()) && RunLines(lines, 1, START) == START.(quote := Single)
  {
    hide RunWholeLine, QuotesClear, WellFormed, Print;
    QuotedOverLineEndFits();
    assert IsBreak("x\ny"[1]);
    QuotedNotClear(QuotedOverLineEnd(), []);
    QuotedOverLineEndText();
    FirstLineTurns();
    LaterLines();
    var later := ["y'\n", "b\n", "A\n"];
    assert ["<<A 'x\n", "y'\n", "b\n", "A\n"] == ["<<A 'x\n"] + later && (["<<A 'x\n"] + later)[1..] == later;
    assert Concat(later) == "y'\nb\nA\n" by { assert later[1..] == ["b\n", "A\n"] && ["b\n", "A\n"][1..] == ["A\n"]; }
  }

  // ----- Outside the grammar -----

  /** A backslash outside quotes is no escape to the scanner: the quote after it is taken for one that opens. */
  lemma EscapedQuoteMisread()
    ensures RunLines(["\\'\n"], 1, START) == START.(quote := Single)
  {
    hide ParseHeredoc, RunLine;
    var (line, quoted) := ("\\'\n", START.(quote := Single));
    assert line[1..] == "'\n" && "'\n"[1..] == "\n" && "\n"[1..] == "";
    NotPrefix("<<", line);
    NoHeredoc(None, line);
    LineTurn(None, line, 1, START);
    LineTurn(Some('\\'), "'\n", 1, START);
    LineTurn(Some('\''), "\n", 1, quoted);
    LineTurn(Some('\n'), "", 1, quoted);
    assert [line][1..] == [];
  }
}
