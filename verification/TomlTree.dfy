/**
 TOML text as a chain of items, and the proof that the line scanner reads every printed chain back, emitting exactly its
 comments, wherever strings and line ends fall.
 */
module TomlTree {
  import opened LineStreams
  import opened Sequences
  import opened TextLines
  import opened TomlComments
  import opened Wrappers

  datatype Item =
    | End
    | Plain(c: char, rest: Item)
    | Basic(text: string, rest: Item)
    | Literal(text: string, rest: Item)
    | Multi(literal: bool, text: string, extra: nat, rest: Item)
    | LineComment(text: string, rest: Item)

  /** A multi-line string may end in up to two quotes of its own before its delimiter. */
  function Closing(literal: bool, extra: nat): string {
    Delimiter(literal) + seq(extra, i => Quote(literal))
  }

  function Print(t: Item): string {
    match t
    case End => ""
    case Plain(c, rest) => [c] + Print(rest)
    case Basic(text, rest) => "\"" + text + "\"" + Print(rest)
    case Literal(text, rest) => "'" + text + "'" + Print(rest)
    case Multi(literal, text, extra, rest) => Delimiter(literal) + text + Closing(literal, extra) + Print(rest)
    case LineComment(text, rest) => "#" + text + "\n" + Print(rest)
  }

  /** The text of a string on one line: no quote but after a backslash. */
  predicate BasicText(s: string) {
    s != "" ==>
      if s[0] == '\\' then |s| >= 2 && BasicText(s[2..]) else s[0] != '"' && BasicText(s[1..])
  }

  /** The text of a multi-line string: its delimiter does not begin inside it. */
  predicate MultiText(s: string, literal: bool) {
    s != "" ==>
      if !literal && s[0] == '\\' then |s| >= 2 && MultiText(s[2..], literal)
      else !(Delimiter(literal) <= s + Delimiter(literal)) && MultiText(s[1..], literal)
  }

  predicate WellFormed(t: Item, after: string) {
    match t
    case End => true
    case Plain(c, rest) => c !in {'"', '\'', '#'} && WellFormed(rest, after)
    case Basic(text, rest) =>
      NoBreak(text) && BasicText(text) && (text == "" ==> !("\"" <= Print(rest) + after)) && WellFormed(rest, after)
    case Literal(text, rest) =>
      NoBreak(text) && '\'' !in text && (text == "" ==> !("'" <= Print(rest) + after)) && WellFormed(rest, after)
    case Multi(literal, text, extra, rest) =>
      MultiText(text, literal) && extra <= 2 && !([Quote(literal)] <= Print(rest) + after) && WellFormed(rest, after)
    case LineComment(text, rest) => NoBreak(text) && WellFormed(rest, after)
  }

  function Comments(t: Item, n: nat): seq<Comment> {
    match t
    case End => []
    case Plain(c, rest) => Comments(rest, n + Breaks([c]))
    case Basic(_, rest) => Comments(rest, n)
    case Literal(_, rest) => Comments(rest, n)
    case Multi(_, text, _, rest) => Comments(rest, n + Breaks(text))
    case LineComment(text, rest) => [Comment(n, "#" + text)] + Comments(rest, n + 1)
  }

  // ----- Scanning text as one stream -----

  lemma {:induction false} ConsumeSuffix(s: string, literal: bool)
    ensures var r := Consume(s, literal); r.Some? ==> r.value == s[|s| - |r.value|..]
    decreases |s|
  {
    if s != [] {
      if !literal && s[0] == '\\' {
        ConsumeSuffix(Drop(s, 2), literal);
      } else if !(Delimiter(literal) <= s) {
        ConsumeSuffix(s[1..], literal);
      }
    }
  }

  lemma {:induction false} SkipBasicSuffix(s: string)
    ensures SkipBasic(s) == s[|s| - |SkipBasic(s)|..]
    decreases |s|
  {
    if s != [] && s[0] == '\\' {
      SkipBasicSuffix(Drop(s, 2));
    } else if s != [] {
      SkipBasicSuffix(s[1..]);
    }
  }

  lemma {:induction false} SkipLiteralSuffix(s: string)
    ensures SkipLiteral(s) == s[|s| - |SkipLiteral(s)|..]
  {
    if s != [] {
      SkipLiteralSuffix(s[1..]);
    }
  }

  lemma StepLeavesSuffix(s: string, n: nat, st: State)
    requires s != []
    ensures TomlStep(s, n, st).0 == s[|s| - |TomlStep(s, n, st).0|..]
  {
    hide Consume, SkipBasic, SkipLiteral;
    ConsumeSuffix(s, true);
    ConsumeSuffix(s, false);
    SkipBasicSuffix(s[1..]);
    SkipLiteralSuffix(s[1..]);
    if |s| >= 3 {
      ConsumeSuffix(s[3..], true);
      ConsumeSuffix(s[3..], false);
    }
  }

  lemma StepsLeaveSuffix()
    ensures LeavesSuffix(TOML)
  {
    hide TomlStep;
    forall s: string, n: nat, st: State | s != []
      ensures Advance(TOML, s, n, st).0 == s[|s| - |Advance(TOML, s, n, st).0|..]
    {
      OneTurn(s, n, st);
      StepLeavesSuffix(s, n, st);
    }
  }

  /** The stream scanner and the line scanner agree on every text. */
  lemma TextIsLines(t: string, n: nat, st: State)
    ensures RunText(TOML, t, n, st) == RunLines(TOML, SplitLines(t), n, st)
  {
    hide RunText, RunLines, LeavesSuffix;
    StepsLeaveSuffix();
    RunTextIsRunLines(TOML, t, n, st);
  }

  // ----- One turn, read off the text -----

  lemma Take(t: string, n: nat, st: State, k: nat, st1: State)
    requires 0 < k <= LineLen(t) && TomlStep(t[..LineLen(t)], n, st) == (t[..LineLen(t)][k..], st1)
    ensures RunText(TOML, t, n, st) == RunText(TOML, t[k..], NextLine(n, t[k - 1]), st1)
  {
    hide RunText, Advance, TomlStep;
    OneTurn(t[..LineLen(t)], n, st);
    LineStreams.Take(TOML, t, n, st, k, st1);
  }

  /** A turn that would have gone the same way some characters further on. */
  lemma Skip(t: string, n: nat, st: State, k: nat, st1: State)
    requires 0 < k <= LineLen(t)
    requires k < LineLen(t) ==> TomlStep(t[..LineLen(t)], n, st) == TomlStep(t[..LineLen(t)][k..], n, st1)
    requires k == LineLen(t) ==> TomlStep(t[..LineLen(t)], n, st) == ([], st1)
    ensures RunText(TOML, t, n, st) == RunText(TOML, t[k..], NextLine(n, t[k - 1]), st1)
  {
    hide RunText, TomlStep, LineLen, Advance;
    var l := LineLen(t);
    var line := t[..l];
    var r := TomlStep(line, n, st);
    OneTurn(line, n, st);
    TextTurn(TOML, t, n, st, l - |r.0|);
    if k < l {
      LineLenRest(t, k);
      Slices(t, k, l);
      OneTurn(line[k..], n, st1);
      TextTurn(TOML, t[k..], n, st1, l - k - |r.0|);
      assert t[k..][l - k - |r.0|..] == t[l - |r.0|..];
    }
  }

  lemma MultiSkips(s: string, literal: bool, n: nat, st: State, k: nat)
    requires st.mode == MultiOf(literal) && s != "" && k <= |s|
    requires if !literal && s[0] == '\\' then k == 2 else k == 1 && !(Delimiter(literal) <= s)
    ensures k < |s| ==> TomlStep(s, n, st) == TomlStep(s[k..], n, st)
    ensures k == |s| ==> TomlStep(s, n, st) == ([], st)
  {
    assert Consume(s, literal) == Consume(s[k..], literal);
    assert s[|s|..] == "";
  }

  lemma RunMultiChar(t: string, literal: bool, n: nat, st: State)
    requires st.mode == MultiOf(literal) && t != "" && (!literal && t[0] == '\\' ==> |t| >= 2)
    ensures !literal && t[0] == '\\' ==> RunText(TOML, t, n, st) == RunText(TOML, t[2..], NextLine(n, t[1]), st)
    ensures !(!literal && t[0] == '\\') && !(Delimiter(literal) <= t) ==>
      RunText(TOML, t, n, st) == RunText(TOML, t[1..], NextLine(n, t[0]), st)
  {
    hide RunText, TomlStep;
    var line := t[..LineLen(t)];
    LineStartsWith(Delimiter(literal), t);
    if !literal && t[0] == '\\' {
      assert LineLen(t) >= 2;
      MultiSkips(line, literal, n, st, 2);
      Skip(t, n, st, 2, st);
    } else if !(Delimiter(literal) <= t) {
      MultiSkips(line, literal, n, st, 1);
      Skip(t, n, st, 1, st);
    }
  }

  lemma {:induction false} QuoteRunOf(k: nat, quote: char, follow: string)
    requires !([quote] <= follow)
    ensures QuoteRun(seq(k, i => quote) + follow, quote) == k
  {
    var s := seq(k, i => quote) + follow;
    if k == 0 {
      assert s == follow;
    } else {
      QuoteRunOf(k - 1, quote, follow);
      assert s[1..] == seq(k - 1, i => quote) + follow && s[0] == quote;
    }
  }

  /** The delimiter, and quotes before it that belong to the string, end a multi-line string. */
  lemma RunClosing(literal: bool, extra: nat, follow: string, n: nat, st: State)
    requires st.mode == MultiOf(literal) && !([Quote(literal)] <= follow)
    ensures RunText(TOML, Closing(literal, extra) + follow, n, st) == RunText(TOML, follow, n, st.(mode := Normal))
  {
    hide RunText, LineLen;
    var quote, closing := Quote(literal), Closing(literal, extra);
    var t := closing + follow;
    ClosingRun(literal, extra);
    assert NoBreak(closing);
    LineLenAppend(closing, follow);
    var line := t[..LineLen(t)];
    var x := follow[..LineLen(follow)];
    assert line == closing + x;
    QuoteRunOf(3 + extra, quote, x);
    assert Delimiter(literal) <= line;
    assert line[3 + extra..] == x && !IsBreak(t[|closing| - 1]);
    assert Consume(line, literal) == Some(x);
    Take(t, n, st, 3 + extra, st.(mode := Normal));
    assert t[3 + extra..] == follow;
  }

  lemma ClosingRun(literal: bool, extra: nat)
    ensures Closing(literal, extra) == seq(3 + extra, i => Quote(literal))
  {
  }

  lemma {:induction false} ReadMulti(text: string, literal: bool, extra: nat, follow: string, n: nat, st: State)
    requires st.mode == MultiOf(literal) && MultiText(text, literal) && !([Quote(literal)] <= follow)
    ensures RunText(TOML, text + Closing(literal, extra) + follow, n, st)
      == RunText(TOML, follow, n + Breaks(text), st.(mode := Normal))
    decreases |text|
  {
    hide RunText, Closing, Breaks, Delimiter, Quote, NextLine, IsBreak;
    var tail := Closing(literal, extra) + follow;
    assert text + tail == text + Closing(literal, extra) + follow;
    if text == "" {
      BreaksNothing();
      assert text + tail == tail;
      RunClosing(literal, extra, follow, n, st);
    } else {
      var k := if !literal && text[0] == '\\' then 2 else 1;
      ReadMultiChar(text, literal, extra, follow, n, st);
      assert text[k..] + Closing(literal, extra) + follow == text[k..] + tail;
      ReadMulti(text[k..], literal, extra, follow, NextLine(n, text[k - 1]), st);
      BreaksFirst(text, k);
      NextLineBreaks(n, text[k - 1]);
    }
  }

  /** The first character of the text, or its first escape. */
  lemma ReadMultiChar(text: string, literal: bool, extra: nat, follow: string, n: nat, st: State)
    requires st.mode == MultiOf(literal) && MultiText(text, literal) && text != ""
    ensures var k := if !literal && text[0] == '\\' then 2 else 1;
      var tail := Closing(literal, extra) + follow;
      && k <= |text| && MultiText(text[k..], literal)
      && RunText(TOML, text + tail, n, st) == RunText(TOML, text[k..] + tail, NextLine(n, text[k - 1]), st)
  {
    hide RunText, Closing, Delimiter, Quote, NextLine;
    var k := if !literal && text[0] == '\\' then 2 else 1;
    if k == 1 {
      NotYet(text, literal, extra, follow);
    }
    var t := text + (Closing(literal, extra) + follow);
    CutAppend(text, Closing(literal, extra) + follow, k);
    assert t[0] == text[0] && t[k - 1] == text[k - 1];
    RunMultiChar(t, literal, n, st);
  }

  lemma NextLineBreaks(n: nat, c: char)
    ensures NextLine(n, c) == n + (if IsBreak(c) then 1 else 0)
  {
  }

  lemma NotYet(text: string, literal: bool, extra: nat, follow: string)
    requires text != "" && !(Delimiter(literal) <= text + Delimiter(literal))
    ensures !(Delimiter(literal) <= text + (Closing(literal, extra) + follow))
  {
    var d := Delimiter(literal);
    var t := text + (Closing(literal, extra) + follow);
    assert t[..3] == (text + d)[..3];
  }

  /** Only the last of the first characters can be a line break. */
  lemma BreaksFirst(text: string, k: nat)
    requires 0 < k <= |text| && k <= 2 && (k == 2 ==> text[0] == '\\')
    ensures Breaks(text) == (if IsBreak(text[k - 1]) then 1 else 0) + Breaks(text[k..])
  {
    BreaksAppend(text[..k], text[k..]);
    assert text == text[..k] + text[k..];
    BreakAlone(text[k - 1]);
    if k == 2 {
      assert text[..2] == [text[0]] + [text[1]];
      BreaksAppend([text[0]], [text[1]]);
      BreakAlone(text[0]);
    } else {
      assert text[..1] == [text[0]];
    }
  }

  lemma RunOpen(literal: bool, follow: string, n: nat, st: State)
    requires st.mode == Normal
    ensures RunText(TOML, Delimiter(literal) + follow, n, st) == RunText(TOML, follow, n, st.(mode := MultiOf(literal)))
  {
    hide RunText, LineLen;
    var d := Delimiter(literal);
    var t := d + follow;
    LineLenAppend(d, follow);
    var line, x := t[..LineLen(t)], follow[..LineLen(follow)];
    assert line == d + x && line[3..] == x && t[3..] == follow;
    assert d <= line && (literal ==> line[0] == '\'');
    Skip(t, n, st, 3, st.(mode := MultiOf(literal)));
  }

  lemma {:induction false} SkipBasicText(text: string, x: string)
    requires BasicText(text)
    ensures SkipBasic(text + ("\"" + x)) == x
    decreases |text|
  {
    var s := text + ("\"" + x);
    if text == "" {
      assert s == "\"" + x;
    } else if text[0] == '\\' {
      assert s[2..] == text[2..] + ("\"" + x);
      SkipBasicText(text[2..], x);
    } else {
      assert s[1..] == text[1..] + ("\"" + x);
      SkipBasicText(text[1..], x);
    }
  }

  lemma {:induction false} SkipLiteralText(text: string, x: string)
    requires '\'' !in text
    ensures SkipLiteral(text + ("'" + x)) == x
  {
    var s := text + ("'" + x);
    if text == "" {
      assert s == "'" + x;
    } else {
      assert s[1..] == text[1..] + ("'" + x);
      SkipLiteralText(text[1..], x);
    }
  }

  /** A string on one line, with its quotes, is passed over. */
  lemma ReadString(literal: bool, text: string, follow: string, n: nat, st: State)
    requires st.mode == Normal && NoBreak(text) && (if literal then '\'' !in text else BasicText(text))
    requires text == "" ==> !([Quote(literal)] <= follow)
    ensures RunText(TOML, [Quote(literal)] + text + [Quote(literal)] + follow, n, st) == RunText(TOML, follow, n, st)
  {
    hide RunText, LineLen, TomlStep, BasicText;
    var q := [Quote(literal)];
    var piece := q + text + q;
    var t := piece + follow;
    assert NoBreak(piece);
    LineLenAppend(piece, follow);
    var x := follow[..LineLen(follow)];
    assert t[..LineLen(t)] == piece + x && (piece + x)[|piece|..] == x && t[|piece|..] == follow;
    StringStep(literal, text, follow, x, n, st);
    assert !IsBreak(t[|piece| - 1]);
    Take(t, n, st, |piece|, st);
  }

  /** The turn that passes over a string and leaves what follows it on the line. */
  lemma StringStep(literal: bool, text: string, follow: string, x: string, n: nat, st: State)
    requires st.mode == Normal && (if literal then '\'' !in text else BasicText(text)) && x <= follow
    requires text == "" ==> !([Quote(literal)] <= follow)
    ensures TomlStep([Quote(literal)] + text + [Quote(literal)] + x, n, st) == (x, st)
  {
    hide SkipBasic, SkipLiteral, BasicText;
    var q := [Quote(literal)];
    var line := q + text + q + x;
    assert line[1..] == text + (q + x) && line[0] == Quote(literal);
    NoDelimiter(literal, text, follow, x);
    if literal {
      SkipLiteralText(text, x);
    } else {
      SkipBasicText(text, x);
    }
  }

  lemma NoDelimiter(literal: bool, text: string, follow: string, x: string)
    requires if literal then '\'' !in text else BasicText(text)
    requires (text == "" ==> !([Quote(literal)] <= follow)) && x <= follow
    ensures var line := [Quote(literal)] + text + [Quote(literal)] + x;
      !(Delimiter(false) <= line) && !(Delimiter(true) <= line)
  {
    var q := Quote(literal);
    var line := [q] + text + [q] + x;
    assert line[0] == q;
    if text != "" {
      assert line[1] == text[0] && text[0] != q;
    } else if x != "" {
      assert line[2] == x[0] == follow[0] && [follow[0]] <= follow;
    }
  }

  lemma ReadPlain(c: char, follow: string, n: nat, st: State)
    requires st.mode == Normal && c !in {'"', '\'', '#'}
    ensures RunText(TOML, [c] + follow, n, st) == RunText(TOML, follow, NextLine(n, c), st)
  {
    hide RunText;
    var t := [c] + follow;
    assert t[1..] == follow;
    Take(t, n, st, 1, st);
  }

  lemma ReadComment(text: string, follow: string, n: nat, st: State)
    requires st.mode == Normal && NoBreak(text)
    ensures RunText(TOML, "#" + text + "\n" + follow, n, st)
      == RunText(TOML, follow, n + 1, st.(out := st.out + [Comment(n, "#" + text)]))
  {
    hide RunText;
    var t := "#" + text + "\n" + follow;
    assert t == ("#" + text) + ("\n" + follow);
    LineLenAppend("#" + text, "\n" + follow);
    var line := t[..LineLen(t)];
    assert line == "#" + text + "\n";
    TrimNothing("#" + text);
    assert line[|text| + 2..] == [];
    Take(t, n, st, |text| + 2, st.(out := st.out + [Comment(n, "#" + text)]));
    assert t[|text| + 2..] == follow;
  }

  // ----- The round trip -----

  lemma {:induction false} ReadItems(t: Item, after: string, n: nat, st: State)
    requires WellFormed(t, after) && st.mode == Normal
    ensures RunText(TOML, Print(t) + after, n, st) ==
      RunText(TOML, after, n + Breaks(Print(t)), st.(out := st.out + Comments(t, n)))
    decreases t, 0
  {
    hide RunText, Breaks, MultiText, BasicText, NoBreak, Delimiter, Closing;
    match t
    case End =>
      assert "" + after == after && st.out + [] == st.out;
      BreaksNothing();
    case Plain(c, rest) =>
      ReadPlain(c, Print(rest) + after, n, st);
      BreakAlone(c);
      ReadOnQuietly([c], rest, after, n, st);
    case Basic(text, rest) =>
      ReadString(false, text, Print(rest) + after, n, st);
      StringBreaks(false, text);
      ReadOnQuietly("\"" + text + "\"", rest, after, n, st);
    case Literal(text, rest) =>
      ReadString(true, text, Print(rest) + after, n, st);
      StringBreaks(true, text);
      ReadOnQuietly("'" + text + "'", rest, after, n, st);
    case Multi(literal, text, extra, rest) =>
      ReadMultiString(literal, text, extra, Print(rest) + after, n, st);
      MultiBreaks(literal, text, extra);
      ReadOnQuietly(Delimiter(literal) + text + Closing(literal, extra), rest, after, n, st);
    case LineComment(text, rest) =>
      ReadComment(text, Print(rest) + after, n, st);
      CommentBreaks(text);
      ReadOn("#" + text + "\n", rest, after, n, st, [Comment(n, "#" + text)]);
  }

  lemma ReadMultiString(literal: bool, text: string, extra: nat, follow: string, n: nat, st: State)
    requires st.mode == Normal && MultiText(text, literal) && !([Quote(literal)] <= follow)
    ensures RunText(TOML, Delimiter(literal) + text + Closing(literal, extra) + follow, n, st) ==
      RunText(TOML, follow, n + Breaks(text), st)
  {
    hide RunText, Breaks, Delimiter, Closing, MultiText;
    var d, closing := Delimiter(literal), Closing(literal, extra);
    RunOpen(literal, text + closing + follow, n, st);
    ReadMulti(text, literal, extra, follow, n, st.(mode := MultiOf(literal)));
    assert d + text + closing + follow == d + (text + closing + follow);
  }

  /** An item that has been read, and the rest of the chain. */
  lemma {:induction false} ReadOn(piece: string, rest: Item, after: string, n: nat, st: State, cs: seq<Comment>)
    requires WellFormed(rest, after) && st.mode == Normal
    requires RunText(TOML, piece + (Print(rest) + after), n, st) ==
      RunText(TOML, Print(rest) + after, n + Breaks(piece), st.(out := st.out + cs))
    ensures RunText(TOML, piece + Print(rest) + after, n, st) ==
      RunText(TOML, after, n + Breaks(piece + Print(rest)),
        st.(out := st.out + (cs + Comments(rest, n + Breaks(piece)))))
    decreases rest, 1
  {
    hide RunText, Breaks, WellFormed, Print, Comments;
    ReadItems(rest, after, n + Breaks(piece), st.(out := st.out + cs));
    BreaksAppend(piece, Print(rest));
    assert piece + Print(rest) + after == piece + (Print(rest) + after);
    assert st.out + cs + Comments(rest, n + Breaks(piece)) == st.out + (cs + Comments(rest, n + Breaks(piece)));
  }

  /** As `ReadOn`, after an item that is no comment. */
  lemma {:induction false} ReadOnQuietly(piece: string, rest: Item, after: string, n: nat, st: State)
    requires WellFormed(rest, after) && st.mode == Normal
    requires RunText(TOML, piece + (Print(rest) + after), n, st)
      == RunText(TOML, Print(rest) + after, n + Breaks(piece), st)
    ensures RunText(TOML, piece + Print(rest) + after, n, st) ==
      RunText(TOML, after, n + Breaks(piece + Print(rest)), st.(out := st.out + Comments(rest, n + Breaks(piece))))
    decreases rest, 2
  {
    hide RunText, Breaks, WellFormed, Print, Comments;
    assert st.out + [] == st.out && [] + Comments(rest, n + Breaks(piece)) == Comments(rest, n + Breaks(piece));
    ReadOn(piece, rest, after, n, st, []);
  }

  lemma BreaksNothing()
    ensures Breaks("") == 0
  {
  }

  lemma StringBreaks(literal: bool, text: string)
    requires NoBreak(text)
    ensures Breaks([Quote(literal)] + text + [Quote(literal)]) == 0
  {
    hide Breaks;
    BreaksNone([Quote(literal)] + text + [Quote(literal)]);
  }

  lemma MultiBreaks(literal: bool, text: string, extra: nat)
    ensures Breaks(Delimiter(literal) + text + Closing(literal, extra)) == Breaks(text)
  {
    hide Breaks;
    BreaksNone(Delimiter(literal));
    ClosingRun(literal, extra);
    BreaksNone(Closing(literal, extra));
    BreaksAppend(Delimiter(literal) + text, Closing(literal, extra));
    BreaksAppend(Delimiter(literal), text);
  }

  lemma CommentBreaks(text: string)
    requires NoBreak(text)
    ensures Breaks("#" + text + "\n") == 1
  {
    BreaksNone("#" + text);
    BreaksAppend("#" + text, "\n");
    BreakAlone('\n');
  }

  /** The file scanner on a whole well-formed file. */
  lemma FileRoundTrip(t: Item)
    requires WellFormed(t, "")
    ensures RunLines(TOML, SplitLines(Print(t)), 1, START) == State(Normal, Comments(t, 1))
  {
    hide RunText, RunLines, SplitLines, Print, WellFormed, Comments, Breaks;
    TextIsLines(Print(t), 1, START);
    ReadItems(t, "", 1, START);
    assert Print(t) + "" == Print(t) && [] + Comments(t, 1) == Comments(t, 1);
    EmptyText(TOML, "", 1 + Breaks(Print(t)), START.(out := Comments(t, 1)));
  }
}
