/**
 Rust text without single quotes outside strings and comments, as a chain of items, and the proof that the scanner reads
 every printed chain back: strings, raw strings and nested block comments may run over lines, and exactly the comments
 of the chain are emitted, a block comment line by line under one number.
 */
module RustTree {
  import opened LineStreams
  import opened Sequences
  import opened TextLines
  import opened Wrappers
  import opened RustStream
  import R = RustComments

  datatype Item =
    | End
    | Plain(c: char, rest: Item)
    | Text(byte: bool, text: string, rest: Item)
    | Raw(prefix: string, hashes: nat, text: string, rest: Item)
    | LineComment(text: string, rest: Item)
    | Block(body: Body, rest: Item)

  /** The inside of a block comment. */
  datatype Body = Stop | Char(c: char, rest: Body) | Nested(inner: Body, rest: Body)

  function Print(t: Item): string
    decreases t, 1
  {
    if t.End? then "" else Head(t) + Print(t.rest)
  }

  function Head(t: Item): string
    requires !t.End?
    decreases t, 0
  {
    match t
    case Plain(c, _) => [c]
    case Text(byte, text, _) => (if byte then "b\"" else "\"") + (text + "\"")
    case Raw(prefix, hashes, text, _) => RawStart(prefix, hashes) + (text + RawStop(hashes))
    case LineComment(text, _) => "//" + text + "\n"
    case Block(body, _) => PrintBlock(body)
  }

  function RawStart(prefix: string, hashes: nat): string { prefix + R.Repeat('#', hashes) + "\"" }

  function RawStop(hashes: nat): R.RawEnd { "\"" + R.Repeat('#', hashes) }

  function PrintBlock(body: Body): string
    decreases body, 1
  {
    "/*" + (PrintBody(body) + "*/")
  }

  function PrintBody(b: Body): string
    decreases b, 0
  {
    match b
    case Stop => ""
    case Char(c, rest) => [c] + PrintBody(rest)
    case Nested(inner, rest) => PrintBlock(inner) + PrintBody(rest)
  }

  // ----- Unambiguous chains -----

  /** A raw string starts here: one of three prefixes, up to 255 hashes, and a quote. */
  ghost predicate StartsRaw(s: string) {
    exists prefix: string, hashes: nat :: RawStartsWith(s, prefix, hashes)
  }

  predicate RawStartsWith(s: string, prefix: string, hashes: nat) {
    prefix in {"r", "br", "rb"} && hashes <= 255 && RawStart(prefix, hashes) <= s
  }

  /** The text of a string: no quote but after a backslash. */
  predicate StringText(s: string) {
    s != "" ==>
      if s[0] == '\\' then |s| >= 2 && StringText(s[2..]) else s[0] != '"' && StringText(s[1..])
  }

  /** What closes a raw string does not begin inside its text. */
  predicate RawText(s: string, stop: string) {
    s != "" ==> !(stop <= s + stop) && RawText(s[1..], stop)
  }

  /** No character of a block comment's text opens or closes a block with the one after it. */
  predicate BodyOk(b: Body, after: string) {
    match b
    case Stop => true
    case Char(c, rest) =>
      var s := [c] + (PrintBody(rest) + after);
      !("/*" <= s) && !("*/" <= s) && BodyOk(rest, after)
    case Nested(inner, rest) => BodyOk(inner, "*/" + (PrintBody(rest) + after)) && BodyOk(rest, after)
  }

  ghost predicate WellFormed(t: Item, after: string)
    decreases t, 1
  {
    t.End? || (HeadFits(t, Print(t.rest) + after) && WellFormed(t.rest, after))
  }

  ghost predicate HeadFits(t: Item, follow: string)
    requires !t.End?
    decreases t, 0
  {
    match t
    case Plain(c, _) =>
      var s := [c] + follow;
      c !in {'"', '\''} && !("//" <= s) && !("/*" <= s) && !("b\"" <= s) && !StartsRaw(s)
    case Text(_, text, _) => StringText(text)
    case Raw(prefix, hashes, text, _) =>
      prefix in {"r", "br", "rb"} && hashes <= 255 && RawText(text, RawStop(hashes))
    case LineComment(text, _) => NoBreak(text)
    case Block(body, _) => BodyOk(body, "*/")
  }

  // ----- The comments of a chain -----

  /** A block comment, line by line. */
  function Segments(t: string, n: nat, id: nat): seq<R.Comment>
    decreases |t|
  {
    if t == "" then []
    else
      [R.Comment(n, 0, t[..LineLen(t)], R.RustBlock, Some(id))] + Segments(t[LineLen(t)..], n + 1, id)
  }

  function Blocks(t: Item): nat { if t.End? then 0 else (if t.Block? then 1 else 0) + Blocks(t.rest) }

  /** `id` is the number of the last block before the chain. */
  function Comments(t: Item, n: nat, id: nat): seq<R.Comment> {
    if t.End? then []
    else
      HeadComments(t, n, id) + Comments(t.rest, n + Breaks(Head(t)), if t.Block? then id + 1 else id)
  }

  function HeadComments(t: Item, n: nat, id: nat): seq<R.Comment>
    requires !t.End?
  {
    match t
    case LineComment(text, _) => [R.Comment(n, 0, "//" + text, R.RustLine, None)]
    case Block(body, _) => Segments(PrintBlock(body), n, id + 1)
    case _ => []
  }

  // ----- Raw strings -----

  lemma {:induction false} HashesOf(n: nat, x: string)
    requires !("#" <= x)
    ensures R.Hashes(R.Repeat('#', n) + x) == n
  {
    if n == 0 {
      assert R.Repeat('#', 0) + x == x;
    } else {
      var s := R.Repeat('#', n) + x;
      assert s[0] == '#' && s[1..] == R.Repeat('#', n - 1) + x;
      HashesOf(n - 1, x);
    }
  }

  lemma {:induction false} HashesRepeat(s: string)
    ensures s[..R.Hashes(s)] == R.Repeat('#', R.Hashes(s))
  {
    if s != [] && s[0] == '#' {
      HashesRepeat(s[1..]);
      assert s[..R.Hashes(s)] == [s[0]] + s[1..][..R.Hashes(s[1..])];
    }
  }

  /** Where a raw string starts, the scanner finds its opener and what will close it. */
  lemma RawFound(prefix: string, hashes: nat, x: string)
    requires prefix in {"r", "br", "rb"} && hashes <= 255
    ensures var start := RawStart(prefix, hashes);
      R.RawOpener(start + x) == Some((|start|, RawStop(hashes)))
  {
    hide R.Hashes, R.Repeat;
    var marks := R.Repeat('#', hashes);
    var s := RawStart(prefix, hashes) + x;
    var tail := "\"" + x;
    assert tail[0] == '"';
    assert s == prefix + (marks + tail) && s[|prefix|..] == marks + tail;
    HashesOf(hashes, tail);
    HashFirst(hashes);
    assert (marks + tail)[0] in {'#', '"'};
    PrefixFound(prefix, marks + tail);
    assert s[|prefix| + hashes] == tail[0];
  }

  lemma HashFirst(n: nat)
    ensures n > 0 ==> R.Repeat('#', n)[0] == '#'
  {
  }

  lemma PrefixFound(prefix: string, x: string)
    requires prefix in {"r", "br", "rb"} && x != "" && x[0] != 'b'
    ensures var s := prefix + x;
      |prefix| == if "br" <= s || "rb" <= s then 2 else if "r" <= s then 1 else 0
  {
    var s := prefix + x;
    assert s[0] == prefix[0] && (|prefix| == 2 ==> s[1] == prefix[1]) && (|prefix| == 1 ==> s[1] == x[0]);
  }

  lemma PrefixTaken(s: string)
    requires "br" <= s || "rb" <= s || "r" <= s
    ensures s[..if "br" <= s || "rb" <= s then 2 else 1] in {"r", "br", "rb"}
  {
    if "br" <= s {
      assert s[..2] == "br";
    } else if "rb" <= s {
      assert s[..2] == "rb";
    } else {
      assert s[..1] == "r";
    }
  }

  /** The scanner sees a raw string only where one starts. */
  lemma RawOnly(s: string)
    ensures R.RawOpener(s).Some? ==> StartsRaw(s)
  {
    if R.RawOpener(s).Some? {
      var k := if "br" <= s || "rb" <= s then 2 else 1;
      var hashes := R.Hashes(s[k..]);
      HashesRepeat(s[k..]);
      assert s[..k + hashes + 1] == s[..k] + s[k..][..hashes] + [s[k + hashes]];
      assert s[k + hashes] == '"' && ['"'] == "\"";
      assert RawStart(s[..k], hashes) == s[..k] + s[k..][..hashes] + [s[k + hashes]];
      PrefixTaken(s);
      assert RawStartsWith(s, s[..k], hashes);
    }
  }

  // ----- Code and strings -----

  /** Nothing is open. */
  predicate InCode(st: State) { st.blockDepth == 0 && st.rawEnd.None? && !st.inString }

  lemma ReadPlain(c: char, follow: string, n: nat, st: State)
    requires InCode(st) && c !in {'"', '\''}
    requires var s := [c] + follow;
      !("//" <= s) && !("/*" <= s) && !("b\"" <= s) && !StartsRaw(s)
    ensures RunText(RUST, [c] + follow, n, st) == RunText(RUST, follow, NextLine(n, c), st)
  {
    hide RunText, StartsRaw, R.RawOpener, LineLen;
    var t := [c] + follow;
    var line := t[..LineLen(t)];
    LineStartsWith("//", t);
    LineStartsWith("/*", t);
    LineStartsWith("b\"", t);
    RawOnly(line);
    RawLonger(line, t);
    assert line[0] == c && line[0..] == line && t[1..] == follow;
    RustStream.Take(t, n, st, 1, st);
  }

  lemma RawLonger(line: string, t: string)
    requires line <= t
    ensures StartsRaw(line) ==> StartsRaw(t)
  {
    hide RawStart;
    if prefix: string, hashes: nat :| RawStartsWith(line, prefix, hashes) {
      assert RawStartsWith(t, prefix, hashes);
    }
  }

  /** A character of a string, or an escape. */
  lemma StringSkips(s: string, n: nat, st: State, k: nat)
    requires st.inString && st.blockDepth == 0 && st.rawEnd.None? && s != "" && k <= |s|
    requires k == if s[0] == '\\' then 2 else 1
    requires s[0] != '"'
    ensures k < |s| ==> RustTurn(s, n, st) == RustTurn(s[k..], n, st)
    ensures k == |s| ==> RustTurn(s, n, st) == ([], st)
  {
    StringShift(s, k, 0);
    assert R.StringScan(s, 0) == R.StringScan(s, k);
  }

  lemma {:induction false} ReadString(text: string, follow: string, n: nat, st: State)
    requires st.inString && st.blockDepth == 0 && st.rawEnd.None? && StringText(text)
    ensures RunText(RUST, text + ("\"" + follow), n, st)
      == RunText(RUST, follow, n + Breaks(text), st.(inString := false))
    decreases |text|
  {
    hide RunText, Breaks, NextLine;
    if text == "" {
      BreaksNone("");
      assert text + ("\"" + follow) == "\"" + follow;
      CloseString(follow, n, st);
    } else {
      var k := if text[0] == '\\' then 2 else 1;
      ReadStringChar(text, "\"" + follow, n, st);
      ReadString(text[k..], follow, NextLine(n, text[k - 1]), st);
      BreaksFirst(text, k, n);
    }
  }

  /** The first character of the text, or its first escape. */
  lemma ReadStringChar(text: string, tail: string, n: nat, st: State)
    requires st.inString && st.blockDepth == 0 && st.rawEnd.None? && StringText(text) && text != ""
    ensures var k := if text[0] == '\\' then 2 else 1;
      k <= |text| && RunText(RUST, text + tail, n, st) == RunText(RUST, text[k..] + tail, NextLine(n, text[k - 1]), st)
  {
    hide RunText, NextLine, RustTurn, IsBreak;
    var k := if text[0] == '\\' then 2 else 1;
    var t := text + tail;
    CutAppend(text, tail, k);
    assert t[0] == text[0] && t[k - 1] == text[k - 1];
    EscapeOnLine(t);
    StringSkips(t[..LineLen(t)], n, st, k);
    Skip(t, n, st, k, st);
  }

  /** A backslash and the character after it are on one line. */
  lemma EscapeOnLine(t: string)
    requires t != "" && (t[0] == '\\' ==> |t| >= 2)
    ensures t[0] == '\\' ==> LineLen(t) >= 2
  {
  }

  lemma CloseString(follow: string, n: nat, st: State)
    requires st.inString && st.blockDepth == 0 && st.rawEnd.None?
    ensures RunText(RUST, "\"" + follow, n, st) == RunText(RUST, follow, n, st.(inString := false))
  {
    hide RunText;
    var t := "\"" + follow;
    assert t[1..] == follow;
    RustStream.Take(t, n, st, 1, st.(inString := false));
  }

  /** Only the last of the first characters can be a line break. */
  lemma BreaksFirst(text: string, k: nat, n: nat)
    requires 0 < k <= |text| && k <= 2 && (k == 2 ==> text[0] == '\\')
    ensures n + Breaks(text) == NextLine(n, text[k - 1]) + Breaks(text[k..])
  {
    BreaksAppend(text[..k], text[k..]);
    assert text == text[..k] + text[k..];
    BreakAlone(text[k - 1]);
    if k == 2 {
      assert text[..2] == [text[0]] + [text[1]];
      BreaksAppend([text[0]], [text[1]]);
      BreakAlone(text[0]);
    } else {
      assert text[..1] == [text[0]];
    }
  }

  /** A string, with its quotes. */
  lemma ReadText(byte: bool, text: string, follow: string, n: nat, st: State)
    requires InCode(st) && StringText(text)
    ensures var start := if byte then "b\"" else "\"";
      RunText(RUST, start + (text + "\"") + follow, n, st) == RunText(RUST, follow, n + Breaks(text), st)
  {
    hide RunText, Breaks, StringText;
    var start := if byte then "b\"" else "\"";
    var tail := text + ("\"" + follow);
    assert start + (text + "\"") + follow == start + tail;
    OpenString(byte, tail, n, st);
    ReadString(text, follow, n, st.(inString := true));
  }

  lemma OpenString(byte: bool, tail: string, n: nat, st: State)
    requires InCode(st)
    ensures var start := if byte then "b\"" else "\"";
      RunText(RUST, start + tail, n, st) == RunText(RUST, tail, n, st.(inString := true))
  {
    hide RunText, LineLen, RustTurn;
    var start := if byte then "b\"" else "\"";
    var t := start + tail;
    LineLenAppend(start, tail);
    var x := tail[..LineLen(tail)];
    assert t[..LineLen(t)] == start + x && t[|start|..] == tail;
    StringOpener(byte, x, n, st);
    RustStream.Take(t, n, st, |start|, st.(inString := true));
  }

  lemma StringOpener(byte: bool, x: string, n: nat, st: State)
    requires InCode(st)
    ensures var start := if byte then "b\"" else "\"";
      RustTurn(start + x, n, st) == ((start + x)[|start|..], st.(inString := true))
  {
    hide R.BlockScan, R.QuoteScan, R.StringScan, R.Find, TrimNewlines, R.Hashes;
    var line := (if byte then "b\"" else "\"") + x;
    assert line[0..] == line && (if byte then line[0] == 'b' && line[1] == '"' else line[0] == '"');
  }

  // ----- Raw strings -----

  lemma RawSkips(s: string, stop: R.RawEnd, n: nat, st: State)
    requires st.rawEnd == Some(stop) && st.blockDepth == 0 && s != "" && !(stop <= s)
    ensures 1 < |s| ==> RustTurn(s, n, st) == RustTurn(s[1..], n, st)
    ensures 1 == |s| ==> RustTurn(s, n, st) == ([], st)
  {
    assert s[0..] == s;
    FindShift(s, stop, 1, 0);
    assert R.Find(s, stop, 0) == R.Find(s, stop, 1);
  }

  lemma {:induction false} ReadRaw(text: string, stop: R.RawEnd, follow: string, n: nat, st: State)
    requires st.rawEnd == Some(stop) && st.blockDepth == 0 && RawText(text, stop) && NoBreak(stop)
    ensures RunText(RUST, text + (stop + follow), n, st)
      == RunText(RUST, follow, n + Breaks(text), st.(rawEnd := None))
    decreases |text|
  {
    hide RunText, Breaks, NextLine, RustTurn, IsBreak;
    var tail := stop + follow;
    var t := text + tail;
    if text == "" {
      BreaksNone("");
      assert t == tail;
      CloseRaw(stop, follow, n, st);
    } else {
      CutAppend(text, tail, 1);
      assert t[0] == text[0];
      StopLater(text, stop, follow);
      LineStartsWith(stop, t);
      RawSkips(t[..LineLen(t)], stop, n, st);
      Skip(t, n, st, 1, st);
      ReadRaw(text[1..], stop, follow, NextLine(n, text[0]), st);
      BreaksFirst(text, 1, n);
    }
  }

  lemma StopLater(text: string, stop: string, follow: string)
    requires text != "" && !(stop <= text + stop)
    ensures !(stop <= text + (stop + follow))
  {
    var t := text + (stop + follow);
    assert t[..|stop|] == (text + stop)[..|stop|];
  }

  lemma CloseRaw(stop: R.RawEnd, follow: string, n: nat, st: State)
    requires st.rawEnd == Some(stop) && st.blockDepth == 0 && NoBreak(stop)
    ensures RunText(RUST, stop + follow, n, st) == RunText(RUST, follow, n, st.(rawEnd := None))
  {
    hide RunText, LineLen;
    var t := stop + follow;
    LineLenAppend(stop, follow);
    LineStartsWith(stop, t);
    var line := t[..LineLen(t)];
    assert line[0..] == line && t[|stop|..] == follow && t[|stop| - 1] == stop[|stop| - 1];
    RustStream.Take(t, n, st, |stop|, st.(rawEnd := None));
  }

  lemma {:induction false} HashesNoBreak(n: nat)
    ensures NoBreak(R.Repeat('#', n))
  {
    if n > 0 {
      HashesNoBreak(n - 1);
    }
  }

  /** A raw string, with its hashes. */
  lemma ReadRawString(prefix: string, hashes: nat, text: string, follow: string, n: nat, st: State)
    requires InCode(st) && prefix in {"r", "br", "rb"} && hashes <= 255 && RawText(text, RawStop(hashes))
    ensures RunText(RUST, RawStart(prefix, hashes) + (text + RawStop(hashes)) + follow, n, st)
      == RunText(RUST, follow, n + Breaks(text), st)
  {
    hide RunText, Breaks, RawText, LineLen, RawStart, R.RawOpener;
    var (start, stop) := (RawStart(prefix, hashes), RawStop(hashes));
    var tail := text + (stop + follow);
    var t := start + tail;
    assert start + (text + stop) + follow == t;
    HashesNoBreak(hashes);
    assert NoBreak(start) && start != "" && !IsBreak(start[|start| - 1]) by { StartNoBreak(prefix, hashes); }
    LineLenAppend(start, tail);
    var line := t[..LineLen(t)];
    var x := tail[..LineLen(tail)];
    assert line == start + x && line[0..] == line && t[|start|..] == tail;
    RawFound(prefix, hashes, x);
    RustStream.Take(t, n, st, |start|, st.(rawEnd := Some(stop)));
    ReadRaw(text, stop, follow, n, st.(rawEnd := Some(stop)));
  }

  lemma StartNoBreak(prefix: string, hashes: nat)
    requires prefix in {"r", "br", "rb"}
    ensures var start := RawStart(prefix, hashes); NoBreak(start) && start != "" && !IsBreak(start[|start| - 1])
  {
    HashesNoBreak(hashes);
    assert NoBreak(prefix) && NoBreak("\"");
  }

  // ----- Line comments -----

  lemma ReadLineComment(text: string, follow: string, n: nat, st: State)
    requires InCode(st) && NoBreak(text)
    ensures RunText(RUST, "//" + text + "\n" + follow, n, st)
      == RunText(RUST, follow, n + 1, st.(out := st.out + [R.Comment(n, 0, "//" + text, R.RustLine, None)]))
  {
    hide RunText, R.RawOpener, LineLen;
    var t := "//" + text + "\n" + follow;
    assert t == ("//" + text) + ("\n" + follow);
    assert NoBreak("//" + text);
    LineLenAppend("//" + text, "\n" + follow);
    LineLenBreak("\n" + follow);
    var line := t[..LineLen(t)];
    assert line == "//" + text + "\n";
    TrimNothing("//" + text);
    assert line[0..] == line && line[0] == '/' && line[|line|..] == [];
    NoRawAt(line);
    RustStream.Take(t, n, st, |text| + 3, st.(out := st.out + [R.Comment(n, 0, "//" + text, R.RustLine, None)]));
    assert t[|text| + 3..] == follow;
  }

  lemma NoRawAt(s: string)
    requires s != "" && s[0] == '/'
    ensures R.RawOpener(s).None? && !("b\"" <= s)
  {
  }

  // ----- Block comments -----

  /** Read from depth `d`, the text closes the block at its end and not before. */
  predicate Closes(t: string, d: nat)
    decreases |t|
  {
    t != "" &&
      if "/*" <= t then Closes(t[2..], d + 1)
      else if "*/" <= t then (if d <= 1 then t[2..] == "" else Closes(t[2..], d - 1))
      else Closes(t[1..], d)
  }

  /** What is printed for the inside of a block, and its closer. */
  lemma {:induction false} BodyCloses(b: Body, tail: string, d: nat)
    requires BodyOk(b, "*/" + tail) && d > 0 && (if d == 1 then tail == "" else Closes(tail, d - 1))
    ensures Closes(PrintBody(b) + ("*/" + tail), d)
  {
    hide BodyOk, Closes;
    BodyParts(b, "*/" + tail);
    match b
    case Stop =>
      assert "" + ("*/" + tail) == "*/" + tail;
      ClosesToken(tail, d);
    case Char(c, rest) =>
      BodyCloses(rest, tail, d);
      Regroup([c], PrintBody(rest), "*/" + tail);
      ClosesChar(c, PrintBody(rest) + ("*/" + tail), d);
    case Nested(inner, rest) =>
      var more := PrintBody(rest) + ("*/" + tail);
      BodyCloses(rest, tail, d);
      BodyCloses(inner, more, d + 1);
      NestedText(PrintBody(inner), PrintBody(rest), "*/" + tail);
      ClosesToken(PrintBody(inner) + ("*/" + more), d);
  }

  lemma NestedText(inner: string, rest: string, tail: string)
    ensures ("/*" + (inner + "*/")) + rest + tail == "/*" + (inner + ("*/" + (rest + tail)))
  {
    Regroup("/*" + (inner + "*/"), rest, tail);
    Regroup("/*", inner + "*/", rest + tail);
    Regroup(inner, "*/", rest + tail);
  }

  lemma ClosesToken(t: string, d: nat)
    ensures Closes("/*" + t, d) <==> Closes(t, d + 1)
    ensures Closes("*/" + t, d) <==> if d <= 1 then t == "" else Closes(t, d - 1)
  {
    assert ("/*" + t)[2..] == t && ("*/" + t)[2..] == t && ("*/" + t)[0] == '*';
  }

  lemma ClosesChar(c: char, t: string, d: nat)
    requires !("/*" <= [c] + t) && !("*/" <= [c] + t)
    ensures Closes([c] + t, d) <==> Closes(t, d)
  {
    assert ([c] + t)[1..] == t;
  }

  lemma BodyParts(b: Body, after: string)
    requires BodyOk(b, after)
    ensures b.Char? ==>
      var s := [b.c] + (PrintBody(b.rest) + after);
      !("/*" <= s) && !("*/" <= s) && BodyOk(b.rest, after)
    ensures b.Nested? ==> BodyOk(b.inner, "*/" + (PrintBody(b.rest) + after)) && BodyOk(b.rest, after)
  {
    hide PrintBody;
  }

  lemma {:induction false} ClosesEnd(t: string, d: nat)
    requires Closes(t, d)
    ensures |t| >= 2 && t[|t| - 1] == '/'
    decreases |t|
  {
    if "/*" <= t {
      ClosesEnd(t[2..], d + 1);
    } else if "*/" <= t {
      if d > 1 {
        ClosesEnd(t[2..], d - 1);
      }
    } else {
      ClosesEnd(t[1..], d);
    }
  }

  lemma TokenAt(u: string, x: string, j: nat)
    requires j + 2 <= |u|
    ensures "/*" <= (u + x)[j..] <==> "/*" <= u[j..]
    ensures "*/" <= (u + x)[j..] <==> "*/" <= u[j..]
  {
    var s := u + x;
    assert s[j..][0] == u[j..][0] && s[j..][1] == u[j..][1];
  }

  /** The scanner reads a block that closes on its line to its end. */
  lemma {:induction false} ScanToEnd(u: string, x: string, j: nat, d: nat)
    requires j <= |u| && d > 0 && Closes(u[j..], d)
    ensures R.BlockScan(u + x, j, d) == (|u|, 0)
    decreases |u| - j
  {
    ClosesEnd(u[j..], d);
    TokenAt(u, x, j);
    assert u[j..][2..] == u[j + 2..] && u[j..][1..] == u[j + 1..];
    if "/*" <= u[j..] {
      ScanToEnd(u, x, j + 2, d + 1);
    } else if "*/" <= u[j..] {
      if d > 1 {
        ScanToEnd(u, x, j + 2, d - 1);
      }
    } else {
      ScanToEnd(u, x, j + 1, d);
    }
  }

  /** The scanner reads a block that does not close on its first line to the end of that line. */
  lemma {:induction false} ScanLine(u: string, l: nat, j: nat, d: nat) returns (after: nat)
    requires j <= l < |u| && 0 < l && d > 0 && NoBreak(u[..l - 1]) && IsBreak(u[l - 1]) && Closes(u[j..], d)
    ensures R.BlockScan(u[..l], j, d) == (l, after) && after > 0 && Closes(u[l..], after)
    decreases l - j
  {
    hide NoBreak;
    if j == l {
      after := d;
    } else {
      TokenOnLine(u, l, j);
      assert u[j..][2..] == u[j + 2..] && u[j..][1..] == u[j + 1..];
      if "/*" <= u[j..] {
        after := ScanLine(u, l, j + 2, d + 1);
      } else if "*/" <= u[j..] {
        after := ScanLine(u, l, j + 2, d - 1);
      } else {
        after := ScanLine(u, l, j + 1, d);
      }
    }
  }

  /** No token lies across a line end. */
  lemma TokenOnLine(u: string, l: nat, j: nat)
    requires j < l < |u| && IsBreak(u[l - 1])
    ensures "/*" <= u[..l][j..] <==> "/*" <= u[j..]
    ensures "*/" <= u[..l][j..] <==> "*/" <= u[j..]
    ensures "/*" <= u[j..] || "*/" <= u[j..] ==> j + 2 < l
  {
    assert u[..l][j..] == u[j..l] && u[j..][0] == u[j] && u[j..][1] == u[j + 1];
    if j + 1 < l {
      assert u[j..l][0] == u[j] && u[j..l][1] == u[j + 1];
    }
  }

  /** The first line of a block that has a line end inside. */
  lemma FirstLineOf(u: string, after: string)
    requires u != "" && !NoBreak(u) && !IsBreak(u[|u| - 1])
    ensures var l := LineLen(u);
      && l < |u| && NoBreak(u[..l - 1]) && IsBreak(u[l - 1])
      && LineLen(u + after) == l && (u + after)[..l] == u[..l] && (u + after)[l..] == u[l..] + after
  {
    hide NoBreak, IsBreak, LineLen;
    var l := LineLen(u);
    FirstLineWhole(u);
    assert u[..l][..l - 1] == u[..l - 1];
    if l == |u| {
      OneLineNoBreak(u);
    }
    assert u[..l][l - 1] == u[l - 1];
    FirstLineKept(u, after);
    CutAppend(u, after, l);
  }

  lemma OneLineNoBreak(u: string)
    requires u != "" && NoBreak(u[..|u| - 1]) && !IsBreak(u[|u| - 1])
    ensures NoBreak(u)
  {
    hide IsBreak;
    forall i | 0 <= i < |u| ensures !IsBreak(u[i]) {
      if i < |u| - 1 {
        assert u[..|u| - 1][i] == u[i];
      }
    }
  }

  lemma SegmentsOnce(u: string, n: nat, id: nat)
    requires u != "" && NoBreak(u)
    ensures Segments(u, n, id) == [R.Comment(n, 0, u, R.RustBlock, Some(id))]
  {
    LineLenAppend(u, "");
    assert u + "" == u && u[..|u|] == u && u[|u|..] == "";
  }

  lemma SegmentsTurn(u: string, n: nat, id: nat)
    requires u != ""
    ensures var l := LineLen(u);
      Segments(u, n, id) == [R.Comment(n, 0, u[..l], R.RustBlock, Some(id))] + Segments(u[l..], n + 1, id)
  {
    hide LineLen;
  }

  lemma BreaksOfLine(u: string, l: nat)
    requires 0 < l <= |u| && NoBreak(u[..l - 1]) && IsBreak(u[l - 1])
    ensures Breaks(u) == 1 + Breaks(u[l..])
  {
    BreaksAppend(u[..l], u[l..]);
    assert u == u[..l] + u[l..] && u[..l] == u[..l - 1] + [u[l - 1]];
    BreaksAppend(u[..l - 1], [u[l - 1]]);
    BreaksNone(u[..l - 1]);
    BreakAlone(u[l - 1]);
  }

  /** What an open block adds to the state, up to its end. */
  function Closed(st: State, u: string, n: nat): State {
    st.(blockDepth := 0, out := st.out + Segments(u, n, st.blockId))
  }

  /** A turn inside a block that closes on this line. */
  lemma LastSegment(u: string, after: string, n: nat, st: State)
    requires st.blockDepth > 0 && Closes(u, st.blockDepth) && NoBreak(u)
    ensures RunText(RUST, u + after, n, st) == RunText(RUST, after, n + Breaks(u), Closed(st, u, n))
  {
    hide RunText, Closes, R.BlockScan, LineLen, Segments;
    ClosesEnd(u, st.blockDepth);
    var t := u + after;
    LineLenAppend(u, after);
    var x := after[..LineLen(after)];
    assert t[..LineLen(t)] == u + x && t[|u|..] == after && t[|u| - 1] == u[|u| - 1];
    assert u[0..] == u && (u + x)[0..|u|] == u && (u + x)[|u|..] == x;
    ScanToEnd(u, x, 0, st.blockDepth);
    SegmentsOnce(u, n, st.blockId);
    BreaksNone(u);
    RustStream.Take(t, n, st, |u|, Closed(st, u, n));
  }

  /** A turn inside a block that goes on past this line. */
  lemma NextSegment(u: string, after: string, n: nat, st: State) returns (depth: nat)
    requires st.blockDepth > 0 && Closes(u, st.blockDepth) && !NoBreak(u)
    ensures var l := LineLen(u);
      && 0 < l < |u| && depth > 0 && Closes(u[l..], depth)
      && RunText(RUST, u + after, n, st)
        == RunText(RUST, u[l..] + after, n + 1, st.(blockDepth := depth,
          out := st.out + [R.Comment(n, 0, u[..l], R.RustBlock, Some(st.blockId))]))
  {
    hide RunText, Closes, R.BlockScan, LineLen, NoBreak;
    ClosesEnd(u, st.blockDepth);
    FirstLineOf(u, after);
    var l := LineLen(u);
    assert u[0..] == u && u[..l][0..l] == u[..l] && u[..l][l..] == "";
    depth := ScanLine(u, l, 0, st.blockDepth);
    RustStream.Take(u + after, n, st, l, st.(blockDepth := depth,
      out := st.out + [R.Comment(n, 0, u[..l], R.RustBlock, Some(st.blockId))]));
  }

  lemma {:induction false} ReadOpenBlock(u: string, after: string, n: nat, st: State)
    requires st.blockDepth > 0 && Closes(u, st.blockDepth)
    ensures RunText(RUST, u + after, n, st) == RunText(RUST, after, n + Breaks(u), Closed(st, u, n))
    decreases |u|
  {
    hide RunText, Closes, LineLen, NoBreak, Breaks, Segments;
    if NoBreak(u) {
      LastSegment(u, after, n, st);
    } else {
      ClosesEnd(u, st.blockDepth);
      FirstLineOf(u, after);
      var l := LineLen(u);
      var depth := NextSegment(u, after, n, st);
      var c := R.Comment(n, 0, u[..l], R.RustBlock, Some(st.blockId));
      var st1 := st.(blockDepth := depth, out := st.out + [c]);
      ReadOpenBlock(u[l..], after, n + 1, st1);
      SegmentsTurn(u, n, st.blockId);
      BreaksOfLine(u, l);
      Regroup(st.out, [c], Segments(u[l..], n + 1, st.blockId));
    }
  }

  /** The turn that opens a block which closes on its line. */
  lemma WholeBlock(u: string, after: string, n: nat, st: State)
    requires InCode(st) && "/*" <= u && Closes(u[2..], 1) && NoBreak(u)
    ensures RunText(RUST, u + after, n, st)
      == RunText(RUST, after, n + Breaks(u), Closed(st.(blockId := st.blockId + 1), u, n))
  {
    hide RunText, Closes, R.BlockScan, LineLen, R.RawOpener, Segments;
    var t := u + after;
    ClosesEnd(u[2..], 1);
    LineLenAppend(u, after);
    var x := after[..LineLen(after)];
    var line := u + x;
    assert t[..LineLen(t)] == line && t[|u|..] == after && t[|u| - 1] == u[|u| - 1] == '/';
    assert line[0..] == line && line[0..|u|] == u && line[|u|..] == x && line[..2] == u[..2];
    assert line[0] == '/' && line[1] == '*' && !("//" <= line);
    NoRawAt(line);
    ScanToEnd(u, x, 2, 1);
    SegmentsOnce(u, n, st.blockId + 1);
    BreaksNone(u);
    RustStream.Take(t, n, st, |u|, Closed(st.(blockId := st.blockId + 1), u, n));
  }

  /** The turn that opens a block which goes on past its line. */
  lemma OpenBlock(u: string, after: string, n: nat, st: State) returns (depth: nat)
    requires InCode(st) && "/*" <= u && Closes(u[2..], 1) && !NoBreak(u)
    ensures var (l, id) := (LineLen(u), st.blockId + 1);
      && 0 < l < |u| && depth > 0 && Closes(u[l..], depth)
      && RunText(RUST, u + after, n, st)
        == RunText(RUST, u[l..] + after, n + 1, st.(blockDepth := depth, blockId := id,
          out := st.out + [R.Comment(n, 0, u[..l], R.RustBlock, Some(id))]))
  {
    hide RunText, Closes, R.BlockScan, LineLen, NoBreak, R.RawOpener;
    ClosesEnd(u[2..], 1);
    assert u[|u| - 1] == u[2..][|u| - 3];
    FirstLineOf(u, after);
    var l := LineLen(u);
    assert u[0] == '/' && u[1] == '*';
    assert l > 2;
    var line := u[..l];
    assert line[0..] == line && line[0..l] == line && line[l..] == "" && line[..2] == u[..2];
    assert line[0] == '/' && line[1] == '*' && !("//" <= line);
    NoRawAt(line);
    depth := ScanLine(u, l, 2, 1);
    RustStream.Take(u + after, n, st, l, st.(blockDepth := depth, blockId := st.blockId + 1,
      out := st.out + [R.Comment(n, 0, u[..l], R.RustBlock, Some(st.blockId + 1))]));
  }

  /** A block comment is read to its closer, however deep it nests and however many lines it takes. */
  lemma ReadBlock(body: Body, after: string, n: nat, st: State)
    requires InCode(st) && BodyOk(body, "*/")
    ensures var u := PrintBlock(body);
      RunText(RUST, u + after, n, st)
        == RunText(RUST, after, n + Breaks(u), Closed(st.(blockId := st.blockId + 1), u, n))
  {
    hide RunText, Closes, LineLen, NoBreak, Breaks, Segments, BodyOk, PrintBody;
    var u := PrintBlock(body);
    assert "*/" + "" == "*/" && u[2..] == PrintBody(body) + ("*/" + "");
    BodyCloses(body, "", 1);
    if NoBreak(u) {
      WholeBlock(u, after, n, st);
    } else {
      ClosesEnd(u[2..], 1);
      assert u[|u| - 1] == u[2..][|u| - 3];
      FirstLineOf(u, after);
      var (l, id) := (LineLen(u), st.blockId + 1);
      var depth := OpenBlock(u, after, n, st);
      var c := R.Comment(n, 0, u[..l], R.RustBlock, Some(id));
      ReadOpenBlock(u[l..], after, n + 1, st.(blockDepth := depth, blockId := id, out := st.out + [c]));
      SegmentsTurn(u, n, id);
      BreaksOfLine(u, l);
      Regroup(st.out, [c], Segments(u[l..], n + 1, id));
    }
  }

  // ----- The round trip -----

  /** The state after a chain. */
  function ReadThrough(st: State, t: Item, n: nat): State {
    st.(blockId := st.blockId + Blocks(t), out := st.out + Comments(t, n, st.blockId))
  }

  lemma ReadHead(t: Item, follow: string, n: nat, st: State)
    requires !t.End? && HeadFits(t, follow) && InCode(st)
    ensures RunText(RUST, Head(t) + follow, n, st)
      == RunText(RUST, follow, n + Breaks(Head(t)), st.(blockId := st.blockId + (if t.Block? then 1 else 0),
        out := st.out + HeadComments(t, n, st.blockId)))
  {
    hide RunText, Breaks, StringText, RawText, BodyOk, NoBreak, Segments, PrintBlock, RawStart, RawStop, StartsRaw;
    assert st.out + [] == st.out;
    HeadBreaks(t);
    match t
    case Plain(c, _) =>
      ReadPlain(c, follow, n, st);
      BreakAlone(c);
    case Text(byte, text, _) =>
      ReadText(byte, text, follow, n, st);
    case Raw(prefix, hashes, text, _) =>
      ReadRawString(prefix, hashes, text, follow, n, st);
    case LineComment(text, _) =>
      ReadLineComment(text, follow, n, st);
    case Block(body, _) =>
      ReadBlock(body, follow, n, st);
  }

  lemma HeadBreaks(t: Item)
    requires !t.End?
    ensures t.Text? ==> Breaks(Head(t)) == Breaks(t.text)
    ensures t.Raw? && t.prefix in {"r", "br", "rb"} ==> Breaks(Head(t)) == Breaks(t.text)
    ensures t.LineComment? && NoBreak(t.text) ==> Breaks(Head(t)) == 1
  {
    hide Breaks, RawStart;
    match t
    case Text(byte, text, _) =>
      var start := if byte then "b\"" else "\"";
      BreaksAppend(start, text + "\"");
      BreaksAppend(text, "\"");
      BreaksNone(start);
      BreaksNone("\"");
    case Raw(prefix, hashes, text, _) =>
      if prefix in {"r", "br", "rb"} {
        StartNoBreak(prefix, hashes);
        HashesNoBreak(hashes);
        BreaksAppend(RawStart(prefix, hashes), text + RawStop(hashes));
        BreaksAppend(text, RawStop(hashes));
        BreaksNone(RawStart(prefix, hashes));
        BreaksNone(RawStop(hashes));
      }
    case LineComment(text, _) =>
      if NoBreak(text) {
        BreaksAppend("//" + text, "\n");
        BreaksNone("//" + text);
        BreakAlone('\n');
      }
    case _ =>
  }

  lemma {:induction false} ReadItems(t: Item, after: string, n: nat, st: State)
    requires WellFormed(t, after) && InCode(st)
    ensures RunText(RUST, Print(t) + after, n, st)
      == RunText(RUST, after, n + Breaks(Print(t)), ReadThrough(st, t, n))
  {
    hide RunText, Breaks, HeadFits, Head, HeadComments;
    if t.End? {
      assert "" + after == after && st.out + [] == st.out;
      BreaksNone("");
    } else {
      var follow := Print(t.rest) + after;
      var (m, id) := (n + Breaks(Head(t)), st.blockId + (if t.Block? then 1 else 0));
      assert Print(t) + after == Head(t) + follow;
      ReadHead(t, follow, n, st);
      ReadItems(t.rest, after, m, st.(blockId := id, out := st.out + HeadComments(t, n, st.blockId)));
      BreaksAppend(Head(t), Print(t.rest));
      Regroup(st.out, HeadComments(t, n, st.blockId), Comments(t.rest, m, id));
    }
  }

  /**
   A whole printed file: the scan of its lines emits exactly the comments of the chain, a block comment line by line
   under one number, and ends with nothing open.
   */
  lemma FileRoundTrip(t: Item)
    requires WellFormed(t, "")
    ensures Uncut(R.RunLines(SplitLines(Print(t)), 1, R.START)) == ReadThrough(R.START, t, 1)
  {
    hide RunText, WellFormed, SplitLines, R.RunLines, Uncut, Print, Comments, Blocks, Breaks, ReadThrough;
    assert Uncut(R.START) == R.START by { NothingUncut(); }
    assert Print(t) + "" == Print(t);
    TextIsLines(Print(t), 1, R.START);
    ReadItems(t, "", 1, R.START);
    EmptyText(RUST, "", 1 + Breaks(Print(t)), ReadThrough(R.START, t, 1));
  }

  lemma NothingUncut()
    ensures Uncut(R.START) == R.START
  {
  }

}
