/**
 Well-nested Nix text as an inductive tree, and the proof that the line scanner reads every printed tree back: it
 returns to the mode and interpolation stack it started in, having emitted exactly the comments of the tree.
 */
module NixTree {
  import opened NixComments
  import opened LineStreams
  import opened Sequences
  import opened TextLines
  import opened Wrappers

  /** Code, as a chain of items. */
  datatype Code =
    | End
    | Plain(c: char, rest: Code)
    | Braces(inner: Code, rest: Code)
    | DoubleString(parts: Str, rest: Code)
    | IndentedString(parts: Str, rest: Code)
    | LineComment(text: string, rest: Code)
    | BlockComment(text: string, rest: Code)

  /** The inside of a string of either kind; escapes belong to the kind they are named after. */
  datatype Str =
    | StrEnd
    | Text(c: char, rest: Str)
    | Interpolation(inner: Code, rest: Str)
    | DoubleEscape(c: char, rest: Str)
    | IndentedDollar(rest: Str)
    | IndentedQuote(rest: Str)
    | IndentedBackslash(rest: Str)

  /** A tree is its first item and the rest. */
  function Print(t: Code): string
    decreases t, 1
  {
    if t.End? then "" else Head(t) + Print(t.rest)
  }

  function Head(t: Code): string
    requires !t.End?
    decreases t, 0
  {
    match t
    case Plain(c, _) => [c]
    case Braces(inner, _) => "{" + Print(inner) + "}"
    case DoubleString(parts, _) => "\"" + PrintStr(parts) + "\""
    case IndentedString(parts, _) => "''" + PrintStr(parts) + "''"
    case LineComment(text, _) => "#" + text + "\n"
    case BlockComment(text, _) => "/*" + text + "*/"
  }

  function PrintStr(s: Str): string {
    match s
    case StrEnd => ""
    case Text(c, rest) => [c] + PrintStr(rest)
    case Interpolation(inner, rest) => "${" + Print(inner) + "}" + PrintStr(rest)
    case DoubleEscape(c, rest) => ['\\', c] + PrintStr(rest)
    case IndentedDollar(rest) => "''${" + PrintStr(rest)
    case IndentedQuote(rest) => "'''" + PrintStr(rest)
    case IndentedBackslash(rest) => "''\\" + PrintStr(rest)
  }

  // ----- Unambiguous trees: each item is told apart by the characters that follow it -----

  predicate WellFormed(t: Code, after: string) {
    match t
    case End => true
    case Plain(c, rest) =>
      && c !in {'"', '#', '{', '}'}
      && (c == '\'' ==> !("'" <= Print(rest) + after))
      && (c == '/' ==> !("*" <= Print(rest) + after))
      && WellFormed(rest, after)
    case Braces(inner, rest) => WellFormed(inner, "}" + (Print(rest) + after)) && WellFormed(rest, after)
    case DoubleString(parts, rest) => WellFormedDouble(parts, "\"" + (Print(rest) + after)) && WellFormed(rest, after)
    case IndentedString(parts, rest) =>
      && WellFormedIndented(parts, "''" + (Print(rest) + after))
      && !("'" <= Print(rest) + after) && !("\\" <= Print(rest) + after) && !("${" <= Print(rest) + after)
      && WellFormed(rest, after)
    case LineComment(text, rest) => NoBreak(text) && WellFormed(rest, after)
    case BlockComment(text, rest) => NoCloser(text) && WellFormed(rest, after)
  }

  /** A block comment's closer begins only after its text. */
  predicate NoCloser(text: string) { forall k | 0 <= k < |text| :: !("*/" <= (text + "*/")[k..]) }

  /** A dollar directly before an interpolation is not part of the grammar. */
  predicate WellFormedDouble(s: Str, after: string) {
    match s
    case StrEnd => true
    case Text(c, rest) =>
      && c !in {'"', '\\'}
      && (c == '$' ==> !("{" <= PrintStr(rest) + after) && !rest.Interpolation?)
      && WellFormedDouble(rest, after)
    case Interpolation(inner, rest) =>
      WellFormed(inner, "}" + (PrintStr(rest) + after)) && WellFormedDouble(rest, after)
    case DoubleEscape(_, rest) => WellFormedDouble(rest, after)
    case _ => false
  }

  predicate WellFormedIndented(s: Str, after: string) {
    match s
    case StrEnd => true
    case Text(c, rest) =>
      && (c == '\'' ==> !("'" <= PrintStr(rest) + after))
      && (c == '$' ==> !("{" <= PrintStr(rest) + after) && !rest.Interpolation?)
      && WellFormedIndented(rest, after)
    case Interpolation(inner, rest) =>
      WellFormed(inner, "}" + (PrintStr(rest) + after)) && WellFormedIndented(rest, after)
    case IndentedDollar(rest) => WellFormedIndented(rest, after)
    case IndentedQuote(rest) => WellFormedIndented(rest, after)
    case IndentedBackslash(rest) => WellFormedIndented(rest, after)
    case DoubleEscape(_, _) => false
  }

  // ----- The comments of a tree -----

  function Blocks(t: Code): nat
    decreases t, 1
  {
    if t.End? then 0 else HeadBlocks(t) + Blocks(t.rest)
  }

  function HeadBlocks(t: Code): nat
    requires !t.End?
    decreases t, 0
  {
    match t
    case Braces(inner, _) => Blocks(inner)
    case DoubleString(parts, _) => BlocksStr(parts)
    case IndentedString(parts, _) => BlocksStr(parts)
    case BlockComment(_, _) => 1
    case _ => 0
  }

  function BlocksStr(s: Str): nat {
    match s
    case StrEnd => 0
    case Interpolation(inner, rest) => Blocks(inner) + BlocksStr(rest)
    case _ => BlocksStr(s.rest)
  }

  /** One segment a line, all under the block's id, with nothing but line ends lost. */
  function BlockSegments(lines: seq<string>, n: nat, id: Option<nat>): seq<Comment> {
    if lines == [] then []
    else [Comment(n, TrimNewlines(lines[0]), NixBlock, id)] + BlockSegments(lines[1..], n + 1, id)
  }

  /** In order of appearance: where each starts, its text, and the block it belongs to. */
  function Comments(t: Code, n: nat, id: nat): seq<Comment>
    decreases t, 1
  {
    if t.End? then []
    else HeadComments(t, n, id) + Comments(t.rest, n + Breaks(Head(t)), id + HeadBlocks(t))
  }

  function HeadComments(t: Code, n: nat, id: nat): seq<Comment>
    requires !t.End?
    decreases t, 0
  {
    match t
    case Plain(_, _) => []
    case Braces(inner, _) => Comments(inner, n, id)
    case DoubleString(parts, _) => CommentsStr(parts, n, id)
    case IndentedString(parts, _) => CommentsStr(parts, n, id)
    case LineComment(text, _) => [Comment(n, "#" + text, HashLine, None)]
    case BlockComment(text, _) => BlockSegments(SplitLines("/*" + text + "*/"), n, Some(id + 1))
  }

  function CommentsStr(s: Str, n: nat, id: nat): seq<Comment> {
    match s
    case StrEnd => []
    case Text(c, rest) => CommentsStr(rest, n + Breaks([c]), id)
    case Interpolation(inner, rest) =>
      Comments(inner, n, id) + CommentsStr(rest, n + Breaks("${" + Print(inner) + "}"), id + Blocks(inner))
    case DoubleEscape(c, rest) => CommentsStr(rest, n + Breaks(['\\', c]), id)
    case IndentedDollar(rest) => CommentsStr(rest, n + Breaks("''${"), id)
    case IndentedQuote(rest) => CommentsStr(rest, n + Breaks("'''"), id)
    case IndentedBackslash(rest) => CommentsStr(rest, n + Breaks("''\\"), id)
  }

  // ----- Scanning text as one stream -----

  lemma StepsLeaveSuffix()
    ensures LeavesSuffix(NIX)
  {
    hide NixStep;
    forall s: string, n: nat, st: State | s != []
      ensures Advance(NIX, s, n, st).0 == s[|s| - |Advance(NIX, s, n, st).0|..]
    {
      OneTurn(s, n, st);
      StepLeavesSuffix(s, n, st);
    }
  }

  /** The stream scanner and the line scanner agree on every text. */
  lemma TextIsLines(t: string, n: nat, st: State)
    ensures RunText(NIX, t, n, st) == RunLines(NIX, SplitLines(t), n, st)
  {
    hide RunText, RunLines, LeavesSuffix;
    StepsLeaveSuffix();
    RunTextIsRunLines(NIX, t, n, st);
  }

  // ----- One turn, read off the text -----

  lemma Take(t: string, n: nat, st: State, k: nat, st1: State)
    requires 0 < k <= LineLen(t) && NixStep(t[..LineLen(t)], n, st) == (t[..LineLen(t)][k..], st1)
    ensures RunText(NIX, t, n, st) == RunText(NIX, t[k..], NextLine(n, t[k - 1]), st1)
  {
    hide RunText, Advance, NixStep;
    OneTurn(t[..LineLen(t)], n, st);
    LineStreams.Take(NIX, t, n, st, k, st1);
  }

  lemma TokenFits(p: string, t: string)
    requires NoBreak(p) && p <= t && p != []
    ensures |p| <= LineLen(t) && !IsBreak(t[|p| - 1])
  {
    LineLenAppend(p, t[|p|..]);
    assert t == p + t[|p|..];
  }

  lemma RunMulti(t: string, n: nat, st: State)
    requires t != [] && st.mode == Multi
    ensures RunText(NIX, t, n, st) ==
      if "''${" <= t then RunText(NIX, t[4..], n, st)
      else if "'''" <= t || "''\\" <= t then RunText(NIX, t[3..], n, st)
      else if "${" <= t then RunText(NIX, t[2..], n, st.Push())
      else if "''" <= t then RunText(NIX, t[2..], n, st.(mode := Normal))
      else RunText(NIX, t[1..], NextLine(n, t[0]), st)
  {
    hide RunText;
    LineStartsWith("''${", t);
    LineStartsWith("'''", t);
    LineStartsWith("''\\", t);
    LineStartsWith("${", t);
    LineStartsWith("''", t);
    if "''${" <= t {
      TokenFits("''${", t);
      Take(t, n, st, 4, st);
    } else if "'''" <= t {
      TokenFits("'''", t);
      Take(t, n, st, 3, st);
    } else if "''\\" <= t {
      TokenFits("''\\", t);
      Take(t, n, st, 3, st);
    } else if "${" <= t {
      TokenFits("${", t);
      Take(t, n, st, 2, st.Push());
    } else if "''" <= t {
      TokenFits("''", t);
      Take(t, n, st, 2, st.(mode := Normal));
    } else {
      Take(t, n, st, 1, st);
    }
  }

  lemma RunDouble(t: string, n: nat, st: State)
    requires t != [] && st.mode == Double && (t[0] == '\\' ==> |t| >= 2)
    ensures RunText(NIX, t, n, st) ==
      if t[0] == '\\' then RunText(NIX, t[2..], NextLine(n, t[1]), st)
      else if "${" <= t then RunText(NIX, t[2..], n, st.Push())
      else if t[0] == '"' then RunText(NIX, t[1..], n, st.(mode := Normal))
      else RunText(NIX, t[1..], NextLine(n, t[0]), st)
  {
    hide RunText;
    LineStartsWith("${", t);
    if t[0] == '\\' {
      assert LineLen(t) >= 2;
      Take(t, n, st, 2, st);
    } else if "${" <= t {
      TokenFits("${", t);
      Take(t, n, st, 2, st.Push());
    } else if t[0] == '"' {
      Take(t, n, st, 1, st.(mode := Normal));
    } else {
      Take(t, n, st, 1, st);
    }
  }

  lemma RunOpenBrace(t: string, n: nat, st: State)
    requires t != [] && st.mode == Normal && t[0] == '{'
    ensures RunText(NIX, t, n, st)
      == RunText(NIX, t[1..], n, if st.stack == [] then st else st.WithTop((st.Top().0, st.Top().1 + 1)))
  {
    hide RunText;
    NotPrefix("''", t[..LineLen(t)]);
    NotPrefix("/*", t[..LineLen(t)]);
    Take(t, n, st, 1, NixStep(t[..LineLen(t)], n, st).1);
  }

  lemma RunCloseBrace(t: string, n: nat, st: State)
    requires t != [] && st.mode == Normal && t[0] == '}' && st.Valid()
    ensures RunText(NIX, t, n, st) == RunText(NIX, t[1..], n,
      if st.stack == [] then st
      else if st.Top().1 == 1 then st.(stack := st.stack[..|st.stack| - 1], mode := st.Top().0)
      else st.WithTop((st.Top().0, st.Top().1 - 1)))
  {
    hide RunText;
    NotPrefix("''", t[..LineLen(t)]);
    NotPrefix("/*", t[..LineLen(t)]);
    Take(t, n, st, 1, NixStep(t[..LineLen(t)], n, st).1);
  }

  lemma RunNormal(t: string, n: nat, st: State)
    requires t != [] && st.mode == Normal && t[0] !in {'#', '{', '}'} && !("/*" <= t)
    ensures RunText(NIX, t, n, st) ==
      if "''" <= t then RunText(NIX, t[2..], n, st.(mode := Multi))
      else if t[0] == '"' then RunText(NIX, t[1..], n, st.(mode := Double))
      else RunText(NIX, t[1..], NextLine(n, t[0]), st)
  {
    hide RunText;
    LineStartsWith("''", t);
    LineStartsWith("/*", t);
    if "''" <= t {
      TokenFits("''", t);
      Take(t, n, st, 2, st.(mode := Multi));
    } else if t[0] == '"' {
      Take(t, n, st, 1, st.(mode := Double));
    } else {
      Take(t, n, st, 1, st);
    }
  }

  // ----- Comments -----

  lemma RunLineComment(text: string, after: string, n: nat, st: State)
    requires NoBreak(text) && st.mode == Normal
    ensures RunText(NIX, "#" + text + "\n" + after, n, st)
      == RunText(NIX, after, n + 1, st.Emit(Comment(n, "#" + text, HashLine, None)))
  {
    hide RunText;
    var t := "#" + text + "\n" + after;
    assert t == ("#" + text) + ("\n" + after);
    LineLenAppend("#" + text, "\n" + after);
    var line := t[..LineLen(t)];
    assert LineLen(t) == |text| + 2;
    assert line == "#" + text + "\n";
    TrimNothing("#" + text);
    NotPrefix("''", line);
    NotPrefix("/*", line);
    assert line[|text| + 2..] == [];
    Take(t, n, st, |text| + 2, st.Emit(Comment(n, "#" + text, HashLine, None)));
    assert t[|text| + 2..] == after;
  }

  lemma {:induction false} FindCloseAppend(x: string, y: string)
    requires FindClose(x).Some?
    ensures FindClose(x + y) == FindClose(x)
  {
    assert (x + y)[..2] == x[..2];
    if !("*/" <= x) {
      FindCloseAppend(x[1..], y);
      assert (x + y)[1..] == x[1..] + y;
    }
  }

  lemma {:induction false} FindCloseBefore(x: string, m: nat)
    requires FindClose(x).Some? && m < FindClose(x).value + 2
    ensures FindClose(x[..m]) == None
  {
    if m >= 2 {
      FindCloseBefore(x[1..], m - 1);
      assert x[..m][1..] == x[1..][..m - 1];
      assert x[..m][..2] == x[..2];
    }
  }

  lemma {:induction false} FindCloseSuffix(x: string, j: nat)
    requires FindClose(x).Some? && j <= FindClose(x).value
    ensures FindClose(x[j..]) == Some(FindClose(x).value - j)
  {
    if j > 0 {
      FindCloseSuffix(x[1..], j - 1);
      assert x[1..][j - 1..] == x[j..];
    }
  }

  /** What remains of one block comment: the first close, looked for after `skip` characters, is at the very end. */
  predicate Closes(u: string, skip: nat) {
    skip + 2 <= |u| && NoBreak(u[..skip]) && FindClose(u[skip..]) == Some(|u| - 2 - skip)
  }

  lemma {:induction false} FoundClose(x: string)
    requires FindClose(x).Some?
    ensures "*/" <= x[FindClose(x).value..]
  {
    if !("*/" <= x) {
      FoundClose(x[1..]);
      assert x[1..][FindClose(x[1..]).value..] == x[FindClose(x).value..];
    }
  }

  lemma CommentEnds(u: string, skip: nat)
    requires Closes(u, skip)
    ensures !IsBreak(u[|u| - 2]) && !IsBreak(u[|u| - 1])
  {
    hide FindClose;
    FoundClose(u[skip..]);
    assert u[skip..][|u| - 2 - skip..] == u[|u| - 2..];
    assert u[|u| - 2..][..2] == "*/";
  }

  /** A comment that goes on after its first line. */
  lemma FirstLineInside(u: string, skip: nat, after: string)
    requires Closes(u, skip) && LineLen(u) < |u|
    ensures skip < LineLen(u) == LineLen(u + after) <= |u| - 2
    ensures IsBreak(u[LineLen(u) - 1])
  {
    hide LineLen, FindClose;
    var m := LineLen(u);
    CommentEnds(u, skip);
    assert IsBreak(u[m - 1]);
    assert m > skip by {
      assert forall i | 0 <= i < skip :: u[i] == u[..skip][i];
    }
    LineLenAppend(u[..m - 1], u[m - 1..] + after);
    assert u + after == u[..m - 1] + (u[m - 1..] + after);
    assert (u[m - 1..] + after)[0] == u[m - 1];
  }

  lemma FirstLineHasNoClose(u: string, skip: nat)
    requires Closes(u, skip) && skip < LineLen(u) <= |u| - 2
    ensures FindClose(u[..LineLen(u)][skip..]) == None
    ensures Closes(u[LineLen(u)..], 0)
  {
    hide FindClose, LineLen;
    var m := LineLen(u);
    FindCloseBefore(u[skip..], m - skip);
    assert u[..m][skip..] == u[skip..][..m - skip];
    FindCloseSuffix(u[skip..], m - skip);
    assert u[skip..][m - skip..] == u[m..];
    assert u[m..][0..] == u[m..];
  }

  lemma BreaksOfLine(line: string)
    requires line != [] && NoBreak(line[..|line| - 1]) && IsBreak(line[|line| - 1])
    ensures Breaks(line) == 1
  {
    hide Breaks;
    var k := |line| - 1;
    BreaksNone(line[..k]);
    BreakAlone(line[k]);
    BreaksAppend(line[..k], [line[k]]);
    assert line == line[..k] + [line[k]];
  }

  lemma BreaksCut(u: string, m: nat)
    requires 0 < m <= |u| && NoBreak(u[..m - 1]) && IsBreak(u[m - 1])
    ensures Breaks(u) == 1 + Breaks(u[m..])
  {
    hide Breaks;
    assert u[..m][..m - 1] == u[..m - 1];
    BreaksOfLine(u[..m]);
    BreaksAppend(u[..m], u[m..]);
    assert u == u[..m] + u[m..];
  }

  lemma LineLenNoBreak(u: string)
    requires u != []
    ensures NoBreak(u[..LineLen(u) - 1])
  {
    hide LineLen;
  }

  lemma CutLine(u: string)
    requires 0 < LineLen(u) < |u|
    ensures Breaks(u) == 1 + Breaks(u[LineLen(u)..])
    ensures SplitLines(u) == [u[..LineLen(u)]] + SplitLines(u[LineLen(u)..])
  {
    hide *;
    SplitTurn(u);
    LineLenNoBreak(u);
    BreaksCut(u, LineLen(u));
  }

  /** A comment that ends on its first line. */
  lemma LastLineOfComment(u: string, skip: nat, after: string)
    requires Closes(u, skip) && LineLen(u) == |u|
    ensures LineLen(u + after) == |u| + LineLen(after)
    ensures var line := u + after[..LineLen(after)];
      (u + after)[..LineLen(u + after)] == line && FindClose(line[skip..]) == Some(|u| - 2 - skip)
    ensures !IsBreak(u[|u| - 1]) && Breaks(u) == 0 && SplitLines(u) == [u] && TrimNewlines(u) == u
  {
    hide LineLen, FindClose;
    CommentEnds(u, skip);
    LineLenAppend(u, after);
    var line := u + after[..LineLen(after)];
    assert line[skip..] == u[skip..] + after[..LineLen(after)];
    FindCloseAppend(u[skip..], after[..LineLen(after)]);
    BreaksNone(u);
    TrimNothing(u);
    assert u[LineLen(u)..] == [] && u[..LineLen(u)] == u;
  }

  lemma SegmentsCons(line: string, lines: seq<string>, n: nat, id: Option<nat>)
    ensures BlockSegments([line] + lines, n, id)
      == [Comment(n, TrimNewlines(line), NixBlock, id)] + BlockSegments(lines, n + 1, id)
  {
    assert ([line] + lines)[1..] == lines;
  }

  lemma LastSegment(u: string, n: nat, id: Option<nat>)
    requires TrimNewlines(u) == u
    ensures BlockSegments([u], n, id) == [Comment(n, u, NixBlock, id)]
  {
    SegmentsCons(u, [], n, id);
    assert [u] + [] == [u];
  }

  lemma InsideBlock(s: string, n: nat, st: State)
    requires s != [] && st.mode == Block
    ensures NixStep(s, n, st) ==
      match FindClose(s)
      case None => ([], st.Emit(Comment(n, TrimNewlines(s), NixBlock, st.active)))
      case Some(k) =>
        (s[k + 2..], st.Emit(Comment(n, s[..k + 2], NixBlock, st.active)).(mode := Normal, active := None))
  {
  }

  lemma OpensBlock(s: string, n: nat, st: State)
    requires |s| >= 2 && s[0] == '/' && s[1] == '*' && st.mode == Normal && st.active == None
    ensures var id := Some(st.blockId + 1);
      NixStep(s, n, st) ==
        match FindClose(s[2..])
        case None =>
          ([], st.(blockId := st.blockId + 1, active := id, mode := Block)
                 .Emit(Comment(n, TrimNewlines(s), NixBlock, id)))
        case Some(k) => (s[k + 4..], st.(blockId := st.blockId + 1).Emit(Comment(n, s[..k + 4], NixBlock, id)))
  {
    hide FindClose, TrimNewlines;
    NotPrefix("''", s);
    assert "/*" <= s;
  }

  /** The turn that reads the first line of what remains of a comment, when it does not end there. */
  lemma TakeFirstLine(u: string, skip: nat, after: string, n: nat, st: State, st1: State)
    requires Closes(u, skip) && LineLen(u) < |u|
    requires NixStep(u[..LineLen(u)], n, st) == ([], st1)
    ensures RunText(NIX, u + after, n, st) == RunText(NIX, u[LineLen(u)..] + after, n + 1, st1)
  {
    hide RunText, NixStep, LineLen, FindClose;
    var t, m := u + after, LineLen(u);
    FirstLineInside(u, skip, after);
    assert t[..m] == u[..m] && t[..m][m..] == [] && t[m - 1] == u[m - 1];
    Take(t, n, st, m, st1);
    assert t[m..] == u[m..] + after;
  }

  /** The turn that reads the last line of a comment. */
  lemma TakeLastLine(u: string, skip: nat, after: string, n: nat, st: State, st1: State)
    requires Closes(u, skip) && LineLen(u) == |u|
    requires var line := u + after[..LineLen(after)]; NixStep(line, n, st) == (line[|u|..], st1)
    ensures RunText(NIX, u + after, n, st) == RunText(NIX, after, n, st1)
  {
    hide RunText, NixStep, LineLen, FindClose;
    var t := u + after;
    LastLineOfComment(u, skip, after);
    assert t[..LineLen(t)] == u + after[..LineLen(after)];
    assert t[|u| - 1] == u[|u| - 1];
    Take(t, n, st, |u|, st1);
    assert t[|u|..] == after;
  }

  lemma {:induction false} RunBlock(u: string, after: string, n: nat, st: State)
    requires Closes(u, 0) && st.mode == Block
    ensures RunText(NIX, u + after, n, st) == RunText(NIX, after, n + Breaks(u),
      st.(out := st.out + BlockSegments(SplitLines(u), n, st.active), mode := Normal, active := None))
    decreases |u|
  {
    hide RunText, NixStep, FindClose, SplitLines, BlockSegments, Breaks, LineLen, TrimNewlines, Closes;
    var m := LineLen(u);
    if m < |u| {
      var line := u[..m];
      FirstLineInside(u, 0, after);
      FirstLineHasNoClose(u, 0);
      assert line[0..] == line;
      InsideBlock(line, n, st);
      var c := Comment(n, TrimNewlines(line), NixBlock, st.active);
      TakeFirstLine(u, 0, after, n, st, st.Emit(c));
      RunBlock(u[m..], after, n + 1, st.Emit(c));
      CutLine(u);
      SegmentsCons(line, SplitLines(u[m..]), n, st.active);
      Regroup(st.out, [c], BlockSegments(SplitLines(u[m..]), n + 1, st.active));
    } else {
      var line := u + after[..LineLen(after)];
      LastLineOfComment(u, 0, after);
      assert line[0..] == line && line[..|u|] == u;
      InsideBlock(line, n, st);
      LastSegment(u, n, st.active);
      TakeLastLine(u, 0, after, n, st, st.Emit(Comment(n, u, NixBlock, st.active)).(mode := Normal, active := None));
    }
  }

  /** A comment opened in code; its first line is searched from after the opener. */
  lemma RunOpenBlock(u: string, after: string, n: nat, st: State)
    requires "/*" <= u && Closes(u, 2) && st.mode == Normal && st.active == None
    ensures RunText(NIX, u + after, n, st) == RunText(NIX, after, n + Breaks(u),
      st.(out := st.out + BlockSegments(SplitLines(u), n, Some(st.blockId + 1)), blockId := st.blockId + 1))
  {
    hide RunText, NixStep, FindClose, SplitLines, BlockSegments, Breaks, LineLen, TrimNewlines, Closes;
    var m := LineLen(u);
    var id := Some(st.blockId + 1);
    assert u[0] == '/' && u[1] == '*';
    if m < |u| {
      var line := u[..m];
      FirstLineInside(u, 2, after);
      FirstLineHasNoClose(u, 2);
      OpensBlock(line, n, st);
      var c := Comment(n, TrimNewlines(line), NixBlock, id);
      var st1 := st.(blockId := st.blockId + 1, active := id, mode := Block).Emit(c);
      TakeFirstLine(u, 2, after, n, st, st1);
      RunBlock(u[m..], after, n + 1, st1);
      CutLine(u);
      SegmentsCons(line, SplitLines(u[m..]), n, id);
      Regroup(st.out, [c], BlockSegments(SplitLines(u[m..]), n + 1, id));
    } else {
      var line := u + after[..LineLen(after)];
      LastLineOfComment(u, 2, after);
      assert line[..|u|] == u;
      OpensBlock(line, n, st);
      LastSegment(u, n, id);
      TakeLastLine(u, 2, after, n, st, st.(blockId := st.blockId + 1).Emit(Comment(n, u, NixBlock, id)));
    }
  }

  // ----- Reading a piece of text -----

  /** Reading `text` before `after` takes the scanner from `st` to `st2`. */
  ghost predicate Reads(text: string, after: string, n: nat, st: State, st2: State) {
    RunText(NIX, text + after, n, st) == RunText(NIX, after, n + Breaks(text), st2)
  }

  lemma ReadNothing(after: string, n: nat, st: State)
    ensures Reads("", after, n, st, st)
  {
    hide RunText;
    assert "" + after == after;
  }

  lemma Chain(a: string, b: string, after: string, n: nat, st: State, st1: State, st2: State)
    requires Reads(a, b + after, n, st, st1) && Reads(b, after, n + Breaks(a), st1, st2)
    ensures Reads(a + b, after, n, st, st2)
  {
    hide RunText, Breaks;
    assert a + b + after == a + (b + after);
    BreaksAppend(a, b);
  }

  lemma CharBreaks(c: char)
    ensures NextLine(0, c) == Breaks([c])
  {
    BreakAlone(c);
  }

  lemma ReadPlain(c: char, after: string, n: nat, st: State)
    requires c !in {'"', '#', '{', '}'} && st.mode == Normal
    requires (c == '\'' ==> !("'" <= after)) && (c == '/' ==> !("*" <= after))
    ensures Reads([c], after, n, st, st)
  {
    hide RunText;
    var t := [c] + after;
    assert t[1..] == after && "''"[1..] == "'" && "/*"[1..] == "*" && "''"[0] == '\'' && "/*"[0] == '/';
    PrefixRest("/*", 1, t);
    PrefixRest("''", 1, t);
    RunNormal(t, n, st);
    CharBreaks(c);
  }

  /** Quotes of either kind opened in code. */
  lemma ReadOpenQuote(token: string, after: string, n: nat, st: State)
    requires token in {"\"", "''"} && st.mode == Normal
    ensures Reads(token, after, n, st, st.(mode := if token == "''" then Multi else Double))
  {
    hide RunText;
    var t := token + after;
    assert t[..|token|] == token && t[|token|..] == after && t[0] == token[0];
    NotPrefix("/*", t);
    RunNormal(t, n, st);
    BreaksNone(token);
  }

  lemma ReadOpenBrace(after: string, n: nat, st: State)
    requires st.mode == Normal
    ensures Reads("{", after, n, st, if st.stack == [] then st else st.WithTop((st.Top().0, st.Top().1 + 1)))
  {
    hide RunText;
    assert ("{" + after)[1..] == after;
    RunOpenBrace("{" + after, n, st);
    BreaksNone("{");
  }

  lemma ReadCloseBrace(after: string, n: nat, st: State)
    requires st.mode == Normal && st.Valid()
    ensures Reads("}", after, n, st,
      if st.stack == [] then st
      else if st.Top().1 == 1 then st.(stack := st.stack[..|st.stack| - 1], mode := st.Top().0)
      else st.WithTop((st.Top().0, st.Top().1 - 1)))
  {
    hide RunText;
    assert ("}" + after)[1..] == after;
    RunCloseBrace("}" + after, n, st);
    BreaksNone("}");
  }

  lemma ReadOpenInterpolation(after: string, n: nat, st: State)
    requires st.mode in {Multi, Double}
    ensures Reads("${", after, n, st, st.Push())
  {
    hide RunText;
    var text := "${" + after;
    assert text[0] == '$' && text[..2] == "${" && text[2..] == after;
    BreaksNone("${");
    if st.mode == Multi {
      NotPrefix("'''", text);
      NotPrefix("''\\", text);
      NotPrefix("''${", text);
      RunMulti(text, n, st);
    } else {
      RunDouble(text, n, st);
    }
  }

  lemma ReadDoubleChar(c: char, after: string, n: nat, st: State)
    requires st.mode == Double && c != '\\' && (c == '$' ==> !("{" <= after))
    ensures Reads([c], after, n, st, if c == '"' then st.(mode := Normal) else st)
  {
    hide RunText;
    var text := [c] + after;
    assert text[1..] == after && "${"[1..] == "{" && "${"[0] == '$';
    PrefixRest("${", 1, text);
    RunDouble(text, n, st);
    CharBreaks(c);
  }

  lemma ReadEscape(c: char, after: string, n: nat, st: State)
    requires st.mode == Double
    ensures Reads(['\\', c], after, n, st, st)
  {
    hide RunText;
    var text := ['\\', c] + after;
    assert text[0] == '\\' && text[1] == c && text[2..] == after;
    RunDouble(text, n, st);
    CharBreaks(c);
    assert ['\\', c] == ['\\'] + [c];
    BreaksAppend(['\\'], [c]);
    BreaksNone(['\\']);
  }

  lemma ReadIndentedChar(c: char, after: string, n: nat, st: State)
    requires st.mode == Multi && (c == '\'' ==> !("'" <= after)) && (c == '$' ==> !("{" <= after))
    ensures Reads([c], after, n, st, st)
  {
    hide RunText;
    var text := [c] + after;
    assert text[1..] == after && "''"[1..] == "'" && "${"[1..] == "{" && "''"[0] == '\'' && "${"[0] == '$';
    PrefixRest("''", 1, text);
    PrefixRest("${", 1, text);
    assert "'''" <= text ==> "''" <= text;
    assert "''\\" <= text ==> "''" <= text;
    assert "''${" <= text ==> "''" <= text;
    RunMulti(text, n, st);
    CharBreaks(c);
  }

  lemma ReadIndentedEscape(token: string, after: string, n: nat, st: State)
    requires token in {"''${", "'''", "''\\"} && st.mode == Multi
    ensures Reads(token, after, n, st, st)
  {
    hide RunText;
    var text := token + after;
    assert text[..|token|] == token && text[|token|..] == after && token[2] == text[2];
    PrefixRest("''${", 0, text);
    RunMulti(text, n, st);
    BreaksNone(token);
  }

  lemma ReadCloseIndented(after: string, n: nat, st: State)
    requires st.mode == Multi && !("'" <= after) && !("\\" <= after) && !("${" <= after)
    ensures Reads("''", after, n, st, st.(mode := Normal))
  {
    hide RunText;
    var text := "''" + after;
    assert text[2..] == after && text[..2] == "''";
    assert "'''"[2..] == "'" && "''\\"[2..] == "\\" && "''${"[2..] == "${";
    PrefixRest("'''", 2, text);
    PrefixRest("''\\", 2, text);
    PrefixRest("''${", 2, text);
    NotPrefix("${", text);
    RunMulti(text, n, st);
    BreaksNone("''");
  }

  lemma ReadLineComment(text: string, after: string, n: nat, st: State)
    requires NoBreak(text) && st.mode == Normal
    ensures Reads("#" + text + "\n", after, n, st, After(st, [Comment(n, "#" + text, HashLine, None)], 0))
  {
    hide RunText;
    RunLineComment(text, after, n, st);
    var line := "#" + text;
    BreaksAppend(line, "\n");
    BreaksNone(line);
    BreakAlone('\n');
  }

  lemma {:induction false} CloserFound(text: string)
    requires NoCloser(text)
    ensures FindClose(text + "*/") == Some(|text|)
  {
    var s := text + "*/";
    if text == "" {
      assert s == "*/";
    } else {
      assert s[0..] == s && s[1..] == text[1..] + "*/";
      forall k | 0 <= k < |text[1..]| ensures !("*/" <= (text[1..] + "*/")[k..]) {
        assert (text[1..] + "*/")[k..] == s[k + 1..];
      }
      CloserFound(text[1..]);
    }
  }

  lemma ReadBlockComment(text: string, after: string, n: nat, st: State)
    requires NoCloser(text) && st.mode == Normal && st.active == None
    ensures var u := "/*" + text + "*/";
      Reads(u, after, n, st, After(st, BlockSegments(SplitLines(u), n, Some(st.blockId + 1)), 1))
  {
    hide RunText, FindClose, SplitLines, Breaks, BlockSegments;
    CloserFound(text);
    var u := "/*" + text + "*/";
    assert u[..2] == "/*" && u[2..] == text + "*/";
    RunOpenBlock(u, after, n, st);
  }

  // ----- Whole trees -----

  /** The effect of a tree on the scanner: its comments are out, its blocks are numbered, all else is as before. */
  function After(st: State, comments: seq<Comment>, blocks: nat): State {
    st.(out := st.out + comments, blockId := st.blockId + blocks)
  }

  lemma AfterAfter(st: State, c1: seq<Comment>, b1: nat, c2: seq<Comment>, b2: nat)
    ensures After(After(st, c1, b1), c2, b2) == After(st, c1 + c2, b1 + b2)
    ensures After(st, [], 0) == st
  {
    Regroup(st.out, c1, c2);
  }

  /** An item followed by the rest of its chain. */
  lemma Then(a: string, b: string, after: string, n: nat, st: State, c1: seq<Comment>, b1: nat, c2: seq<Comment>,
      b2: nat)
    requires Reads(a, b + after, n, st, After(st, c1, b1))
    requires Reads(b, after, n + Breaks(a), After(st, c1, b1), After(After(st, c1, b1), c2, b2))
    ensures Reads(a + b, after, n, st, After(st, c1 + c2, b1 + b2))
  {
    hide Reads, Breaks;
    AfterAfter(st, c1, b1, c2, b2);
    Chain(a, b, after, n, st, After(st, c1, b1), After(st, c1 + c2, b1 + b2));
  }

  lemma {:induction false} ReadBraces(inner: Code, follow: string, n: nat, st: State)
    requires WellFormed(inner, "}" + follow) && st.mode == Normal && st.Valid()
    ensures Reads("{" + Print(inner) + "}", follow, n, st, After(st, Comments(inner, n, st.blockId), Blocks(inner)))
    decreases inner, 3
  {
    hide Reads, Breaks, Print, WellFormed, Comments, Blocks;
    var text := Print(inner);
    var deeper := if st.stack == [] then st else st.WithTop((st.Top().0, st.Top().1 + 1));
    ReadOpenBrace(text + ("}" + follow), n, st);
    BreaksNone("{");
    ReadCode(inner, "}" + follow, n, deeper);
    var cs, bs := Comments(inner, n, st.blockId), Blocks(inner);
    Chain("{", text, "}" + follow, n, st, deeper, After(deeper, cs, bs));
    ReadCloseBrace(follow, n + Breaks("{" + text), After(deeper, cs, bs));
    assert st.stack != [] ==> st.stack == st.stack[..|st.stack| - 1] + [st.Top()];
    Chain("{" + text, "}", follow, n, st, After(deeper, cs, bs), After(st, cs, bs));
  }

  /** An interpolation inside a string of either kind. */
  lemma {:induction false} ReadInterpolation(inner: Code, follow: string, n: nat, st: State)
    requires WellFormed(inner, "}" + follow) && st.mode in {Multi, Double} && st.Valid()
    ensures Reads("${" + Print(inner) + "}", follow, n, st, After(st, Comments(inner, n, st.blockId), Blocks(inner)))
    decreases inner, 3
  {
    hide Reads, Breaks, Print, WellFormed, Comments, Blocks;
    var text, pushed := Print(inner), st.Push();
    ReadOpenInterpolation(text + ("}" + follow), n, st);
    BreaksNone("${");
    assert pushed.Top() == (st.mode, 1) && pushed.stack[..|pushed.stack| - 1] == st.stack;
    ReadCode(inner, "}" + follow, n, pushed);
    var cs, bs := Comments(inner, n, st.blockId), Blocks(inner);
    Chain("${", text, "}" + follow, n, st, pushed, After(pushed, cs, bs));
    ReadCloseBrace(follow, n + Breaks("${" + text), After(pushed, cs, bs));
    Chain("${" + text, "}", follow, n, st, After(pushed, cs, bs), After(st, cs, bs));
  }

  lemma {:induction false} ReadDoubleString(parts: Str, follow: string, n: nat, st: State)
    requires WellFormedDouble(parts, "\"" + follow) && st.mode == Normal && st.Valid()
    ensures Reads("\"" + PrintStr(parts) + "\"", follow, n, st,
      After(st, CommentsStr(parts, n, st.blockId), BlocksStr(parts)))
    decreases parts, 3
  {
    hide Reads, Breaks, PrintStr, WellFormedDouble, CommentsStr, BlocksStr;
    var text, inside := PrintStr(parts), st.(mode := Double);
    ReadOpenQuote("\"", text + ("\"" + follow), n, st);
    BreaksNone("\"");
    ReadDouble(parts, "\"" + follow, n, inside);
    var cs, bs := CommentsStr(parts, n, st.blockId), BlocksStr(parts);
    Chain("\"", text, "\"" + follow, n, st, inside, After(inside, cs, bs));
    ReadDoubleChar('"', follow, n + Breaks("\"" + text), After(inside, cs, bs));
    Chain("\"" + text, "\"", follow, n, st, After(inside, cs, bs), After(st, cs, bs));
  }

  lemma {:induction false} ReadIndentedString(parts: Str, follow: string, n: nat, st: State)
    requires WellFormedIndented(parts, "''" + follow) && st.mode == Normal && st.Valid()
    requires !("'" <= follow) && !("\\" <= follow) && !("${" <= follow)
    ensures Reads("''" + PrintStr(parts) + "''", follow, n, st,
      After(st, CommentsStr(parts, n, st.blockId), BlocksStr(parts)))
    decreases parts, 3
  {
    hide Reads, Breaks, PrintStr, WellFormedIndented, CommentsStr, BlocksStr;
    var text, inside := PrintStr(parts), st.(mode := Multi);
    ReadOpenQuote("''", text + ("''" + follow), n, st);
    BreaksNone("''");
    ReadIndented(parts, "''" + follow, n, inside);
    var cs, bs := CommentsStr(parts, n, st.blockId), BlocksStr(parts);
    Chain("''", text, "''" + follow, n, st, inside, After(inside, cs, bs));
    ReadCloseIndented(follow, n + Breaks("''" + text), After(inside, cs, bs));
    Chain("''" + text, "''", follow, n, st, After(inside, cs, bs), After(st, cs, bs));
  }

  lemma {:induction false} ReadRest(a: string, rest: Code, after: string, n: nat, st: State, cs: seq<Comment>, bs: nat)
    requires Reads(a, Print(rest) + after, n, st, After(st, cs, bs))
    requires WellFormed(rest, after) && st.mode == Normal && st.Valid()
    ensures Reads(a + Print(rest), after, n, st,
      After(st, cs + Comments(rest, n + Breaks(a), st.blockId + bs), bs + Blocks(rest)))
    decreases rest, 4
  {
    hide Reads, Breaks, Print, WellFormed, Comments, Blocks;
    ReadCode(rest, after, n + Breaks(a), After(st, cs, bs));
    Then(a, Print(rest), after, n, st, cs, bs, Comments(rest, n + Breaks(a), st.blockId + bs), Blocks(rest));
  }

  /** The first item and the rest. */
  lemma Unfold(t: Code, after: string, n: nat, id: nat)
    requires !t.End?
    ensures Print(t) == Head(t) + Print(t.rest) && Blocks(t) == HeadBlocks(t) + Blocks(t.rest)
    ensures Comments(t, n, id) == HeadComments(t, n, id) + Comments(t.rest, n + Breaks(Head(t)), id + HeadBlocks(t))
    ensures WellFormed(t, after) ==> WellFormed(t.rest, after)
  {
    hide Head, HeadBlocks, HeadComments, WellFormedDouble, WellFormedIndented, FindClose, NoBreak, Breaks;
  }

  /** The first item of a tree, before the rest. */
  lemma {:induction false} ReadHead(t: Code, after: string, n: nat, st: State)
    requires !t.End? && WellFormed(t, after) && st.mode == Normal && st.Valid()
    ensures Reads(Head(t), Print(t.rest) + after, n, st,
      After(st, HeadComments(t, n, st.blockId), HeadBlocks(t)))
    decreases t, 1
  {
    hide Reads, Breaks, Print, PrintStr, WellFormedDouble, WellFormedIndented, Comments, CommentsStr, Blocks, BlocksStr;
    hide BlockSegments, SplitLines, FindClose;
    var follow := Print(t.rest) + after;
    match t
    case Plain(c, rest) =>
      AfterAfter(st, [], 0, [], 0);
      ReadPlain(c, follow, n, st);
    case Braces(inner, rest) => ReadBraces(inner, follow, n, st);
    case DoubleString(parts, rest) => ReadDoubleString(parts, follow, n, st);
    case IndentedString(parts, rest) => ReadIndentedString(parts, follow, n, st);
    case LineComment(text, rest) => ReadLineComment(text, follow, n, st);
    case BlockComment(text, rest) => ReadBlockComment(text, follow, n, st);
  }

  /**
   Scanning a well-formed tree from code, whatever interpolations surround it, comes back to the same mode and
   interpolation stack with exactly the comments of the tree emitted.
   */
  lemma {:induction false} ReadCode(t: Code, after: string, n: nat, st: State)
    requires WellFormed(t, after) && st.mode == Normal && st.Valid()
    ensures Reads(Print(t), after, n, st, After(st, Comments(t, n, st.blockId), Blocks(t)))
    decreases t, 2
  {
    hide Reads, Breaks, Print, WellFormed, Comments, Blocks, Head, HeadComments, HeadBlocks;
    if t.End? {
      ReadEnd(after, n, st);
    } else {
      Unfold(t, after, n, st.blockId);
      ReadHead(t, after, n, st);
      ReadRest(Head(t), t.rest, after, n, st, HeadComments(t, n, st.blockId), HeadBlocks(t));
    }
  }

  lemma ReadEnd(after: string, n: nat, st: State)
    ensures Reads(Print(End), after, n, st, After(st, Comments(End, n, st.blockId), Blocks(End)))
  {
    hide Reads;
    AfterAfter(st, [], 0, [], 0);
    ReadNothing(after, n, st);
  }

  /** A piece of a string that emits nothing, and the rest of the string. */
  lemma {:induction false} ReadRestOfDouble(a: string, rest: Str, after: string, n: nat, st: State)
    requires Reads(a, PrintStr(rest) + after, n, st, st)
    requires WellFormedDouble(rest, after) && st.mode == Double && st.Valid()
    ensures Reads(a + PrintStr(rest), after, n, st,
      After(st, CommentsStr(rest, n + Breaks(a), st.blockId), BlocksStr(rest)))
    decreases rest, 4
  {
    hide Reads, Breaks, PrintStr, WellFormedDouble, CommentsStr, BlocksStr;
    ReadDouble(rest, after, n + Breaks(a), st);
    Chain(a, PrintStr(rest), after, n, st, st,
      After(st, CommentsStr(rest, n + Breaks(a), st.blockId), BlocksStr(rest)));
  }

  lemma {:induction false} ReadDouble(s: Str, after: string, n: nat, st: State)
    requires WellFormedDouble(s, after) && st.mode == Double && st.Valid()
    ensures Reads(PrintStr(s), after, n, st, After(st, CommentsStr(s, n, st.blockId), BlocksStr(s)))
    decreases s, 2
  {
    hide Reads, Breaks, Print, WellFormed, Comments, Blocks;
    match s
    case StrEnd =>
      AfterAfter(st, [], 0, [], 0);
      ReadNothing(after, n, st);
    case Text(c, rest) =>
      ReadDoubleChar(c, PrintStr(rest) + after, n, st);
      ReadRestOfDouble([c], rest, after, n, st);
    case Interpolation(inner, rest) =>
      var a := "${" + Print(inner) + "}";
      var cs, bs := Comments(inner, n, st.blockId), Blocks(inner);
      ReadInterpolation(inner, PrintStr(rest) + after, n, st);
      ReadDouble(rest, after, n + Breaks(a), After(st, cs, bs));
      Then(a, PrintStr(rest), after, n, st, cs, bs, CommentsStr(rest, n + Breaks(a), st.blockId + bs), BlocksStr(rest));
    case DoubleEscape(c, rest) =>
      ReadEscape(c, PrintStr(rest) + after, n, st);
      ReadRestOfDouble(['\\', c], rest, after, n, st);
  }

  lemma {:induction false} ReadRestOfIndented(a: string, rest: Str, after: string, n: nat, st: State)
    requires Reads(a, PrintStr(rest) + after, n, st, st)
    requires WellFormedIndented(rest, after) && st.mode == Multi && st.Valid()
    ensures Reads(a + PrintStr(rest), after, n, st,
      After(st, CommentsStr(rest, n + Breaks(a), st.blockId), BlocksStr(rest)))
    decreases rest, 4
  {
    hide Reads, Breaks, PrintStr, WellFormedIndented, CommentsStr, BlocksStr;
    ReadIndented(rest, after, n + Breaks(a), st);
    Chain(a, PrintStr(rest), after, n, st, st,
      After(st, CommentsStr(rest, n + Breaks(a), st.blockId), BlocksStr(rest)));
  }

  lemma {:induction false} ReadIndented(s: Str, after: string, n: nat, st: State)
    requires WellFormedIndented(s, after) && st.mode == Multi && st.Valid()
    ensures Reads(PrintStr(s), after, n, st, After(st, CommentsStr(s, n, st.blockId), BlocksStr(s)))
    decreases s, 2
  {
    hide Reads, Breaks, Print, WellFormed, Comments, Blocks;
    match s
    case StrEnd =>
      AfterAfter(st, [], 0, [], 0);
      ReadNothing(after, n, st);
    case Text(c, rest) =>
      ReadIndentedChar(c, PrintStr(rest) + after, n, st);
      ReadRestOfIndented([c], rest, after, n, st);
    case Interpolation(inner, rest) =>
      var a := "${" + Print(inner) + "}";
      var cs, bs := Comments(inner, n, st.blockId), Blocks(inner);
      ReadInterpolation(inner, PrintStr(rest) + after, n, st);
      ReadIndented(rest, after, n + Breaks(a), After(st, cs, bs));
      Then(a, PrintStr(rest), after, n, st, cs, bs, CommentsStr(rest, n + Breaks(a), st.blockId + bs), BlocksStr(rest));
    case IndentedDollar(rest) =>
      ReadIndentedEscape("''${", PrintStr(rest) + after, n, st);
      ReadRestOfIndented("''${", rest, after, n, st);
    case IndentedQuote(rest) =>
      ReadIndentedEscape("'''", PrintStr(rest) + after, n, st);
      ReadRestOfIndented("'''", rest, after, n, st);
    case IndentedBackslash(rest) =>
      ReadIndentedEscape("''\\", PrintStr(rest) + after, n, st);
      ReadRestOfIndented("''\\", rest, after, n, st);
  }

  /** The file scanner on a whole well-formed file. */
  lemma FileRoundTrip(t: Code)
    requires WellFormed(t, "")
    ensures RunLines(NIX, SplitLines(Print(t)), 1, START)
      == State(Normal, [], Blocks(t), None, Comments(t, 1, 0))
  {
    hide RunText, RunLines, SplitLines, Print, WellFormed, Comments, Blocks, Breaks;
    TextIsLines(Print(t), 1, START);
    ReadCode(t, "", 1, START);
    assert Print(t) + "" == Print(t);
    EmptyText(NIX, "", 1 + Breaks(Print(t)), After(START, Comments(t, 1, 0), Blocks(t)));
    assert [] + Comments(t, 1, 0) == Comments(t, 1, 0);
  }

  /** Each segment holds its line of the block but for a trailing newline. */
  predicate IsSegment(c: Comment, line: string, n: nat, id: Option<nat>) {
    && line != [] && c.line == n && c.blockId == id && c.family == NixBlock
    && line == c.text + (if line[|line| - 1] == '\n' then "\n" else "")
  }

  lemma {:induction false} SegmentsOfLines(lines: seq<string>, n: nat, id: Option<nat>)
    requires Whole(lines)
    ensures var segments := BlockSegments(lines, n, id);
      |segments| == |lines| && forall k | 0 <= k < |lines| :: IsSegment(segments[k], lines[k], n + k, id)
  {
    hide TrimNewlines, NoBreak, IsBreak, Whole, IsSegment;
    if lines != [] {
      WholeRest(lines);
      OneSegment(lines[0], n, id);
      SegmentsOfLines(lines[1..], n + 1, id);
    }
  }

  lemma OneSegment(line: string, n: nat, id: Option<nat>)
    requires line != [] && NoBreak(line[..|line| - 1])
    ensures IsSegment(Comment(n, TrimNewlines(line), NixBlock, id), line, n, id)
  {
    hide TrimNewlines, NoBreak;
    LineSegment(line);
  }

  lemma WholeRest(lines: seq<string>)
    requires Whole(lines) && lines != []
    ensures Whole(lines[1..]) && lines[0] != [] && NoBreak(lines[0][..|lines[0]| - 1])
  {
    hide NoBreak, IsBreak;
    assert forall k | 0 <= k < |lines[1..]| :: lines[1..][k] == lines[k + 1];
  }

  lemma TrimLine(body: string, c: char)
    requires NoBreak(body)
    ensures TrimNewlines(body + [c]) == if c == '\n' then body else body + [c]
  {
    if c == '\n' {
      TrimNothing(body);
      assert body + [c] == body + "\n";
    }
  }

  lemma LineSegment(line: string)
    requires line != [] && NoBreak(line[..|line| - 1])
    ensures line == TrimNewlines(line) + (if line[|line| - 1] == '\n' then "\n" else "")
  {
    hide *;
    var k := |line| - 1;
    TrimLine(line[..k], line[k]);
    assert line == line[..k] + [line[k]];
    assert line + "" == line;
  }

  /** The segments of one block, with the newlines that ended their lines put back. */
  function Rejoined(segments: seq<Comment>, lines: seq<string>): string
    requires |segments| == |lines| && forall k | 0 <= k < |lines| :: lines[k] != []
  {
    if lines == [] then ""
    else
      segments[0].text + (if lines[0][|lines[0]| - 1] == '\n' then "\n" else "") + Rejoined(segments[1..], lines[1..])
  }

  lemma {:induction false} RejoinLines(segments: seq<Comment>, lines: seq<string>)
    requires |segments| == |lines| && forall k | 0 <= k < |lines| ::
      lines[k] != [] && lines[k] == segments[k].text + (if lines[k][|lines[k]| - 1] == '\n' then "\n" else "")
    ensures Rejoined(segments, lines) == Concat(lines)
  {
    if lines != [] {
      assert forall k | 0 <= k < |lines[1..]| :: lines[1..][k] == lines[k + 1] && segments[1..][k] == segments[k + 1];
      RejoinLines(segments[1..], lines[1..]);
    }
  }

  /** Re-joining the segments of a block comment restores the comment: only newlines are lost. */
  lemma BlockRejoins(comment: string, n: nat, id: Option<nat>)
    ensures var segments, lines := BlockSegments(SplitLines(comment), n, id), SplitLines(comment);
      |segments| == |lines| && (forall k | 0 <= k < |lines| :: lines[k] != []) && Rejoined(segments, lines) == comment
  {
    hide SplitLines, BlockSegments, Concat, Rejoined, NoBreak, IsBreak;
    SplitLinesWhole(comment);
    SegmentsOfLines(SplitLines(comment), n, id);
    RejoinLines(BlockSegments(SplitLines(comment), n, id), SplitLines(comment));
    ConcatSplitLines(comment);
  }

}
