/**
 Python's view of a source file as a list of lines. Text arrives with universal newlines, so it holds no carriage
 returns; `splitlines(keepends=True)` then cuts after each of the remaining line boundaries.
 */
module TextLines {
  import opened Sequences

  predicate IsBreak(c: char) {
    c in {'\n', '\U{0B}', '\U{0C}', '\U{1C}', '\U{1D}', '\U{1E}', '\U{85}', '\U{2028}', '\U{2029}'}
  }

  /** Python's `str.isspace` on one character. */
  predicate IsSpace(c: char) {
    || c in {' ', '\t', '\n', '\U{0B}', '\U{0C}', '\r', '\U{1C}', '\U{1D}', '\U{1E}', '\U{1F}', '\U{85}', '\U{A0}'}
    || c in {'\U{1680}', '\U{2028}', '\U{2029}', '\U{202F}', '\U{205F}', '\U{3000}'}
    || '\U{2000}' <= c <= '\U{200A}'
  }

  predicate NoBreak(s: string) { forall i :: 0 <= i < |s| ==> !IsBreak(s[i]) }

  /** The length of the first line, its boundary included. */
  function LineLen(text: string): (n: nat)
    ensures n <= |text| && (text != [] ==> n > 0)
    ensures forall i | 0 <= i < n - 1 :: !IsBreak(text[i])
    ensures 0 < n < |text| ==> IsBreak(text[n - 1])
  {
    if text == [] then 0
    else if IsBreak(text[0]) then 1
    else
      var n := LineLen(text[1..]);
      assert forall i | 0 <= i < n :: text[1..][i] == text[i + 1];
      1 + n
  }

  function SplitLines(text: string): seq<string>
    decreases |text|
  {
    if text == [] then [] else [text[..LineLen(text)]] + SplitLines(text[LineLen(text)..])
  }

  function Concat(lines: seq<string>): string {
    if lines == [] then [] else lines[0] + Concat(lines[1..])
  }

  lemma SplitTurn(text: string)
    requires text != []
    ensures SplitLines(text) == [text[..LineLen(text)]] + SplitLines(text[LineLen(text)..])
    ensures SplitLines(text)[1..] == SplitLines(text[LineLen(text)..])
  {
    hide LineLen;
  }

  lemma {:induction false} ConcatSplitLines(text: string)
    ensures Concat(SplitLines(text)) == text
    decreases |text|
  {
    hide LineLen;
    if text != [] {
      var n := LineLen(text);
      ConcatSplitLines(text[n..]);
      SplitTurn(text);
      assert text == text[..n] + text[n..];
    }
  }

  /** `rstrip("\n")`. */
  function TrimNewlines(s: string): string {
    if s != [] && s[|s| - 1] == '\n' then TrimNewlines(s[..|s| - 1]) else s
  }

  /** The line number after a text, given the one it starts on. */
  function Breaks(s: string): nat {
    if s == [] then 0 else Breaks(s[1..]) + (if IsBreak(s[0]) then 1 else 0)
  }

  lemma {:induction false} BreaksAppend(a: string, b: string)
    ensures Breaks(a + b) == Breaks(a) + Breaks(b)
  {
    if a == [] {
      assert a + b == b;
    } else {
      BreaksAppend(a[1..], b);
      assert (a + b)[1..] == a[1..] + b && (a + b)[0] == a[0];
    }
  }

  lemma {:induction false} BreaksNone(s: string)
    requires NoBreak(s)
    ensures Breaks(s) == 0
  {
    if s != [] {
      BreaksNone(s[1..]);
    }
  }

  /** The first line of a text that starts with a break-free piece contains that piece. */
  lemma {:induction false} LineLenAppend(a: string, b: string)
    requires NoBreak(a)
    ensures LineLen(a + b) == |a| + LineLen(b)
  {
    if a == [] {
      assert a + b == b;
    } else {
      LineLenAppend(a[1..], b);
      assert (a + b)[1..] == a[1..] + b && (a + b)[0] == a[0];
    }
  }

  /** Looking ahead within the first line is looking ahead in the text, for a break-free pattern. */
  lemma {:induction false} LineStartsWith(p: string, text: string)
    requires NoBreak(p)
    ensures p <= text[..LineLen(text)] <==> p <= text
  {
    if p <= text {
      LineLenAppend(p, text[|p|..]);
      assert text == p + text[|p|..];
      assert text[..LineLen(text)][..|p|] == text[..|p|];
    }
    if p <= text[..LineLen(text)] {
      assert text[..LineLen(text)][..|p|] == text[..|p|];
    }
  }

  /** Lines as a file has them: none is empty, and all but the last end in their only line break. */
  predicate Whole(lines: seq<string>) {
    && (forall k | 0 <= k < |lines| :: lines[k] != [] && NoBreak(lines[k][..|lines[k]| - 1]))
    && (forall k | 0 <= k < |lines| - 1 :: IsBreak(lines[k][|lines[k]| - 1]))
  }

  lemma FirstLineWhole(text: string)
    requires text != []
    ensures NoBreak(text[..LineLen(text)][..LineLen(text) - 1])
    ensures LineLen(text) < |text| ==> IsBreak(text[..LineLen(text)][LineLen(text) - 1])
  {
    hide LineLen;
  }

  lemma WholeCons(line: string, lines: seq<string>)
    requires Whole(lines) && line != [] && NoBreak(line[..|line| - 1])
    requires lines != [] ==> IsBreak(line[|line| - 1])
    ensures Whole([line] + lines)
  {
    hide NoBreak, IsBreak;
  }

  lemma {:induction false} SplitLinesWhole(text: string)
    ensures Whole(SplitLines(text))
    decreases |text|
  {
    hide LineLen, Whole, NoBreak, IsBreak;
    if text == [] {
      WholeNone();
    } else {
      var n := LineLen(text);
      SplitLinesWhole(text[n..]);
      SplitTurn(text);
      FirstLineWhole(text);
      WholeCons(text[..n], SplitLines(text[n..]));
    }
  }

  lemma WholeNone()
    ensures Whole([])
  {
  }

  /** The text is empty or its last line is complete. */
  predicate Terminated(text: string) { text == [] || IsBreak(text[|text| - 1]) }

  lemma LineLenBreak(text: string)
    requires text != [] && IsBreak(text[0])
    ensures LineLen(text) == 1
  {
  }

  /** A complete first line stays the first line whatever follows. */
  lemma FirstLineKept(x: string, y: string)
    requires x != [] && IsBreak(x[LineLen(x) - 1])
    ensures LineLen(x + y) == LineLen(x)
  {
    hide LineLen, IsBreak;
    var m := LineLen(x);
    var body, tail := x[..m - 1], x[m - 1..] + y;
    assert forall i | 0 <= i < |body| :: body[i] == x[i];
    assert NoBreak(body);
    LineLenAppend(body, tail);
    assert x + y == body + tail && tail[0] == x[m - 1];
    LineLenBreak(tail);
  }

  lemma {:induction false} SplitAppend(x: string, y: string)
    requires Terminated(x)
    ensures SplitLines(x + y) == SplitLines(x) + SplitLines(y)
    decreases |x|
  {
    hide LineLen, SplitLines, Terminated, IsBreak;
    if x == [] {
      SplitNothing();
      assert x + y == y;
    } else {
      var n := LineLen(x);
      TerminatedLines(x);
      FirstLineKept(x, y);
      SplitTurn(x);
      SplitTurn(x + y);
      CutAppend(x, y, n);
      SplitAppend(x[n..], y);
      Regroup([x[..n]], SplitLines(x[n..]), SplitLines(y));
    }
  }

  lemma SplitNothing()
    ensures SplitLines([]) == []
  {
  }

  lemma TerminatedLines(x: string)
    requires Terminated(x) && x != []
    ensures IsBreak(x[LineLen(x) - 1]) && Terminated(x[LineLen(x)..])
  {
    hide LineLen, IsBreak;
  }

  lemma LineLenWhole(line: string)
    requires line != [] && NoBreak(line[..|line| - 1])
    ensures LineLen(line) == |line| && SplitLines(line) == [line]
  {
    var k := |line| - 1;
    LineLenAppend(line[..k], line[k..]);
    assert line == line[..k] + line[k..];
    SplitTurn(line);
    assert line[|line|..] == [] && line[..|line|] == line;
  }

  /** Cutting the joined lines of a file gives the lines back. */
  lemma {:induction false} SplitConcat(lines: seq<string>)
    requires Whole(lines)
    ensures SplitLines(Concat(lines)) == lines
  {
    hide LineLen, NoBreak;
    if lines != [] {
      var line, rest := lines[0], lines[1..];
      assert Whole(rest) by { assert forall k | 0 <= k < |rest| :: rest[k] == lines[k + 1]; }
      SplitConcat(rest);
      LineLenWhole(line);
      if rest == [] {
        assert line + "" == line && lines == [line];
      } else {
        SplitAppend(line, Concat(rest));
      }
    }
  }

  // ----- Scanning -----

  /** The number of the line a character ends on. */
  function NextLine(n: nat, c: char): nat { if IsBreak(c) then n + 1 else n }

  function Drop(s: string, k: nat): string { if k <= |s| then s[k..] else [] }

  lemma DropAll(line: string, i: nat)
    requires i <= |line|
    ensures Drop(line, i) == line[i..]
  {
  }

  lemma {:induction false} LineLenRest(t: string, k: nat)
    requires k < LineLen(t)
    ensures LineLen(t[k..]) == LineLen(t) - k
  {
    if k > 0 {
      LineLenRest(t[1..], k - 1);
      assert t[k..] == t[1..][k - 1..];
    }
  }

  lemma BreakAlone(c: char)
    ensures Breaks([c]) == if IsBreak(c) then 1 else 0
  {
    assert [c][1..] == [];
  }

  lemma NotPrefix(p: string, s: string)
    requires p != [] && s != [] && p[0] != s[0]
    ensures !(p <= s)
  {
  }

  lemma PrefixRest(p: string, k: nat, text: string)
    requires k <= |p|
    ensures p <= text ==> |p| <= |text| && p[k..] <= text[k..] && forall i | 0 <= i < |p| :: p[i] == text[i]
  {
  }

  lemma {:induction false} TrimNothing(s: string)
    requires NoBreak(s)
    ensures TrimNewlines(s) == s && TrimNewlines(s + "\n") == s
  {
    assert (s + "\n")[..|s|] == s;
  }

}
