/**
 Here-document operators of `backend/scripts/ci/comment_hygiene_gate.py` (`parse_shell_heredoc`): quote removal on
 the delimiter word, and the spellings a script may use for a delimiter (POSIX Shell Command Language, sections 2.2
 and 2.7.4).
 */
module ShellHeredoc {
  import opened Wrappers

  datatype Quote = Unquoted | Single | Double

  datatype Heredoc = Heredoc(delimiter: string, stripTabs: bool)

  /** Characters that end an unquoted word. */
  predicate EndsWord(c: char) {
    c in {' ', '\t', '\r', '\n', ';', '|', '&', '(', ')', '<', '>', '#'}
  }

  /** Characters a backslash escapes between double quotes, the newline apart. */
  predicate DoubleSpecial(c: char) { c in {'$', '`', '"', '\\'} }

  function Prepend(prefix: string, r: Option<(string, string)>): Option<(string, string)> {
    match r
    case None => None
    case Some((word, rest)) => Some((prefix + word, rest))
  }

  /** Quote removal: the word at the start of a text and what follows it; None when a quote is left open. */
  function Word(s: string, quote: Quote): Option<(string, string)>
    decreases |s|
  {
    if s == [] then (if quote == Unquoted then Some(("", "")) else None)
    else
      match quote
      case Single => if s[0] == '\'' then Word(s[1..], Unquoted) else Prepend([s[0]], Word(s[1..], Single))
      case Double =>
        if s[0] == '"' then Word(s[1..], Unquoted)
        else if s[0] == '\\' && |s| > 1 then
          Prepend(if DoubleSpecial(s[1]) then [s[1]] else if s[1] == '\n' then "" else s[..2], Word(s[2..], Double))
        else Prepend([s[0]], Word(s[1..], Double))
      case Unquoted =>
        if EndsWord(s[0]) then Some(("", s))
        else if s[0] == '\'' then Word(s[1..], Single)
        else if s[0] == '"' then Word(s[1..], Double)
        else if s[0] == '\\' && |s| > 1 then Prepend([s[1]], Word(s[2..], Unquoted))
        else Prepend([s[0]], Word(s[1..], Unquoted))
  }

  function SkipBlanks(s: string): string {
    if s != [] && s[0] in {' ', '\t'} then SkipBlanks(s[1..]) else s
  }

  /** The operator at the start of `s`, given the character before it. */
  function ParseHeredoc(prev: Option<char>, s: string): Option<(Heredoc, string)> {
    if !("<<" <= s) || "<<<" <= s || prev == Some('<') then None
    else
      var stripTabs := |s| > 2 && s[2] == '-';
      match Word(SkipBlanks(s[if stripTabs then 3 else 2..]), Unquoted)
      case None => None
      case Some((delimiter, rest)) => if delimiter == [] then None else Some((Heredoc(delimiter, stripTabs), rest))
  }

  /** What follows the word is a suffix of the text. */
  predicate LeavesSuffix(s: string, r: Option<(string, string)>) {
    r.Some? ==> |r.value.1| <= |s| && r.value.1 == s[|s| - |r.value.1|..]
  }

  lemma SuffixOnward(s: string, k: nat, r: Option<(string, string)>)
    requires k <= |s| && LeavesSuffix(s[k..], r)
    ensures LeavesSuffix(s, r) && forall prefix: string :: LeavesSuffix(s, Prepend(prefix, r))
  {
  }

  lemma {:induction false} WordLeavesSuffix(s: string, quote: Quote)
    ensures LeavesSuffix(s, Word(s, quote))
    decreases |s|
  {
    hide LeavesSuffix, Prepend, EndsWord, DoubleSpecial;
    if s == [] || (quote == Unquoted && EndsWord(s[0])) {
      WordEmpty(s, quote);
    } else if quote != Single && s[0] == '\\' && |s| > 1 {
      WordLeavesSuffix(s[2..], quote);
      SuffixOnward(s, 2, Word(s[2..], quote));
    } else {
      var next := QuoteAfter(s[0], quote);
      WordLeavesSuffix(s[1..], next);
      SuffixOnward(s, 1, Word(s[1..], next));
    }
  }

  function QuoteAfter(c: char, quote: Quote): Quote {
    match quote
    case Unquoted => if c == '\'' then Single else if c == '"' then Double else Unquoted
    case Single => if c == '\'' then Unquoted else Single
    case Double => if c == '"' then Unquoted else Double
  }

  lemma WordEmpty(s: string, quote: Quote)
    requires s == [] || (quote == Unquoted && EndsWord(s[0]))
    ensures LeavesSuffix(s, Word(s, quote))
  {
  }

  lemma {:induction false} BlanksLeaveSuffix(s: string)
    ensures |SkipBlanks(s)| <= |s| && SkipBlanks(s) == s[|s| - |SkipBlanks(s)|..]
  {
    if s != [] && s[0] in {' ', '\t'} {
      BlanksLeaveSuffix(s[1..]);
    }
  }

  lemma ParseLeavesSuffix(prev: Option<char>, s: string)
    ensures match ParseHeredoc(prev, s)
      case None => true
      case Some((_, rest)) => |rest| < |s| && rest == s[|s| - |rest|..]
  {
    hide Word, SkipBlanks, EndsWord;
    if "<<" <= s {
      var t := s[if |s| > 2 && s[2] == '-' then 3 else 2..];
      BlanksLeaveSuffix(t);
      WordLeavesSuffix(SkipBlanks(t), Unquoted);
    }
  }

  // ----- The parser as written -----

  /** The delimiter word from `start` on, its quotes removed; the quote left open, if any. */
  method ReadDelimiter(line: string, start: nat) returns (delimiter: string, quote: Quote, i: nat)
    requires start <= |line|
    ensures start <= i <= |line|
    ensures Word(line[start..], Unquoted) == if quote == Unquoted then Some((delimiter, line[i..])) else None
  {
    ghost var word := line[start..];
    delimiter, quote, i := "", Unquoted, start;
    PrependNothing(Word(word, Unquoted));
    while i < |line|
      invariant start <= i <= |line|
      invariant Word(word, Unquoted) == Prepend(delimiter, Word(line[i..], quote))
    {
      ghost var tail := line[i..];
      assert tail[1..] == line[i + 1..] && tail[0] == line[i];
      assert i + 1 < |line| ==>
        tail[2..] == line[i + 2..] && tail[1] == line[i + 1] && tail[..2] == [line[i], line[i + 1]];
      ghost var before, was := delimiter, quote;
      var ch := line[i];
      if quote == Single {
        if ch == '\'' {
          quote := Unquoted;
        } else {
          delimiter := delimiter + [ch];
        }
        i := i + 1;
      } else if quote == Double {
        if ch == '"' {
          quote := Unquoted;
          i := i + 1;
        } else if ch == '\\' && i + 1 < |line| {
          var nxt := line[i + 1];
          if DoubleSpecial(nxt) || nxt == '\n' {
            if nxt != '\n' {
              delimiter := delimiter + [nxt];
            }
          } else {
            delimiter := delimiter + ['\\', nxt];
          }
          i := i + 2;
        } else {
          delimiter := delimiter + [ch];
          i := i + 1;
        }
      } else if EndsWord(ch) {
        break;
      } else if ch == '\'' {
        quote := Single;
        i := i + 1;
      } else if ch == '"' {
        quote := Double;
        i := i + 1;
      } else if ch == '\\' && i + 1 < |line| {
        delimiter := delimiter + [line[i + 1]];
        i := i + 2;
      } else {
        delimiter := delimiter + [ch];
        i := i + 1;
      }
      ghost var piece := delimiter[|before|..];
      assert delimiter == before + piece;
      assert Word(tail, was) == Prepend(piece, Word(line[i..], quote)) by {
        PrependNothing(Word(line[i..], quote));
      }
      PrependTwice(before, piece, Word(line[i..], quote));
    }
    assert i == |line| ==> line[i..] == [];
    assert delimiter + "" == delimiter;
  }

  lemma PrependNothing(r: Option<(string, string)>)
    ensures Prepend("", r) == r
  {
    if r.Some? {
      assert "" + r.value.0 == r.value.0;
    }
  }

  method ParseShellHeredoc(line: string, start: nat) returns (parsed: Option<(Heredoc, nat)>)
    requires start < |line|
    ensures match ParseHeredoc(if start == 0 then None else Some(line[start - 1]), line[start..])
      case None => parsed == None
      case Some((heredoc, rest)) =>
        parsed.Some? && parsed.value.0 == heredoc && start < parsed.value.1 <= |line| && line[parsed.value.1..] == rest
  {
    if !("<<" <= line[start..]) || "<<<" <= line[start..] {
      return None;
    }
    if start > 0 && line[start - 1] == '<' {
      return None;
    }
    var i := start + 2;
    assert line[start..][2..] == line[i..];
    var stripTabs := i < |line| && line[i] == '-';
    if stripTabs {
      assert line[start..][3..] == line[i + 1..];
      i := i + 1;
    }
    ghost var unskipped := line[i..];
    while i < |line| && line[i] in {' ', '\t'}
      invariant start + 2 <= i <= |line|
      invariant SkipBlanks(line[i..]) == SkipBlanks(unskipped)
    {
      assert line[i..][1..] == line[i + 1..];
      i := i + 1;
    }
    var delimiter, quote;
    delimiter, quote, i := ReadDelimiter(line, i);
    if quote != Unquoted || delimiter == [] {
      return None;
    }
    return Some((Heredoc(delimiter, stripTabs), i));
  }

  lemma PrependTwice(a: string, b: string, r: Option<(string, string)>)
    ensures Prepend(a, Prepend(b, r)) == Prepend(a + b, r)
  {
    if r.Some? {
      assert a + (b + r.value.0) == (a + b) + r.value.0;
    }
  }

  // ----- Spellings -----

  function SingleQuoted(d: string): string { "'" + d + "'" }

  function EscapeDouble(d: string): string {
    if d == [] then ""
    else (if d[0] in "$`\"\\" then "\\" + [d[0]] else [d[0]]) + EscapeDouble(d[1..])
  }

  function DoubleQuoted(d: string): string { "\"" + EscapeDouble(d) + "\"" }

  function Backslashed(d: string): string {
    if d == [] then "" else "\\" + [d[0]] + Backslashed(d[1..])
  }

  /** White space and the characters of operators and comments. */
  const METACHARACTERS := " \t\r\n;|&()<>#"

  predicate IsBare(d: string) {
    forall i :: 0 <= i < |d| ==> d[i] !in METACHARACTERS && d[i] !in {'\'', '"', '\\'}
  }

  /** The ways to write a delimiter: between quotes of either kind, with every character escaped, or bare. */
  predicate Spells(spelling: string, d: string) {
    || (spelling == SingleQuoted(d) && '\'' !in d)
    || spelling == DoubleQuoted(d)
    || spelling == Backslashed(d)
    || (spelling == d && IsBare(d))
  }

  predicate WordEnds(after: string) { after == [] || after[0] in METACHARACTERS }

  lemma WordStops(after: string)
    requires WordEnds(after)
    ensures Word(after, Unquoted) == Some(("", after))
  {
  }

  lemma {:induction false} ReadSingle(d: string, after: string)
    requires '\'' !in d && WordEnds(after)
    ensures Word(d + "'" + after, Single) == Some((d, after))
  {
    var s := d + "'" + after;
    if d == [] {
      assert s[1..] == after;
      WordStops(after);
    } else {
      ReadSingle(d[1..], after);
      assert s[1..] == d[1..] + "'" + after;
      assert [d[0]] + d[1..] == d;
    }
  }

  lemma {:induction false} ReadDouble(d: string, after: string)
    requires WordEnds(after)
    ensures Word(EscapeDouble(d) + "\"" + after, Double) == Some((d, after))
  {
    var s := EscapeDouble(d) + "\"" + after;
    if d == [] {
      assert s[1..] == after;
      WordStops(after);
    } else {
      ReadDouble(d[1..], after);
      var k := if d[0] in "$`\"\\" then 2 else 1;
      assert s[k..] == EscapeDouble(d[1..]) + "\"" + after;
      assert [d[0]] + d[1..] == d;
      if k == 2 {
        assert s[0] == '\\' && s[1] == d[0];
      } else {
        assert s[0] == d[0];
      }
    }
  }

  lemma {:induction false} ReadBackslashed(d: string, after: string)
    requires WordEnds(after)
    ensures Word(Backslashed(d) + after, Unquoted) == Some((d, after))
  {
    var s := Backslashed(d) + after;
    if d == [] {
      assert s == after;
      WordStops(after);
    } else {
      ReadBackslashed(d[1..], after);
      assert s[0] == '\\' && s[1] == d[0] && s[2..] == Backslashed(d[1..]) + after;
      assert [d[0]] + d[1..] == d;
    }
  }

  lemma {:induction false} ReadBare(d: string, after: string)
    requires IsBare(d) && WordEnds(after)
    ensures Word(d + after, Unquoted) == Some((d, after))
  {
    if d == [] {
      assert d + after == after;
      WordStops(after);
    } else {
      ReadBare(d[1..], after);
      assert (d + after)[1..] == d[1..] + after && (d + after)[0] == d[0];
      assert [d[0]] + d[1..] == d;
    }
  }

  lemma QuoteOpens(s: string)
    ensures s != "" && s[0] == '\'' ==> Word(s, Unquoted) == Word(s[1..], Single)
    ensures s != "" && s[0] == '"' ==> Word(s, Unquoted) == Word(s[1..], Double)
  {
  }

  /** Quote removal undoes every spelling and stops just past it. */
  lemma SpellingReads(spelling: string, d: string, after: string)
    requires Spells(spelling, d) && WordEnds(after)
    ensures Word(spelling + after, Unquoted) == Some((d, after))
  {
    hide EscapeDouble, Backslashed, Word, WordEnds, IsBare;
    var s := spelling + after;
    QuoteOpens(s);
    if spelling == SingleQuoted(d) && '\'' !in d {
      ReadSingle(d, after);
      assert s[0] == '\'' && s[1..] == d + "'" + after;
    } else if spelling == DoubleQuoted(d) {
      ReadDouble(d, after);
      assert s[0] == '"' && s[1..] == EscapeDouble(d) + "\"" + after;
    } else if spelling == Backslashed(d) {
      ReadBackslashed(d, after);
    } else {
      ReadBare(d, after);
    }
  }

  predicate AllBlank(s: string) { forall i :: 0 <= i < |s| ==> s[i] in {' ', '\t'} }

  lemma {:induction false} SkipsBlanks(blanks: string, s: string)
    requires AllBlank(blanks) && (s != [] ==> s[0] !in {' ', '\t'})
    ensures SkipBlanks(blanks + s) == s
  {
    if blanks == [] {
      assert blanks + s == s;
    } else {
      SkipsBlanks(blanks[1..], s);
      assert (blanks + s)[1..] == blanks[1..] + s;
    }
  }

  function Operator(stripTabs: bool, blanks: string, spelling: string): string {
    "<<" + (if stripTabs then "-" else "") + blanks + spelling
  }

  lemma {:induction false} SpellingStart(spelling: string, d: string)
    requires Spells(spelling, d) && d != []
    ensures spelling != [] && spelling[0] !in {' ', '\t', '<'}
  {
  }

  /**
   Every spelling of every non-empty delimiter is read back, with the cursor just past it, after either operator. A bare
   word may not be mistaken for the tab-stripping operator's dash.
   */
  lemma OperatorRoundTrip(prev: Option<char>, stripTabs: bool, blanks: string, spelling: string, d: string,
      after: string)
    requires Spells(spelling, d) && d != [] && AllBlank(blanks) && WordEnds(after) && prev != Some('<')
    requires !stripTabs && blanks == [] ==> spelling[..1] != "-"
    ensures ParseHeredoc(prev, Operator(stripTabs, blanks, spelling) + after) == Some((Heredoc(d, stripTabs), after))
  {
    hide Word, SkipBlanks, Spells;
    SpellingStart(spelling, d);
    SpellingReads(spelling, d, after);
    SkipsBlanks(blanks, spelling + after);
    var s := Operator(stripTabs, blanks, spelling) + after;
    var k := if stripTabs then 3 else 2;
    assert s[k..] == blanks + (spelling + after);
    assert s[..2] == "<<";
    assert s[2] == if stripTabs then '-' else if blanks != [] then blanks[0] else spelling[0];
  }

}
