/**
 The line wrapper of the help overlay (`backend/apps/omnescode/src/app.rs`, `soft_wrap`). It is greedy: no breaking
 of the same words into lines that fit, or hold a single word, has fewer lines.
 */
module SoftWrap {
  import opened Fields
  import opened Sequences

  /** Rust's `char::is_whitespace`. */
  predicate IsWhite(c: char) {
    || '\t' <= c <= '\r'
      || c in {' ', '\U{85}', '\U{A0}', '\U{1680}', '\U{2028}', '\U{2029}', '\U{202F}', '\U{205F}', '\U{3000}'}
    || '\U{2000}' <= c <= '\U{200A}'
  }

  // ----- Words -----

  function WordLen(s: string): (n: nat)
    ensures n <= |s| && (s != [] && !IsWhite(s[0]) ==> n > 0)
    ensures forall i | 0 <= i < n :: !IsWhite(s[i])
    ensures n < |s| ==> IsWhite(s[n])
  {
    if s == [] || IsWhite(s[0]) then 0 else
      assert forall i | 0 <= i < |s[1..]| :: s[1..][i] == s[i + 1];
      1 + WordLen(s[1..])
  }

  /** `split_whitespace`: the longest runs without white space, in order. */
  function Words(s: string): seq<string>
    decreases |s|
  {
    if s == [] then []
    else if IsWhite(s[0]) then Words(s[1..])
    else [s[..WordLen(s)]] + Words(s[WordLen(s)..])
  }

  predicate IsWord(w: string) { w != [] && forall i | 0 <= i < |w| :: !IsWhite(w[i]) }

  predicate AllWords(words: seq<string>) { forall i | 0 <= i < |words| :: IsWord(words[i]) }

  lemma {:induction false} WordsAreWords(s: string)
    ensures AllWords(Words(s))
    decreases |s|
  {
    if s != [] {
      if IsWhite(s[0]) {
        WordsAreWords(s[1..]);
      } else {
        WordsAreWords(s[WordLen(s)..]);
      }
    }
  }

  lemma {:induction false} WordLenThen(w: string, rest: string)
    requires (forall i | 0 <= i < |w| :: !IsWhite(w[i])) && (rest != [] ==> IsWhite(rest[0]))
    ensures WordLen(w + rest) == |w|
  {
    if w == [] {
      assert w + rest == rest;
    } else {
      assert (w + rest)[0] == w[0] && (w + rest)[1..] == w[1..] + rest;
      WordLenThen(w[1..], rest);
    }
  }

  /** A word and white space after it give that word and then the words of the rest. */
  lemma FirstWord(w: string, rest: string)
    requires IsWord(w) && (rest != [] ==> IsWhite(rest[0]))
    ensures Words(w + rest) == [w] + Words(rest)
  {
    WordLenThen(w, rest);
    assert (w + rest)[0] == w[0] && (w + rest)[..|w|] == w && (w + rest)[|w|..] == rest;
  }

  /** White space separates words. */
  lemma {:induction false} WordsSeparate(a: string, c: char, b: string)
    requires IsWhite(c)
    ensures Words(a + [c] + b) == Words(a) + Words(b)
    decreases |a|
  {
    hide IsWhite, WordLen;
    var all := a + [c] + b;
    if a == [] {
      assert all == [c] + b && all[1..] == b && all[0] == c;
    } else if IsWhite(a[0]) {
      assert all[0] == a[0] && all[1..] == a[1..] + [c] + b;
      WordsSeparate(a[1..], c, b);
    } else {
      var n := WordLen(a);
      var tail := a[n..] + [c] + b;
      assert all == a[..n] + tail && a == a[..n] + a[n..];
      FirstWord(a[..n], tail);
      FirstWord(a[..n], a[n..]);
      WordsSeparate(a[n..], c, b);
      Regroup([a[..n]], Words(a[n..]), Words(b));
    }
  }

  function AllWordsOf(lines: seq<string>): seq<string> {
    if lines == [] then [] else Words(lines[0]) + AllWordsOf(lines[1..])
  }

  lemma {:induction false} AllWordsOfAppend(a: seq<string>, b: seq<string>)
    ensures AllWordsOf(a + b) == AllWordsOf(a) + AllWordsOf(b)
  {
    hide Words;
    if a == [] {
      assert a + b == b;
    } else {
      AllWordsOfAppend(a[1..], b);
      assert (a + b)[0] == a[0] && (a + b)[1..] == a[1..] + b;
      Regroup(Words(a[0]), AllWordsOf(a[1..]), AllWordsOf(b));
    }
  }

  /** The paragraphs of a text hold its words. */
  lemma {:induction false} ParagraphWords(text: string)
    ensures AllWordsOf(SplitOn(text, '\n')) == Words(text)
    decreases |text|
  {
    hide Words;
    if '\n' !in text {
      SplitOnField(text, '\n', []);
      OneLine(text);
    } else {
      var i := FirstIndex(text, '\n');
      var f, tail := text[..i], text[i + 1..];
      assert text == f + ['\n'] + tail;
      SplitOnField(f, '\n', tail);
      ParagraphWords(tail);
      WordsSeparate(f, '\n', tail);
      AllWordsOfAppend([f], SplitOn(tail, '\n'));
      OneLine(f);
    }
  }

  lemma OneLine(line: string)
    ensures AllWordsOf([line]) == Words(line)
  {
    assert [line][1..] == [];
    assert Words(line) + [] == Words(line);
  }

  function FirstIndex(s: string, c: char): (i: nat)
    requires c in s
    ensures i < |s| && s[i] == c && c !in s[..i]
  {
    if s[0] == c then 0 else
      var i := FirstIndex(s[1..], c);
      assert s[..i + 1] == [s[0]] + s[1..][..i];
      1 + i
  }

  // ----- Lines -----

  /** Rust strings are measured in UTF-8 bytes. */
  function Utf8Len(s: string): nat {
    if s == [] then 0
    else
      (if s[0] < '\U{80}' then 1 else if s[0] < '\U{800}' then 2 else if s[0] < '\U{10000}' then 3
        else 4) + Utf8Len(s[1..])
  }

  function AtLeast(s: string, c: char): nat {
    if s == [] then 0 else (if s[0] >= c then 1 else 0) + AtLeast(s[1..], c)
  }

  /** A byte for every character, and one more from each of three bounds on. */
  lemma {:induction false} Utf8LenBytes(s: string)
    ensures Utf8Len(s) == |s| + AtLeast(s, '\U{80}') + AtLeast(s, '\U{800}') + AtLeast(s, '\U{10000}')
  {
    if s != [] {
      Utf8LenBytes(s[1..]);
    }
  }

  lemma {:induction false} Utf8LenAppend(a: string, b: string)
    ensures Utf8Len(a + b) == Utf8Len(a) + Utf8Len(b)
  {
    if a == [] {
      assert a + b == b;
    } else {
      Utf8LenAppend(a[1..], b);
      assert (a + b)[0] == a[0] && (a + b)[1..] == a[1..] + b;
    }
  }

  /** Words on one line, a space between each two. */
  function Line(group: seq<string>): string {
    if group == [] then [] else if |group| == 1 then group[0] else Line(group[..|group| - 1]) + " " + group[|group| - 1]
  }

  /** What a line may hold: one word of any length, or words that fit. */
  predicate Acceptable(group: seq<string>, width: nat) {
    |group| == 1 || (|group| > 1 && Utf8Len(Line(group)) <= width)
  }

  function Flat(groups: seq<seq<string>>): seq<string> {
    if groups == [] then [] else groups[0] + Flat(groups[1..])
  }

  /** A breaking of the words, in order, into lines that may be. */
  predicate Breaks(groups: seq<seq<string>>, words: seq<string>, width: nat) {
    Flat(groups) == words && forall i | 0 <= i < |groups| :: Acceptable(groups[i], width)
  }

  /** The wrapper's breaking, with a line begun. */
  function Wrap(current: seq<string>, words: seq<string>, width: nat): seq<seq<string>>
    decreases |words|
  {
    if words == [] then (if current == [] then [] else [current])
    else
      var w := words[0];
      if current == [] || Utf8Len(Line(current)) + 1 + Utf8Len(w) <= width then Wrap(current + [w], words[1..], width)
      else [current] + Wrap([w], words[1..], width)
  }

  function Lines(groups: seq<seq<string>>): seq<string> {
    if groups == [] then [] else [Line(groups[0])] + Lines(groups[1..])
  }

  // ----- The breaking is one -----

  lemma {:induction false} FlatAppend(a: seq<seq<string>>, b: seq<seq<string>>)
    ensures Flat(a + b) == Flat(a) + Flat(b)
  {
    if a == [] {
      assert a + b == b;
    } else {
      FlatAppend(a[1..], b);
      assert (a + b)[0] == a[0] && (a + b)[1..] == a[1..] + b;
      Regroup(a[0], Flat(a[1..]), Flat(b));
    }
  }

  lemma LineSnoc(group: seq<string>, w: string)
    ensures Line(group + [w]) == if group == [] then w else Line(group) + " " + w
    ensures group != [] ==> Utf8Len(Line(group + [w])) == Utf8Len(Line(group)) + 1 + Utf8Len(w)
  {
    assert (group + [w])[..|group|] == group;
    if group != [] {
      Utf8LenAppend(Line(group) + " ", w);
      Utf8LenAppend(Line(group), " ");
      assert " "[1..] == "";
    }
  }

  lemma BreaksCons(g: seq<string>, groups: seq<seq<string>>, words: seq<string>, width: nat)
    requires Acceptable(g, width) && Breaks(groups, words, width)
    ensures Breaks([g] + groups, g + words, width)
  {
    hide Acceptable;
    assert ([g] + groups)[1..] == groups;
  }

  /** The words are kept in order, and every line may be. */
  lemma {:induction false} WrapBreaks(current: seq<string>, words: seq<string>, width: nat)
    requires current == [] || Acceptable(current, width)
    ensures Breaks(Wrap(current, words, width), current + words, width)
    decreases |words|
  {
    hide Line, Utf8Len;
    if words == [] {
      assert current + words == current && [current] + [] == [current];
      if current != [] {
        BreaksCons(current, [], [], width);
      }
    } else {
      var w, rest := words[0], words[1..];
      assert current + words == current + [w] + rest;
      LineSnoc(current, w);
      if current == [] || Utf8Len(Line(current)) + 1 + Utf8Len(w) <= width {
        WrapBreaks(current + [w], rest, width);
      } else {
        WrapBreaks([w], rest, width);
        BreaksCons(current, Wrap([w], rest, width), [w] + rest, width);
        assert current + ([w] + rest) == current + words;
      }
    }
  }

  // ----- No breaking has fewer lines -----

  /** What words add to a line, each with its space. */
  function Extra(words: seq<string>): nat {
    if words == [] then 0 else 1 + Utf8Len(words[0]) + Extra(words[1..])
  }

  lemma {:induction false} ExtraAppend(a: seq<string>, b: seq<string>)
    ensures Extra(a + b) == Extra(a) + Extra(b)
  {
    hide Utf8Len;
    if a == [] {
      assert a + b == b;
    } else {
      ExtraAppend(a[1..], b);
      assert (a + b)[0] == a[0] && (a + b)[1..] == a[1..] + b;
    }
  }

  lemma {:induction false} LineLength(group: seq<string>)
    requires group != []
    ensures Utf8Len(Line(group)) == Utf8Len(group[0]) + Extra(group[1..])
    decreases |group|
  {
    if |group| > 1 {
      var front, last := group[..|group| - 1], group[|group| - 1];
      LineLength(front);
      assert group == front + [last];
      LineSnoc(front, last);
      assert group[1..] == front[1..] + [last] && [last][1..] == [];
      ExtraAppend(front[1..], [last]);
    } else {
      assert group[1..] == [];
    }
  }

  /** How many more words go on a line of the given length. */
  function More(length: nat, words: seq<string>, width: nat): (m: nat)
    ensures m <= |words|
    decreases |words|
  {
    if words == [] || length + 1 + Utf8Len(words[0]) > width then 0
    else 1 + More(length + 1 + Utf8Len(words[0]), words[1..], width)
  }

  lemma {:induction false} MoreAtLeast(length: nat, words: seq<string>, k: nat, width: nat)
    requires k <= |words| && (k > 0 ==> length + Extra(words[..k]) <= width)
    ensures More(length, words, width) >= k
    decreases k
  {
    hide Utf8Len;
    if k > 0 {
      assert words[..k][1..] == words[1..][..k - 1];
      MoreAtLeast(length + 1 + Utf8Len(words[0]), words[1..], k - 1, width);
    }
  }

  /** A line takes all the words it can, and the next one starts afresh. */
  lemma {:induction false} WrapHead(current: seq<string>, words: seq<string>, width: nat)
    requires current != []
    ensures var m := More(Utf8Len(Line(current)), words, width);
      Wrap(current, words, width) == [current + words[..m]] + Wrap([], words[m..], width)
    decreases |words|
  {
    hide Utf8Len, Line;
    var m := More(Utf8Len(Line(current)), words, width);
    if m == 0 {
      assert current + words[..0] == current && words[0..] == words;
      if words != [] {
        assert [] + [words[0]] == [words[0]];
      }
    } else {
      var w, rest := words[0], words[1..];
      LineSnoc(current, w);
      WrapHead(current + [w], rest, width);
      assert current + [w] + rest[..m - 1] == current + words[..m] && rest[m - 1..] == words[m..];
    }
  }

  /** From any word on, the wrapper needs no more lines than any breaking of all the words has. */
  lemma {:induction false} Fewest(groups: seq<seq<string>>, i: nat, width: nat)
    requires forall k | 0 <= k < |groups| :: Acceptable(groups[k], width)
    requires i <= |Flat(groups)|
    ensures |Wrap([], Flat(groups)[i..], width)| <= |groups|
    decreases |groups|
  {
    hide Utf8Len, Line, Wrap, More, Acceptable, Flat, Extra;
    if groups == [] {
      FlatNothing();
      WrapNothing(width);
      assert Flat(groups)[i..] == [];
    } else {
      var g, rest := groups[0], groups[1..];
      FlatFrom(groups, i);
      if i >= |g| {
        Fewest(rest, i - |g|, width);
      } else {
        FewestFrom(groups, i, width);
        var m := More(Utf8Len(g[i]), g[i + 1..] + Flat(rest), width);
        Fewest(rest, i + 1 + m - |g|, width);
      }
    }
  }

  /** A first line from inside the first group takes all of that group that is left. */
  lemma FewestFrom(groups: seq<seq<string>>, i: nat, width: nat)
    requires groups != [] && Acceptable(groups[0], width) && i < |groups[0]|
    ensures var (g, after) := (groups[0], Flat(groups[1..]));
      var m := More(Utf8Len(g[i]), g[i + 1..] + after, width);
      && |g| - i - 1 <= m <= |g| - i - 1 + |after| && i <= |Flat(groups)|
      && |Wrap([], Flat(groups)[i..], width)| == 1 + |Wrap([], after[i + 1 + m - |g|..], width)|
  {
    hide Utf8Len, Line, Wrap, More, Acceptable, Flat, Extra;
    var (g, after) := (groups[0], Flat(groups[1..]));
    var tail := g[i + 1..] + after;
    FlatFrom(groups, i);
    assert g[i..] + after == [g[i]] + tail;
    WrapFirst(g[i], tail, width);
    SuffixFits(g, i, width);
    assert tail[..|g| - i - 1] == g[i + 1..];
    MoreAtLeast(Utf8Len(g[i]), tail, |g| - i - 1, width);
    DropFirst(g[i + 1..], after, More(Utf8Len(g[i]), tail, width));
  }

  lemma FlatNothing()
    ensures Flat([]) == []
  {
  }

  /** The words from some word on, when it is in the first group and when it is later. */
  lemma FlatFrom(groups: seq<seq<string>>, i: nat)
    requires groups != []
    ensures var (g, after) := (groups[0], Flat(groups[1..]));
      && Flat(groups) == g + after
      && (i <= |g| ==> Flat(groups)[i..] == g[i..] + after)
      && (|g| <= i <= |g| + |after| ==> Flat(groups)[i..] == after[i - |g|..])
  {
  }

  lemma DropFirst<T>(a: seq<T>, b: seq<T>, m: nat)
    requires |a| <= m <= |a| + |b|
    ensures (a + b)[m..] == b[m - |a|..]
  {
  }

  lemma WrapNothing(width: nat)
    ensures Wrap([], [], width) == []
  {
  }

  lemma WrapFirst(w: string, tail: seq<string>, width: nat)
    ensures var m := More(Utf8Len(w), tail, width);
      Wrap([], [w] + tail, width) == [[w] + tail[..m]] + Wrap([], tail[m..], width)
  {
    hide Utf8Len, More;
    assert [] + [w] == [w] && ([w] + tail)[1..] == tail;
    assert Line([w]) == w;
    WrapHead([w], tail, width);
  }

  lemma SuffixFits(group: seq<string>, i: nat, width: nat)
    requires Acceptable(group, width) && i < |group|
    ensures i + 1 < |group| ==> Utf8Len(group[i]) + Extra(group[i + 1..]) <= width
  {
    hide Utf8Len, Line;
    if |group| > 1 {
      LineLength(group);
      if i > 0 {
        assert group[1..] == group[1..i] + group[i..];
        ExtraAppend(group[1..i], group[i..]);
      }
    }
  }

  /** For one paragraph: no breaking into lines that may be has fewer lines. */
  lemma NoFewerLines(groups: seq<seq<string>>, words: seq<string>, width: nat)
    requires Breaks(groups, words, width)
    ensures |Wrap([], words, width)| <= |groups|
  {
    hide Wrap, Acceptable;
    assert words[0..] == words;
    Fewest(groups, 0, width);
  }

  // ----- The whole text -----

  function WrapAll(paragraphs: seq<string>, width: nat): seq<seq<string>> {
    if paragraphs == [] then [] else Wrap([], Words(paragraphs[0]), width) + WrapAll(paragraphs[1..], width)
  }

  lemma {:induction false} LineWords(group: seq<string>)
    requires AllWords(group)
    ensures Words(Line(group)) == group && (group != [] ==> Line(group) != [])
    decreases |group|
  {
    hide Words, IsWord;
    NoWords();
    if group != [] {
      var front, last := group[..|group| - 1], group[|group| - 1];
      assert group == front + [last];
      LineWords(front);
      LineSnoc(front, last);
      WordAlone(last);
      WordsSeparate(Line(front), ' ', last);
      assert Line(front) + [' '] + last == Line(front) + " " + last;
    }
  }

  lemma NoWords()
    ensures Words([]) == []
  {
  }

  lemma WordAlone(w: string)
    requires IsWord(w)
    ensures Words(w) == [w] && w != []
  {
    FirstWord(w, []);
    assert w + [] == w && Words([]) == [];
  }

  lemma {:induction false} LinesWords(groups: seq<seq<string>>)
    requires AllWords(Flat(groups))
    ensures AllWordsOf(Lines(groups)) == Flat(groups)
    decreases |groups|
  {
    hide Words, Line, IsWord;
    if groups != [] {
      var g, rest := groups[0], groups[1..];
      assert forall i | 0 <= i < |g| :: Flat(groups)[i] == g[i];
      assert forall i | 0 <= i < |Flat(rest)| :: Flat(groups)[|g| + i] == Flat(rest)[i];
      LineWords(g);
      LinesWords(rest);
    }
  }

  lemma {:induction false} WrapAllBreaks(paragraphs: seq<string>, width: nat)
    ensures Breaks(WrapAll(paragraphs, width), AllWordsOf(paragraphs), width) && AllWords(AllWordsOf(paragraphs))
    decreases |paragraphs|
  {
    hide Wrap, Words, Acceptable, IsWord;
    if paragraphs != [] {
      var words := Words(paragraphs[0]);
      WordsAreWords(paragraphs[0]);
      WrapBreaks([], words, width);
      assert [] + words == words;
      WrapAllBreaks(paragraphs[1..], width);
      FlatAppend(Wrap([], words, width), WrapAll(paragraphs[1..], width));
    }
  }

  lemma LineAt(groups: seq<seq<string>>, i: nat)
    requires i < |groups|
    ensures |Lines(groups)| == |groups| && Lines(groups)[i] == Line(groups[i])
  {
    hide Line;
    if i > 0 {
      LineAt(groups[1..], i - 1);
    } else if |groups| > 1 {
      LineAt(groups[1..], 0);
    }
  }

  /** Every word of the text once and in order; each line fits or is one overlong word. */
  method SoftWrap(text: string, width: nat) returns (lines: seq<string>)
    ensures lines == Lines(WrapAll(SplitOn(text, '\n'), width))
    ensures AllWordsOf(lines) == Words(text)
    ensures forall i | 0 <= i < |lines| :: Utf8Len(lines[i]) <= width || |Words(lines[i])| == 1
  {
    hide Words, Wrap, Lines, SplitOn, Utf8Len, WrapAll;
    lines := [];
    var paragraphs := SplitOn(text, '\n');
    NoLines(width);
    for p := 0 to |paragraphs|
      invariant lines + Lines(WrapAll(paragraphs[p..], width)) == Lines(WrapAll(paragraphs, width))
    {
      WrapAllTurn(paragraphs, p, width);
      ghost var later := Lines(WrapAll(paragraphs[p + 1..], width));
      var more := WrapParagraph(paragraphs[p], width);
      Regroup(lines, more, later);
      lines := lines + more;
    }
    assert paragraphs[|paragraphs|..] == [];
    TextLinesFit(text, width);
  }

  lemma NoLines(width: nat)
    ensures Lines([]) == [] && WrapAll([], width) == []
  {
  }

  lemma {:induction false} LinesAppend(a: seq<seq<string>>, b: seq<seq<string>>)
    ensures Lines(a + b) == Lines(a) + Lines(b)
  {
    hide Line;
    if a == [] {
      assert a + b == b;
    } else {
      LinesAppend(a[1..], b);
      assert (a + b)[0] == a[0] && (a + b)[1..] == a[1..] + b;
      Regroup([Line(a[0])], Lines(a[1..]), Lines(b));
    }
  }

  lemma WrapAllTurn(paragraphs: seq<string>, p: nat, width: nat)
    requires p < |paragraphs|
    ensures Lines(WrapAll(paragraphs[p..], width)) ==
      Lines(Wrap([], Words(paragraphs[p]), width)) + Lines(WrapAll(paragraphs[p + 1..], width))
  {
    hide Words, Wrap, Lines;
    assert paragraphs[p..][1..] == paragraphs[p + 1..];
    LinesAppend(Wrap([], Words(paragraphs[p]), width), WrapAll(paragraphs[p + 1..], width));
  }

  lemma TextLinesFit(text: string, width: nat)
    ensures var lines := Lines(WrapAll(SplitOn(text, '\n'), width));
      && AllWordsOf(lines) == Words(text)
      && forall i | 0 <= i < |lines| :: Utf8Len(lines[i]) <= width || |Words(lines[i])| == 1
  {
    hide Words, Wrap, Lines, SplitOn, Utf8Len, WrapAll, Line, IsWord;
    var paragraphs := SplitOn(text, '\n');
    var groups := WrapAll(paragraphs, width);
    WrapAllBreaks(paragraphs, width);
    ParagraphWords(text);
    LinesWords(groups);
    forall i | 0 <= i < |Lines(groups)|
      ensures Utf8Len(Lines(groups)[i]) <= width || |Words(Lines(groups)[i])| == 1
    {
      if groups == [] {
        NoLines(width);
      } else {
        LineAt(groups, 0);
        LineAt(groups, i);
        GroupWords(groups, i);
        LineWords(groups[i]);
      }
    }
  }

  lemma {:induction false} GroupWords(groups: seq<seq<string>>, i: nat)
    requires AllWords(Flat(groups)) && i < |groups|
    ensures AllWords(groups[i])
  {
    hide IsWord;
    var g, rest := groups[0], groups[1..];
    assert forall k | 0 <= k < |g| :: Flat(groups)[k] == g[k];
    assert forall k | 0 <= k < |Flat(rest)| :: Flat(groups)[|g| + k] == Flat(rest)[k];
    if i > 0 {
      GroupWords(rest, i - 1);
    }
  }

  /** One paragraph, word by word. */
  method WrapParagraph(paragraph: string, width: nat) returns (lines: seq<string>)
    ensures lines == Lines(Wrap([], Words(paragraph), width))
  {
    hide Words, Lines, Line, Utf8Len, Wrap, IsWord;
    lines := [];
    var current := "";
    ghost var group: seq<string> := [];
    var words := Words(paragraph);
    WordsAreWords(paragraph);
    NoLine();
    NoLines(width);
    assert words[0..] == words;
    for i := 0 to |words|
      invariant current == Line(group) && (group == [] <==> current == "")
      invariant lines + Lines(Wrap(group, words[i..], width)) == Lines(Wrap([], words, width))
    {
      var word := words[i];
      ghost var rest := words[i + 1..];
      assert words[i..] == [word] + rest;
      Turn(group, word, rest, width);
      LineSnoc(group, word);
      WordNotEmpty(word);
      if current == "" {
        current := word;
        group := group + [word];
      } else if Utf8Len(current) + 1 + Utf8Len(word) <= width {
        current := current + " " + word;
        group := group + [word];
      } else {
        LinesAppend([group], Wrap([word], rest, width));
        Regroup(lines, [current], Lines(Wrap([word], rest, width)));
        lines := lines + [current];
        current := word;
        group := [word];
      }
    }
    LastTurn(group, width);
    if current != "" {
      lines := lines + [current];
    }
  }

  lemma NoLine()
    ensures Line([]) == ""
  {
  }

  lemma WordNotEmpty(w: string)
    requires IsWord(w)
    ensures w != "" && Line([w]) == w
  {
  }

  lemma Turn(group: seq<string>, word: string, rest: seq<string>, width: nat)
    ensures Wrap(group, [word] + rest, width) ==
      if group == [] || Utf8Len(Line(group)) + 1 + Utf8Len(word) <= width then Wrap(group + [word], rest, width)
      else [group] + Wrap([word], rest, width)
    ensures Lines([group]) == [Line(group)]
  {
    hide Utf8Len, Line;
    assert ([word] + rest)[1..] == rest;
    assert [group][1..] == [] && Lines([]) == [];
  }

  lemma LastTurn(group: seq<string>, width: nat)
    ensures Lines(Wrap(group, [], width)) == if group == [] then [] else [Line(group)]
  {
    hide Line;
    assert [group][1..] == [] && Lines([]) == [];
  }

  // ----- Optimality for the whole text -----

  function Total(breakings: seq<seq<seq<string>>>): nat {
    if breakings == [] then 0 else |breakings[0]| + Total(breakings[1..])
  }

  /** However each paragraph is broken into lines that may be, it takes no fewer lines in all. */
  lemma {:induction false} NoFewerLinesInAll(paragraphs: seq<string>, breakings: seq<seq<seq<string>>>, width: nat)
    requires |paragraphs| == |breakings|
    requires forall i | 0 <= i < |breakings| :: Breaks(breakings[i], Words(paragraphs[i]), width)
    ensures |WrapAll(paragraphs, width)| <= Total(breakings)
    decreases |paragraphs|
  {
    hide Words, Wrap, Breaks;
    if paragraphs != [] {
      NoFewerLines(breakings[0], Words(paragraphs[0]), width);
      NoFewerLinesInAll(paragraphs[1..], breakings[1..], width);
    }
  }
}
