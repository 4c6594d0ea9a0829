/**
 What one more typed character does to the help search. Lower-casing is Rust's `str::to_lowercase`: each character on
 its own, except that a capital sigma at the end of a word becomes a final sigma (The Unicode Standard, section
 3.13). So a longer query can show what the shorter one hid; exactly when, is said in terms of the query and the
 character.
 */
module HelpTyping {
  import opened HelpFilter
  import opened Sequences
  import opened SoftWrap

  const CAPITAL_SIGMA := '\U{03A3}'
  const SIGMA := '\U{03C3}'
  const FINAL_SIGMA := '\U{03C2}'

  /** The tables of Unicode that lower-casing reads. */
  datatype Alphabet = Alphabet(fold: char -> string, cased: char -> bool, ignorable: char -> bool)

  /** What holds of the tables as they are. */
  ghost predicate Laws(a: Alphabet) {
    && (forall c: char :: a.fold(c) != "")
    && (forall c, d: char | d in a.fold(c) && c != CAPITAL_SIGMA ::
          d != CAPITAL_SIGMA && a.fold(d) == [d] && (IsWhite(d) ==> IsWhite(c))
            && (d == FINAL_SIGMA ==> c == FINAL_SIGMA))
    && a.fold(SIGMA) == [SIGMA] && a.fold(FINAL_SIGMA) == [FINAL_SIGMA]
    && a.cased(CAPITAL_SIGMA) && !a.ignorable(CAPITAL_SIGMA) && !a.ignorable(FINAL_SIGMA)
    && (forall c: char | IsWhite(c) :: !a.cased(c) && !a.ignorable(c))
  }

  /** The first character that is not case-ignorable is cased. */
  predicate CasedAfter(a: Alphabet, s: string) {
    s != "" && if a.ignorable(s[0]) then CasedAfter(a, s[1..]) else a.cased(s[0])
  }

  predicate CasedBefore(a: Alphabet, s: string) {
    s != "" && if a.ignorable(s[|s| - 1]) then CasedBefore(a, s[..|s| - 1]) else a.cased(s[|s| - 1])
  }

  /** One character between what comes before and after it. */
  function LowerChar(a: Alphabet, before: string, c: char, after: string): string {
    if c != CAPITAL_SIGMA then a.fold(c)
    else if CasedBefore(a, before) && !CasedAfter(a, after) then [FINAL_SIGMA]
    else [SIGMA]
  }

  function LowerIn(a: Alphabet, before: string, s: string, after: string): string
    decreases |s|
  {
    if s == "" then ""
    else LowerChar(a, before, s[0], s[1..] + after) + LowerIn(a, before + [s[0]], s[1..], after)
  }

  /** `str::to_lowercase`. */
  function LowerCase(a: Alphabet): Lower { s => LowerIn(a, "", s, "") }

  // ----- Lower-casing settles -----

  predicate Lowered(a: Alphabet, s: string) {
    forall i | 0 <= i < |s| :: s[i] != CAPITAL_SIGMA && a.fold(s[i]) == [s[i]]
  }

  lemma CharLowered(a: Alphabet, before: string, c: char, after: string)
    requires Laws(a)
    ensures var r := LowerChar(a, before, c, after);
      Lowered(a, r) && r != "" && (!IsWhite(c) ==> forall i | 0 <= i < |r| :: !IsWhite(r[i]))
  {
    hide IsWhite, CasedBefore, CasedAfter;
    assert !IsWhite(SIGMA) && !IsWhite(FINAL_SIGMA) by { SigmasNotWhite(); }
  }

  lemma SigmasNotWhite()
    ensures !IsWhite(SIGMA) && !IsWhite(FINAL_SIGMA)
  {
  }

  lemma {:induction false} TextLowered(a: Alphabet, before: string, s: string, after: string)
    requires Laws(a)
    ensures var r := LowerIn(a, before, s, after);
      Lowered(a, r) && (s != "" && !IsWhite(s[0]) ==> r != "" && !IsWhite(r[0]))
      && (s != "" && !IsWhite(s[|s| - 1]) ==> r != "" && !IsWhite(r[|r| - 1]))
    decreases |s|
  {
    hide IsWhite, LowerChar, Laws;
    if s != "" {
      CharLowered(a, before, s[0], s[1..] + after);
      TextLowered(a, before + [s[0]], s[1..], after);
    }
  }

  lemma {:induction false} LoweredStays(a: Alphabet, before: string, s: string, after: string)
    requires Lowered(a, s)
    ensures LowerIn(a, before, s, after) == s
    decreases |s|
  {
    if s != "" {
      LoweredStays(a, before + [s[0]], s[1..], after);
      assert s == [s[0]] + s[1..];
    }
  }

  lemma {:induction false} TrimStartFirst(s: string)
    ensures TrimStart(s) != "" ==> !IsWhite(TrimStart(s)[0])
  {
    hide IsWhite;
    if s != "" && IsWhite(s[0]) {
      TrimStartFirst(s[1..]);
    }
  }

  lemma {:induction false} TrimEndLast(s: string)
    ensures TrimEnd(s) <= s && (TrimEnd(s) != "" ==> !IsWhite(TrimEnd(s)[|TrimEnd(s)| - 1]))
    decreases |s|
  {
    hide IsWhite;
    if s != "" && IsWhite(s[|s| - 1]) {
      TrimEndLast(s[..|s| - 1]);
    }
  }

  lemma NoWhiteEnds(s: string)
    requires s != "" ==> !IsWhite(s[0]) && !IsWhite(s[|s| - 1])
    ensures Trim(s) == s
  {
    hide IsWhite;
  }

  /** What the search asks of lower-casing. */
  lemma LowerCaseSettles(a: Alphabet)
    requires Laws(a)
    ensures Settles(LowerCase(a)) && LowerCase(a)("") == ""
  {
    hide IsWhite, Laws, LowerIn, Lowered;
    assert LowerIn(a, "", "", "") == "" by { LoweredNothing(a); }
    forall q: string
      ensures LowerCase(a)(Needle(LowerCase(a), q)) == Needle(LowerCase(a), q)
        && Trim(Needle(LowerCase(a), q)) == Needle(LowerCase(a), q)
    {
      NeedleSettled(a, q);
    }
  }

  lemma LoweredNothing(a: Alphabet)
    ensures LowerIn(a, "", "", "") == ""
  {
  }

  lemma NeedleSettled(a: Alphabet, q: string)
    requires Laws(a)
    ensures var needle := LowerIn(a, "", Trim(q), "");
      LowerIn(a, "", needle, "") == needle && Trim(needle) == needle
  {
    hide IsWhite, Laws, Lowered, TrimStart, TrimEnd, Trim;
    var t := Trim(q);
    TrimEnds(q);
    TextLowered(a, "", t, "");
    LoweredStays(a, "", LowerIn(a, "", t, ""), "");
    NoWhiteEnds(LowerIn(a, "", t, ""));
  }

  lemma TrimEnds(q: string)
    ensures Trim(q) != "" ==> !IsWhite(Trim(q)[0]) && !IsWhite(Trim(q)[|Trim(q)| - 1])
  {
    hide IsWhite, TrimStart, TrimEnd;
    TrimStartFirst(q);
    TrimEndLast(TrimStart(q));
  }

  // ----- Lower-casing in context -----

  predicate AllIgnorable(a: Alphabet, s: string) { forall i | 0 <= i < |s| :: a.ignorable(s[i]) }

  lemma {:induction false} CasedAcross(a: Alphabet, s: string, after: string)
    ensures CasedAfter(a, s + after) == if AllIgnorable(a, s) then CasedAfter(a, after) else CasedAfter(a, s)
    decreases |s|
  {
    if s == "" {
      assert s + after == after;
    } else {
      CasedAcross(a, s[1..], after);
      assert (s + after)[0] == s[0] && (s + after)[1..] == s[1..] + after;
      assert AllIgnorable(a, s) <==> a.ignorable(s[0]) && AllIgnorable(a, s[1..]) by {
        assert forall i | 1 <= i < |s| :: s[i] == s[1..][i - 1];
      }
    }
  }

  lemma {:induction false} LowerAppend(a: Alphabet, before: string, x: string, y: string, after: string)
    ensures LowerIn(a, before, x + y, after) == LowerIn(a, before, x, y + after) + LowerIn(a, before + x, y, after)
    decreases |x|
  {
    hide LowerChar;
    if x == "" {
      assert x + y == y && before + x == before;
    } else {
      LowerAppend(a, before + [x[0]], x[1..], y, after);
      assert (x + y)[0] == x[0] && (x + y)[1..] == x[1..] + y;
      Regroup(x[1..], y, after);
      assert before + [x[0]] + x[1..] == before + x;
      Regroup(LowerChar(a, before, x[0], x[1..] + (y + after)), LowerIn(a, before + [x[0]], x[1..], y + after),
        LowerIn(a, before + x, y, after));
    }
  }

  /** A capital sigma that is final only for want of a cased letter after the text. */
  predicate HangsAt(a: Alphabet, before: string, s: string, i: nat)
    requires i < |s|
  {
    s[i] == CAPITAL_SIGMA && CasedBefore(a, before + s[..i]) && AllIgnorable(a, s[i + 1..])
  }

  /**
   Two continuations make a difference only to a hanging sigma, and only if a cased letter begins just one of them.
   */
  lemma {:induction false} SameUnlessHanging(a: Alphabet, before: string, s: string, y: string, z: string)
    requires CasedAfter(a, y) == CasedAfter(a, z) || forall i | 0 <= i < |s| :: !HangsAt(a, before, s, i)
    ensures LowerIn(a, before, s, y) == LowerIn(a, before, s, z)
    decreases |s|
  {
    hide CasedAfter, CasedBefore, AllIgnorable;
    if s != "" {
      CasedAcross(a, s[1..], y);
      CasedAcross(a, s[1..], z);
      assert before + s[..0] == before;
      if CasedAfter(a, y) != CasedAfter(a, z) {
        assert !HangsAt(a, before, s, 0);
        forall i | 0 <= i < |s[1..]| ensures !HangsAt(a, before + [s[0]], s[1..], i) {
          HangsLater(a, before, s, i);
        }
      }
      SameUnlessHanging(a, before + [s[0]], s[1..], y, z);
    }
  }

  lemma HangsLater(a: Alphabet, before: string, s: string, i: nat)
    requires i + 1 < |s|
    ensures HangsAt(a, before + [s[0]], s[1..], i) <==> HangsAt(a, before, s, i + 1)
  {
    assert before + [s[0]] + s[1..][..i] == before + s[..i + 1];
    assert s[1..][i + 1..] == s[i + 2..];
  }

  // ----- Typing one more character -----

  lemma {:induction false} TrimStartSnoc(s: string, c: char)
    ensures TrimStart(s) != "" ==> TrimStart(s + [c]) == TrimStart(s) + [c]
  {
    hide IsWhite;
    if s != "" && IsWhite(s[0]) {
      assert (s + [c])[0] == s[0] && (s + [c])[1..] == s[1..] + [c];
      TrimStartSnoc(s[1..], c);
    }
  }

  lemma TrimEndSnoc(s: string, c: char)
    ensures TrimEnd(s + [c]) == if IsWhite(c) then TrimEnd(s) else s + [c]
  {
    assert (s + [c])[..|s|] == s;
  }

  lemma {:induction false} TrimmedTail(s: string)
    ensures TrimEnd(s) <= s && forall i | |TrimEnd(s)| <= i < |s| :: IsWhite(s[i])
    decreases |s|
  {
    hide IsWhite;
    if s != "" && IsWhite(s[|s| - 1]) {
      TrimmedTail(s[..|s| - 1]);
    }
  }

  /** The trimmed query ends in a capital sigma at the end of a word, but for case-ignorable characters. */
  predicate EndsInSigma(a: Alphabet, t: string) { exists i | 0 <= i < |t| :: HangsAt(a, "", t, i) }

  /** Sigmas and a final one. */
  predicate OnlySigmas(needle: string) {
    needle != "" && needle[|needle| - 1] == FINAL_SIGMA && forall i | 0 <= i < |needle| - 1 :: needle[i] == SIGMA
  }

  /**
   When the typed character takes the end of the word away from a sigma, and the new needle has the old one nowhere.
   */
  predicate Revives(a: Alphabet, query: string, c: char) {
    && query != "" && !IsWhite(query[|query| - 1]) && EndsInSigma(a, Trim(query))
    && a.cased(c) && !a.ignorable(c)
    && !(c in {CAPITAL_SIGMA, FINAL_SIGMA} && OnlySigmas(Needle(LowerCase(a), query)))
  }

  /** Typing on can show an entry that was hidden exactly when it revives a final sigma. */
  lemma TypingAddsIff(a: Alphabet, query: string, c: char)
    requires Laws(a)
    ensures !NeverAdds(LowerCase(a), query, query + [c]) <==> Revives(a, query, c)
  {
    hide Settles, NeverAdds, IsWhite, Laws, LowerIn, Contains, EndsInSigma, OnlySigmas;
    LowerCaseSettles(a);
    NeverAddsIff(LowerCase(a), query, query + [c]);
    NeedleLost(a, query, c);
  }

  lemma NeedleLost(a: Alphabet, query: string, c: char)
    requires Laws(a)
    ensures var (long, short) := (Needle(LowerCase(a), query + [c]), Needle(LowerCase(a), query));
      (short == "" || Contains(long, short)) <==> !Revives(a, query, c)
  {
    hide IsWhite, Laws, LowerIn, Contains, OnlySigmas, TrimStart, TrimEnd, CasedAfter, EndsInSigma;
    var x := TrimStart(query);
    var (kept, c') := (TrimEnd(x), [c]);
    WhiteNotCased(a, c);
    if kept == "" {
      LoweredNothing(a);
      NoSigmaAtEnd(a);
    } else {
      TrimStartSnoc(query, c);
      TrimmedTail(x);
      TrimEndLast(x);
      assert x != "";
      TrimEndSnoc(x, c);
      TrimStartLast(query);
      if IsWhite(c) {
        ContainsItself(LowerIn(a, "", kept, ""));
      } else {
        assert Trim(query + [c]) == x + [c];
        NeedleAfter(a, kept, x[|kept|..], c);
        assert kept + x[|kept|..] == x;
        assert x[|kept|..] == "" <==> !IsWhite(x[|x| - 1]);
      }
    }
  }

  lemma WhiteNotCased(a: Alphabet, c: char)
    requires Laws(a)
    ensures IsWhite(c) ==> !a.cased(c) && !a.ignorable(c)
  {
    hide IsWhite;
  }

  lemma NoSigmaAtEnd(a: Alphabet)
    ensures !EndsInSigma(a, "")
  {
  }

  lemma ContainsItself(s: string)
    ensures Contains(s, s)
  {
    assert s <= s[0..];
  }

  lemma {:induction false} TrimStartLast(s: string)
    ensures TrimStart(s) != "" ==> s != "" && TrimStart(s)[|TrimStart(s)| - 1] == s[|s| - 1]
  {
    hide IsWhite;
    if s != "" && IsWhite(s[0]) {
      TrimStartLast(s[1..]);
    }
  }

  /** The needle of a query typed on after white space, or right away. */
  lemma NeedleAfter(a: Alphabet, t: string, tail: string, c: char)
    requires Laws(a) && t != "" && !IsWhite(c) && forall i | 0 <= i < |tail| :: IsWhite(tail[i])
    ensures var (long, short) := (LowerIn(a, "", t + tail + [c], ""), LowerIn(a, "", t, ""));
      (short == "" || Contains(long, short)) <==>
      !(tail == "" && EndsInSigma(a, t) && a.cased(c) && !a.ignorable(c)
      && !(c in {CAPITAL_SIGMA, FINAL_SIGMA} && OnlySigmas(short)))
  {
    hide IsWhite, Laws, LowerIn, Contains, OnlySigmas, HangsAt;
    var after := tail + [c];
    assert t + tail + [c] == t + after && after + "" == after && "" + t == t;
    LowerAppend(a, "", t, after, "");
    NonEmptyLowered(a, t);
    if tail == "" && EndsInSigma(a, t) && a.cased(c) && !a.ignorable(c) {
      var i :| 0 <= i < |t| && HangsAt(a, "", t, i);
      assert after == [c];
      HangingLost(a, t, i, c);
    } else {
      if tail != "" {
        WhiteNotCased(a, tail[0]);
      }
      assert !CasedAfter(a, after) || forall i | 0 <= i < |t| :: !HangsAt(a, "", t, i);
      SameUnlessHanging(a, "", t, after, "");
      assert LowerIn(a, "", t, "") <= LowerIn(a, "", t + after, "")[0..];
      assert Contains(LowerIn(a, "", t + after, ""), LowerIn(a, "", t, "")) by {
        PrefixContained(LowerIn(a, "", t, ""), LowerIn(a, t, after, ""));
      }
    }
  }

  lemma PrefixContained(p: string, rest: string)
    ensures Contains(p + rest, p)
  {
    assert p <= (p + rest)[0..];
  }

  lemma NonEmptyLowered(a: Alphabet, t: string)
    requires Laws(a) && t != ""
    ensures LowerIn(a, "", t, "") != ""
  {
    hide Laws;
    CharLowered(a, "", t[0], t[1..] + "");
  }

  /** Case-ignorable characters give no final sigma. */
  lemma {:induction false} NoFinal(a: Alphabet, before: string, w: string, after: string)
    requires Laws(a) && AllIgnorable(a, w)
    ensures FINAL_SIGMA !in LowerIn(a, before, w, after) && (w != "" ==> LowerIn(a, before, w, after) != "")
    decreases |w|
  {
    hide IsWhite, CasedBefore, CasedAfter;
    if w != "" {
      assert a.ignorable(w[0]) && w[0] != CAPITAL_SIGMA && w[0] != FINAL_SIGMA;
      NoFinal(a, before + [w[0]], w[1..], after);
    }
  }

  lemma {:induction false} CasedBeforeAcross(a: Alphabet, u: string, w: string)
    requires AllIgnorable(a, w) && a.cased(CAPITAL_SIGMA) && !a.ignorable(CAPITAL_SIGMA)
    ensures CasedBefore(a, u + [CAPITAL_SIGMA] + w)
    decreases |w|
  {
    var s := u + [CAPITAL_SIGMA] + w;
    if w != "" {
      assert s[|s| - 1] == w[|w| - 1] && s[..|s| - 1] == u + [CAPITAL_SIGMA] + w[..|w| - 1];
      CasedBeforeAcross(a, u, w[..|w| - 1]);
    }
  }

  /** The last character, after a sigma and case-ignorable characters. */
  lemma LastLowered(a: Alphabet, u: string, w: string, c: char)
    requires Laws(a) && AllIgnorable(a, w)
    ensures var r := LowerIn(a, u + [CAPITAL_SIGMA] + w, [c], "");
      r != "" && if c in {CAPITAL_SIGMA, FINAL_SIGMA} then r == [FINAL_SIGMA] else FINAL_SIGMA !in r
  {
    hide IsWhite, AllIgnorable;
    CasedBeforeAcross(a, u, w);
    assert [c][1..] == "" && [c][1..] + "" == "";
  }

  /** With a sigma no longer final, the old needle is in the new one only when both are nothing but sigmas. */
  lemma HangingLost(a: Alphabet, t: string, i: nat, c: char)
    requires Laws(a) && i < |t| && HangsAt(a, "", t, i) && a.cased(c) && !a.ignorable(c)
    ensures var (long, short) := (LowerIn(a, "", t + [c], ""), LowerIn(a, "", t, ""));
      Contains(long, short) <==> c in {CAPITAL_SIGMA, FINAL_SIGMA} && OnlySigmas(short)
  {
    hide IsWhite, Laws, LowerIn, Contains, OnlySigmas, CasedAfter, CasedBefore, AllIgnorable;
    var (u, w) := (t[..i], t[i + 1..]);
    var before := u + [CAPITAL_SIGMA];
    SigmaBetween(a, t, i, "");
    SigmaBetween(a, t, i, [c]);
    assert t + [c] == t + [c] && "" + t == t && t == before + w;
    LowerAppend(a, "", t, [c], "");
    assert [c] + "" == [c];
    var (start, rest, last) := (LowerIn(a, "", u, [CAPITAL_SIGMA]), LowerIn(a, before, w, ""), LowerIn(a, t, [c], ""));
    NoFinal(a, before, w, "");
    LastLowered(a, u, w, c);
    Shifted(start, rest, last);
  }

  /** The text around a hanging sigma, with and without a cased letter after it. */
  lemma SigmaBetween(a: Alphabet, t: string, i: nat, after: string)
    requires Laws(a) && i < |t| && HangsAt(a, "", t, i)
    requires after == "" || (|after| == 1 && a.cased(after[0]) && !a.ignorable(after[0]))
    ensures var (u, w) := (t[..i], t[i + 1..]);
      LowerIn(a, "", t, after) == LowerIn(a, "", u, [CAPITAL_SIGMA])
        + [if after == "" then FINAL_SIGMA else SIGMA] + LowerIn(a, u + [CAPITAL_SIGMA], w, "")
  {
    hide IsWhite, Laws, LowerIn, CasedBefore, CasedAfter, AllIgnorable, HangsAt;
    var (u, w, sigma) := (t[..i], t[i + 1..], [CAPITAL_SIGMA]);
    assert t == u + (sigma + w) && "" + u == u by { assert HangsAt(a, "", t, i); HangsFacts(a, t, i); }
    LowerAppend(a, "", u, sigma + w, after);
    LowerAppend(a, u, sigma, w, after);
    SigmaAfter(a, w, after);
    SameUnlessHanging(a, "", u, sigma + w + after, sigma);
    HangsFacts(a, t, i);
    IgnorableHangsNot(a, u + sigma, w);
    SameUnlessHanging(a, u + sigma, w, after, "");
    SigmaLowered(a, u, w, after);
    Regroup(LowerIn(a, "", u, sigma), [if after == "" then FINAL_SIGMA else SIGMA], LowerIn(a, u + sigma, w, ""));
  }

  lemma HangsFacts(a: Alphabet, t: string, i: nat)
    requires i < |t| && HangsAt(a, "", t, i)
    ensures t[i] == CAPITAL_SIGMA && CasedBefore(a, t[..i]) && AllIgnorable(a, t[i + 1..])
  {
    hide CasedBefore, AllIgnorable;
    assert "" + t[..i] == t[..i];
  }

  lemma SigmaLowered(a: Alphabet, u: string, w: string, after: string)
    requires CasedBefore(a, u) && AllIgnorable(a, w)
    requires after == "" || (|after| == 1 && a.cased(after[0]) && !a.ignorable(after[0]))
    ensures LowerIn(a, u, [CAPITAL_SIGMA], w + after) == [if after == "" then FINAL_SIGMA else SIGMA]
  {
    hide CasedBefore, AllIgnorable;
    OneLowered(a, u, w + after);
    CasedAcross(a, w, after);
  }

  lemma SigmaAfter(a: Alphabet, w: string, after: string)
    requires Laws(a)
    ensures CasedAfter(a, [CAPITAL_SIGMA] + w + after) == CasedAfter(a, [CAPITAL_SIGMA]) == true
  {
    hide IsWhite;
    assert ([CAPITAL_SIGMA] + w + after)[0] == CAPITAL_SIGMA;
  }

  lemma IgnorableHangsNot(a: Alphabet, before: string, w: string)
    requires Laws(a) && AllIgnorable(a, w)
    ensures forall i | 0 <= i < |w| :: !HangsAt(a, before, w, i)
  {
    hide IsWhite, CasedBefore;
  }

  lemma OneLowered(a: Alphabet, before: string, after: string)
    ensures LowerIn(a, before, [CAPITAL_SIGMA], after) == LowerChar(a, before, CAPITAL_SIGMA, after)
  {
    hide LowerChar;
    assert [CAPITAL_SIGMA][1..] == "" && "" + after == after;
    assert LowerIn(a, before + [CAPITAL_SIGMA], "", after) == "";
  }

  /**
   A text around a final sigma occurs in the same text around a plain one, with something after it: by one place
   only.
   */
  lemma Shifted(start: string, rest: string, last: string)
    requires FINAL_SIGMA !in rest && last != "" && (last == [FINAL_SIGMA] || FINAL_SIGMA !in last)
    ensures var (short, long) := (start + [FINAL_SIGMA] + rest, start + [SIGMA] + rest + last);
      Contains(long, short) <==> last == [FINAL_SIGMA] && OnlySigmas(short)
  {
    var (short, long) := (start + [FINAL_SIGMA] + rest, start + [SIGMA] + rest + last);
    if d :| 0 <= d <= |long| && short <= long[d..] {
      ShiftedByOne(start, rest, last, d);
    }
    if last == [FINAL_SIGMA] && OnlySigmas(short) {
      NothingAfter(start, rest);
      assert forall j | 0 <= j < |start| :: start[j] == short[j];
      assert forall j | 0 <= j < |short| :: short[j] == long[1..][j];
      assert short <= long[1..];
    }
  }

  lemma NothingAfter(start: string, rest: string)
    ensures FINAL_SIGMA !in rest && OnlySigmas(start + [FINAL_SIGMA] + rest) ==> rest == ""
  {
    var short := start + [FINAL_SIGMA] + rest;
    if rest != "" {
      assert short[|short| - 1] == rest[|rest| - 1];
    }
  }

  /** Where the longer text has a final sigma. */
  lemma FinalIsLast(start: string, rest: string, last: string, j: nat)
    ensures var long := start + [SIGMA] + rest + last;
      |start| <= j < |long| && FINAL_SIGMA !in rest && long[j] == FINAL_SIGMA ==>
      |start| + |rest| < j && last[j - |start| - 1 - |rest|] == FINAL_SIGMA
  {
    var long := start + [SIGMA] + rest + last;
    if j == |start| {
      assert long[j] == SIGMA;
    } else if |start| < j <= |start| + |rest| {
      assert long[j] == rest[j - |start| - 1];
    } else if |start| < j < |long| {
      assert long[j] == last[j - |start| - 1 - |rest|];
    }
  }

  lemma ShiftedByOne(start: string, rest: string, last: string, d: nat)
    requires FINAL_SIGMA !in rest && last != "" && (last == [FINAL_SIGMA] || FINAL_SIGMA !in last)
    requires var (short, long) := (start + [FINAL_SIGMA] + rest, start + [SIGMA] + rest + last);
      d <= |long| && short <= long[d..]
    ensures last == [FINAL_SIGMA] && OnlySigmas(start + [FINAL_SIGMA] + rest)
  {
    var (short, long) := (start + [FINAL_SIGMA] + rest, start + [SIGMA] + rest + last);
    var k := |start|;
    assert long[d + k] == long[d..][k] == short[k] == FINAL_SIGMA;
    FinalIsLast(start, rest, last, d + k);
    assert rest == "" && d == 1;
    forall j | 0 <= j < k ensures (start + [SIGMA])[1..][j] == start[j] {
      assert long[1..][j] == short[j];
    }
    SigmasBack(start, k);
  }

  /** Each character is the next one, and the last is a sigma. */
  lemma {:induction false} SigmasBack(start: string, n: nat)
    requires n <= |start| && (start + [SIGMA])[1..] == start
    ensures forall j | |start| - n <= j < |start| :: start[j] == SIGMA
  {
    if n > 0 {
      SigmasBack(start, n - 1);
      var j := |start| - n;
      assert (start + [SIGMA])[1..][j] == start[j];
    }
  }

  /** The shortest case: two Greek capitals, and one more. */
  lemma SigmaAdds(a: Alphabet)
    requires Laws(a) && a.cased('\U{0391}') && !a.ignorable('\U{0391}')
    ensures !NeverAdds(LowerCase(a), "\U{0391}\U{03A3}", "\U{0391}\U{03A3}" + "\U{0391}")
  {
    hide NeverAdds, Laws, OnlySigmas;
    var q := "\U{0391}\U{03A3}";
    assert Trim(q) == q;
    assert q[..1] == "\U{0391}" && q[2..] == "" && "" + q[..1] == q[..1];
    assert HangsAt(a, "", q, 1);
    TypingAddsIff(a, q, '\U{0391}');
  }
}
