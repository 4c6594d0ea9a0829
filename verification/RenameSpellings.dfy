/**
 What the bulk rename (`backend/scripts/rename_files_and_dirs.py`, `smart_rename_name`) makes of each spelling of the
 old name, wherever in a file name it stands, in the cases a person would write.
 */
module RenameSpellings {
  import opened RenameNames
  import opened Wrappers

  /** The separated spellings, in whatever case: shouted, capitalised, or neither. */
  function Cased(s: string, shouted: string, upper: string, capital: string, lower: string): string
    requires s != "" && shouted != ""
  {
    if s == shouted then upper else if s[0] == shouted[0] then capital else lower
  }

  predicate NoCapital(s: string) { forall c | c in s :: !('A' <= c <= 'Z') }

  /** The new name of a spelling of the pattern `q`. */
  function NewSpelling(q: string, s: string): string
    requires s != ""
  {
    if q == SNAKE then Cased(s, "OMNES_AGENT", "OMNES_AGENT", "Omnes_Agent", "omnes_agent")
    else if q == KEBAB then Cased(s, "OMNES-AGENT", "OMNES-AGENT", "Omnes-Agent", "omnes-agent")
    else if q == DOT then Cased(s, "ZERO.CLAW", "OMNES.AGENT", "Omnes.Agent", "omnes.agent")
    else if s in {"omnesagent", "OMNESAGENT", "Omnesagent", "OmnesAgent", "omnesAgent"} then s
    else if NoCapital(s) then "omnesagent"
    else if s[0] == 'O' && NoCapital(s[1..]) then "Omnesagent"
    else "OmnesAgent"
  }

  predicate Spells(q: string, s: string) { |s| == |q| && Matches(q, s) }

  // ----- Substitution around a spelling -----

  /** Text in which no pattern begins. */
  predicate Elsewhere(a: string) { forall c | c in a :: FoldChar(c) !in {'o', 'z'} }

  lemma {:induction false} SkipBefore(pattern: string, replace: string -> string, a: string, t: string)
    requires pattern in {SNAKE, KEBAB, DOT, JOINED} && Elsewhere(a)
    ensures Substitute(pattern, replace, a + t) == a + Substitute(pattern, replace, t)
    decreases |a|
  {
    hide FoldChar;
    if a == "" {
      assert a + t == t;
    } else {
      assert (a + t)[0] == a[0] && (a + t)[1..] == a[1..] + t && pattern[0] in {'o', 'z'};
      NotAt(pattern, replace, a + t);
      SkipBefore(pattern, replace, a[1..], t);
    }
  }

  lemma AllElsewhere(pattern: string, replace: string -> string, b: string)
    requires pattern in {SNAKE, KEBAB, DOT, JOINED} && Elsewhere(b)
    ensures Substitute(pattern, replace, b) == b
  {
    SkipBefore(pattern, replace, b, "");
    assert b + "" == b;
  }

  /** The pattern, begun at `i`, differs from `s` at its `k`th character, before `s` ends. */
  predicate DiffersAt(pattern: string, s: string, i: nat, k: int) {
    0 <= k < |pattern| && i + k < |s| && FoldChar(s[i + k]) != pattern[k]
  }

  ghost predicate DiffersFrom(pattern: string, s: string, i: nat) { exists k :: DiffersAt(pattern, s, i, k) }

  /** Wherever in `s` the pattern begins, it differs before `s` ends. */
  ghost predicate Differs(pattern: string, s: string) { forall i: nat | i < |s| :: DiffersFrom(pattern, s, i) }

  lemma {:induction false} SkipDifferent(pattern: string, replace: string -> string, s: string, t: string)
    requires pattern != "" && Differs(pattern, s)
    ensures Substitute(pattern, replace, s + t) == s + Substitute(pattern, replace, t)
    decreases |s|
  {
    hide FoldChar;
    if s == "" {
      assert s + t == t;
    } else {
      assert (s + t)[0] == s[0] && (s + t)[1..] == s[1..] + t;
      NoMatchHere(pattern, s, t);
      DiffersTail(pattern, s);
      SkipDifferent(pattern, replace, s[1..], t);
    }
  }

  lemma NoMatchHere(pattern: string, s: string, t: string)
    requires s != "" && Differs(pattern, s)
    ensures !Matches(pattern, s + t)
  {
    hide FoldChar;
    assert DiffersFrom(pattern, s, 0);
    var k :| DiffersAt(pattern, s, 0, k);
    assert (s + t)[k] == s[k];
  }

  lemma DiffersTail(pattern: string, s: string)
    requires s != "" && Differs(pattern, s)
    ensures Differs(pattern, s[1..])
  {
    hide FoldChar;
    forall i: nat | i < |s[1..]| ensures DiffersFrom(pattern, s[1..], i) {
      assert DiffersFrom(pattern, s, i + 1);
      var k :| DiffersAt(pattern, s, i + 1, k);
      assert s[1..][i + k] == s[(i + 1) + k];
      assert DiffersAt(pattern, s[1..], i, k);
    }
  }

  /** No other spelling contains a pattern. */
  lemma OthersDiffer(pattern: string, q: string, s: string)
    requires pattern in {SNAKE, KEBAB, DOT, JOINED} && q in {SNAKE, KEBAB, DOT, DOTTED, JOINED} && pattern != q
    requires Spells(q, s)
    ensures Differs(pattern, s)
  {
    hide FoldChar;
    forall i: nat | i < |s| ensures DiffersFrom(pattern, s, i) {
      var k := Difference(pattern, q, i);
      assert FoldChar(s[i + k]) == q[i + k];
      assert DiffersAt(pattern, s, i, k);
    }
  }

  lemma Difference(pattern: string, q: string, i: nat) returns (k: nat)
    requires pattern in {SNAKE, KEBAB, DOT, JOINED} && q in {SNAKE, KEBAB, DOT, DOTTED, JOINED} && pattern != q
    requires i < |q|
    ensures k < |pattern| && i + k < |q| && q[i + k] != pattern[k]
  {
    if q[i] != pattern[0] {
      k := 0;
    } else if i == 0 {
      k := 5;
    } else {
      OneStart(q, i);
      k := 1;
    }
  }

  lemma OneStart(q: string, i: nat)
    requires q in {SNAKE, KEBAB, DOT, DOTTED, JOINED} && 0 < i < |q| && q[i] in {'o', 'z'}
    ensures q == DOT && i == 3
  {
  }

  // ----- The passes -----

  /** A pass over a spelling of another pattern. */
  lemma PassOver(pattern: string, replace: string -> string, q: string, a: string, s: string, b: string)
    requires pattern in {SNAKE, KEBAB, DOT, JOINED} && q in {SNAKE, KEBAB, DOT, DOTTED, JOINED} && pattern != q
    requires Spells(q, s) && Elsewhere(a) && Elsewhere(b)
    ensures Substitute(pattern, replace, a + s + b) == a + s + b
  {
    hide Elsewhere, Spells, Substitute;
    OthersDiffer(pattern, q, s);
    assert a + s + b == a + (s + b);
    SkipBefore(pattern, replace, a, s + b);
    SkipDifferent(pattern, replace, s, b);
    AllElsewhere(pattern, replace, b);
  }

  /** A pattern's own pass. */
  lemma PassAt(pattern: string, replace: string -> string, a: string, s: string, b: string)
    requires pattern in {SNAKE, KEBAB, DOT, JOINED} && Spells(pattern, s) && Elsewhere(a) && Elsewhere(b)
    ensures Substitute(pattern, replace, a + s + b) == a + replace(s) + b
  {
    hide Elsewhere, Matches;
    assert a + s + b == a + (s + b);
    SkipBefore(pattern, replace, a, s + b);
    MatchAppend(pattern, s, b);
    assert (s + b)[..|pattern|] == s && (s + b)[|pattern|..] == b;
    AllElsewhere(pattern, replace, b);
  }

  // ----- The new name -----

  lemma CasedForms(upper: string, capital: string, lower: string, q: string, shouted: string, s: string)
    requires Spells(q, s) && Spells(q, shouted) && AllUpper(shouted) && IsUpper(shouted[0])
    requires forall i | 0 <= i < |q| :: q[i] in {'_', '-', '.'} || 'a' <= q[i] <= 'z'
    ensures ByCase(upper, capital, lower)(s) == Cased(s, shouted, upper, capital, lower)
  {
    if AllUpper(s) {
      assert s == shouted;
    }
  }

  lemma SeparatedForms(s: string)
    requires s != ""
    ensures Spells(SNAKE, s) ==> SnakeReplace()(s) == NewSpelling(SNAKE, s) && Spells(SNAKE, NewSpelling(SNAKE, s))
    ensures Spells(KEBAB, s) ==> KebabReplace()(s) == NewSpelling(KEBAB, s) && Spells(KEBAB, NewSpelling(KEBAB, s))
    ensures Spells(DOT, s) ==> DotReplace()(s) == NewSpelling(DOT, s) && Spells(DOTTED, NewSpelling(DOT, s))
  {
    hide Matches, AllUpper, ByCase;
    SnakeForms();
    SnakeCases();
    KebabForms();
    KebabCases();
    DottedForms();
    Shouted();
    if Spells(SNAKE, s) {
      CasedForms("OMNES_AGENT", "Omnes_Agent", "omnes_agent", SNAKE, "OMNES_AGENT", s);
    }
    if Spells(KEBAB, s) {
      CasedForms("OMNES-AGENT", "Omnes-Agent", "omnes-agent", KEBAB, "OMNES-AGENT", s);
    }
    if Spells(DOT, s) {
      CasedForms("OMNES.AGENT", "Omnes.Agent", "omnes.agent", DOT, "ZERO.CLAW", s);
    }
  }

  lemma Shouted()
    ensures Matches(DOT, "ZERO.CLAW") && AllUpper("ZERO.CLAW")
  {
    assert IsUpper("ZERO.CLAW"[0]);
  }

  lemma JoinedForm(s: string)
    requires Spells(JOINED, s)
    ensures SmartReplace(s) == NewSpelling(JOINED, s)
  {
    var fixed := {"omnesagent", "OMNESAGENT", "Omnesagent", "OmnesAgent", "omnesAgent"};
    if s !in fixed {
      UpperForm(s);
      assert FoldChar(s[0]) == 'o' && FoldChar(s[1]) == 'm' && s[1] == s[1..][0];
      hide FoldChar, AllUpper;
      assert IsLower(s[0]) || IsUpper(s[0]) by { CaseOf(s[0]); }
      assert IsLower(s[1]) || IsUpper(s[1]) by { CaseOf(s[1]); }
      NoCapitalIff(s);
      NoCapitalIff(s[1..]);
    }
  }

  lemma UpperForm(s: string)
    requires Spells(JOINED, s)
    ensures AllUpper(s) ==> s == "OMNESAGENT"
  {
  }

  lemma CaseOf(c: char)
    requires 'a' <= FoldChar(c) <= 'z'
    ensures IsLower(c) || IsUpper(c)
  {
  }

  lemma NoCapitalIff(s: string)
    requires s != "" && (IsLower(s[0]) || IsUpper(s[0]))
    ensures NoCapital(s) <==> AllLower(s)
  {
    if NoCapital(s) {
      assert s[0] in s && forall i | 0 <= i < |s| :: s[i] in s;
    }
    if AllLower(s) {
      forall c | c in s ensures !('A' <= c <= 'Z') {
        var i :| 0 <= i < |s| && s[i] == c;
        assert !IsUpper(s[i]);
      }
    }
  }

  /** Wherever a spelling stands in a name, its new spelling stands in the new name, and nothing else changes. */
  lemma RenamedAround(q: string, a: string, s: string, b: string)
    requires q in {SNAKE, KEBAB, DOT, JOINED} && Spells(q, s) && Elsewhere(a) && Elsewhere(b)
    ensures var (old_, new_) := (a + s + b, a + NewSpelling(q, s) + b);
      SmartRenameName(old_) == if new_ == old_ then None else Some(new_)
  {
    hide Spells, Elsewhere, Substitute, NewSpelling, SmartReplace, SnakeReplace, KebabReplace, DotReplace;
    assert s != "" by { SpellingLong(q, s); }
    SeparatedForms(s);
    var r := NewSpelling(q, s);
    if q == SNAKE {
      PassAt(SNAKE, SnakeReplace(), a, s, b);
      PassOver(KEBAB, KebabReplace(), SNAKE, a, r, b);
      PassOver(DOT, DotReplace(), SNAKE, a, r, b);
      PassOver(JOINED, SmartReplace, SNAKE, a, r, b);
    } else {
      PassOver(SNAKE, SnakeReplace(), q, a, s, b);
      if q == KEBAB {
        PassAt(KEBAB, KebabReplace(), a, s, b);
        PassOver(DOT, DotReplace(), KEBAB, a, r, b);
        PassOver(JOINED, SmartReplace, KEBAB, a, r, b);
      } else {
        PassOver(KEBAB, KebabReplace(), q, a, s, b);
        if q == DOT {
          PassAt(DOT, DotReplace(), a, s, b);
          PassOver(JOINED, SmartReplace, DOTTED, a, r, b);
        } else {
          PassOver(DOT, DotReplace(), JOINED, a, s, b);
          PassAt(JOINED, SmartReplace, a, s, b);
          JoinedForm(s);
        }
      }
    }
  }

  lemma SpellingLong(q: string, s: string)
    requires q in {SNAKE, KEBAB, DOT, JOINED} && Spells(q, s)
    ensures s != ""
  {
  }

}
