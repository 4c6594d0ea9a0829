/**
 The name map of the bulk rename (`backend/scripts/rename_files_and_dirs.py`, `smart_rename_name`): four passes, each
 replacing the case-insensitive matches of one pattern by its form in one of a few fixed cases. A name that has been
 renamed needs no second renaming.
 */
module RenameNames {
  import opened Wrappers
  import opened FileTrees
  import opened RenamePlan
  import opened RenameEffect

  // ----- Case-insensitive matches -----

  predicate IsUpper(c: char) { 'A' <= c <= 'Z' }

  /** The long s is the one other character that Python's matching takes for a letter of the patterns. */
  const LONG_S := '\U{017F}'

  predicate IsLower(c: char) { 'a' <= c <= 'z' || c == LONG_S }

  function FoldChar(c: char): char {
    if IsUpper(c) then (c as int + 32) as char else if c == LONG_S then 's' else c
  }

  predicate Matches(pattern: string, s: string) {
    |pattern| <= |s| && forall i | 0 <= i < |pattern| :: FoldChar(s[i]) == pattern[i]
  }

  /** `re.subn` with a function for the replacement: the leftmost matches, one after another. */
  function Substitute(pattern: string, replace: string -> string, s: string): string
    requires pattern != ""
    decreases |s|
  {
    if s == "" then ""
    else if Matches(pattern, s) then replace(s[..|pattern|]) + Substitute(pattern, replace, s[|pattern|..])
    else [s[0]] + Substitute(pattern, replace, s[1..])
  }

  // ----- The four passes -----

  predicate AllUpper(s: string) {
    (forall i | 0 <= i < |s| :: !IsLower(s[i])) && exists i | 0 <= i < |s| :: IsUpper(s[i])
  }

  predicate AllLower(s: string) {
    (forall i | 0 <= i < |s| :: !IsUpper(s[i])) && exists i | 0 <= i < |s| :: IsLower(s[i])
  }

  /** The separated spellings: upper case, capitalised, or lower case. */
  function ByCase(upper: string, capital: string, lower: string): string -> string {
    s => if AllUpper(s) then upper else if s != "" && IsUpper(s[0]) then capital else lower
  }

  /** The joined spelling, which also keeps an inner capital. */
  function SmartReplace(s: string): string {
    if s in {"omnesagent", "OMNESAGENT", "Omnesagent", "OmnesAgent", "omnesAgent"} then s
    else if AllLower(s) then "omnesagent"
    else if AllUpper(s) then "OMNESAGENT"
    else if s != "" && IsUpper(s[0]) && AllLower(s[1..]) then "Omnesagent"
    else "OmnesAgent"
  }

  const SNAKE := "omnes_agent"
  const KEBAB := "omnes-agent"
  const DOT := "zero.claw"
  const JOINED := "omnesagent"

  function SnakeReplace(): string -> string { ByCase("OMNES_AGENT", "Omnes_Agent", "omnes_agent") }

  function KebabReplace(): string -> string { ByCase("OMNES-AGENT", "Omnes-Agent", "omnes-agent") }

  function DotReplace(): string -> string { ByCase("OMNES.AGENT", "Omnes.Agent", "omnes.agent") }

  function Renamed(name: string): string {
    var snake := Substitute(SNAKE, SnakeReplace(), name);
    var kebab := Substitute(KEBAB, KebabReplace(), snake);
    var dot := Substitute(DOT, DotReplace(), kebab);
    Substitute(JOINED, SmartReplace, dot)
  }

  function SmartRenameName(name: string): Option<string> { if Renamed(name) != name then Some(Renamed(name)) else None }

  // ----- Passes do not disturb one another -----

  /** Neither string can begin inside the other. */
  predicate Clear(pattern: string, target: string) {
    && |target| > 1 && pattern != ""
    && (forall d | 1 <= d < |pattern| :: pattern[d] != target[0] || (d + 1 < |pattern| && pattern[d + 1] != target[1]))
    && (forall d | 1 <= d < |target| :: target[d] != pattern[0])
  }

  predicate DifferEarly(pattern: string, target: string) {
    exists i | 0 <= i < |pattern| && i < |target| :: pattern[i] != target[i]
  }

  /** Every match of the pattern is replaced by itself. */
  predicate Settled(pattern: string, replace: string -> string, s: string) {
    forall i | 0 <= i <= |s| && Matches(pattern, s[i..]) :: replace(s[i..][..|pattern|]) == s[i..][..|pattern|]
  }

  /** The replacement is the pattern's target in some case. */
  ghost predicate Yields(pattern: string, replace: string -> string, target: string) {
    forall s | Matches(pattern, s) && |s| == |pattern| :: |replace(s)| == |target| && Matches(target, replace(s))
  }

  /** A settled name is left alone. */
  lemma {:induction false} SettledStays(pattern: string, replace: string -> string, s: string)
    requires pattern != "" && Settled(pattern, replace, s)
    ensures Substitute(pattern, replace, s) == s
    decreases |s|
  {
    hide Matches;
    if s != "" {
      assert s[0..] == s;
      if Matches(pattern, s) {
        MatchLength(pattern, s);
        SettledTail(pattern, replace, s, |pattern|);
        SettledStays(pattern, replace, s[|pattern|..]);
        assert s == s[..|pattern|] + s[|pattern|..];
      } else {
        SettledTail(pattern, replace, s, 1);
        SettledStays(pattern, replace, s[1..]);
      }
    }
  }

  lemma MatchLength(pattern: string, s: string)
    ensures Matches(pattern, s) ==> |pattern| <= |s| && Matches(pattern, s[..|pattern|])
  {
  }

  lemma SettledTail(pattern: string, replace: string -> string, s: string, n: nat)
    requires Settled(pattern, replace, s) && n <= |s|
    ensures Settled(pattern, replace, s[n..])
  {
    hide FoldChar;
    forall i | 0 <= i <= |s[n..]| && Matches(pattern, s[n..][i..])
      ensures replace(s[n..][i..][..|pattern|]) == s[n..][i..][..|pattern|]
    {
      assert s[n..][i..] == s[n + i..];
    }
  }

  lemma MatchTail(pattern: string, s: string)
    requires Matches(pattern, s) && pattern != ""
    ensures Matches(pattern[1..], s[1..])
  {
  }

  lemma MatchAppend(target: string, r: string, rest: string)
    requires Matches(target, r)
    ensures Matches(target, r + rest)
  {
  }

  /** Where the target begins, no later part of the pattern does. */
  lemma NotInside(p: string, j: nat, target: string, s: string)
    requires Clear(p, target) && 0 < j < |p| && Matches(target, s)
    ensures !Matches(p[j..], s)
  {
    hide FoldChar;
    assert FoldChar(s[0]) == target[0] && FoldChar(s[1]) == target[1];
    assert p[j..][0] == p[j] && (j + 1 < |p| ==> p[j..][1] == p[j + 1]);
  }

  /** The rest of a match that shows after a substitution was there before it. */
  lemma {:induction false} Untouched(p: string, j: nat, pattern: string, replace: string -> string, target: string,
      s: string)
    requires pattern != "" && Clear(p, target) && Yields(pattern, replace, target) && 0 < j <= |p|
    requires Matches(p[j..], Substitute(pattern, replace, s))
    ensures |s| >= |p| - j && s[..|p| - j] == Substitute(pattern, replace, s)[..|p| - j]
    decreases |s|
  {
    hide Clear, FoldChar;
    var after := Substitute(pattern, replace, s);
    if j < |p| && s != "" {
      Replaced(pattern, replace, target, s);
      if Matches(pattern, s) {
        NotInside(p, j, target, after);
      } else {
        var tail := Substitute(pattern, replace, s[1..]);
        assert after == [s[0]] + tail && after[1..] == tail;
        MatchTail(p[j..], after);
        assert p[j..][1..] == p[j + 1..];
        Untouched(p, j + 1, pattern, replace, target, s[1..]);
        assert after[..|p| - j] == [s[0]] + tail[..|p| - j - 1];
      }
    }
  }

  /** A match becomes the target. */
  lemma Replaced(pattern: string, replace: string -> string, target: string, s: string)
    requires pattern != "" && Yields(pattern, replace, target)
    ensures Matches(pattern, s) ==>
      var r, rest := replace(s[..|pattern|]), Substitute(pattern, replace, s[|pattern|..]);
      |r| == |target| && Matches(target, r) && Substitute(pattern, replace, s) == r + rest && Matches(target, r + rest)
  {
    hide FoldChar;
    if Matches(pattern, s) {
      MatchLength(pattern, s);
      var r := replace(s[..|pattern|]);
      assert Matches(pattern, s[..|pattern|]) && |s[..|pattern|]| == |pattern|;
      MatchAppend(target, r, Substitute(pattern, replace, s[|pattern|..]));
    }
  }

  /** A match at the start, not the target itself, was there before the substitution. */
  lemma FirstMatch(p: string, pattern: string, replace: string -> string, target: string, s: string)
    requires pattern != "" && Clear(p, target) && Yields(pattern, replace, target) && s != "" && !Matches(pattern, s)
    requires Matches(p, Substitute(pattern, replace, s))
    ensures |s| >= |p| && s[..|p|] == Substitute(pattern, replace, s)[..|p|] && Matches(p, s)
  {
    hide FoldChar;
    var after, tail := Substitute(pattern, replace, s), Substitute(pattern, replace, s[1..]);
    assert after == [s[0]] + tail && after[1..] == tail;
    MatchTail(p, after);
    Untouched(p, 1, pattern, replace, target, s[1..]);
    assert after[..|p|] == [s[0]] + tail[..|p| - 1];
    assert s[..|p|] == [s[0]] + s[1..][..|p| - 1];
  }

  /** Nothing begins inside a target. */
  lemma NotInsideTarget(p: string, target: string, r: string, rest: string, d: nat)
    requires Clear(p, target) && Matches(target, r) && |r| == |target| && 1 <= d < |target|
    ensures !Matches(p, (r + rest)[d..])
  {
    assert (r + rest)[d..][0] == r[d];
  }

  /** Another pattern that was settled stays settled. */
  lemma {:induction false} StaysSettled(p: string, g: string -> string, pattern: string, replace: string -> string,
      target: string, s: string)
    requires pattern != "" && Clear(p, target) && DifferEarly(p, target) && Yields(pattern, replace, target)
    requires Settled(p, g, s)
    ensures Settled(p, g, Substitute(pattern, replace, s))
    decreases |s|
  {
    hide FoldChar, Clear, Yields;
    var after := Substitute(pattern, replace, s);
    if s != "" {
      Replaced(pattern, replace, target, s);
      var matched := Matches(pattern, s);
      var n := if matched then |pattern| else 1;
      var r := if matched then replace(s[..|pattern|]) else [s[0]];
      var rest := Substitute(pattern, replace, s[n..]);
      assert after == r + rest;
      SettledTail(p, g, s, n);
      StaysSettled(p, g, pattern, replace, target, s[n..]);
      forall i | 0 <= i <= |after| && Matches(p, after[i..]) ensures g(after[i..][..|p|]) == after[i..][..|p|] {
        assert after[0..] == after && s[0..] == s;
        if i >= |r| {
          assert after[i..] == rest[i - |r|..];
        } else if matched {
          if i > 0 {
            NotInsideTarget(p, target, r, rest, i);
          } else {
            TargetDiffers(p, target, after);
          }
        } else {
          FirstMatch(p, pattern, replace, target, s);
        }
      }
    }
  }

  lemma TargetDiffers(p: string, target: string, s: string)
    requires DifferEarly(p, target) && Matches(target, s)
    ensures !Matches(p, s)
  {
    hide FoldChar;
  }

  /** Replacing what has been replaced changes nothing. */
  ghost predicate Idempotent(pattern: string, replace: string -> string) {
    forall s | Matches(pattern, s) && |s| == |pattern| :: replace(replace(s)) == replace(s)
  }

  /** Matches in what a substitution made of the start of a name, and in what it made of the rest. */
  lemma SettledParts(p: string, g: string -> string, r: string, rest: string)
    requires Settled(p, g, rest)
    requires forall i | 0 <= i < |r| && Matches(p, (r + rest)[i..]) ::
      g((r + rest)[i..][..|p|]) == (r + rest)[i..][..|p|]
    ensures Settled(p, g, r + rest)
  {
    hide FoldChar;
    var after := r + rest;
    forall i | 0 <= i <= |after| && Matches(p, after[i..]) ensures g(after[i..][..|p|]) == after[i..][..|p|] {
      if i >= |r| {
        assert after[i..] == rest[i - |r|..];
      }
    }
  }

  lemma OwnTarget(pattern: string, replace: string -> string, target: string, s: string, rest: string)
    requires Clear(pattern, target) && Yields(pattern, replace, target) && Matches(pattern, s) && |s| == |pattern|
    requires DifferEarly(pattern, target) || (target == pattern && Idempotent(pattern, replace))
    ensures var r := replace(s);
      forall i | 0 <= i < |r| && Matches(pattern, (r + rest)[i..]) ::
        replace((r + rest)[i..][..|pattern|]) == (r + rest)[i..][..|pattern|]
  {
    var r := replace(s);
    assert |r| == |target| && Matches(target, r);
    hide Yields, FoldChar;
    forall i | 0 <= i < |r| && Matches(pattern, (r + rest)[i..])
      ensures replace((r + rest)[i..][..|pattern|]) == (r + rest)[i..][..|pattern|]
    {
      if i > 0 {
        NotInsideTarget(pattern, target, r, rest, i);
      } else {
        assert (r + rest)[0..] == r + rest;
        MatchAppend(target, r, rest);
        if DifferEarly(pattern, target) {
          TargetDiffers(pattern, target, r + rest);
        } else {
          assert (r + rest)[..|pattern|] == r;
          ReplacedTwice(pattern, replace, s);
        }
      }
    }
  }

  /** After its own pass a pattern is settled. */
  lemma {:induction false} BecomesSettled(pattern: string, replace: string -> string, target: string, s: string)
    requires pattern != "" && Clear(pattern, target) && Yields(pattern, replace, target)
    requires DifferEarly(pattern, target) || (target == pattern && Idempotent(pattern, replace))
    ensures Settled(pattern, replace, Substitute(pattern, replace, s))
    decreases |s|
  {
    hide FoldChar, Clear, Yields, Idempotent, DifferEarly, Settled;
    if s == "" {
      NothingSettled(pattern, replace);
    } else {
      MatchLength(pattern, s);
      var matched := Matches(pattern, s);
      var n := if matched then |pattern| else 1;
      var r := if matched then replace(s[..|pattern|]) else [s[0]];
      var rest := Substitute(pattern, replace, s[n..]);
      BecomesSettled(pattern, replace, target, s[n..]);
      if matched {
        OwnTarget(pattern, replace, target, s[..|pattern|], rest);
      } else {
        assert (r + rest)[0..] == r + rest;
        if Matches(pattern, r + rest) {
          FirstMatch(pattern, pattern, replace, target, s);
        }
      }
      SettledParts(pattern, replace, r, rest);
    }
  }

  lemma NothingSettled(pattern: string, replace: string -> string)
    requires pattern != ""
    ensures Settled(pattern, replace, "")
  {
  }

  lemma ReplacedTwice(pattern: string, replace: string -> string, s: string)
    requires Idempotent(pattern, replace) && Matches(pattern, s) && |s| == |pattern|
    ensures replace(replace(s)) == replace(s)
  {
  }

  // ----- The patterns at hand -----

  const DOTTED := "omnes.agent"

  lemma PatternsClear(p: string, target: string)
    requires p in {SNAKE, KEBAB, DOT, JOINED} && target in {SNAKE, KEBAB, DOTTED, JOINED}
    ensures Clear(p, target) && (p != target ==> DifferEarly(p, target))
  {
    assert p[0] in {'o', 'z'} && target[0] == 'o' && target[1] == 'm';
    if p != target {
      var i := if p == DOT then 0 else 5;
      assert p[i] != target[i];
    }
  }

  /** A spelling of a target, letter by letter. */
  lemma SnakeForms()
    ensures Matches(SNAKE, "OMNES_AGENT") && Matches(SNAKE, "Omnes_Agent") && Matches(SNAKE, "omnes_agent")
  {
  }

  lemma KebabForms()
    ensures Matches(KEBAB, "OMNES-AGENT") && Matches(KEBAB, "Omnes-Agent") && Matches(KEBAB, "omnes-agent")
  {
  }

  lemma DottedForms()
    ensures Matches(DOTTED, "OMNES.AGENT") && Matches(DOTTED, "Omnes.Agent") && Matches(DOTTED, "omnes.agent")
  {
  }

  lemma JoinedForms()
    ensures Matches(JOINED, "omnesagent") && Matches(JOINED, "OMNESAGENT") && Matches(JOINED, "Omnesagent")
    ensures Matches(JOINED, "OmnesAgent") && Matches(JOINED, "omnesAgent")
  {
    hide Matches;
    JoinedPlain();
    JoinedCapital();
    JoinedInner();
  }

  lemma JoinedPlain()
    ensures Matches(JOINED, "omnesagent") && Matches(JOINED, "OMNESAGENT")
  {
  }

  lemma JoinedCapital()
    ensures Matches(JOINED, "Omnesagent") && Matches(JOINED, "OmnesAgent")
  {
  }

  lemma JoinedInner()
    ensures Matches(JOINED, "omnesAgent")
  {
  }

  lemma SnakeCases()
    ensures AllUpper("OMNES_AGENT") && !AllUpper("Omnes_Agent") && !AllUpper("omnes_agent")
  {
    assert IsUpper("OMNES_AGENT"[0]) && IsLower("Omnes_Agent"[1]) && IsLower("omnes_agent"[0]);
  }

  lemma KebabCases()
    ensures AllUpper("OMNES-AGENT") && !AllUpper("Omnes-Agent") && !AllUpper("omnes-agent")
  {
    assert IsUpper("OMNES-AGENT"[0]) && IsLower("Omnes-Agent"[1]) && IsLower("omnes-agent"[0]);
  }

  /** The separated spellings are the target in three cases, and each keeps its own case. */
  lemma ByCasePass(pattern: string, target: string, upper: string, capital: string, lower: string)
    requires |upper| == |capital| == |lower| == |target| > 0
    requires Matches(target, upper) && Matches(target, capital) && Matches(target, lower)
    ensures Yields(pattern, ByCase(upper, capital, lower), target)
    ensures AllUpper(upper) && !AllUpper(capital) && !AllUpper(lower) && IsUpper(capital[0]) && !IsUpper(lower[0]) ==>
      Idempotent(pattern, ByCase(upper, capital, lower))
  {
    hide Matches, AllUpper, IsUpper;
  }

  lemma SnakePass()
    ensures Yields(SNAKE, SnakeReplace(), SNAKE) && Idempotent(SNAKE, SnakeReplace())
  {
    hide Matches, AllUpper, Yields, Idempotent, ByCase;
    SnakeForms();
    SnakeCases();
    ByCasePass(SNAKE, SNAKE, "OMNES_AGENT", "Omnes_Agent", "omnes_agent");
  }

  lemma KebabPass()
    ensures Yields(KEBAB, KebabReplace(), KEBAB) && Idempotent(KEBAB, KebabReplace())
  {
    hide Matches, AllUpper, Yields, Idempotent, ByCase;
    KebabForms();
    KebabCases();
    ByCasePass(KEBAB, KEBAB, "OMNES-AGENT", "Omnes-Agent", "omnes-agent");
  }

  lemma DotPass()
    ensures Yields(DOT, DotReplace(), DOTTED)
  {
    hide Matches, AllUpper, Yields, Idempotent, ByCase;
    DottedForms();
    ByCasePass(DOT, DOTTED, "OMNES.AGENT", "Omnes.Agent", "omnes.agent");
  }

  lemma JoinedPass()
    ensures Yields(JOINED, SmartReplace, JOINED) && Idempotent(JOINED, SmartReplace)
  {
    hide Matches, AllUpper, AllLower;
    JoinedForms();
  }

  /** A renamed name needs no second renaming. */
  lemma RenamedSettles(name: string)
    ensures Renamed(Renamed(name)) == Renamed(name)
  {
    hide Substitute, Settled, Clear, DifferEarly, Yields, Idempotent, SnakeReplace, KebabReplace, DotReplace;
    hide SmartReplace;
    SnakePass();
    KebabPass();
    DotPass();
    JoinedPass();
    var s1 := Substitute(SNAKE, SnakeReplace(), name);
    var s2 := Substitute(KEBAB, KebabReplace(), s1);
    var s3 := Substitute(DOT, DotReplace(), s2);
    var s4 := Substitute(JOINED, SmartReplace, s3);
    PatternsClear(SNAKE, SNAKE);
    PatternsClear(KEBAB, KEBAB);
    PatternsClear(DOT, DOTTED);
    PatternsClear(JOINED, JOINED);
    BecomesSettled(SNAKE, SnakeReplace(), SNAKE, name);
    Through(SNAKE, SnakeReplace(), KEBAB, KebabReplace(), KEBAB, s1);
    Through(SNAKE, SnakeReplace(), DOT, DotReplace(), DOTTED, s2);
    Through(SNAKE, SnakeReplace(), JOINED, SmartReplace, JOINED, s3);
    BecomesSettled(KEBAB, KebabReplace(), KEBAB, s1);
    Through(KEBAB, KebabReplace(), DOT, DotReplace(), DOTTED, s2);
    Through(KEBAB, KebabReplace(), JOINED, SmartReplace, JOINED, s3);
    BecomesSettled(DOT, DotReplace(), DOTTED, s2);
    Through(DOT, DotReplace(), JOINED, SmartReplace, JOINED, s3);
    BecomesSettled(JOINED, SmartReplace, JOINED, s3);
    SettledStays(SNAKE, SnakeReplace(), s4);
    SettledStays(KEBAB, KebabReplace(), s4);
    SettledStays(DOT, DotReplace(), s4);
    SettledStays(JOINED, SmartReplace, s4);
  }

  lemma Through(p: string, g: string -> string, pattern: string, replace: string -> string, target: string, s: string)
    requires p in {SNAKE, KEBAB, DOT, JOINED} && target in {SNAKE, KEBAB, DOTTED, JOINED} && p != target
    requires pattern != ""
    requires Yields(pattern, replace, target) && Settled(p, g, s)
    ensures Settled(p, g, Substitute(pattern, replace, s))
  {
    hide Substitute, Settled, Clear, DifferEarly, Yields;
    PatternsClear(p, target);
    StaysSettled(p, g, pattern, replace, target, s);
  }

  /** With the script's own names, siblings with different new names are all the plan needs. */
  lemma NamesSuffice(w: World)
    requires forall p, q | p in w.tree && q in w.tree && p != [] && q != [] && Parent(p) == Parent(q) && p != q ::
      NewName(w, SmartRenameName, p) != NewName(w, SmartRenameName, q)
    ensures NoClash(w, SmartRenameName)
  {
    hide Renamed, NoClash, NewName;
    forall n: string | SmartRenameName(n).Some?
      ensures SmartRenameName(SmartRenameName(n).value) in {None, Some(SmartRenameName(n).value)}
    {
      RenamedSettles(n);
    }
    SettledNamesSuffice(w, SmartRenameName);
  }

  // ----- Two spellings of one name -----

  lemma {:induction false} TooShort(pattern: string, replace: string -> string, s: string)
    requires |s| < |pattern|
    ensures Substitute(pattern, replace, s) == s
    decreases |s|
  {
    if s != "" {
      TooShort(pattern, replace, s[1..]);
    }
  }

  /** A joined name, in whatever case, gets one of the joined spellings. */
  lemma JoinedName(name: string)
    requires |name| == |JOINED| && Matches(JOINED, name)
    ensures Renamed(name) == SmartReplace(name)
  {
    hide SmartReplace, Substitute, Matches;
    TooShort(SNAKE, SnakeReplace(), name);
    TooShort(KEBAB, KebabReplace(), name);
    NoDot(name);
    WholeName(name);
  }

  lemma NoDot(name: string)
    requires |name| == |JOINED| && Matches(JOINED, name)
    ensures Substitute(DOT, DotReplace(), name) == name
  {
    hide Substitute, FoldChar, Matches, DotReplace;
    DotElsewhere(name);
    NotAt(DOT, DotReplace(), name);
    NotAt(DOT, DotReplace(), name[1..]);
    TooShort(DOT, DotReplace(), name[2..]);
    assert name[1..][1..] == name[2..];
    assert name == [name[0]] + ([name[1]] + name[2..]);
  }

  lemma DotElsewhere(name: string)
    requires |name| == |JOINED| && Matches(JOINED, name)
    ensures FoldChar(name[0]) != DOT[0] && FoldChar(name[1]) != DOT[0]
  {
    hide FoldChar;
    assert FoldChar(name[0]) == JOINED[0] && FoldChar(name[1]) == JOINED[1];
  }

  lemma WholeName(name: string)
    requires |name| == |JOINED| && Matches(JOINED, name)
    ensures Substitute(JOINED, SmartReplace, name) == SmartReplace(name)
  {
    hide SmartReplace, Matches;
    assert name[..|JOINED|] == name && name[|JOINED|..] == "";
  }

  lemma NotAt(pattern: string, replace: string -> string, s: string)
    requires pattern != "" && s != "" && FoldChar(s[0]) != pattern[0]
    ensures Substitute(pattern, replace, s) == [s[0]] + Substitute(pattern, replace, s[1..])
  {
  }

  const MIXED_A := "OMNESagent"
  const MIXED_B := "omnesAGENT"
  const MIXED_NEW := "OmnesAgent"

  lemma MixedNames()
    ensures SmartRenameName(MIXED_A) == SmartRenameName(MIXED_B) == Some(MIXED_NEW)
  {
    hide Renamed;
    MixedMatch();
    JoinedName(MIXED_A);
    JoinedName(MIXED_B);
    MixedReplaced();
  }

  lemma MixedMatch()
    ensures Matches(JOINED, MIXED_A) && Matches(JOINED, MIXED_B)
  {
  }

  lemma MixedReplaced()
    ensures SmartReplace(MIXED_A) == SmartReplace(MIXED_B) == MIXED_NEW
  {
    assert IsUpper(MIXED_A[0]) && IsUpper(MIXED_A[1..][0]) && IsLower(MIXED_A[5]);
    assert IsLower(MIXED_B[0]) && IsUpper(MIXED_B[5]) && !IsUpper(MIXED_B[0]);
  }

  /** A directory with two files whose names are two spellings of one. */
  function MixedPair(a: Kind, b: Kind): World {
    World(map[[] := Directory, [MIXED_A] := a, [MIXED_B] := b], {}, {}, {})
  }

  lemma MixedPlanned(a: Kind, b: Kind, p: Rel)
    requires !a.Directory? && !b.Directory? && p in {[MIXED_A], [MIXED_B]}
    ensures var w := MixedPair(a, b);
      Planned(w, SmartRenameName, p) && OpFor(w, SmartRenameName, p).new_ == [MIXED_NEW] && [MIXED_NEW] !in w.tree
  {
    hide SmartRenameName;
    MixedNames();
    var w := MixedPair(a, b);
    assert MIXED_NEW[1] == 'm' && MIXED_A[1] == 'M' && MIXED_NEW[0] == 'O' && MIXED_B[0] == 'o';
    assert [MIXED_NEW][0] == MIXED_NEW && [MIXED_A][0] == MIXED_A && [MIXED_B][0] == MIXED_B;
    assert Visited(w, []);
    assert Parent(p) == [] && !Excluded(w, p) && Visited(w, p);
  }

  lemma MixedOrder()
    ensures [MIXED_A] != [MIXED_B] && Ahead([MIXED_A], [MIXED_B])
  {
    assert [MIXED_A][0][0] != [MIXED_B][0][0];
    assert Parent([MIXED_A]) == Parent([MIXED_B]) == [];
    var (x, y) := (Text([MIXED_A]), Text([MIXED_B]));
    assert x == "/" + MIXED_A && y == "/" + MIXED_B;
    assert x[1..][0] == 'O' && y[1..][0] == 'o';
  }

  lemma MixedOverwrites(a: Kind, b: Kind)
    requires !a.Directory? && !b.Directory?
    ensures var w := MixedPair(a, b);
      Overwrites(w, SmartRenameName, [MIXED_B]) && [MIXED_B] in w.tree
  {
    hide SmartRenameName, Planned, NewName, Ahead, OpFor;
    var w := MixedPair(a, b);
    MixedPlanned(a, b, [MIXED_A]);
    MixedPlanned(a, b, [MIXED_B]);
    MixedOrder();
    MixedOnly(a, b);
    assert Leads(w, SmartRenameName, [MIXED_A]);
    MixedReplaceable(a, b);
    hide Leads, CanReplace;
    assert Holds(w, SmartRenameName, [MIXED_A], [MIXED_B]);
  }

  lemma MixedReplaceable(a: Kind, b: Kind)
    requires !a.Directory? && !b.Directory?
    ensures var w := MixedPair(a, b);
      [MIXED_A] in w.tree && [MIXED_B] in w.tree && CanReplace(w.tree, [MIXED_A], [MIXED_B])
  {
    MixedOrder();
    hide Ahead;
  }

  lemma MixedOnly(a: Kind, b: Kind)
    ensures forall r | Planned(MixedPair(a, b), SmartRenameName, r) :: r in {[MIXED_A], [MIXED_B]}
  {
    hide SmartRenameName, Planned, NewName, OpFor;
    forall r | Planned(MixedPair(a, b), SmartRenameName, r) ensures r in {[MIXED_A], [MIXED_B]} {
      PlannedFacts(MixedPair(a, b), SmartRenameName, r);
    }
  }

  /** Two files side by side whose names are two spellings of one: one of them is lost, and no error is reported. */
  lemma MixedPairLost(a: Kind, b: Kind, ops: seq<Op>)
    requires !a.Directory? && !b.Directory? && IsPlan(MixedPair(a, b), SmartRenameName, ops)
    ensures var w := MixedPair(a, b);
      Execute(w.tree, ops).1 == [] && |Execute(w.tree, ops).0| < |w.tree|
  {
    hide SmartRenameName, Planned, Execute, IsPlan, Overwrites;
    var w := MixedPair(a, b);
    MixedOverwrites(a, b);
    KeptIff(w, SmartRenameName, ops);
    MixedOnly(a, b);
    MixedOrder();
    hide Ahead;
    FilesSilent(w, SmartRenameName, ops, |ops|);
    assert ops[..|ops|] == ops;
  }
}
