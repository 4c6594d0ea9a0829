/**
 A scanner that takes the lines of a text one at a time, turn by turn, and the same scanner on the text as one
 stream. A turn is given the rest of its line, the line's number and the state, and leaves a suffix of the line and a
 new state.
 */
module LineStreams {
  import opened Sequences
  import opened TextLines

  type Step<!S> = (string, nat, S) -> (string, S)

  /** One turn; a step that would not move on ends the line. */
  function Advance<S>(step: Step<S>, s: string, n: nat, st: S): (r: (string, S))
    ensures s != [] ==> |r.0| < |s|
  {
    var r := step(s, n, st);
    if |r.0| < |s| then r else ([], r.1)
  }

  ghost predicate LeavesSuffix<S(!new)>(step: Step<S>) {
    forall s, n, st :: s != [] ==> Advance(step, s, n, st).0 == s[|s| - |Advance(step, s, n, st).0|..]
  }

  function RunLine<S>(step: Step<S>, s: string, n: nat, st: S): S
    decreases |s|
  {
    if s == [] then st
    else
      var r := Advance(step, s, n, st);
      RunLine(step, r.0, n, r.1)
  }

  function RunLines<S>(step: Step<S>, lines: seq<string>, n: nat, st: S): S {
    if lines == [] then st else RunLines(step, lines[1..], n + 1, RunLine(step, lines[0], n, st))
  }

  /** The scanner on a text that is not cut into lines: a turn still sees only the rest of its line. */
  function RunText<S>(step: Step<S>, t: string, n: nat, st: S): S
    decreases |t|
  {
    if t == [] then st
    else
      var r := Advance(step, t[..LineLen(t)], n, st);
      var k := LineLen(t) - |r.0|;
      RunText(step, t[k..], NextLine(n, t[k - 1]), r.1)
  }

  lemma LineTurn<S>(step: Step<S>, s: string, n: nat, st: S)
    ensures RunLine(step, [], n, st) == st
    ensures s != [] ==>
      RunLine(step, s, n, st) == RunLine(step, Advance(step, s, n, st).0, n, Advance(step, s, n, st).1)
  {
    hide Advance;
  }

  lemma TextTurn<S>(step: Step<S>, t: string, n: nat, st: S, k: nat)
    requires t != [] && k == LineLen(t) - |Advance(step, t[..LineLen(t)], n, st).0|
    ensures RunText(step, t, n, st)
      == RunText(step, t[k..], NextLine(n, t[k - 1]), Advance(step, t[..LineLen(t)], n, st).1)
  {
    hide Advance, LineLen, NextLine;
  }

  lemma EmptyText<S>(step: Step<S>, t: string, n: nat, st: S)
    requires t == []
    ensures RunText(step, t, n, st) == st
  {
  }

  /** A line that is scanned to its end. */
  lemma {:induction false} RunFirstLine<S(!new)>(step: Step<S>, t: string, n: nat, st: S)
    requires LeavesSuffix(step) && t != []
    ensures RunText(step, t, n, st) == RunText(step, t[LineLen(t)..], n + 1, RunLine(step, t[..LineLen(t)], n, st))
    decreases |t|
  {
    hide Advance, LineLen, RunLine, RunText;
    var l := LineLen(t);
    var line := t[..l];
    var r := Advance(step, line, n, st);
    var k := l - |r.0|;
    TextTurn(step, t, n, st, k);
    LineTurn(step, line, n, st);
    if k < l {
      assert r.0 == line[k..];
      LineLenRest(t, k);
      Slices(t, k, l);
      RunFirstLine(step, t[k..], n, r.1);
    } else {
      LineTurn(step, r.0, n, r.1);
      if !IsBreak(t[l - 1]) {
        EmptyText(step, t[l..], n, r.1);
        EmptyText(step, t[l..], n + 1, r.1);
      }
    }
  }

  /** The stream scanner and the line scanner agree on every text. */
  lemma {:induction false} RunTextIsRunLines<S(!new)>(step: Step<S>, t: string, n: nat, st: S)
    requires LeavesSuffix(step)
    ensures RunText(step, t, n, st) == RunLines(step, SplitLines(t), n, st)
    decreases |t|
  {
    hide LeavesSuffix, LineLen, RunLine, RunText, SplitLines;
    if t == [] {
      EmptyText(step, t, n, st);
      SplitNothing();
    } else {
      var l := LineLen(t);
      RunFirstLine(step, t, n, st);
      RunTextIsRunLines(step, t[l..], n + 1, RunLine(step, t[..l], n, st));
      SplitTurn(t);
    }
  }

  /** One turn over the first characters of a text. */
  lemma Take<S>(step: Step<S>, t: string, n: nat, st: S, k: nat, st1: S)
    requires 0 < k <= LineLen(t) && Advance(step, t[..LineLen(t)], n, st) == (t[..LineLen(t)][k..], st1)
    ensures RunText(step, t, n, st) == RunText(step, t[k..], NextLine(n, t[k - 1]), st1)
  {
    hide RunText, Advance;
    TextTurn(step, t, n, st, k);
  }
}
