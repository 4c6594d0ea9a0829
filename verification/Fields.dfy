/** Splitting a string on a separator, and joining the fields again. */
module Fields {

  function SplitOn(s: string, sep: char): (fields: seq<string>)
    ensures |fields| >= 1
  {
    if s == [] then [[]]
    else
      var rest := SplitOn(s[1..], sep);
      if s[0] == sep then [[]] + rest else [[s[0]] + rest[0]] + rest[1..]
  }

  function Join(fields: seq<string>, sep: char): string
    requires |fields| >= 1
  {
    if |fields| == 1 then fields[0] else fields[0] + [sep] + Join(fields[1..], sep)
  }

  lemma {:induction false} JoinSplit(s: string, sep: char)
    ensures Join(SplitOn(s, sep), sep) == s
    ensures forall f | f in SplitOn(s, sep) :: sep !in f
  {
    if s != [] {
      JoinSplit(s[1..], sep);
      assert s == [s[0]] + s[1..];
      var rest := SplitOn(s[1..], sep);
      if |rest| > 1 {
        assert ([[s[0]] + rest[0]] + rest[1..])[1..] == rest[1..];
      }
    }
  }

  lemma {:induction false} SplitOnField(f: string, sep: char, tail: string)
    requires sep !in f
    ensures SplitOn(f, sep) == [f]
    ensures SplitOn(f + [sep] + tail, sep) == [f] + SplitOn(tail, sep)
  {
    if f == [] {
      assert f + [sep] + tail == [sep] + tail;
    } else {
      SplitOnField(f[1..], sep, tail);
      assert f == [f[0]] + f[1..];
      assert (f + [sep] + tail)[1..] == f[1..] + [sep] + tail;
    }
  }

}
