/**
 The two line patterns of the SKILL.toml migration (`backend/scripts/migrate-skill-toml.py`, `RE_TABLE` and
 `RE_KEY`), said of the text of a line: which lines are table headers, which have a key, and which of those move.
 */
module MigrationLines {
  import opened SkillMigration
  import opened TextLines
  import opened Wrappers

  predicate White(s: string) { forall i | 0 <= i < |s| :: IsSpace(s[i]) }

  /** Letters, digits, underscores and hyphens. */
  predicate KeyText(s: string) {
    forall i | 0 <= i < |s| ::
      'a' <= s[i] <= 'z' || 'A' <= s[i] <= 'Z' || '0' <= s[i] <= '9' || s[i] == '_' || s[i] == '-'
  }

  /** The same, and dots. */
  predicate NameText(s: string) {
    forall i | 0 <= i < |s| ::
      'a' <= s[i] <= 'z' || 'A' <= s[i] <= 'Z' || '0' <= s[i] <= '9' || s[i] == '_' || s[i] == '-' || s[i] == '.'
  }

  predicate KeyLine(line: string, a: string, key: string, b: string, v: string) {
    White(a) && White(b) && key != "" && KeyText(key) && line == a + key + b + "=" + v
  }

  predicate HeaderLine(line: string, a: string, b: string, name: string, c: string, d: string) {
    && White(a) && White(b) && White(c) && White(d) && name != "" && NameText(name)
    && line == a + "[" + b + name + c + "]" + d
  }

  // ----- Runs of characters -----

  /** White space before something else is skipped. */
  lemma {:induction false} WhiteSkipped(a: string, rest: string)
    requires White(a) && (rest != "" ==> !IsSpace(rest[0]))
    ensures SkipSpaces(a + rest) == rest
    decreases |a|
  {
    hide IsSpace;
    if a == "" {
      assert a + rest == rest;
    } else {
      assert (a + rest)[0] == a[0] && (a + rest)[1..] == a[1..] + rest;
      WhiteSkipped(a[1..], rest);
    }
  }

  /** What is skipped is white space. */
  lemma {:induction false} SkippedWhite(s: string) returns (a: string)
    ensures White(a) && s == a + SkipSpaces(s)
    decreases |s|
  {
    hide IsSpace;
    if s != "" && IsSpace(s[0]) {
      var rest := SkippedWhite(s[1..]);
      a := [s[0]] + rest;
      assert s == [s[0]] + s[1..];
    } else {
      a := "";
      assert "" + s == s;
    }
  }

  lemma {:induction false} KeyRun(key: string, rest: string)
    requires KeyText(key) && (rest != "" ==> !KeyText([rest[0]]))
    ensures KeyLen(key + rest) == |key|
    decreases |key|
  {
    if key == "" {
      assert key + rest == rest;
      assert rest != "" ==> [rest[0]][0] == rest[0];
    } else {
      assert (key + rest)[0] == key[0] && (key + rest)[1..] == key[1..] + rest;
      KeyRun(key[1..], rest);
    }
  }

  lemma {:induction false} RunKey(s: string)
    ensures KeyText(s[..KeyLen(s)])
    decreases |s|
  {
    if s != "" && IsKeyChar(s[0]) {
      RunKey(s[1..]);
      assert s[..KeyLen(s)] == [s[0]] + s[1..][..KeyLen(s[1..])];
    }
  }

  lemma {:induction false} NameRun(name: string, rest: string)
    requires NameText(name) && (rest != "" ==> !NameText([rest[0]]))
    ensures NameLen(name + rest) == |name|
    decreases |name|
  {
    if name == "" {
      assert name + rest == rest;
      assert rest != "" ==> [rest[0]][0] == rest[0];
    } else {
      assert (name + rest)[0] == name[0] && (name + rest)[1..] == name[1..] + rest;
      NameRun(name[1..], rest);
    }
  }

  lemma {:induction false} RunName(s: string)
    ensures NameText(s[..NameLen(s)])
    decreases |s|
  {
    if s != "" && IsNameChar(s[0]) {
      RunName(s[1..]);
      assert s[..NameLen(s)] == [s[0]] + s[1..][..NameLen(s[1..])];
    }
  }

  // ----- Lines with a key -----

  lemma NotInKeys()
    ensures !KeyText("=") && !IsSpace('=') && !NameText("]") && !IsSpace(']') && !IsSpace('[')
    ensures forall c: char | IsSpace(c) :: !KeyText([c]) && !NameText([c])
    ensures forall s: string | s != "" && NameText(s) :: !IsSpace(s[0])
    ensures forall s: string | s != "" && KeyText(s) :: !IsSpace(s[0])
  {
    assert "="[0] == '=' && "]"[0] == ']';
    forall c: char | IsSpace(c) ensures !KeyText([c]) && !NameText([c]) {
      assert [c][0] == c;
    }
  }

  /** White space and something else starts no name and no key, when that does not. */
  lemma AfterRun(b: string, rest: string)
    requires White(b) && rest != ""
    ensures (b + rest) != "" && ((b + rest)[0] == rest[0] || IsSpace((b + rest)[0]))
  {
    hide IsSpace;
    assert (b + rest)[0] == if b == "" then rest[0] else b[0];
  }

  lemma KeyLineHasKey(line: string, a: string, key: string, b: string, v: string)
    requires KeyLine(line, a, key, b, v)
    ensures KeyName(line) == Some(key)
  {
    hide IsSpace, KeyText, White, KeyLen, SkipSpaces;
    NotInKeys();
    var (value, rest) := ("=" + v, key + (b + ("=" + v)));
    assert line == a + rest && rest[0] == key[0] && value[0] == '=' && [value[0]] == "=";
    WhiteSkipped(a, rest);
    AfterRun(b, value);
    KeyRun(key, b + value);
    assert rest[..|key|] == key && rest[|key|..] == b + value;
    WhiteSkipped(b, value);
  }

  lemma KeyLineOf(line: string) returns (a: string, b: string, v: string)
    requires KeyName(line).Some?
    ensures KeyLine(line, a, KeyName(line).value, b, v)
  {
    hide IsSpace, KeyText, White, KeyLen, SkipSpaces;
    a := SkippedWhite(line);
    var s := SkipSpaces(line);
    var n := KeyLen(s);
    RunKey(s);
    b := SkippedWhite(s[n..]);
    var u := SkipSpaces(s[n..]);
    v := u[1..];
    assert u == "=" + v && s == s[..n] + s[n..];
    assert line == a + s[..n] + b + "=" + v;
  }

  /** A line has a key exactly when it is the key with white space around it, an equals sign and anything. */
  lemma KeyNameIff(line: string, key: string)
    ensures KeyName(line) == Some(key) <==> exists a, b, v :: KeyLine(line, a, key, b, v)
  {
    hide KeyLine, KeyName;
    if KeyName(line) == Some(key) {
      var a, b, v := KeyLineOf(line);
    }
    if a, b, v :| KeyLine(line, a, key, b, v) {
      KeyLineHasKey(line, a, key, b, v);
    }
  }

  // ----- Table headers -----

  lemma HeaderLineNames(line: string, a: string, b: string, name: string, c: string, d: string)
    requires HeaderLine(line, a, b, name, c, d)
    ensures TableName(line) == Some(name)
  {
    hide IsSpace, NameText, White, NameLen, SkipSpaces, BracketedName;
    NotInKeys();
    var close := "]" + d;
    var inner := name + (c + close);
    var rest := "[" + (b + inner);
    assert line == a + rest && rest[0] == '[' && rest[1..] == b + inner && inner[0] == name[0];
    WhiteSkipped(a, rest);
    WhiteSkipped(b, inner);
    BracketCloses(name, c, d);
  }

  lemma BracketCloses(name: string, c: string, d: string)
    requires White(c) && White(d) && name != "" && NameText(name)
    ensures BracketedName(name + (c + ("]" + d))) == Some(name)
  {
    hide IsSpace, NameText, White, NameLen, SkipSpaces;
    NotInKeys();
    var close := "]" + d;
    var inner := name + (c + close);
    assert close[0] == ']' && [close[0]] == "]" && close[1..] == d;
    AfterRun(c, close);
    NameRun(name, c + close);
    assert inner[..|name|] == name && inner[|name|..] == c + close;
    WhiteSkipped(c, close);
    assert d + "" == d;
    WhiteSkipped(d, "");
  }

  lemma HeaderLineOf(line: string) returns (a: string, b: string, c: string, d: string)
    requires TableName(line).Some?
    ensures HeaderLine(line, a, b, TableName(line).value, c, d)
  {
    hide IsSpace, NameText, White, NameLen, SkipSpaces;
    a := SkippedWhite(line);
    var s := SkipSpaces(line);
    b := SkippedWhite(s[1..]);
    var t := SkipSpaces(s[1..]);
    var n := NameLen(t);
    RunName(t);
    c := SkippedWhite(t[n..]);
    var u := SkipSpaces(t[n..]);
    d := SkippedWhite(u[1..]);
    assert d + "" == d;
    assert s == "[" + s[1..] && t == t[..n] + t[n..] && u == "]" + u[1..];
    assert line == a + "[" + b + t[..n] + c + "]" + d;
  }

  /** A line names a table exactly when it is one pair of brackets around the name, with white space anywhere around. */
  lemma TableNameIff(line: string, name: string)
    ensures TableName(line) == Some(name) <==> exists a, b, c, d :: HeaderLine(line, a, b, name, c, d)
  {
    hide HeaderLine, TableName;
    if TableName(line) == Some(name) {
      var a, b, c, d := HeaderLineOf(line);
    }
    if a, b, c, d :| HeaderLine(line, a, b, name, c, d) {
      HeaderLineNames(line, a, b, name, c, d);
    }
  }

  // ----- The lines that move -----

  predicate ProvenanceLine(line: string, a: string, key: string, b: string, v: string) {
    && White(a) && White(b) && key in {"source", "owner", "language", "license", "stars", "updated_at"}
    && line == a + key + b + "=" + v
  }

  lemma KeysSpelled(key: string)
    requires key in {"source", "owner", "language", "license", "stars", "updated_at"}
    ensures key != "" && KeyText(key)
  {
    assert KeyText("source") && KeyText("owner") && KeyText("language");
    assert KeyText("license") && KeyText("stars") && KeyText("updated_at");
  }

  /**
   A line of `[skill]` moves exactly when it has one of the six keys, with white space around it, before an equals
   sign.
   */
  lemma ProvenanceIff(line: string)
    ensures IsProvenance(line) <==> exists a, key, b, v :: ProvenanceLine(line, a, key, b, v)
  {
    hide KeyName, White, KeyText;
    if IsProvenance(line) {
      var a, b, v := KeyLineOf(line);
      assert ProvenanceLine(line, a, KeyName(line).value, b, v);
    }
    if a, key, b, v :| ProvenanceLine(line, a, key, b, v) {
      KeysSpelled(key);
      KeyLineHasKey(line, a, key, b, v);
    }
  }

  /** A sub-table moves exactly when it is one of the two written out. */
  lemma MovedSuffixIff(table: Option<string>)
    ensures MovedSuffix(table).Some? <==> table in {Some("skill.requirements"), Some("skill.metadata")}
  {
    assert "skill." + "requirements" == "skill.requirements" && "skill." + "metadata" == "skill.metadata";
    if table.Some? && "skill." <= table.value {
      assert table.value == "skill." + table.value[6..];
    }
    assert "skill.requirements"[6..] == "requirements" && "skill.metadata"[6..] == "metadata";
  }
}
