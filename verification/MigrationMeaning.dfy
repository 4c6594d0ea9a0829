/**
 What the SKILL.toml migration means: read as tables and the lines they own, blank lines and line ends aside, the
 migrated text is the input with the provenance lines of `[skill]` under one `[forge]` and two sub-tables renamed.
 Migrating again changes nothing.
 */
module MigrationMeaning {
  import opened Sequences
  import opened SkillMigration
  import opened TextLines
  import opened Wrappers

  /** A table with the lines it owns, blank lines and newlines aside; the preamble has no name. */
  datatype Table = Table(name: Option<string>, lines: seq<string>)

  predicate Blank(line: string) { SkipSpaces(line) == "" }

  function Meaningful(lines: seq<string>): seq<string> {
    if lines == [] then []
    else (if Blank(lines[0]) then [] else [TrimNewlines(lines[0])]) + Meaningful(lines[1..])
  }

  function TableOf(s: Section): Table { Table(s.table, Meaningful(Body(s))) }

  function Outline(sections: seq<Section>): (tables: seq<Table>)
    ensures |tables| == |sections|
  {
    if sections == [] then [] else [TableOf(sections[0])] + Outline(sections[1..])
  }

  /** The tables a text is read as. */
  function Means(text: string): seq<Table> { Outline(Cut(SplitLines(text), None, [])) }

  // ----- The intended rewrite, on tables -----

  function StayingTables(tables: seq<Table>): seq<Table> {
    if tables == [] then []
    else
      var t := tables[0];
      (if t.name == Some("skill") then [Table(t.name, KeptLines(t.lines))]
       else if MovedSuffix(t.name).Some? then []
       else [t])
      + StayingTables(tables[1..])
  }

  function ProvenanceLines(tables: seq<Table>): seq<string> {
    if tables == [] then []
    else (if tables[0].name == Some("skill") then MovedLines(tables[0].lines) else []) + ProvenanceLines(tables[1..])
  }

  function RenamedTables(tables: seq<Table>): seq<Table> {
    if tables == [] then []
    else
      (if MovedSuffix(tables[0].name).Some?
       then [Table(Some("forge." + MovedSuffix(tables[0].name).value), tables[0].lines)] else [])
      + RenamedTables(tables[1..])
  }

  /** The forge table goes right after the first `[skill]`, or last when there is none. */
  function InsertForge(tables: seq<Table>, keys: seq<string>): seq<Table> {
    var forge := Table(Some("forge"), keys);
    if tables == [] then [forge]
    else if tables[0].name == Some("skill") then [tables[0], forge] + tables[1..]
    else [tables[0]] + InsertForge(tables[1..], keys)
  }

  function MigrateTables(tables: seq<Table>): seq<Table> {
    InsertForge(StayingTables(tables), ProvenanceLines(tables)) + RenamedTables(tables)
  }

  // ----- Who owns a line -----

  function OwnedBy(tables: seq<Table>, name: Option<string>): seq<string> {
    if tables == [] then []
    else (if tables[0].name == name then tables[0].lines else []) + OwnedBy(tables[1..], name)
  }

  lemma {:induction false} OwnedByAppend(a: seq<Table>, b: seq<Table>, name: Option<string>)
    ensures OwnedBy(a + b, name) == OwnedBy(a, name) + OwnedBy(b, name)
  {
    if a == [] {
      assert a + b == b;
    } else {
      OwnedByAppend(a[1..], b, name);
      assert (a + b)[0] == a[0] && (a + b)[1..] == a[1..] + b;
      Regroup(if a[0].name == name then a[0].lines else [], OwnedBy(a[1..], name), OwnedBy(b, name));
    }
  }

  lemma {:induction false} KeptAppend(a: seq<string>, b: seq<string>)
    ensures KeptLines(a + b) == KeptLines(a) + KeptLines(b)
    ensures MovedLines(a + b) == MovedLines(a) + MovedLines(b)
  {
    hide IsProvenance;
    if a == [] {
      assert a + b == b;
    } else {
      KeptAppend(a[1..], b);
      assert (a + b)[0] == a[0] && (a + b)[1..] == a[1..] + b;
      Regroup(if IsProvenance(a[0]) then [] else [a[0]], KeptLines(a[1..]), KeptLines(b));
      Regroup(if IsProvenance(a[0]) then [a[0]] else [], MovedLines(a[1..]), MovedLines(b));
    }
  }

  lemma {:induction false} StayingOwns(tables: seq<Table>, name: Option<string>)
    ensures OwnedBy(StayingTables(tables), name) ==
      if name == Some("skill") then KeptLines(OwnedBy(tables, name))
      else if MovedSuffix(name).Some? then []
      else OwnedBy(tables, name)
  {
    hide KeptLines, MovedSuffix;
    if tables == [] {
      NothingKept();
    } else {
      var t, rest := tables[0], tables[1..];
      StayingOwns(rest, name);
      var first := if t.name == Some("skill") then [Table(t.name, KeptLines(t.lines))]
        else if MovedSuffix(t.name).Some? then [] else [t];
      OwnedByAppend(first, StayingTables(rest), name);
      OwnedByOne(first, name);
      KeptAppend(if t.name == name then t.lines else [], OwnedBy(rest, name));
      NothingKept();
      SkillStays();
    }
  }

  lemma NothingKept()
    ensures KeptLines([]) == [] && MovedLines([]) == []
  {
  }

  lemma SkillStays()
    ensures MovedSuffix(Some("skill")) == None && MovedSuffix(Some("forge")) == None
  {
    assert !("skill." <= "forge") && !("skill." <= "skill");
  }

  lemma OwnedByOne(tables: seq<Table>, name: Option<string>)
    requires |tables| <= 1
    ensures OwnedBy(tables, name) == if tables != [] && tables[0].name == name then tables[0].lines else []
  {
    if tables != [] {
      assert tables[1..] == [];
      assert OwnedBy([], name) == [];
    }
  }

  lemma {:induction false} ProvenanceOwns(tables: seq<Table>)
    ensures ProvenanceLines(tables) == MovedLines(OwnedBy(tables, Some("skill")))
  {
    hide MovedLines;
    NothingKept();
    if tables != [] {
      ProvenanceOwns(tables[1..]);
      KeptAppend(if tables[0].name == Some("skill") then tables[0].lines else [], OwnedBy(tables[1..], Some("skill")));
    }
  }

  lemma {:induction false} RenamedOwns(tables: seq<Table>, name: Option<string>)
    ensures OwnedBy(RenamedTables(tables), name) ==
      if name == Some("forge.requirements") then OwnedBy(tables, Some("skill.requirements"))
      else if name == Some("forge.metadata") then OwnedBy(tables, Some("skill.metadata"))
      else []
  {
    hide MovedSuffix;
    if tables != [] {
      var t, rest := tables[0], tables[1..];
      RenamedOwns(rest, name);
      MovedNames(t.name);
      var first := if MovedSuffix(t.name).Some? then [Table(Some("forge." + MovedSuffix(t.name).value), t.lines)]
        else [];
      OwnedByAppend(first, RenamedTables(rest), name);
      OwnedByOne(first, name);
    }
  }

  /** Exactly two sub-tables of `[skill]` move. */
  lemma MovedNames(name: Option<string>)
    ensures MovedSuffix(name) ==
      if name == Some("skill.requirements") then Some("requirements")
      else if name == Some("skill.metadata") then Some("metadata")
      else None
    ensures "forge." + "requirements" == "forge.requirements" && "forge." + "metadata" == "forge.metadata"
  {
    assert "skill.requirements"[6..] == "requirements" && "skill.metadata"[6..] == "metadata";
    assert "skill.requirements"[..6] == "skill." && "skill.metadata"[..6] == "skill.";
    if name.Some? && "skill." <= name.value {
      assert name.value == "skill." + name.value[6..];
      assert "skill." + "requirements" == "skill.requirements" && "skill." + "metadata" == "skill.metadata";
    }
  }

  lemma {:induction false} InsertOwns(tables: seq<Table>, keys: seq<string>, name: Option<string>)
    requires OwnedBy(tables, Some("forge")) == []
    ensures OwnedBy(InsertForge(tables, keys), name) == if name == Some("forge") then keys else OwnedBy(tables, name)
  {
    hide OwnedBy;
    var forge := Table(Some("forge"), keys);
    OwnedByOne([forge], name);
    OwnedByOne([], name);
    if tables != [] {
      var first := [tables[0]];
      OwnedByOne(first, name);
      OwnedByOne(first, Some("forge"));
      assert tables == first + tables[1..];
      OwnedByAppend(first, tables[1..], name);
      OwnedByAppend(first, tables[1..], Some("forge"));
      if tables[0].name == Some("skill") {
        assert [tables[0], forge] + tables[1..] == first + ([forge] + tables[1..]);
        OwnedByAppend(first, [forge] + tables[1..], name);
        OwnedByAppend([forge], tables[1..], name);
      } else {
        InsertOwns(tables[1..], keys, name);
        OwnedByAppend(first, InsertForge(tables[1..], keys), name);
      }
    }
  }

  /** Where every line of a document without a forge table ends up. */
  lemma Ownership(tables: seq<Table>, name: Option<string>)
    requires OwnedBy(tables, Some("forge")) == []
    ensures OwnedBy(MigrateTables(tables), name) ==
      if name == Some("skill") then KeptLines(OwnedBy(tables, name))
      else if name == Some("forge") then MovedLines(OwnedBy(tables, Some("skill")))
      else if name == Some("forge.requirements") then
        OwnedBy(tables, name) + OwnedBy(tables, Some("skill.requirements"))
      else if name == Some("forge.metadata") then OwnedBy(tables, name) + OwnedBy(tables, Some("skill.metadata"))
      else if name in {Some("skill.requirements"), Some("skill.metadata")} then []
      else OwnedBy(tables, name)
  {
    hide MovedSuffix, KeptLines, MovedLines, OwnedBy;
    var staying := StayingTables(tables);
    StayingOwns(tables, name);
    StayingOwns(tables, Some("forge"));
    SkillStays();
    ProvenanceOwns(tables);
    RenamedOwns(tables, name);
    InsertOwns(staying, ProvenanceLines(tables), name);
    OwnedByAppend(InsertForge(staying, ProvenanceLines(tables)), RenamedTables(tables), name);
    MovedNames(name);
  }

  // ----- Blank space at the end of a line changes no pattern -----

  lemma {:induction false} SpacesBlank(s: string, b: string)
    requires Blank(b)
    ensures SkipSpaces(s + b) == if SkipSpaces(s) == "" then "" else SkipSpaces(s) + b
  {
    if s == [] {
      assert s + b == b;
    } else {
      assert (s + b)[0] == s[0] && (s + b)[1..] == s[1..] + b;
      SpacesBlank(s[1..], b);
    }
  }

  lemma {:induction false} NameLenBlank(s: string, b: string)
    requires b != [] ==> !IsNameChar(b[0])
    ensures NameLen(s + b) == NameLen(s)
  {
    if s == [] {
      assert s + b == b;
    } else {
      assert (s + b)[0] == s[0] && (s + b)[1..] == s[1..] + b;
      NameLenBlank(s[1..], b);
    }
  }

  lemma {:induction false} KeyLenBlank(s: string, b: string)
    requires b != [] ==> !IsKeyChar(b[0])
    ensures KeyLen(s + b) == KeyLen(s)
  {
    if s == [] {
      assert s + b == b;
    } else {
      assert (s + b)[0] == s[0] && (s + b)[1..] == s[1..] + b;
      KeyLenBlank(s[1..], b);
    }
  }

  lemma AppendSlices(s: string, b: string, k: nat)
    requires k <= |s|
    ensures (s + b)[..k] == s[..k] && (s + b)[k..] == s[k..] + b
  {
  }

  lemma BlankStart(b: string)
    requires Blank(b)
    ensures b != [] ==> !IsNameChar(b[0]) && !IsKeyChar(b[0])
  {
  }

  lemma BracketBlank(t: string, b: string)
    requires Blank(b)
    ensures BracketedName(t + b) == BracketedName(t)
  {
    BlankStart(b);
    hide SkipSpaces, NameLen, Blank;
    NameLenBlank(t, b);
    AppendSlices(t, b, NameLen(t));
    SpacesBlank(t[NameLen(t)..], b);
    var u := SkipSpaces(t[NameLen(t)..]);
    if u != [] {
      assert (u + b)[1..] == u[1..] + b;
      SpacesBlank(u[1..], b);
    }
  }

  lemma HeaderBlank(line: string, b: string)
    requires Blank(b)
    ensures TableName(line + b) == TableName(line)
  {
    hide SkipSpaces, BracketedName, Blank;
    SpacesBlank(line, b);
    var s := SkipSpaces(line);
    if s != [] {
      assert (s + b)[1..] == s[1..] + b;
      SpacesBlank(s[1..], b);
      BracketBlank(SkipSpaces(s[1..]), b);
      NoName();
    }
  }

  lemma NoName()
    ensures NameLen("") == 0 && SkipSpaces("") == "" && BracketedName("") == None
  {
  }

  lemma KeyBlank(line: string, b: string)
    requires Blank(b)
    ensures KeyName(line + b) == KeyName(line)
  {
    BlankStart(b);
    hide SkipSpaces, KeyLen, Blank;
    SpacesBlank(line, b);
    var s := SkipSpaces(line);
    if s != [] {
      KeyLenBlank(s, b);
      AppendSlices(s, b, KeyLen(s));
      SpacesBlank(s[KeyLen(s)..], b);
    }
  }

  lemma {:induction false} TrimKeepsPatterns(line: string)
    ensures IsProvenance(TrimNewlines(line)) == IsProvenance(line)
  {
    hide KeyName;
    if line != [] && line[|line| - 1] == '\n' {
      var body := line[..|line| - 1];
      assert line == body + "\n";
      BlankNewline();
      KeyBlank(body, "\n");
      TrimKeepsPatterns(body);
    }
  }

  /** A blank line names no key and no table. */
  lemma BlankIsPlain(line: string)
    requires Blank(line)
    ensures TableName(line) == None && !IsProvenance(line)
  {
  }

  // ----- The rewrite on text sections is the rewrite on tables -----

  lemma {:induction false} MeaningfulAppend(a: seq<string>, b: seq<string>)
    ensures Meaningful(a + b) == Meaningful(a) + Meaningful(b)
  {
    hide Blank, TrimNewlines;
    if a == [] {
      assert a + b == b;
    } else {
      MeaningfulAppend(a[1..], b);
      assert (a + b)[0] == a[0] && (a + b)[1..] == a[1..] + b;
      Regroup(if Blank(a[0]) then [] else [TrimNewlines(a[0])], Meaningful(a[1..]), Meaningful(b));
    }
  }

  lemma {:induction false} MeaningfulSplit(lines: seq<string>)
    ensures Meaningful(KeptLines(lines)) == KeptLines(Meaningful(lines))
    ensures Meaningful(MovedLines(lines)) == MovedLines(Meaningful(lines))
  {
    hide IsProvenance, TrimNewlines, Blank;
    if lines != [] {
      var line, rest := lines[0], lines[1..];
      MeaningfulSplit(rest);
      TrimKeepsPatterns(line);
      MeaningfulAppend(if IsProvenance(line) then [] else [line], KeptLines(rest));
      MeaningfulAppend(if IsProvenance(line) then [line] else [], MovedLines(rest));
      KeptAppend(if Blank(line) then [] else [TrimNewlines(line)], Meaningful(rest));
      OneMeaningful(line);
      if Blank(line) {
        BlankIsPlain(line);
      } else {
        OneSplit(TrimNewlines(line));
      }
      NothingKept();
    }
  }

  lemma OneMeaningful(line: string)
    ensures Meaningful([line]) == if Blank(line) then [] else [TrimNewlines(line)]
    ensures Meaningful([]) == []
  {
    assert [line][1..] == [];
  }

  lemma OneSplit(line: string)
    ensures KeptLines([line]) == if IsProvenance(line) then [] else [line]
    ensures MovedLines([line]) == if IsProvenance(line) then [line] else []
  {
    assert [line][1..] == [];
  }

  lemma {:induction false} OutlineAppend(a: seq<Section>, b: seq<Section>)
    ensures Outline(a + b) == Outline(a) + Outline(b)
  {
    hide TableOf;
    if a == [] {
      assert a + b == b;
    } else {
      OutlineAppend(a[1..], b);
      assert (a + b)[0] == a[0] && (a + b)[1..] == a[1..] + b;
      Regroup([TableOf(a[0])], Outline(a[1..]), Outline(b));
    }
  }

  lemma OutlineOne(s: Section)
    ensures Outline([s]) == [TableOf(s)] && Outline([]) == []
  {
    assert [s][1..] == [];
  }

  lemma StayingTable(s: Section)
    requires IsSkill(s) && s.lines != []
    ensures TableOf(Section(s.table, Head(s) + KeptLines(Body(s)))) == Table(s.table, KeptLines(TableOf(s).lines))
  {
    MeaningfulSplit(Body(s));
    assert (Head(s) + KeptLines(Body(s)))[1..] == KeptLines(Body(s));
  }

  lemma {:induction false} OutlineStaying(sections: seq<Section>)
    requires Headed(sections)
    ensures Outline(Staying(sections)) == StayingTables(Outline(sections))
  {
    hide KeptLines, TableOf, MovedSuffix, Head, Body;
    if sections != [] {
      var s, rest := sections[0], sections[1..];
      assert forall k | 0 <= k < |rest| :: rest[k] == sections[k + 1];
      OutlineStaying(rest);
      TableKeepsName(s);
      if IsSkill(s) {
        StayingTable(s);
        var kept := Section(s.table, Head(s) + KeptLines(Body(s)));
        OutlineAppend([kept], Staying(rest));
        OutlineOne(kept);
      } else if MovedSuffix(s.table).Some? {
        OutlineAppend([], Staying(rest));
      } else {
        OutlineAppend([s], Staying(rest));
        OutlineOne(s);
      }
      assert Outline(sections)[1..] == Outline(rest);
    }
  }

  lemma TableKeepsName(s: Section)
    ensures TableOf(s).name == s.table
  {
  }

  lemma {:induction false} OutlineKeys(sections: seq<Section>)
    ensures Meaningful(ForgeKeys(sections)) == ProvenanceLines(Outline(sections))
  {
    hide MovedLines, Body;
    if sections != [] {
      var s, rest := sections[0], sections[1..];
      OutlineKeys(rest);
      MeaningfulAppend(if IsSkill(s) then MovedLines(Body(s)) else [], ForgeKeys(rest));
      MeaningfulSplit(Body(s));
      OneMeaningful("");
      assert Outline(sections)[1..] == Outline(rest);
    }
  }

  lemma {:induction false} OutlineTables(sections: seq<Section>)
    requires Headed(sections)
    ensures Outline(ForgeTables(sections)) == RenamedTables(Outline(sections))
  {
    hide MovedSuffix;
    if sections != [] {
      var s, rest := sections[0], sections[1..];
      assert forall k | 0 <= k < |rest| :: rest[k] == sections[k + 1];
      OutlineTables(rest);
      SkillStays();
      if !IsSkill(s) && MovedSuffix(s.table).Some? {
        MovedNames(s.table);
        OutlineAppend([Renamed(s)], ForgeTables(rest));
        OutlineOne(Renamed(s));
        assert Renamed(s).lines[1..] == s.lines[1..];
      } else {
        OutlineAppend([], ForgeTables(rest));
      }
      assert Outline(sections)[1..] == Outline(rest);
    }
  }

  // ----- Cutting -----

  lemma {:induction false} CutHeader(a: seq<string>, h: string, b: seq<string>, table: Option<string>, buf: seq<string>)
    requires TableName(h).Some?
    ensures Cut(a + [h] + b, table, buf) == Cut(a, table, buf) + Cut(b, TableName(h), [h])
    decreases |a|
  {
    hide TableName;
    if a == [] {
      assert a + [h] + b == [h] + b && ([h] + b)[1..] == b;
    } else {
      var all := a + [h] + b;
      assert all[0] == a[0] && all[1..] == a[1..] + [h] + b;
      if TableName(a[0]).Some? {
        CutHeader(a[1..], h, b, TableName(a[0]), [a[0]]);
      } else {
        CutHeader(a[1..], h, b, table, buf + [a[0]]);
      }
    }
  }

  predicate NoHeaders(lines: seq<string>) { forall k | 0 <= k < |lines| :: TableName(lines[k]) == None }

  lemma {:induction false} CutPlain(b: seq<string>, table: Option<string>, buf: seq<string>)
    requires NoHeaders(b)
    ensures Cut(b, table, buf) == [Section(table, buf + b)]
    decreases |b|
  {
    hide TableName;
    if b == [] {
      assert buf + b == buf;
    } else {
      CutPlain(b[1..], table, buf + [b[0]]);
      assert buf + [b[0]] + b[1..] == buf + b;
    }
  }

  /** The last section goes on with a line that is no header. */
  lemma {:induction false} CutSnoc(a: seq<string>, line: string, table: Option<string>, buf: seq<string>)
    requires TableName(line) == None
    ensures var sections := Cut(a, table, buf);
      var last := sections[|sections| - 1];
      Cut(a + [line], table, buf) == sections[..|sections| - 1] + [Section(last.table, last.lines + [line])]
    decreases |a|
  {
    hide TableName;
    if a == [] {
      assert a + [line] == [line] && [line][1..] == [];
    } else {
      assert (a + [line])[0] == a[0] && (a + [line])[1..] == a[1..] + [line];
      if TableName(a[0]).Some? {
        CutSnoc(a[1..], line, TableName(a[0]), [a[0]]);
      } else {
        CutSnoc(a[1..], line, table, buf + [a[0]]);
      }
    }
  }

  /** The lines as tables. */
  function Read(lines: seq<string>): seq<Table> { Outline(Cut(lines, None, [])) }

  lemma ReadSnoc(a: seq<string>, line: string)
    requires TableName(line) == None
    ensures var tables := Read(a);
      var last := tables[|tables| - 1];
      Read(a + [line]) == tables[..|tables| - 1] + [Table(last.name, last.lines + Meaningful([line]))]
  {
    hide TableName, Meaningful;
    var sections := Cut(a, None, []);
    CutHeaded(a, None, []);
    CutSnoc(a, line, None, []);
    var k := |sections| - 1;
    var last := sections[k];
    var longer := Section(last.table, last.lines + [line]);
    assert sections == sections[..k] + [last];
    OutlineAppend(sections[..k], [last]);
    OutlineAppend(sections[..k], [longer]);
    OutlineOne(last);
    OutlineOne(longer);
    assert Body(longer) == Body(last) + [line];
    MeaningfulAppend(Body(last), [line]);
  }

  lemma ReadHeader(a: seq<string>, h: string, b: seq<string>)
    requires TableName(h).Some? && NoHeaders(b)
    ensures Read(a + [h] + b) == Read(a) + [Table(TableName(h), Meaningful(b))]
  {
    hide TableName, Meaningful;
    CutHeader(a, h, b, None, []);
    CutPlain(b, TableName(h), [h]);
    OutlineAppend(Cut(a, None, []), [Section(TableName(h), [h] + b)]);
    OutlineOne(Section(TableName(h), [h] + b));
    assert ([h] + b)[1..] == b;
  }

  /** A newline at the end of a text changes nothing it says. */
  lemma MeansNewline(x: string)
    ensures Means(x + "\n") == Means(x)
  {
    hide SplitLines, TableName, Meaningful;
    BlankNewline();
    LineLenWhole("\n");
    if Terminated(x) {
      SplitAppend(x, "\n");
      ReadSnoc(SplitLines(x), "\n");
      SameLast(Read(SplitLines(x)));
    } else {
      var a, line := LastLine(x);
      LineLenWhole(line + "\n");
      SplitAppend(Concat(a), line + "\n");
      SplitConcat(a);
      assert x + "\n" == Concat(a) + (line + "\n");
      HeaderBlank(line, "\n");
      if TableName(line).Some? {
        ReadHeader(a, line, []);
        ReadHeader(a, line + "\n", []);
        assert a + [line] + [] == a + [line] && a + [line + "\n"] + [] == a + [line + "\n"];
      } else {
        ReadSnoc(a, line);
        ReadSnoc(a, line + "\n");
        LineNewline(line);
      }
    }
  }

  lemma BlankNewline()
    ensures Blank("\n") && TableName("\n") == None && Meaningful(["\n"]) == []
  {
    assert "\n"[1..] == "";
    assert SkipSpaces("\n") == SkipSpaces("\n"[1..]) == "";
    OneMeaningful("\n");
  }

  lemma LineNewline(line: string)
    ensures Meaningful([line + "\n"]) == Meaningful([line])
  {
    BlankNewline();
    hide SkipSpaces;
    SpacesBlank(line, "\n");
    OneMeaningful(line);
    OneMeaningful(line + "\n");
    assert (line + "\n")[..|line|] == line;
  }

  lemma SameLast(tables: seq<Table>)
    requires tables != []
    ensures var last := tables[|tables| - 1]; tables[..|tables| - 1] + [Table(last.name, last.lines + [])] == tables
  {
    var last := tables[|tables| - 1];
    assert last.lines + [] == last.lines;
  }

  /** The complete lines of a text, and the incomplete one after them. */
  lemma LastLine(x: string) returns (a: seq<string>, line: string)
    requires !Terminated(x)
    ensures SplitLines(x) == a + [line] && x == Concat(a) + line && line != [] && NoBreak(line)
    ensures Whole(a) && Complete(a) && Terminated(Concat(a))
  {
    hide SplitLines;
    var lines := SplitLines(x);
    SplitLinesWhole(x);
    ConcatSplitLines(x);
    NoLines();
    var k := |lines| - 1;
    a, line := lines[..k], lines[k];
    assert lines == a + [line];
    ConcatAppend(a, [line]);
    ConcatOne(line);
    assert x[|x| - 1] == line[|line| - 1];
    assert NoBreak(line) by { assert forall i | 0 <= i < |line| - 1 :: line[i] == line[..|line| - 1][i]; }
    assert Whole(a) by { assert forall i | 0 <= i < |a| :: a[i] == lines[i]; }
    CompleteLines(a);
  }

  lemma NoLines()
    ensures Concat([]) == "" && SplitLines("") == []
  {
  }

  predicate Complete(lines: seq<string>) {
    forall k | 0 <= k < |lines| :: lines[k] != [] && IsBreak(lines[k][|lines[k]| - 1])
  }

  lemma CompleteLines(lines: seq<string>)
    requires Complete(lines)
    ensures Terminated(Concat(lines))
  {
    NoLines();
    if lines != [] {
      var k := |lines| - 1;
      ConcatAppend(lines[..k], [lines[k]]);
      ConcatOne(lines[k]);
      assert lines == lines[..k] + [lines[k]];
    }
  }

  // ----- Idempotence -----

  lemma {:induction false} NameThen(name: string, rest: string)
    requires (forall i | 0 <= i < |name| :: IsNameChar(name[i])) && (rest != [] ==> !IsNameChar(rest[0]))
    ensures NameLen(name + rest) == |name|
  {
    if name == [] {
      assert name + rest == rest;
    } else {
      assert (name + rest)[0] == name[0] && (name + rest)[1..] == name[1..] + rest;
      NameThen(name[1..], rest);
    }
  }

  /** The header the migration writes is read back as the table it names. */
  lemma HeaderOf(name: string, rest: string)
    requires name != [] && (forall i | 0 <= i < |name| :: IsNameChar(name[i]))
    ensures TableName("[" + name + "]" + rest) == if Blank(rest) then Some(name) else None
  {
    hide NameLen;
    var line := "[" + name + "]" + rest;
    var t := name + ("]" + rest);
    assert line[0] == '[' && line[1..] == t && t[0] == name[0];
    NameThen(name, "]" + rest);
    assert t[|name|..] == "]" + rest && ("]" + rest)[1..] == rest && t[..|name|] == name;
  }

  lemma ForgeHeader()
    ensures TableName(FORGE_HEADER) == Some("forge") && FORGE_HEADER == "[forge]\n"
    ensures NoBreak(FORGE_HEADER[..|FORGE_HEADER| - 1]) && IsBreak(FORGE_HEADER[|FORGE_HEADER| - 1])
  {
    BlankNewline();
    HeaderOf("forge", "\n");
    assert "[" + "forge" + "]" + "\n" == FORGE_HEADER;
  }

  /** A line that is the forge header makes the guard fire. */
  lemma HeaderFound(p: string, q: string)
    requires Terminated(p)
    ensures HasForge(SplitLines(p + FORGE_HEADER + q))
  {
    hide SplitLines, TableName;
    ForgeHeader();
    assert p + FORGE_HEADER + q == p + (FORGE_HEADER + q);
    SplitAppend(p, FORGE_HEADER + q);
    SplitAppend(FORGE_HEADER, q);
    LineLenWhole(FORGE_HEADER);
    var lines := SplitLines(p + FORGE_HEADER + q);
    assert lines[|SplitLines(p)|] == FORGE_HEADER;
  }

  lemma EnsureTerminated(text: string)
    ensures Terminated(EnsureNewline(text)) && Terminated(EnsureNewline(text) + "\n")
  {
  }

  /** Once written, the forge header stays a line of its own. */
  lemma {:induction false} AssembledForge(text: string, sections: seq<Section>, keys: seq<string>, inserted: bool,
      p0: string, q0: string)
    returns (p: string, q: string)
    requires inserted ==> Terminated(p0) && text == p0 + FORGE_HEADER + q0
    ensures Terminated(p) && Assemble(text, sections, keys, inserted) == p + FORGE_HEADER + q
    decreases |sections|
  {
    if sections == [] {
      if inserted {
        p, q := p0, q0;
      } else {
        EnsureTerminated(text);
        p, q := EnsureNewline(text) + "\n", Concat(keys);
      }
    } else {
      var text' := text + Concat(sections[0].lines);
      if IsSkill(sections[0]) && !inserted {
        EnsureTerminated(text');
        p, q := AssembledForge(WithForge(text', keys), sections[1..], keys, true, EnsureNewline(text') + "\n",
          Concat(keys));
      } else {
        assert inserted ==> text' == p0 + FORGE_HEADER + (q0 + Concat(sections[0].lines));
        p, q := AssembledForge(text', sections[1..], keys, inserted, p0, q0 + Concat(sections[0].lines));
      }
    }
  }

  lemma EnsurePrefix(text: string) returns (end: string)
    ensures EnsureNewline(text) == text + end
  {
    end := if EnsureNewline(text) == text then "" else "\n";
    assert text + "" == text;
  }

  lemma {:induction false} AppendedPrefix(text: string, tables: seq<Section>) returns (more: string)
    ensures AppendTables(text, tables) == text + more
    decreases |tables|
  {
    hide EnsureNewline, Concat;
    if tables == [] {
      more := "";
      assert text + "" == text;
    } else {
      var end := EnsurePrefix(text);
      var piece := end + "\n" + Concat(tables[0].lines);
      assert EnsureNewline(text) + "\n" + Concat(tables[0].lines) == text + piece;
      var rest := AppendedPrefix(text + piece, tables[1..]);
      Regroup(text, piece, rest);
      more := piece + rest;
    }
  }

  /** Migrating a second time changes nothing, for every text. */
  lemma Idempotent(content: string)
    ensures Migrate(Migrate(content)) == Migrate(content)
  {
    hide SplitLines, Assemble, AppendTables, Staying, ForgeKeys, ForgeTables;
    if !HasForge(SplitLines(content)) && !NothingMoves(content) {
      var sections := Sections(content);
      var staying, keys := Staying(sections), ForgeKeys(sections);
      var p, q := AssembledForge("", staying, keys, false, "", "");
      var more := AppendedPrefix(Assemble("", staying, keys, false), ForgeTables(sections));
      assert Migrate(content) == p + FORGE_HEADER + (q + more);
      HeaderFound(p, q + more);
    }
  }

  // ----- The shape of the sections of a file -----

  predicate Shaped(s: Section) {
    if s.table.None? then NoHeaders(s.lines)
    else s.lines != [] && TableName(s.lines[0]) == s.table && NoHeaders(s.lines[1..])
  }

  /** Only the last section may end in an incomplete line. */
  predicate Firm(sections: seq<Section>) {
    forall k | 0 <= k < |sections| ::
      Shaped(sections[k]) && Whole(sections[k].lines) && (k < |sections| - 1 ==> Complete(sections[k].lines))
  }

  predicate Named(sections: seq<Section>) { forall k | 0 <= k < |sections| :: sections[k].table.Some? }

  lemma ShapedSnoc(table: Option<string>, buf: seq<string>, line: string)
    requires Shaped(Section(table, buf)) && TableName(line) == None
    ensures Shaped(Section(table, buf + [line]))
  {
    hide TableName;
    var longer := buf + [line];
    assert longer[|buf|] == line && forall k | 0 <= k < |buf| :: longer[k] == buf[k];
    if table.Some? {
      assert longer[1..] == buf[1..] + [line];
    }
  }

  lemma {:induction false} CutFirm(lines: seq<string>, table: Option<string>, buf: seq<string>)
    requires Shaped(Section(table, buf)) && Whole(buf + lines)
    ensures Firm(Cut(lines, table, buf)) && Named(Cut(lines, table, buf)[1..])
    ensures Cut(lines, table, buf)[0].table == table
    decreases |lines|
  {
    hide TableName, NoBreak;
    if lines == [] {
      assert buf + lines == buf;
    } else {
      var line, rest := lines[0], lines[1..];
      assert buf + [line] + rest == buf + lines;
      if TableName(line).Some? {
        assert lines == [line] + rest;
        WholeParts(buf, lines);
        CutFirm(rest, TableName(line), [line]);
        var tail := Cut(rest, TableName(line), [line]);
        assert ([Section(table, buf)] + tail)[1..] == tail;
        assert tail == [tail[0]] + tail[1..];
      } else {
        ShapedSnoc(table, buf, line);
        CutFirm(rest, table, buf + [line]);
      }
    }
  }

  /** A file cut in two: the first part is complete when there is a second. */
  lemma WholeParts(a: seq<string>, b: seq<string>)
    requires Whole(a + b)
    ensures Whole(a) && Whole(b) && (b != [] ==> Complete(a))
  {
    hide NoBreak, IsBreak;
    assert forall k | 0 <= k < |a| :: a[k] == (a + b)[k];
    assert forall k | 0 <= k < |b| :: b[k] == (a + b)[|a| + k];
  }

  lemma SectionsFirm(content: string)
    ensures Firm(Sections(content)) && Named(Sections(content)[1..]) && Sections(content)[0].table == None
    ensures Sections(content) != []
  {
    hide SplitLines, Cut, TableName;
    var lines := SplitLines(content);
    SplitLinesWhole(content);
    assert [] + lines == lines;
    CutFirm(lines, None, []);
  }

  // ----- Adding a section to a text -----

  /** Onto a complete text, a section adds exactly the table it is. */
  lemma AddSection(x: string, s: Section)
    requires Terminated(x) && Shaped(s) && s.table.Some? && Whole(s.lines)
    ensures Means(x + Concat(s.lines)) == Means(x) + [TableOf(s)]
    ensures Complete(s.lines) ==> Terminated(x + Concat(s.lines))
  {
    hide SplitLines, TableName, Meaningful, NoBreak;
    SplitAppend(x, Concat(s.lines));
    SplitConcat(s.lines);
    var a := SplitLines(x);
    ReadHeader(a, s.lines[0], s.lines[1..]);
    assert a + [s.lines[0]] + s.lines[1..] == a + s.lines;
    if Complete(s.lines) {
      CompleteLines(s.lines);
    }
  }

  lemma MeansEnsure(x: string)
    ensures Means(EnsureNewline(x) + "\n") == Means(x) && Terminated(EnsureNewline(x) + "\n")
  {
    hide Means;
    if EnsureNewline(x) != x {
      MeansNewline(x);
    }
    MeansNewline(EnsureNewline(x));
    EnsureTerminated(x);
  }

  /** A provenance line is no header, and stays none with more text glued on. */
  lemma KeyNotHeader(line: string, more: string)
    requires KeyName(line).Some?
    ensures TableName(line + more) == None && TableName(line) == None
  {
    hide BracketedName, KeyLen;
    SpacesAppend(line, more);
    KeyStart(SkipSpaces(line));
  }

  lemma KeyStart(s: string)
    requires KeyLen(s) > 0
    ensures s[0] != '['
  {
  }

  lemma {:induction false} SpacesAppend(s: string, more: string)
    ensures SkipSpaces(s) != "" ==> SkipSpaces(s + more) == SkipSpaces(s) + more
  {
    if s != [] {
      assert (s + more)[0] == s[0] && (s + more)[1..] == s[1..] + more;
      SpacesAppend(s[1..], more);
    }
  }

  function ForgeSection(keys: seq<string>): Section { Section(Some("forge"), [FORGE_HEADER] + keys) }

  predicate AllProvenance(lines: seq<string>) { forall k | 0 <= k < |lines| :: IsProvenance(lines[k]) }

  lemma ForgeShaped(keys: seq<string>)
    requires AllProvenance(keys) && Whole(keys)
    ensures Shaped(ForgeSection(keys)) && Whole(ForgeSection(keys).lines)
    ensures TableOf(ForgeSection(keys)) == Table(Some("forge"), Meaningful(keys))
    ensures Complete(keys) ==> Complete(ForgeSection(keys).lines)
  {
    hide TableName, KeyName, NoBreak, IsBreak, Meaningful;
    ForgeHeader();
    var lines := [FORGE_HEADER] + keys;
    assert lines[1..] == keys;
    forall k | 0 <= k < |keys| ensures TableName(keys[k]) == None {
      KeyNotHeader(keys[k], "");
    }
    WholeCons(FORGE_HEADER, keys);
  }

  lemma AddForge(text: string, keys: seq<string>)
    requires AllProvenance(keys) && Whole(keys)
    ensures Means(WithForge(text, keys)) == Means(text) + [Table(Some("forge"), Meaningful(keys))]
    ensures Complete(keys) ==> Terminated(WithForge(text, keys))
  {
    hide Means, Shaped, Whole, Complete, Meaningful, IsProvenance;
    MeansEnsure(text);
    ForgeShaped(keys);
    var x := EnsureNewline(text) + "\n";
    AddSection(x, ForgeSection(keys));
    assert WithForge(text, keys) == x + Concat(ForgeSection(keys).lines) by {
      assert ([FORGE_HEADER] + keys)[1..] == keys;
      assert x + (FORGE_HEADER + Concat(keys)) == x + FORGE_HEADER + Concat(keys);
    }
  }

  // ----- Assembly without gluing -----

  /** No provenance line is left incomplete in front of another section. */
  predicate KeysFit(sections: seq<Section>, keys: seq<string>) {
    Complete(keys) || forall k | 0 <= k < |sections| - 1 :: !IsSkill(sections[k])
  }

  lemma {:induction false} AssembleRest(text: string, sections: seq<Section>, keys: seq<string>)
    requires Firm(sections) && Named(sections) && (sections != [] ==> Terminated(text))
    ensures Means(Assemble(text, sections, keys, true)) == Means(text) + Outline(sections)
    decreases |sections|
  {
    hide Means, Shaped, Whole, Complete, TableOf, Terminated;
    if sections == [] {
      assert Means(text) + [] == Means(text);
    } else {
      var s, rest := sections[0], sections[1..];
      AddSection(text, s);
      assert forall k | 0 <= k < |rest| :: rest[k] == sections[k + 1];
      AssembleRest(text + Concat(s.lines), rest, keys);
      Regroup(Means(text), [TableOf(s)], Outline(rest));
    }
  }

  lemma InsertNone(keys: seq<string>)
    ensures InsertForge([], keys) == [Table(Some("forge"), keys)]
  {
  }

  lemma InsertCons(t: Table, rest: seq<Table>, keys: seq<string>)
    ensures InsertForge([t] + rest, keys) ==
      if t.name == Some("skill") then [t] + ([Table(Some("forge"), keys)] + rest) else [t] + InsertForge(rest, keys)
  {
    assert ([t] + rest)[1..] == rest;
  }

  lemma {:induction false} AssembleMeans(text: string, sections: seq<Section>, keys: seq<string>)
    requires Firm(sections) && Named(sections) && (sections != [] ==> Terminated(text))
    requires AllProvenance(keys) && Whole(keys) && KeysFit(sections, keys)
    ensures Means(Assemble(text, sections, keys, false))
      == Means(text) + InsertForge(Outline(sections), Meaningful(keys))
    decreases |sections|
  {
    hide Means, Shaped, Whole, Complete, Meaningful, IsProvenance, Terminated, WithForge, InsertForge, Concat;
    var forge := Table(Some("forge"), Meaningful(keys));
    if sections == [] {
      assert InsertForge([], Meaningful(keys)) == [forge] by { InsertNone(Meaningful(keys)); }
      AddForge(text, keys);
    } else {
      var s, rest := sections[0], sections[1..];
      var text' := text + Concat(s.lines);
      AddSection(text, s);
      assert forall k | 0 <= k < |rest| :: rest[k] == sections[k + 1];
      InsertCons(TableOf(s), Outline(rest), Meaningful(keys));
      if IsSkill(s) {
        AddForge(text', keys);
        AssembleRest(WithForge(text', keys), rest, keys);
        Regroup(Means(text) + [TableOf(s)], [forge], Outline(rest));
        Regroup(Means(text), [TableOf(s)], [forge] + Outline(rest));
      } else {
        AssembleMeans(text', rest, keys);
        Regroup(Means(text), [TableOf(s)], InsertForge(Outline(rest), Meaningful(keys)));
      }
    }
  }

  /** A section whose header and first line do not run into each other. */
  predicate HeaderFits(s: Section) {
    s.lines != [] && (Terminated(s.lines[0]) || |s.lines| == 1 || Blank(s.lines[1]))
  }

  /** All lines but the header are as they were cut. */
  predicate Restored(s: Section) {
    && s.table.Some? && s.lines != [] && s.lines[0] != [] && TableName(s.lines[0]) == s.table && NoHeaders(s.lines[1..])
    && NoBreak(s.lines[0][..|s.lines[0]| - 1]) && Whole(s.lines[1..])
  }

  /** A header that lost its line end still reads as a header when only blank space follows on its line. */
  lemma AddTable(text: string, s: Section)
    requires Restored(s) && HeaderFits(s)
    ensures Means(EnsureNewline(text) + "\n" + Concat(s.lines)) == Means(text) + [TableOf(s)]
  {
    hide Means, TableName, Meaningful, Blank;
    MeansEnsure(text);
    var x := EnsureNewline(text) + "\n";
    var h, rest := s.lines[0], s.lines[1..];
    assert s.lines == [h] + rest;
    if Terminated(h) || rest == [] {
      WholeCons(h, rest);
      AddSection(x, s);
    } else {
      var b, more := rest[0], rest[1..];
      assert rest == [b] + more;
      HeaderBlank(h, b);
      var s' := Section(s.table, [h + b] + more);
      JoinHeader(h, b, more);
      assert NoHeaders(more) by { assert forall k | 0 <= k < |more| :: more[k] == rest[k + 1]; }
      assert s'.lines[1..] == more;
      AddSection(x, s');
      assert Meaningful(rest) == Meaningful(more) by { MeaningfulAppend([b], more); OneMeaningful(b); }
    }
  }

  /** Joining an incomplete line with the next one gives a file again. */
  lemma JoinHeader(h: string, b: string, more: seq<string>)
    requires h != [] && NoBreak(h) && Whole([b] + more)
    ensures Whole([h + b] + more) && Concat([h + b] + more) == Concat([h] + ([b] + more))
  {
    var lines := [b] + more;
    assert lines[0] == b && lines[1..] == more;
    assert NoBreak((h + b)[..|h + b| - 1]) by {
      assert (h + b)[..|h + b| - 1] == h + b[..|b| - 1];
    }
    assert Whole(more) by { WholeParts([b], more); }
    assert (h + b)[|h + b| - 1] == b[|b| - 1];
    WholeCons(h + b, more);
    assert ([h + b] + more)[1..] == more && ([h] + lines)[1..] == lines;
    assert h + b + Concat(more) == h + (b + Concat(more));
  }

  lemma {:induction false} AppendMeans(text: string, tables: seq<Section>)
    requires forall k | 0 <= k < |tables| :: Restored(tables[k]) && HeaderFits(tables[k])
    ensures Means(AppendTables(text, tables)) == Means(text) + Outline(tables)
    decreases |tables|
  {
    hide Means, Restored, HeaderFits, TableOf;
    if tables == [] {
      assert Means(text) + [] == Means(text);
    } else {
      AddTable(text, tables[0]);
      AppendMeans(EnsureNewline(text) + "\n" + Concat(tables[0].lines), tables[1..]);
      Regroup(Means(text), [TableOf(tables[0])], Outline(tables[1..]));
    }
  }

}
