/**
 The SKILL.toml migration of `backend/scripts/migrate-skill-toml.py` (`plan_migration`): provenance keys of `[skill]`
 move to `[forge]`, two of its sub-tables are renamed. The rewrite works on text; its meaning is which table owns
 which line.
 */
module SkillMigration {
  import opened Sequences
  import opened TextLines
  import opened Wrappers

  // ----- The two line patterns -----

  predicate IsKeyChar(c: char) {
    'A' <= c <= 'Z' || 'a' <= c <= 'z' || '0' <= c <= '9' || c == '_' || c == '-'
  }

  predicate IsNameChar(c: char) { IsKeyChar(c) || c == '.' }

  function SkipSpaces(s: string): (r: string)
    ensures |r| <= |s| && (r != [] ==> !IsSpace(r[0]))
  {
    if s != [] && IsSpace(s[0]) then SkipSpaces(s[1..]) else s
  }

  function NameLen(s: string): (n: nat)
    ensures n <= |s|
  {
    if s != [] && IsNameChar(s[0]) then 1 + NameLen(s[1..]) else 0
  }

  function KeyLen(s: string): (n: nat)
    ensures n <= |s|
  {
    if s != [] && IsKeyChar(s[0]) then 1 + KeyLen(s[1..]) else 0
  }

  /** A dotted name, then a closing bracket at the end of the line. */
  function BracketedName(t: string): Option<string> {
    var n := NameLen(t);
    var u := SkipSpaces(t[n..]);
    if n > 0 && u != [] && u[0] == ']' && SkipSpaces(u[1..]) == [] then Some(t[..n]) else None
  }

  /** The dotted name of a table header line: one pair of brackets, spaces anywhere around. */
  function TableName(line: string): Option<string> {
    var s := SkipSpaces(line);
    if s == [] || s[0] != '[' then None else BracketedName(SkipSpaces(s[1..]))
  }

  /** The key of a `key =` line. */
  function KeyName(line: string): Option<string> {
    var s := SkipSpaces(line);
    var n := KeyLen(s);
    var u := SkipSpaces(s[n..]);
    if n > 0 && u != [] && u[0] == '=' then Some(s[..n]) else None
  }

  const PROVENANCE_KEYS := {"source", "owner", "language", "license", "stars", "updated_at"}
  const PROVENANCE_SUBTABLES := {"requirements", "metadata"}

  predicate IsProvenance(line: string) {
    KeyName(line).Some? && KeyName(line).value in PROVENANCE_KEYS
  }

  /** The suffix of a sub-table of `[skill]` that moves. */
  function MovedSuffix(table: Option<string>): Option<string> {
    if table.Some? && "skill." <= table.value && table.value[6..] in PROVENANCE_SUBTABLES
    then Some(table.value[6..]) else None
  }

  // ----- Sections -----

  /** A table and its lines, the header first; the preamble has no table and no header. */
  datatype Section = Section(table: Option<string>, lines: seq<string>)

  function Cut(lines: seq<string>, table: Option<string>, buf: seq<string>): (sections: seq<Section>)
    ensures sections != []
  {
    if lines == [] then [Section(table, buf)]
    else if TableName(lines[0]).Some? then
      [Section(table, buf)] + Cut(lines[1..], TableName(lines[0]), [lines[0]])
    else Cut(lines[1..], table, buf + [lines[0]])
  }

  method CutSections(lines: seq<string>) returns (sections: seq<Section>)
    ensures sections == Cut(lines, None, [])
  {
    hide TableName;
    sections := [];
    var currentTable: Option<string> := None;
    var currentBuf: seq<string> := [];
    for i := 0 to |lines|
      invariant sections + Cut(lines[i..], currentTable, currentBuf) == Cut(lines, None, [])
    {
      var line := lines[i];
      ghost var rest := lines[i..];
      assert rest[1..] == lines[i + 1..] && rest[0] == line;
      if TableName(line).Some? {
        ghost var flushed := [Section(currentTable, currentBuf)];
        ghost var later := Cut(lines[i + 1..], TableName(line), [line]);
        assert sections + (flushed + later) == (sections + flushed) + later;
        sections := sections + [Section(currentTable, currentBuf)];
        currentTable := TableName(line);
        currentBuf := [line];
      } else {
        currentBuf := currentBuf + [line];
      }
    }
    assert lines[|lines|..] == [];
    sections := sections + [Section(currentTable, currentBuf)];
  }

  // ----- Splitting into what stays and what moves -----

  function KeptLines(lines: seq<string>): seq<string> {
    if lines == [] then []
    else (if IsProvenance(lines[0]) then [] else [lines[0]]) + KeptLines(lines[1..])
  }

  function MovedLines(lines: seq<string>): seq<string> {
    if lines == [] then []
    else (if IsProvenance(lines[0]) then [lines[0]] else []) + MovedLines(lines[1..])
  }

  function Body(section: Section): seq<string> {
    if section.table.None? || section.lines == [] then section.lines else section.lines[1..]
  }

  function Head(section: Section): seq<string> {
    if section.table.None? || section.lines == [] then [] else section.lines[..1]
  }

  predicate IsSkill(section: Section) { section.table == Some("skill") }

  /** The sections that stay where they are, `[skill]` without its provenance keys. */
  function Staying(sections: seq<Section>): seq<Section> {
    if sections == [] then []
    else
      var s := sections[0];
      (if IsSkill(s) then [Section(s.table, Head(s) + KeptLines(Body(s)))]
       else if MovedSuffix(s.table).Some? then []
       else [s])
      + Staying(sections[1..])
  }

  function ForgeKeys(sections: seq<Section>): seq<string> {
    if sections == [] then []
    else (if IsSkill(sections[0]) then MovedLines(Body(sections[0])) else []) + ForgeKeys(sections[1..])
  }

  predicate EndsInNewline(s: string) { s != [] && s[|s| - 1] == '\n' }

  /** The rewritten header keeps the original's newline, or its absence. */
  function RenamedHeader(suffix: string, original: string): string {
    "[forge." + suffix + "]" + (if EndsInNewline(original) then "\n" else "")
  }

  function Renamed(section: Section): Section
    requires MovedSuffix(section.table).Some? && section.lines != []
  {
    var suffix := MovedSuffix(section.table).value;
    Section(Some("forge." + suffix), [RenamedHeader(suffix, section.lines[0])] + section.lines[1..])
  }

  /** Every section but the preamble starts with a line. */
  predicate Headed(sections: seq<Section>) {
    forall k | 0 <= k < |sections| :: sections[k].table.Some? ==> sections[k].lines != []
  }

  function ForgeTables(sections: seq<Section>): seq<Section>
    requires Headed(sections)
  {
    if sections == [] then []
    else
      (if !IsSkill(sections[0]) && MovedSuffix(sections[0].table).Some? then [Renamed(sections[0])] else [])
      + ForgeTables(sections[1..])
  }

  // ----- Reassembly -----

  function EnsureNewline(text: string): string { if text != [] && !EndsInNewline(text) then text + "\n" else text }

  const FORGE_HEADER := "[forge]\n"

  function WithForge(text: string, keys: seq<string>): string {
    EnsureNewline(text) + "\n" + FORGE_HEADER + Concat(keys)
  }

  /** The sections that stay, with the forge block right after the first `[skill]`, or at the end. */
  function Assemble(text: string, sections: seq<Section>, keys: seq<string>, inserted: bool): string
    decreases |sections|
  {
    if sections == [] then (if inserted then text else WithForge(text, keys))
    else
      var text' := text + Concat(sections[0].lines);
      if IsSkill(sections[0]) && !inserted then Assemble(WithForge(text', keys), sections[1..], keys, true)
      else Assemble(text', sections[1..], keys, inserted)
  }

  function AppendTables(text: string, tables: seq<Section>): string
    decreases |tables|
  {
    if tables == [] then text
    else AppendTables(EnsureNewline(text) + "\n" + Concat(tables[0].lines), tables[1..])
  }

  predicate HasForge(lines: seq<string>) {
    exists k | 0 <= k < |lines| :: TableName(lines[k]) == Some("forge")
  }

  lemma {:induction false} CutHeaded(lines: seq<string>, table: Option<string>, buf: seq<string>)
    requires table.Some? ==> buf != []
    ensures Headed(Cut(lines, table, buf))
  {
    hide TableName;
    if lines != [] {
      if TableName(lines[0]).Some? {
        CutHeaded(lines[1..], TableName(lines[0]), [lines[0]]);
      } else {
        CutHeaded(lines[1..], table, buf + [lines[0]]);
      }
    }
  }

  function Sections(content: string): (sections: seq<Section>)
    ensures Headed(sections)
  {
    CutHeaded(SplitLines(content), None, []);
    Cut(SplitLines(content), None, [])
  }

  predicate NothingMoves(content: string) {
    ForgeKeys(Sections(content)) == [] && ForgeTables(Sections(content)) == []
  }

  /** The migrated text. */
  function Migrate(content: string): string {
    if HasForge(SplitLines(content)) || NothingMoves(content) then content
    else
      var sections := Sections(content);
      AppendTables(Assemble("", Staying(sections), ForgeKeys(sections), false), ForgeTables(sections))
  }

  // ----- The planner as written -----

  datatype Plan = Plan(after: string, movedKeys: seq<string>, movedSubtables: seq<string>, alreadyMigrated: bool)

  function KeyNames(lines: seq<string>): seq<string> {
    if lines == [] then []
    else (if KeyName(lines[0]).Some? then [KeyName(lines[0]).value] else []) + KeyNames(lines[1..])
  }

  function Suffixes(sections: seq<Section>): seq<string> {
    if sections == [] then []
    else
      (if !IsSkill(sections[0]) && MovedSuffix(sections[0].table).Some? then [MovedSuffix(sections[0].table).value]
        else [])
      + Suffixes(sections[1..])
  }

  /** Pieces of text whose last one tells how the text ends. */
  predicate Pieces(lines: seq<string>) { forall k | 0 <= k < |lines| :: lines[k] != [] }

  lemma {:induction false} ConcatAppend(a: seq<string>, b: seq<string>)
    ensures Concat(a + b) == Concat(a) + Concat(b)
  {
    if a == [] {
      assert a + b == b;
    } else {
      ConcatAppend(a[1..], b);
      assert (a + b)[0] == a[0] && (a + b)[1..] == a[1..] + b;
      Regroup(a[0], Concat(a[1..]), Concat(b));
    }
  }

  lemma ConcatOne(line: string)
    ensures Concat([line]) == line
  {
    assert [line][1..] == [];
    assert line + "" == line;
  }

  lemma LastPiece(lines: seq<string>)
    requires Pieces(lines)
    ensures lines != [] ==> Concat(lines) != [] && EndsInNewline(Concat(lines)) == EndsInNewline(lines[|lines| - 1])
    ensures lines == [] ==> Concat(lines) == []
  {
    if lines != [] {
      var k := |lines| - 1;
      ConcatAppend(lines[..k], [lines[k]]);
      assert lines == lines[..k] + [lines[k]];
      ConcatOne(lines[k]);
    }
  }

  method EndLine(outLines: seq<string>) returns (lines: seq<string>)
    requires Pieces(outLines)
    ensures Pieces(lines) && Concat(lines) == EnsureNewline(Concat(outLines))
  {
    LastPiece(outLines);
    lines := outLines;
    if lines != [] && !EndsInNewline(lines[|lines| - 1]) {
      ConcatAppend(lines, ["\n"]);
      ConcatOne("\n");
      lines := lines + ["\n"];
    }
  }

  method AppendForge(outLines: seq<string>, keys: seq<string>) returns (lines: seq<string>)
    requires Pieces(outLines) && Pieces(keys)
    ensures Pieces(lines) && Concat(lines) == WithForge(Concat(outLines), keys)
  {
    lines := EndLine(outLines);
    var block := "\n" + FORGE_HEADER;
    ConcatAppend(lines, [block]);
    ConcatOne(block);
    ConcatAppend(lines + [block], keys);
    assert Concat(lines) + block == Concat(lines) + "\n" + FORGE_HEADER;
    lines := lines + [block] + keys;
  }

  predicate AllPieces(sections: seq<Section>) {
    forall k | 0 <= k < |sections| :: Pieces(sections[k].lines)
  }

  method AssembleLines(sections: seq<Section>, keys: seq<string>) returns (outLines: seq<string>)
    requires AllPieces(sections) && Pieces(keys)
    ensures Pieces(outLines) && Concat(outLines) == Assemble("", sections, keys, false)
  {
    outLines := [];
    var insertedForge := false;
    for i := 0 to |sections|
      invariant Pieces(outLines)
      invariant Assemble(Concat(outLines), sections[i..], keys, insertedForge) == Assemble("", sections, keys, false)
    {
      assert sections[i..][1..] == sections[i + 1..];
      ConcatAppend(outLines, sections[i].lines);
      outLines := outLines + sections[i].lines;
      if IsSkill(sections[i]) && !insertedForge {
        outLines := AppendForge(outLines, keys);
        insertedForge := true;
      }
    }
    if !insertedForge {
      outLines := AppendForge(outLines, keys);
    }
  }

  method AppendTableLines(lines: seq<string>, tables: seq<Section>) returns (outLines: seq<string>)
    requires Pieces(lines) && AllPieces(tables)
    ensures Concat(outLines) == AppendTables(Concat(lines), tables)
  {
    outLines := lines;
    for i := 0 to |tables|
      invariant Pieces(outLines)
      invariant AppendTables(Concat(outLines), tables[i..]) == AppendTables(Concat(lines), tables)
    {
      assert tables[i..][1..] == tables[i + 1..];
      outLines := EndLine(outLines);
      ConcatAppend(outLines, ["\n"]);
      ConcatOne("\n");
      ConcatAppend(outLines + ["\n"], tables[i].lines);
      outLines := outLines + ["\n"] + tables[i].lines;
    }
  }

  method SplitSkill(section: Section) returns (kept: seq<string>, moved: seq<string>, names: seq<string>)
    requires section.lines != [] && section.table.Some?
    ensures kept == Head(section) + KeptLines(Body(section)) && moved == MovedLines(Body(section))
    ensures names == KeyNames(moved)
  {
    hide KeyName, KeptLines, MovedLines, KeyNames;
    kept, moved, names := [section.lines[0]], [], [];
    NoNames();
    for i := 1 to |section.lines|
      invariant kept + KeptLines(section.lines[i..]) == Head(section) + KeptLines(Body(section))
      invariant moved + MovedLines(section.lines[i..]) == MovedLines(Body(section))
      invariant names == KeyNames(moved)
    {
      var line := section.lines[i];
      ghost var rest := section.lines[i..];
      assert rest[1..] == section.lines[i + 1..] && rest[0] == line;
      SplitLine(rest);
      var key := KeyName(line);
      if key.Some? && key.value in PROVENANCE_KEYS {
        Regroup(moved, [line], MovedLines(rest[1..]));
        KeyNamesAppend(moved, [line]);
        OneName(line);
        moved := moved + [line];
        names := names + [key.value];
      } else {
        Regroup(kept, [line], KeptLines(rest[1..]));
        kept := kept + [line];
      }
    }
    assert section.lines[|section.lines|..] == [];
  }

  lemma NoNames()
    ensures KeyNames([]) == [] && KeptLines([]) == [] && MovedLines([]) == []
  {
  }

  lemma OneName(line: string)
    ensures KeyNames([line]) == if KeyName(line).Some? then [KeyName(line).value] else []
  {
    hide KeyName;
    assert [line][1..] == [];
  }

  /** The first line is kept or moved. */
  lemma SplitLine(lines: seq<string>)
    requires lines != []
    ensures KeptLines(lines) == (if IsProvenance(lines[0]) then [] else [lines[0]]) + KeptLines(lines[1..])
    ensures MovedLines(lines) == (if IsProvenance(lines[0]) then [lines[0]] else []) + MovedLines(lines[1..])
  {
    hide IsProvenance;
  }

  lemma {:induction false} KeyNamesAppend(a: seq<string>, b: seq<string>)
    ensures KeyNames(a + b) == KeyNames(a) + KeyNames(b)
  {
    hide KeyName;
    if a == [] {
      assert a + b == b;
    } else {
      KeyNamesAppend(a[1..], b);
      assert (a + b)[0] == a[0] && (a + b)[1..] == a[1..] + b;
      Regroup(if KeyName(a[0]).Some? then [KeyName(a[0]).value] else [], KeyNames(a[1..]), KeyNames(b));
    }
  }

  /** What one section contributes to each part. */
  lemma PartitionTurn(sections: seq<Section>, i: nat)
    requires Headed(sections) && i < |sections|
    ensures var s := sections[i];
      && Staying(sections[i..]) ==
        (if IsSkill(s) then [Section(s.table, Head(s) + KeptLines(Body(s)))]
          else if MovedSuffix(s.table).Some? then [] else [s])
        + Staying(sections[i + 1..])
      && ForgeKeys(sections[i..]) == (if IsSkill(s) then MovedLines(Body(s)) else []) + ForgeKeys(sections[i + 1..])
    ensures var s := sections[i];
      && ForgeTables(sections[i..]) ==
        (if !IsSkill(s) && MovedSuffix(s.table).Some? then [Renamed(s)] else []) + ForgeTables(sections[i + 1..])
      && Suffixes(sections[i..]) ==
        (if !IsSkill(s) && MovedSuffix(s.table).Some? then [MovedSuffix(s.table).value]
          else []) + Suffixes(sections[i + 1..])
  {
    hide KeptLines, MovedLines, Renamed, MovedSuffix, Head, Body;
    assert sections[i..][0] == sections[i] && sections[i..][1..] == sections[i + 1..];
  }

  method Partition(sections: seq<Section>)
    returns (staying: seq<Section>, keys: seq<string>, tables: seq<Section>, movedKeys: seq<string>,
      movedSubtables: seq<string>)
    requires Headed(sections)
    ensures staying == Staying(sections) && keys == ForgeKeys(sections) && tables == ForgeTables(sections)
    ensures movedKeys == KeyNames(keys) && movedSubtables == Suffixes(sections)
  {
    hide KeyName, KeyNames, KeptLines, MovedLines, Renamed, Staying, ForgeKeys, ForgeTables, Suffixes, Head, Body;
    assert KeyNames([]) == [] by { NoNames(); }
    NothingLeft();
    staying, keys, tables, movedKeys, movedSubtables := [], [], [], [], [];
    for i := 0 to |sections|
      invariant staying + Staying(sections[i..]) == Staying(sections)
      invariant keys + ForgeKeys(sections[i..]) == ForgeKeys(sections)
      invariant tables + ForgeTables(sections[i..]) == ForgeTables(sections)
      invariant movedKeys == KeyNames(keys)
      invariant movedSubtables + Suffixes(sections[i..]) == Suffixes(sections)
    {
      var section := sections[i];
      ghost var rest := sections[i + 1..];
      PartitionTurn(sections, i);
      if section.table == Some("skill") {
        var kept, moved, names := SplitSkill(section);
        KeyNamesAppend(keys, moved);
        Regroup(staying, [Section(section.table, kept)], Staying(rest));
        Regroup(keys, moved, ForgeKeys(rest));
        staying := staying + [Section(section.table, kept)];
        keys := keys + moved;
        movedKeys := movedKeys + names;
      } else if MovedSuffix(section.table).Some? {
        Regroup(tables, [Renamed(section)], ForgeTables(rest));
        Regroup(movedSubtables, [MovedSuffix(section.table).value], Suffixes(rest));
        tables := tables + [Renamed(section)];
        movedSubtables := movedSubtables + [MovedSuffix(section.table).value];
      } else {
        Regroup(staying, [section], Staying(rest));
        staying := staying + [section];
      }
    }
    assert sections[|sections|..] == [];
  }

  lemma NothingLeft()
    ensures Staying([]) == [] && ForgeKeys([]) == [] && ForgeTables([]) == [] && Suffixes([]) == []
  {
  }

  /** One plan: the migrated text, and what moved. */
  method PlanMigration(content: string) returns (plan: Plan)
    ensures plan.after == Migrate(content)
    ensures plan.alreadyMigrated <==> HasForge(SplitLines(content))
    ensures var none := plan.alreadyMigrated;
      plan.movedKeys == (if none then [] else KeyNames(ForgeKeys(Sections(content))))
      && plan.movedSubtables == (if none then [] else Suffixes(Sections(content)))
  {
    hide TableName, Staying, ForgeKeys, ForgeTables, Suffixes, KeyNames, SplitLines, Assemble, AppendTables, Concat;
    var lines := SplitLines(content);
    for i := 0 to |lines|
      invariant forall k | 0 <= k < i :: TableName(lines[k]) != Some("forge")
    {
      if TableName(lines[i]) == Some("forge") {
        return Plan(content, [], [], true);
      }
    }
    var sections := CutSections(lines);
    CutHeaded(lines, None, []);
    var staying, keys, tables, movedKeys, movedSubtables := Partition(sections);
    NamesReported(sections);
    if movedKeys == [] && movedSubtables == [] {
      return Plan(content, movedKeys, movedSubtables, false);
    }
    SectionPieces(content);
    var outLines := AssembleLines(staying, keys);
    outLines := AppendTableLines(outLines, tables);
    EmptyConcat();
    return Plan(Concat(outLines), movedKeys, movedSubtables, false);
  }

  lemma EmptyConcat()
    ensures Concat([]) == ""
  {
  }

  lemma {:induction false} MovedHaveNames(lines: seq<string>)
    ensures KeyNames(MovedLines(lines)) == [] <==> MovedLines(lines) == []
  {
    hide KeyName;
    if lines != [] {
      MovedHaveNames(lines[1..]);
      var moved := MovedLines(lines);
      if IsProvenance(lines[0]) {
        assert moved[0] == lines[0];
        assert KeyNames(moved) == [KeyName(moved[0]).value] + KeyNames(moved[1..]);
      } else {
        assert moved == MovedLines(lines[1..]);
      }
    }
  }

  /** Something is reported as moved exactly when something moves. */
  lemma {:induction false} NamesReported(sections: seq<Section>)
    requires Headed(sections)
    ensures KeyNames(ForgeKeys(sections)) == [] <==> ForgeKeys(sections) == []
    ensures Suffixes(sections) == [] <==> ForgeTables(sections) == []
  {
    hide KeyName, MovedLines, MovedSuffix, Renamed;
    if sections != [] {
      NamesReported(sections[1..]);
      var first := if IsSkill(sections[0]) then MovedLines(Body(sections[0])) else [];
      if IsSkill(sections[0]) {
        MovedHaveNames(Body(sections[0]));
      }
      KeyNamesAppend(first, ForgeKeys(sections[1..]));
    }
  }

  lemma {:induction false} CutPieces(lines: seq<string>, table: Option<string>, buf: seq<string>)
    requires Pieces(lines) && Pieces(buf)
    ensures AllPieces(Cut(lines, table, buf))
  {
    hide TableName;
    if lines != [] {
      CutPieces(lines[1..], TableName(lines[0]), [lines[0]]);
      CutPieces(lines[1..], table, buf + [lines[0]]);
    }
  }

  lemma {:induction false} SplitPieces(lines: seq<string>)
    requires Pieces(lines)
    ensures Pieces(KeptLines(lines)) && Pieces(MovedLines(lines))
  {
    hide IsProvenance;
    if lines != [] {
      SplitPieces(lines[1..]);
    }
  }

  lemma {:induction false} PartsPieces(sections: seq<Section>)
    requires Headed(sections) && AllPieces(sections)
    ensures AllPieces(Staying(sections)) && Pieces(ForgeKeys(sections)) && AllPieces(ForgeTables(sections))
  {
    hide KeptLines, MovedLines, Pieces;
    NoPieces();
    if sections != [] {
      assert forall k | 0 <= k < |sections[1..]| :: sections[1..][k] == sections[k + 1];
      PartsPieces(sections[1..]);
      var s := sections[0];
      assert Pieces(s.lines);
      SectionParts(s);
      PiecesAppend(if IsSkill(s) then MovedLines(Body(s)) else [], ForgeKeys(sections[1..]));
    }
  }

  lemma PiecesAppend(a: seq<string>, b: seq<string>)
    ensures Pieces(a + b) <==> Pieces(a) && Pieces(b)
  {
    if Pieces(a + b) {
      assert forall k | 0 <= k < |a| :: a[k] == (a + b)[k];
      assert forall k | 0 <= k < |b| :: b[k] == (a + b)[|a| + k];
    }
  }

  lemma SectionParts(s: Section)
    requires Pieces(s.lines)
    ensures Pieces(Head(s) + KeptLines(Body(s))) && Pieces(MovedLines(Body(s)))
    ensures MovedSuffix(s.table).Some? && s.lines != [] ==> Pieces(Renamed(s).lines)
  {
    hide KeptLines, MovedLines, Pieces, RenamedHeader;
    if s.lines != [] {
      assert s.lines == s.lines[..1] + s.lines[1..];
      PiecesAppend(s.lines[..1], s.lines[1..]);
    }
    NoPieces();
    assert Pieces(Head(s)) && Pieces(Body(s));
    SplitPieces(Body(s));
    PiecesAppend(Head(s), KeptLines(Body(s)));
    if MovedSuffix(s.table).Some? && s.lines != [] {
      var header := RenamedHeader(MovedSuffix(s.table).value, s.lines[0]);
      HeaderPiece(MovedSuffix(s.table).value, s.lines[0]);
      PiecesAppend([header], s.lines[1..]);
    }
  }

  lemma NoPieces()
    ensures Pieces([])
  {
  }

  lemma HeaderPiece(suffix: string, original: string)
    ensures Pieces([RenamedHeader(suffix, original)])
  {
    assert RenamedHeader(suffix, original)[0] == '[';
  }

  lemma SectionPieces(content: string)
    ensures AllPieces(Staying(Sections(content))) && Pieces(ForgeKeys(Sections(content)))
    ensures AllPieces(ForgeTables(Sections(content)))
  {
    hide Staying, ForgeKeys, ForgeTables, SplitLines, Cut;
    SplitLinesWhole(content);
    CutPieces(SplitLines(content), None, []);
    PartsPieces(Sections(content));
  }

}
