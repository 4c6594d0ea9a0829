/**
 When the SKILL.toml migration keeps its promise: exactly when no line end is missing where two pieces of text meet. The
 two ways it can be missing are stated on the input; every other document is migrated as its tables prescribe.
 */
module MigrationTheorem {
  import opened MigrationLines
  import opened MigrationMeaning
  import opened Sequences
  import opened SkillMigration
  import opened TextLines
  import opened Wrappers

  /** The file ends in a provenance line of a `[skill]` that lacks its line end. */
  predicate EndsInKey(sections: seq<Section>) {
    sections != [] && var last := sections[|sections| - 1];
    && IsSkill(last) && last.lines != []
    && !Terminated(last.lines[|last.lines| - 1]) && IsProvenance(last.lines[|last.lines| - 1])
  }

  /** The file ends in such a line, and its `[skill]` is not the first one. */
  predicate KeyGlued(sections: seq<Section>) {
    EndsInKey(sections) && exists k | 0 <= k < |sections| - 1 :: IsSkill(sections[k])
  }

  /** A moved sub-table's header ends in a line boundary other than a newline, with text on the line after it. */
  predicate HeaderGlued(s: Section) {
    MovedSuffix(s.table).Some? && |s.lines| > 1 && !EndsInNewline(s.lines[0]) && !Blank(s.lines[1])
  }

  predicate Glued(sections: seq<Section>) {
    KeyGlued(sections) || exists k | 0 <= k < |sections| :: HeaderGlued(sections[k])
  }

  // ----- The parts of a file -----

  lemma {:induction false} SplitWhole(lines: seq<string>)
    requires Whole(lines)
    ensures Whole(KeptLines(lines)) && Whole(MovedLines(lines)) && AllProvenance(MovedLines(lines))
    ensures Complete(lines) ==> Complete(KeptLines(lines)) && Complete(MovedLines(lines))
    ensures NoHeaders(lines) ==> NoHeaders(KeptLines(lines))
  {
    hide IsProvenance, TableName, NoBreak, IsBreak, Whole, Complete, NoHeaders, AllProvenance;
    NoneWhole();
    if lines != [] {
      var line, rest := lines[0], lines[1..];
      assert lines == [line] + rest;
      WholeParts([line], rest);
      SplitWhole(rest);
      KeepMore(line, rest);
      Consed(line, rest);
      if IsProvenance(line) {
        assert KeptLines(lines) == KeptLines(rest) && MovedLines(lines) == [line] + MovedLines(rest);
        WholeCons(line, MovedLines(rest));
        Consed(line, MovedLines(rest));
      } else {
        assert KeptLines(lines) == [line] + KeptLines(rest) && MovedLines(lines) == MovedLines(rest);
        WholeCons(line, KeptLines(rest));
        Consed(line, KeptLines(rest));
      }
    }
  }

  lemma NoneWhole()
    ensures Whole([]) && Complete([]) && NoHeaders([]) && AllProvenance([])
  {
  }

  lemma Consed(line: string, rest: seq<string>)
    ensures line != [] ==> (Complete([line] + rest) <==> Terminated(line) && Complete(rest))
    ensures NoHeaders([line] + rest) <==> TableName(line) == None && NoHeaders(rest)
    ensures AllProvenance([line] + rest) <==> IsProvenance(line) && AllProvenance(rest)
  {
    hide IsProvenance, TableName, IsBreak;
    var all := [line] + rest;
    assert all[0] == line && forall k | 0 <= k < |rest| :: all[k + 1] == rest[k];
  }

  /** When lines are kept or moved from a rest, the rest is not empty and the line before it is complete. */
  lemma KeepMore(line: string, rest: seq<string>)
    requires Whole([line] + rest)
    ensures line != [] && NoBreak(line[..|line| - 1]) && (rest != [] ==> IsBreak(line[|line| - 1]))
    ensures MovedLines(rest) != [] || KeptLines(rest) != [] ==> rest != []
  {
    assert ([line] + rest)[0] == line;
  }

  lemma StayingSection(s: Section)
    requires IsSkill(s) && Shaped(s) && Whole(s.lines)
    ensures var kept := Section(s.table, Head(s) + KeptLines(Body(s)));
      Shaped(kept) && Whole(kept.lines) && (Complete(s.lines) ==> Complete(kept.lines))
    ensures var moved := MovedLines(Body(s));
      Whole(moved) && AllProvenance(moved) && (Complete(s.lines) ==> Complete(moved))
  {
    hide TableName, NoBreak, IsBreak, IsProvenance, KeptLines, MovedLines;
    var h, body := s.lines[0], s.lines[1..];
    assert s.lines == [h] + body;
    WholeParts([h], body);
    SplitWhole(body);
    KeepMore(h, body);
    WholeCons(h, KeptLines(body));
    assert ([h] + KeptLines(body))[1..] == KeptLines(body) && Head(s) == [h];
  }

  lemma {:induction false} StayingFirm(sections: seq<Section>)
    requires Firm(sections) && Named(sections)
    ensures Firm(Staying(sections)) && Named(Staying(sections))
    decreases |sections|
  {
    hide Shaped, Whole, Complete, KeptLines, Head, Body, MovedSuffix;
    if sections != [] {
      var s, rest := sections[0], sections[1..];
      assert forall k | 0 <= k < |rest| :: rest[k] == sections[k + 1];
      StayingFirm(rest);
      if IsSkill(s) {
        StayingSection(s);
      }
      if rest == [] {
        assert Staying(rest) == [];
      }
    }
  }

  lemma {:induction false} KeysWhole(sections: seq<Section>)
    requires Firm(sections)
    ensures Whole(ForgeKeys(sections)) && AllProvenance(ForgeKeys(sections))
    ensures !Complete(ForgeKeys(sections)) ==> EndsInKey(sections)
    decreases |sections|
  {
    hide Shaped, TableName, IsProvenance, MovedLines, Whole, Complete, AllProvenance, EndsInKey;
    NoneWhole();
    if sections != [] {
      var s, rest := sections[0], sections[1..];
      assert forall k | 0 <= k < |rest| :: rest[k] == sections[k + 1];
      KeysWhole(rest);
      var moved := if IsSkill(s) then MovedLines(Body(s)) else [];
      if IsSkill(s) {
        StayingSection(s);
        SectionKeys(s);
      }
      EndKept(s, rest);
      assert sections == [s] + rest;
      if rest == [] {
        assert ForgeKeys(rest) == [];
        assert moved + [] == moved;
      }
      WholeJoin(moved, ForgeKeys(rest));
    }
  }

  lemma EndKept(s: Section, rest: seq<Section>)
    requires Shaped(s)
    ensures EndsInKey([s] + rest) <==> EndsInKey(if rest == [] then [s] else rest)
    ensures IsSkill(s) && !Complete(MovedLines(Body(s))) && Whole(s.lines) ==> EndsInKey([s])
  {
    hide MovedLines, Complete, Whole, IsProvenance, Terminated, TableName;
    if IsSkill(s) && Whole(s.lines) {
      SectionKeys(s);
    }
    if rest != [] {
      assert ([s] + rest)[|rest|] == rest[|rest| - 1];
    } else {
      assert [s] + rest == [s];
    }
  }

  lemma WholeJoin(a: seq<string>, b: seq<string>)
    requires Whole(a) && Whole(b) && (b != [] ==> Complete(a))
    ensures Whole(a + b) && (Complete(a) && Complete(b) ==> Complete(a + b))
    ensures AllProvenance(a) && AllProvenance(b) ==> AllProvenance(a + b)
  {
    hide NoBreak, IsBreak, IsProvenance;
  }

  lemma CompleteJoin(a: seq<string>, b: seq<string>)
    requires Complete(a) && Complete(b)
    ensures Complete(a + b)
  {
  }

  /** The only line of a section that may be incomplete is its last. */
  lemma SectionKeys(s: Section)
    requires IsSkill(s) && Shaped(s) && Whole(s.lines)
    ensures !Complete(MovedLines(Body(s))) ==>
      var last := s.lines[|s.lines| - 1]; !Terminated(last) && IsProvenance(last)
  {
    hide TableName, IsProvenance, NoBreak;
    var h, body := s.lines[0], s.lines[1..];
    assert s.lines == [h] + body;
    WholeParts([h], body);
    LastMoved(body);
    assert body != [] ==> body[|body| - 1] == s.lines[|s.lines| - 1];
  }

  lemma {:induction false} LastMoved(lines: seq<string>)
    requires Whole(lines)
    ensures !Complete(MovedLines(lines)) ==>
      lines != [] && !Terminated(lines[|lines| - 1]) && IsProvenance(lines[|lines| - 1])
  {
    hide IsProvenance, NoBreak, Terminated, Complete;
    assert Complete([]) by { NoneComplete(); }
    if lines != [] {
      var line, rest := lines[0], lines[1..];
      assert lines == [line] + rest;
      WholeParts([line], rest);
      LastMoved(rest);
      OneComplete(line);
      if Complete(MovedLines(rest)) {
        CompleteJoin(if IsProvenance(line) && Complete([line]) then [line] else [], MovedLines(rest));
      }
    }
  }

  lemma NoneComplete()
    ensures Complete([])
  {
  }

  lemma OneComplete(line: string)
    ensures line != [] ==> (Complete([line]) <==> Terminated(line))
  {
    assert [line][0] == line;
  }

  lemma {:induction false} OnlyLastSkill(sections: seq<Section>)
    requires forall k | 0 <= k < |sections| - 1 :: !IsSkill(sections[k])
    ensures var staying := Staying(sections); forall k | 0 <= k < |staying| - 1 :: !IsSkill(staying[k])
    ensures |Staying(sections)| <= |sections|
    decreases |sections|
  {
    hide KeptLines, Head, Body, MovedSuffix;
    if sections != [] {
      var rest := sections[1..];
      assert forall k | 0 <= k < |rest| :: rest[k] == sections[k + 1];
      OnlyLastSkill(rest);
      if rest == [] {
        assert Staying(rest) == [];
      }
    }
  }

  lemma {:induction false} EarlierSkillStays(sections: seq<Section>, j: nat)
    requires j < |sections| - 1 && IsSkill(sections[j]) && IsSkill(sections[|sections| - 1])
    ensures var staying := Staying(sections); exists k | 0 <= k < |staying| - 1 :: IsSkill(staying[k])
    decreases |sections|
  {
    hide KeptLines, Head, Body, MovedSuffix;
    var rest := sections[1..];
    if j == 0 {
      LastSkillStays(rest);
      assert IsSkill(Staying(sections)[0]);
    } else {
      EarlierSkillStays(rest, j - 1);
      var k :| 0 <= k < |Staying(rest)| - 1 && IsSkill(Staying(rest)[k]);
      var d := |Staying(sections)| - |Staying(rest)|;
      assert Staying(sections)[k + d] == Staying(rest)[k];
    }
  }

  lemma {:induction false} LastSkillStays(sections: seq<Section>)
    requires sections != [] && IsSkill(sections[|sections| - 1])
    ensures Staying(sections) != []
    decreases |sections|
  {
    hide KeptLines, Head, Body, MovedSuffix;
    if |sections| > 1 {
      LastSkillStays(sections[1..]);
    }
  }

  /** The keys fit exactly when the file does not end in a glued key. */
  lemma KeysFitIff(sections: seq<Section>)
    requires Firm(sections) && Named(sections)
    ensures KeysFit(Staying(sections), ForgeKeys(sections)) <== !KeyGlued(sections)
    ensures KeyGlued(sections) ==>
      !Complete(ForgeKeys(sections)) && exists k | 0 <= k < |Staying(sections)| - 1 :: IsSkill(Staying(sections)[k])
  {
    hide Firm, Staying, ForgeKeys, Complete, Terminated, IsProvenance;
    KeysWhole(sections);
    if KeyGlued(sections) {
      var k :| 0 <= k < |sections| - 1 && IsSkill(sections[k]);
      EarlierSkillStays(sections, k);
      LastKeyMoves(sections);
      var keys := ForgeKeys(sections);
      Incomplete(keys);
    } else if !Complete(ForgeKeys(sections)) {
      OnlyLastSkill(sections);
    }
  }

  lemma Incomplete(lines: seq<string>)
    requires lines != [] && !Terminated(lines[|lines| - 1])
    ensures !Complete(lines)
  {
  }

  lemma {:induction false} LastKeyMoves(sections: seq<Section>)
    requires Firm(sections) && EndsInKey(sections)
    ensures var keys := ForgeKeys(sections); keys != [] && !Terminated(keys[|keys| - 1])
    decreases |sections|
  {
    hide TableName, IsProvenance, NoBreak, MovedLines, Terminated, Shaped, Whole, Complete;
    var s, rest := sections[0], sections[1..];
    if rest == [] {
      assert ForgeKeys(rest) == [];
      LastKeyOfSection(s);
      assert MovedLines(Body(s)) + [] == MovedLines(Body(s));
    } else {
      assert forall k | 0 <= k < |rest| :: rest[k] == sections[k + 1];
      LastKeyMoves(rest);
      var keys := ForgeKeys(rest);
      assert ForgeKeys(sections)[|ForgeKeys(sections)| - 1] == keys[|keys| - 1];
    }
  }

  lemma LastKeyOfSection(s: Section)
    requires IsSkill(s) && Shaped(s) && IsProvenance(s.lines[|s.lines| - 1])
    ensures var moved := MovedLines(Body(s)); moved != [] && moved[|moved| - 1] == s.lines[|s.lines| - 1]
  {
    hide TableName, IsProvenance, MovedLines;
    HeaderNotKey(s);
    var body := s.lines[1..];
    assert body[|body| - 1] == s.lines[|s.lines| - 1];
    LastLineMoves(body);
  }

  lemma HeaderNotKey(s: Section)
    requires IsSkill(s) && Shaped(s) && IsProvenance(s.lines[|s.lines| - 1])
    ensures |s.lines| > 1
  {
    hide TableName, KeyName;
    KeyNotHeader(s.lines[|s.lines| - 1], "");
  }

  lemma {:induction false} LastLineMoves(lines: seq<string>)
    requires lines != [] && IsProvenance(lines[|lines| - 1])
    ensures var moved := MovedLines(lines); moved != [] && moved[|moved| - 1] == lines[|lines| - 1]
  {
    hide IsProvenance;
    if |lines| == 1 {
      assert MovedLines(lines[1..]) == [];
    } else {
      LastLineMoves(lines[1..]);
    }
  }

  // ----- Moved sub-tables -----

  /** A header as the migration rewrites it: complete, or exactly its brackets. */
  predicate Rewritten(s: Section) {
    && Restored(s)
    && NameChars(s.table.value) && s.table.value != []
    && (Terminated(s.lines[0]) || s.lines[0] == "[" + s.table.value + "]")
  }

  lemma HeaderRewritten(suffix: string, original: string)
    requires suffix in PROVENANCE_SUBTABLES
    ensures var name := "forge." + suffix;
      var header := RenamedHeader(suffix, original);
      && header != [] && TableName(header) == Some(name) && NoBreak(header[..|header| - 1])
      && (Terminated(header) <==> EndsInNewline(original))
      && (!EndsInNewline(original) ==> header == "[" + name + "]")
  {
    hide TableName, NoBreak, Blank;
    var name := "forge." + suffix;
    var header := RenamedHeader(suffix, original);
    var bare := "[" + name + "]";
    assert "[forge." + suffix + "]" == bare;
    SubtableName(suffix);
    BracketsNoBreak(name);
    NoBlank();
    BlankNewline();
    if EndsInNewline(original) {
      HeaderOf(name, "\n");
      assert header == bare + "\n";
      assert header[..|header| - 1] == bare;
    } else {
      HeaderOf(name, "");
      assert bare + "" == bare == header;
      assert header[..|header| - 1] == "[" + name;
    }
  }

  lemma RenamedRewritten(s: Section)
    requires Shaped(s) && Whole(s.lines) && MovedSuffix(s.table).Some?
    ensures Rewritten(Renamed(s)) && (HeaderFits(Renamed(s)) <==> !HeaderGlued(s))
  {
    hide TableName, NoBreak, Blank, RenamedHeader, Terminated, EndsInNewline;
    var suffix := MovedSuffix(s.table).value;
    HeaderRewritten(suffix, s.lines[0]);
    SubtableName(suffix);
    var rest := s.lines[1..];
    assert s.lines == [s.lines[0]] + rest && Renamed(s).lines[1..] == rest;
    WholeParts([s.lines[0]], rest);
  }

  lemma NoBlank()
    ensures Blank("")
  {
  }

  predicate NameChars(name: string) { forall i | 0 <= i < |name| :: IsNameChar(name[i]) }

  lemma SubtableName(suffix: string)
    requires suffix in PROVENANCE_SUBTABLES
    ensures NameChars("forge." + suffix)
  {
    assert NameChars("forge.");
    assert NameChars(suffix);
    hide IsNameChar;
  }

  lemma BracketsNoBreak(name: string)
    requires NameChars(name)
    ensures NoBreak("[" + name + "]") && NoBreak("[" + name)
  {
  }

  predicate AllFit(tables: seq<Section>) { forall k | 0 <= k < |tables| :: HeaderFits(tables[k]) }

  predicate NoneGlued(sections: seq<Section>) { forall k | 0 <= k < |sections| :: !HeaderGlued(sections[k]) }

  predicate AllRewritten(tables: seq<Section>) { forall k | 0 <= k < |tables| :: Rewritten(tables[k]) }

  lemma FitCons(s: Section, rest: seq<Section>)
    ensures AllFit([s] + rest) <==> HeaderFits(s) && AllFit(rest)
    ensures NoneGlued([s] + rest) <==> !HeaderGlued(s) && NoneGlued(rest)
    ensures AllRewritten([s] + rest) <==> Rewritten(s) && AllRewritten(rest)
    ensures AllFit([]) && AllRewritten([])
  {
    hide HeaderFits, HeaderGlued, Rewritten;
    var all := [s] + rest;
    assert all[0] == s && forall k | 0 <= k < |rest| :: all[k + 1] == rest[k];
  }

  lemma {:induction false} TablesRewritten(sections: seq<Section>)
    requires Headed(sections) && Firm(sections) && Named(sections)
    ensures AllRewritten(ForgeTables(sections))
    ensures AllFit(ForgeTables(sections)) <==> NoneGlued(sections)
    decreases |sections|
  {
    hide Shaped, Whole, Complete, Renamed, Rewritten, HeaderFits, HeaderGlued, MovedSuffix, AllFit, NoneGlued;
    hide AllRewritten;
    NoTables();
    if sections != [] {
      var s, rest := sections[0], sections[1..];
      assert sections == [s] + rest;
      assert forall k | 0 <= k < |rest| :: rest[k] == sections[k + 1];
      TablesRewritten(rest);
      SkillStays();
      FitCons(s, rest);
      if MovedSuffix(s.table).Some? {
        RenamedRewritten(s);
        FitCons(Renamed(s), ForgeTables(rest));
      } else {
        NotMoved(s);
        assert ForgeTables(sections) == ForgeTables(rest);
      }
    }
  }

  lemma NoTables()
    ensures AllRewritten([]) && AllFit([]) && NoneGlued([])
  {
  }

  lemma NotMoved(s: Section)
    requires MovedSuffix(s.table).None?
    ensures !HeaderGlued(s)
  {
  }

  // ----- Every document without a glued line -----

  lemma PreambleMeans(pre: Section)
    requires pre.table == None && NoHeaders(pre.lines) && Whole(pre.lines)
    ensures Means(Concat(pre.lines)) == [TableOf(pre)]
  {
    hide TableName, SplitLines;
    SplitConcat(pre.lines);
    CutPlain(pre.lines, None, []);
    assert [] + pre.lines == pre.lines;
    OutlineOne(pre);
  }

  /** The preamble neither moves nor takes part in any of the parts. */
  lemma Preamble(pre: Section, rest: seq<Section>, keys: seq<string>)
    requires pre.table == None && Headed([pre] + rest)
    ensures Headed(rest)
    ensures Staying([pre] + rest) == [pre] + Staying(rest) && ForgeKeys([pre] + rest) == ForgeKeys(rest)
    ensures ForgeTables([pre] + rest) == ForgeTables(rest)
    ensures Assemble("", Staying([pre] + rest), keys, false) == Assemble(Concat(pre.lines), Staying(rest), keys, false)
  {
    hide Concat, MovedLines, KeptLines;
    var all := [pre] + rest;
    assert all[0] == pre && all[1..] == rest && forall k | 0 <= k < |rest| :: rest[k] == all[k + 1];
    assert ([pre] + Staying(rest))[1..] == Staying(rest);
    assert "" + Concat(pre.lines) == Concat(pre.lines);
  }

  lemma PreambleGlue(pre: Section, rest: seq<Section>)
    requires pre.table == None
    ensures KeyGlued([pre] + rest) <==> KeyGlued(rest)
    ensures NoneGlued([pre] + rest) <==> NoneGlued(rest)
  {
    hide HeaderGlued, NoneGlued, IsProvenance, Terminated;
    var all := [pre] + rest;
    NotMoved(pre);
    FitCons(pre, rest);
    if rest != [] {
      assert all[|all| - 1] == rest[|rest| - 1];
      assert EndsInKey(all) == EndsInKey(rest);
      assert all[0] == pre && forall k | 0 <= k < |rest| :: all[k + 1] == rest[k];
      if k :| 0 <= k < |all| - 1 && IsSkill(all[k]) {
        assert IsSkill(rest[k - 1]);
      }
      if k :| 0 <= k < |rest| - 1 && IsSkill(rest[k]) {
        assert IsSkill(all[k + 1]);
      }
    }
  }

  lemma GluedParts(sections: seq<Section>)
    ensures Glued(sections) <==> KeyGlued(sections) || !NoneGlued(sections)
  {
  }

  lemma FirmTail(content: string) returns (pre: Section, rest: seq<Section>)
    ensures Sections(content) == [pre] + rest && pre.table == None && NoHeaders(pre.lines) && Whole(pre.lines)
    ensures Firm(rest) && Named(rest) && (rest != [] ==> Terminated(Concat(pre.lines)))
  {
    hide Sections, Concat, Terminated, TableName, NoHeaders, Whole;
    SectionsFirm(content);
    var all := Sections(content);
    pre, rest := all[0], all[1..];
    assert forall k | 0 <= k < |rest| :: rest[k] == all[k + 1];
    if rest != [] {
      CompleteLines(pre.lines);
    }
  }

  /** The parts of a document put together, when none of them is glued to the next. */
  lemma PartsMean(pre: Section, rest: seq<Section>)
    requires pre.table == None && NoHeaders(pre.lines) && Whole(pre.lines)
    requires Headed(rest) && Firm(rest) && Named(rest) && (rest != [] ==> Terminated(Concat(pre.lines)))
    requires !KeyGlued(rest) && NoneGlued(rest)
    ensures var text := Assemble(Concat(pre.lines), Staying(rest), ForgeKeys(rest), false);
      Means(AppendTables(text, ForgeTables(rest)))
      == [TableOf(pre)] + InsertForge(Outline(Staying(rest)), Meaningful(ForgeKeys(rest))) + Outline(ForgeTables(rest))
  {
    hide Concat, Terminated, TableName, NoHeaders, Whole, Means, TableOf, Firm, Named, KeyGlued, Assemble, AppendTables;
    hide KeysFit, AllProvenance, Meaningful, Outline, InsertForge, HeaderFits, Restored;
    PreambleMeans(pre);
    KeysWhole(rest);
    StayingFirm(rest);
    KeysFitIff(rest);
    TablesRewritten(rest);
    AssembleMeans(Concat(pre.lines), Staying(rest), ForgeKeys(rest));
    var text := Assemble(Concat(pre.lines), Staying(rest), ForgeKeys(rest), false);
    AppendMeans(text, ForgeTables(rest));
  }

  /** With nothing glued, the migrated text means the migrated tables. */
  lemma MeansMigrated(content: string)
    requires !HasForge(SplitLines(content)) && !NothingMoves(content) && !Glued(Sections(content))
    ensures Means(Migrate(content)) == MigrateTables(Means(content))
  {
    hide Concat, Terminated, TableName, NoHeaders, Whole, TableOf, Firm, Named, KeyGlued, NoneGlued, Assemble;
    hide AppendTables;
    hide Meaningful, Outline, InsertForge, Staying, ForgeKeys, ForgeTables, SplitLines, StayingTables;
    hide ProvenanceLines, RenamedTables;
    var pre, rest := FirmTail(content);
    var sections := Sections(content);
    Preamble(pre, rest, ForgeKeys(rest));
    PreambleGlue(pre, rest);
    GluedParts(sections);
    PartsMean(pre, rest);
    OutlineStaying(sections);
    OutlineKeys(sections);
    OutlineTables(sections);
    OutlineAppend([pre], Staying(rest));
    OutlineOne(pre);
    TableKeepsName(pre);
    InsertCons(TableOf(pre), Outline(Staying(rest)), Meaningful(ForgeKeys(rest)));
  }

  // ----- A glued line costs a table -----

  lemma {:induction false} ReadMore(a: seq<string>, more: seq<string>, table: Option<string>, buf: seq<string>)
    requires NoHeaders(more)
    ensures |Cut(a + more, table, buf)| == |Cut(a, table, buf)|
    decreases |a|
  {
    hide TableName, NoHeaders;
    if a == [] {
      assert a + more == more;
      CutPlain(more, table, buf);
    } else {
      assert (a + more)[0] == a[0] && (a + more)[1..] == a[1..] + more;
      if TableName(a[0]).Some? {
        ReadMore(a[1..], more, TableName(a[0]), [a[0]]);
      } else {
        ReadMore(a[1..], more, table, buf + [a[0]]);
      }
    }
  }

  /** Lines that are no headers add no table. */
  lemma MoreLines(x: string, lines: seq<string>)
    requires Terminated(x) && Whole(lines) && NoHeaders(lines)
    ensures |Means(x + Concat(lines))| == |Means(x)|
  {
    hide SplitLines, TableName, NoHeaders, Whole, Cut;
    SplitAppend(x, Concat(lines));
    SplitConcat(lines);
    ReadMore(SplitLines(x), lines, None, []);
  }

  predicate EndsInKeyLine(x: string) {
    var lines := SplitLines(x); lines != [] && !Terminated(x) && IsProvenance(lines[|lines| - 1])
  }

  /** A text ends as its last line does. */
  lemma EndsLikeLastLine(text: string)
    requires text != []
    ensures var lines := SplitLines(text); lines != [] && Terminated(text) == Terminated(lines[|lines| - 1])
  {
    hide SplitLines, NoBreak, IsBreak;
    var lines := SplitLines(text);
    ConcatSplitLines(text);
    SplitLinesWhole(text);
    NoLines();
    var k := |lines| - 1;
    assert lines == lines[..k] + [lines[k]];
    ConcatAppend(lines[..k], [lines[k]]);
    ConcatOne(lines[k]);
  }

  lemma ForgeEndsInKey(text: string, keys: seq<string>)
    requires Whole(keys) && keys != [] && !Complete(keys) && AllProvenance(keys)
    ensures EndsInKeyLine(WithForge(text, keys))
  {
    hide SplitLines, TableName, KeyName, NoBreak, Whole, Complete, EnsureNewline, Concat, Terminated;
    var x := EnsureNewline(text) + "\n";
    EnsureTerminated(text);
    ForgeShaped(keys);
    var lines := [FORGE_HEADER] + keys;
    SplitAppend(x, Concat(lines));
    SplitConcat(lines);
    ConcatCons(FORGE_HEADER, keys);
    assert WithForge(text, keys) == x + Concat(lines);
    EndsLikeLastLine(x + Concat(lines));
    LastIncomplete(keys);
    assert lines[|lines| - 1] == keys[|keys| - 1];
  }

  lemma LastIncomplete(lines: seq<string>)
    requires Whole(lines) && lines != [] && !Complete(lines)
    ensures !Terminated(lines[|lines| - 1])
  {
  }

  /** The complete lines before an incomplete key line hold every table of the text. */
  lemma KeyLineLast(x: string) returns (a: seq<string>, line: string)
    requires EndsInKeyLine(x)
    ensures x == Concat(a) + line && line != [] && NoBreak(line) && IsProvenance(line) && Terminated(Concat(a))
    ensures |Means(x)| == |Means(Concat(a))|
  {
    hide SplitLines, TableName, KeyName, NoBreak, IsBreak, NoHeaders, Whole, Concat, Means;
    a, line := LastLine(x);
    KeyNotHeader(line, "");
    Consed(line, []);
    assert [line] + [] == [line];
    NoneWhole();
    ConcatOne(line);
    OneWhole(line);
    MoreLines(Concat(a), [line]);
  }

  /** A header glued to an incomplete key line is lost. */
  lemma AddGlued(x: string, s: Section)
    requires EndsInKeyLine(x) && Shaped(s) && s.table.Some? && Whole(s.lines)
    ensures |Means(x + Concat(s.lines))| == |Means(x)|
    ensures Complete(s.lines) ==> Terminated(x + Concat(s.lines))
  {
    hide TableName, KeyName, NoBreak, Terminated, NoHeaders, Whole, Concat, Means, Complete, EndsInKeyLine;
    var a, line := KeyLineLast(x);
    var h, rest := s.lines[0], s.lines[1..];
    assert s.lines == [h] + rest;
    JoinHeader(line, h, rest);
    KeyNotHeader(line, h);
    Consed(line + h, rest);
    MoreLines(Concat(a), [line + h] + rest);
    ConcatCons(line, s.lines);
    Regroup(Concat(a), line, Concat(s.lines));
    if Complete(s.lines) {
      CompleteLines(s.lines);
      EndKeptWhole(x, s.lines);
    }
  }

  lemma ConcatCons(line: string, lines: seq<string>)
    ensures Concat([line] + lines) == line + Concat(lines)
  {
    assert ([line] + lines)[1..] == lines;
  }

  lemma OneWhole(line: string)
    requires line != [] && NoBreak(line)
    ensures Whole([line])
  {
  }

  lemma EndKeptWhole(x: string, lines: seq<string>)
    requires lines != [] && Complete(lines) && Terminated(Concat(lines))
    ensures Terminated(x + Concat(lines))
  {
    assert Concat(lines) == lines[0] + Concat(lines[1..]);
  }

  /** A moved sub-table's header glued to text is lost. */
  lemma AddLoose(text: string, s: Section)
    requires Rewritten(s) && !HeaderFits(s)
    ensures |Means(EnsureNewline(text) + "\n" + Concat(s.lines))| == |Means(text)|
  {
    hide Means, TableName, Meaningful, Blank;
    MeansEnsure(text);
    var x := EnsureNewline(text) + "\n";
    var h, b, more := s.lines[0], s.lines[1], s.lines[2..];
    assert s.lines[1..] == [b] + more && s.lines == [h] + ([b] + more);
    BracketsNoBreak(s.table.value);
    HeaderOf(s.table.value, b);
    JoinHeader(h, b, more);
    assert NoHeaders([h + b] + more) by { assert forall k | 0 <= k < |more| :: more[k] == s.lines[1..][k + 1]; }
    MoreLines(x, [h + b] + more);
  }

  lemma {:induction false} AppendCount(text: string, tables: seq<Section>)
    requires AllRewritten(tables)
    ensures |Means(AppendTables(text, tables))| <= |Means(text)| + |tables|
    ensures |Means(AppendTables(text, tables))| == |Means(text)| + |tables| ==> AllFit(tables)
    decreases |tables|
  {
    hide Means, Rewritten, HeaderFits, TableOf, AllFit, AllRewritten;
    NoTables();
    if tables != [] {
      var s, rest := tables[0], tables[1..];
      assert tables == [s] + rest;
      FitCons(s, rest);
      RewrittenRestored(s);
      if HeaderFits(s) {
        AddTable(text, s);
      } else {
        AddLoose(text, s);
      }
      AppendCount(EnsureNewline(text) + "\n" + Concat(s.lines), rest);
    }
  }

  lemma RewrittenRestored(s: Section)
    requires Rewritten(s)
    ensures Restored(s)
  {
  }

  /** The sections and the forge table come to one table less when a key is glued. */
  lemma {:induction false} AssembleCount(text: string, sections: seq<Section>, keys: seq<string>)
    requires Firm(sections) && Named(sections) && (sections != [] ==> Terminated(text))
    requires AllProvenance(keys) && Whole(keys) && !Complete(keys)
    requires exists k | 0 <= k < |sections| - 1 :: IsSkill(sections[k])
    ensures |Means(Assemble(text, sections, keys, false))| == |Means(text)| + |sections|
    decreases |sections|
  {
    hide Means, Shaped, Whole, Complete, AllProvenance, Terminated, WithForge, Concat, EndsInKeyLine;
    NoneWhole();
    var s, rest := sections[0], sections[1..];
    var text' := text + Concat(s.lines);
    AddSection(text, s);
    assert forall k | 0 <= k < |rest| :: rest[k] == sections[k + 1];
    if IsSkill(s) {
      AddForge(text', keys);
      ForgeEndsInKey(text', keys);
      var more := rest[1..];
      assert forall k | 0 <= k < |more| :: more[k] == rest[k + 1];
      AddGlued(WithForge(text', keys), rest[0]);
      AssembleRest(WithForge(text', keys) + Concat(rest[0].lines), more, keys);
    } else {
      var k :| 0 <= k < |sections| - 1 && IsSkill(sections[k]);
      assert IsSkill(rest[k - 1]);
      AssembleCount(text', rest, keys);
    }
  }

  lemma PartsCount(pre: Section, rest: seq<Section>)
    requires pre.table == None && NoHeaders(pre.lines) && Whole(pre.lines)
    requires Headed(rest) && Firm(rest) && Named(rest) && (rest != [] ==> Terminated(Concat(pre.lines)))
    requires KeyGlued(rest) || !NoneGlued(rest)
    ensures var text := Assemble(Concat(pre.lines), Staying(rest), ForgeKeys(rest), false);
      |Means(AppendTables(text, ForgeTables(rest)))| < |Staying(rest)| + 2 + |ForgeTables(rest)|
  {
    hide Concat, Terminated, TableName, NoHeaders, Whole, Means, TableOf, Firm, Named, KeyGlued, Assemble, AppendTables;
    hide KeysFit, AllProvenance, Meaningful, AllFit, NoneGlued;
    PreambleMeans(pre);
    KeysWhole(rest);
    StayingFirm(rest);
    KeysFitIff(rest);
    TablesRewritten(rest);
    var staying, keys := Staying(rest), ForgeKeys(rest);
    var text := Assemble(Concat(pre.lines), staying, keys, false);
    if KeyGlued(rest) {
      AssembleCount(Concat(pre.lines), staying, keys);
    } else {
      AssembleMeans(Concat(pre.lines), staying, keys);
      InsertCount(Outline(staying), Meaningful(keys));
    }
    AppendCount(text, ForgeTables(rest));
  }

  lemma {:induction false} InsertCount(tables: seq<Table>, keys: seq<string>)
    ensures |InsertForge(tables, keys)| == |tables| + 1
  {
    if tables != [] {
      InsertCount(tables[1..], keys);
    }
  }

  /** A glued line changes what the migrated text means. */
  lemma GluedChanges(content: string)
    requires !HasForge(SplitLines(content)) && !NothingMoves(content) && Glued(Sections(content))
    ensures |Means(Migrate(content))| < |MigrateTables(Means(content))|
  {
    hide Concat, Terminated, TableName, NoHeaders, Whole, TableOf, Firm, Named, KeyGlued, NoneGlued, Assemble;
    hide AppendTables;
    hide Meaningful, Outline, InsertForge, Staying, ForgeKeys, ForgeTables, SplitLines, StayingTables;
    hide ProvenanceLines, RenamedTables;
    var pre, rest := FirmTail(content);
    var sections := Sections(content);
    Preamble(pre, rest, ForgeKeys(rest));
    PreambleGlue(pre, rest);
    GluedParts(sections);
    PartsCount(pre, rest);
    OutlineStaying(sections);
    OutlineTables(sections);
    InsertCount(StayingTables(Means(content)), ProvenanceLines(Means(content)));
  }

  // ----- The theorem -----

  /** A document that something moves in is migrated as its tables prescribe exactly when none of its lines is glued. */
  lemma MeaningKeptIff(content: string)
    requires !HasForge(SplitLines(content)) && !NothingMoves(content)
    ensures Means(Migrate(content)) == MigrateTables(Means(content)) <==> !Glued(Sections(content))
  {
    hide Means, Migrate, MigrateTables, Glued, HasForge, NothingMoves;
    if Glued(Sections(content)) {
      GluedChanges(content);
    } else {
      MeansMigrated(content);
    }
  }

  /** Every line but a table header is kept once, in order, in the table it belongs to after the migration. */
  lemma LinesKept(content: string, name: Option<string>)
    requires !HasForge(SplitLines(content)) && !NothingMoves(content) && !Glued(Sections(content))
    ensures var before := Means(content);
      OwnedBy(Means(Migrate(content)), name) ==
      if name == Some("skill") then KeptLines(OwnedBy(before, name))
      else if name == Some("forge") then MovedLines(OwnedBy(before, Some("skill")))
      else if name == Some("forge.requirements") then
        OwnedBy(before, name) + OwnedBy(before, Some("skill.requirements"))
      else if name == Some("forge.metadata") then OwnedBy(before, name) + OwnedBy(before, Some("skill.metadata"))
      else if name in {Some("skill.requirements"), Some("skill.metadata")} then []
      else OwnedBy(before, name)
  {
    hide Migrate, MigrateTables, Glued, NothingMoves, OwnedBy, KeptLines, MovedLines, SplitLines, Outline, Cut;
    MeansMigrated(content);
    NoForgeTable(SplitLines(content), None, []);
    Ownership(Means(content), name);
  }

  lemma {:induction false} InMoved(lines: seq<string>, line: string)
    ensures line in MovedLines(lines) <==> line in lines && IsProvenance(line)
    ensures line in KeptLines(lines) <==> line in lines && !IsProvenance(line)
  {
    hide IsProvenance;
    if lines != [] {
      InMoved(lines[1..], line);
      assert lines == [lines[0]] + lines[1..];
    }
  }

  /** The lines of `[skill]` with one of the six keys are those of `[forge]` afterwards; the others stay. */
  lemma MovedExactly(content: string, line: string)
    requires !HasForge(SplitLines(content)) && !NothingMoves(content) && !Glued(Sections(content))
    ensures var (before, after) := (Means(content), Means(Migrate(content)));
      var moves := exists a, key, b, v :: ProvenanceLine(line, a, key, b, v);
      && (line in OwnedBy(after, Some("forge")) <==> line in OwnedBy(before, Some("skill")) && moves)
      && (line in OwnedBy(after, Some("skill")) <==> line in OwnedBy(before, Some("skill")) && !moves)
  {
    hide Means, Migrate, Glued, HasForge, NothingMoves, OwnedBy, KeptLines, MovedLines, IsProvenance, ProvenanceLine;
    LinesKept(content, Some("forge"));
    LinesKept(content, Some("skill"));
    InMoved(OwnedBy(Means(content), Some("skill")), line);
    ProvenanceIff(line);
  }

  lemma {:induction false} NoForgeTable(lines: seq<string>, table: Option<string>, buf: seq<string>)
    requires !HasForge(lines) && table != Some("forge")
    ensures OwnedBy(Outline(Cut(lines, table, buf)), Some("forge")) == []
    decreases |lines|
  {
    hide TableName, Meaningful;
    if lines != [] {
      assert forall k | 0 <= k < |lines[1..]| :: lines[1..][k] == lines[k + 1];
      if TableName(lines[0]).Some? {
        NoForgeTable(lines[1..], TableName(lines[0]), [lines[0]]);
        OutlineAppend([Section(table, buf)], Cut(lines[1..], TableName(lines[0]), [lines[0]]));
        OutlineOne(Section(table, buf));
        OwnedByOne([TableOf(Section(table, buf))], Some("forge"));
        OwnedByAppend([TableOf(Section(table, buf))], Outline(Cut(lines[1..], TableName(lines[0]), [lines[0]])),
          Some("forge"));
      } else {
        NoForgeTable(lines[1..], table, buf + [lines[0]]);
      }
    } else {
      OutlineOne(Section(table, buf));
      OwnedByOne([TableOf(Section(table, buf))], Some("forge"));
    }
  }

  // ----- A document whose migration loses a table -----

  lemma {:induction false} KeyThen(key: string, rest: string)
    requires (forall i | 0 <= i < |key| :: IsKeyChar(key[i])) && (rest != [] ==> !IsKeyChar(rest[0]))
    ensures KeyLen(key + rest) == |key|
  {
    if key == [] {
      assert key + rest == rest;
    } else {
      assert (key + rest)[0] == key[0] && (key + rest)[1..] == key[1..] + rest;
      KeyThen(key[1..], rest);
    }
  }

  /** Two `[skill]` tables, and a provenance key at the end of a file that lacks its last newline: a table is lost. */
  lemma TwoSkills(header: string, key: string)
    requires TableName(header) == Some("skill") && header != [] && NoBreak(header[..|header| - 1]) && Terminated(header)
    requires IsProvenance(key) && key != [] && NoBreak(key)
    ensures var content := header + (header + key);
      !HasForge(SplitLines(content)) && |Means(Migrate(content))| < |MigrateTables(Means(content))|
  {
    hide SplitLines, TableName, KeyName, Means, Migrate, MigrateTables, ForgeTables, NoBreak, Cut, Terminated;
    var content := header + (header + key);
    KeyNotHeader(key, "");
    TwoSkillsSplit(header, key);
    TwoSkillsCut(header, key);
    assert Terminated(key) == IsBreak(key[|key| - 1]) by { LastBreak(key); }
    var sections := Sections(content);
    assert IsSkill(sections[1]);
    assert EndsInKey(sections) by { NotTerminated(key); }
    assert KeyGlued(sections);
    SectionsFirm(content);
    LastKeyMoves(sections);
    GluedChanges(content);
  }

  lemma LastBreak(line: string)
    requires line != []
    ensures Terminated(line) == IsBreak(line[|line| - 1])
  {
  }

  lemma NotTerminated(line: string)
    requires line != [] && NoBreak(line)
    ensures !Terminated(line)
  {
  }

  lemma TwoSkillsSplit(header: string, key: string)
    requires header != [] && NoBreak(header[..|header| - 1]) && Terminated(header) && key != [] && NoBreak(key)
    ensures SplitLines(header + (header + key)) == [header, header, key]
  {
    hide SplitLines, NoBreak;
    LineLenWhole(header);
    assert NoBreak(key[..|key| - 1]) by { OneWhole(key); assert Whole([key]); assert [key][0] == key; }
    LineLenWhole(key);
    SplitAppend(header, key);
    SplitAppend(header, header + key);
  }

  lemma TwoSkillsCut(header: string, key: string)
    requires TableName(header) == Some("skill") && TableName(key) == None
    ensures Cut([header, header, key], None, []) ==
      [Section(None, []), Section(Some("skill"), [header]), Section(Some("skill"), [header, key])]
  {
    hide TableName;
    var lines := [header, header, key];
    assert lines[1..] == [header, key] && lines[1..][1..] == [key];
    CutPlain([key], Some("skill"), [header]);
    assert [header] + [key] == [header, key];
  }

  lemma GluedExample()
    ensures var content := "[skill]\n" + ("[skill]\n" + "owner = x");
      !HasForge(SplitLines(content)) && |Means(Migrate(content))| < |MigrateTables(Means(content))|
  {
    hide SplitLines, TableName, IsProvenance, Means, Migrate, MigrateTables, HasForge;
    SkillLine();
    OwnerLine();
    TwoSkills("[skill]\n", "owner = x");
  }

  lemma SkillLine()
    ensures TableName("[skill]\n") == Some("skill") && NoBreak("[skill]")
    ensures "[skill]\n"[..|"[skill]\n"| - 1] == "[skill]"
  {
    hide TableName, Blank, NoBreak, IsBreak;
    assert "[" + "skill" + "]" + "\n" == "[skill]\n" && "[" + "skill" + "]" == "[skill]";
    BlankNewline();
    SkillName();
    BracketsNoBreak("skill");
    HeaderOf("skill", "\n");
  }

  lemma SkillName()
    ensures NameChars("skill")
  {
  }

  lemma OwnerLine()
    ensures IsProvenance("owner = x") && NoBreak("owner = x")
  {
    hide KeyLen;
    KeyThen("owner", " = x");
    var line := "owner = x";
    assert "owner" + " = x" == line && line[..5] == "owner" && line[5..] == " = x";
    assert " = x"[1..] == "= x";
    assert SkipSpaces(" = x") == "= x";
  }

  /**
   A moved sub-table whose header ends in a line boundary other than a newline, with a line after it: a table is
   lost.
   */
  lemma OneSubtable(header: string, line: string)
    requires TableName(header) == Some("skill.requirements") && header != [] && NoBreak(header[..|header| - 1])
    requires Terminated(header) && !EndsInNewline(header)
    requires line != [] && NoBreak(line) && TableName(line) == None && !Blank(line)
    ensures var content := header + line;
      !HasForge(SplitLines(content)) && |Means(Migrate(content))| < |MigrateTables(Means(content))|
  {
    hide SplitLines, TableName, Means, Migrate, MigrateTables, NoBreak, Cut, Terminated, Blank, EndsInNewline;
    hide MovedSuffix;
    var content := header + line;
    OneSubtableSplit(header, line);
    OneSubtableCut(header, line);
    SubtableMoves();
    var sections := Sections(content);
    assert sections == [Section(None, []), Section(Some("skill.requirements"), [header, line])];
    SectionsFirm(content);
    assert HeaderGlued(sections[1]);
    assert Glued(sections);
    LastTableMoves(sections);
    GluedChanges(content);
  }

  lemma SubtableMoves()
    ensures MovedSuffix(Some("skill.requirements")) == Some("requirements") && MovedSuffix(None) == None
  {
    assert "skill.requirements" == "skill." + "requirements";
    assert "skill.requirements"[6..] == "requirements";
  }

  lemma LastTableMoves(sections: seq<Section>)
    requires Headed(sections) && |sections| == 2 && !IsSkill(sections[1]) && MovedSuffix(sections[1].table).Some?
    ensures ForgeTables(sections) != []
  {
    hide MovedSuffix, Renamed;
    assert ForgeTables(sections[1..]) != [];
  }

  lemma OneSubtableSplit(header: string, line: string)
    requires header != [] && NoBreak(header[..|header| - 1]) && Terminated(header) && line != [] && NoBreak(line)
    ensures SplitLines(header + line) == [header, line]
  {
    hide SplitLines, NoBreak;
    LineLenWhole(header);
    assert NoBreak(line[..|line| - 1]) by { OneWhole(line); assert Whole([line]); assert [line][0] == line; }
    LineLenWhole(line);
    SplitAppend(header, line);
  }

  lemma OneSubtableCut(header: string, line: string)
    requires TableName(header).Some? && TableName(line) == None
    ensures Cut([header, line], None, []) == [Section(None, []), Section(TableName(header), [header, line])]
  {
    hide TableName;
    assert [header, line][1..] == [line];
    CutPlain([line], TableName(header), [header]);
    assert [header] + [line] == [header, line];
  }

  /** A vertical tab, which Python takes for a line boundary, in place of the newline after a moved header. */
  lemma GluedHeaderExample()
    ensures var content := "[skill.requirements]\U{0B}" + "a = 1";
      !HasForge(SplitLines(content)) && |Means(Migrate(content))| < |MigrateTables(Means(content))|
  {
    hide SplitLines, TableName, Means, Migrate, MigrateTables, HasForge, Terminated;
    RequirementsLine();
    PlainLine();
    OneSubtable("[skill.requirements]\U{0B}", "a = 1");
  }

  lemma RequirementsLine()
    ensures var header := "[skill.requirements]\U{0B}";
      TableName(header) == Some("skill.requirements") && NoBreak(header[..|header| - 1])
      && Terminated(header) && !EndsInNewline(header)
  {
    hide TableName, Blank, NoBreak;
    var (header, name) := ("[skill.requirements]\U{0B}", "skill.requirements");
    assert header == "[" + name + "]" + "\U{0B}" && header[..|header| - 1] == "[" + name + "]";
    assert header[|header| - 1] == '\U{0B}';
    RequirementsName();
    BracketsNoBreak(name);
    BlankTab();
    HeaderOf(name, "\U{0B}");
  }

  lemma RequirementsName()
    ensures NameChars("skill.requirements")
  {
  }

  lemma BlankTab()
    ensures Blank("\U{0B}")
  {
    assert "\U{0B}"[1..] == "";
  }

  lemma PlainLine()
    ensures NoBreak("a = 1") && TableName("a = 1") == None && !Blank("a = 1")
  {
    assert "a = 1"[0] == 'a';
  }
}
