/**
 The search of the help overlay (`backend/apps/omnescode/src/app.rs`, `filter_help_node`): a tree of sections and key
 bindings is pruned to what matches a query. Lower-casing a string is left abstract; what it must satisfy is stated.
 */
module HelpFilter {
  import opened Sequences
  import opened SoftWrap
  import opened Wrappers

  datatype HelpEntry = HelpEntry(key: string, action: string)

  datatype HelpNode = HelpNode(title: Option<string>, description: Option<string>, entries: seq<HelpEntry>,
    children: seq<HelpNode>)

  type Lower = string -> string

  // ----- Queries -----

  function TrimStart(s: string): string { if s != [] && IsWhite(s[0]) then TrimStart(s[1..]) else s }

  function TrimEnd(s: string): string { if s != [] && IsWhite(s[|s| - 1]) then TrimEnd(s[..|s| - 1]) else s }

  function Trim(s: string): string { TrimEnd(TrimStart(s)) }

  function Needle(lower: Lower, query: string): string { lower(Trim(query)) }

  /** A lower-cased, trimmed string stays as it is when that is done again. */
  ghost predicate Settles(lower: Lower) {
    forall q: string :: lower(Needle(lower, q)) == Needle(lower, q) && Trim(Needle(lower, q)) == Needle(lower, q)
  }

  predicate Contains(s: string, needle: string) { exists i | 0 <= i <= |s| :: needle <= s[i..] }

  // ----- The filter -----

  predicate NodeMatches(lower: Lower, node: HelpNode, needle: string) {
    || (node.title.Some? && Contains(lower(node.title.value), needle))
    || (node.description.Some? && Contains(lower(node.description.value), needle))
  }

  predicate EntryMatches(lower: Lower, entry: HelpEntry, needle: string) {
    Contains(lower(entry.key), needle) || Contains(lower(entry.action), needle)
  }

  function FilterEntries(lower: Lower, entries: seq<HelpEntry>, needle: string): seq<HelpEntry> {
    if entries == [] then []
    else
      (if EntryMatches(lower, entries[0], needle) then [entries[0]] else [])
      + FilterEntries(lower, entries[1..], needle)
  }

  function FilterNode(lower: Lower, node: HelpNode, query: string): Option<HelpNode>
    decreases node, 1
  {
    var needle := Needle(lower, query);
    if needle == "" || NodeMatches(lower, node, needle) then Some(node)
    else
      var entries := FilterEntries(lower, node.entries, needle);
      var children := FilterNodes(lower, node.children, needle);
      if entries == [] && children == [] then None else Some(HelpNode(node.title, None, entries, children))
  }

  function FilterNodes(lower: Lower, nodes: seq<HelpNode>, query: string): seq<HelpNode>
    decreases nodes, 0
  {
    if nodes == [] then []
    else
      var rest := FilterNodes(lower, nodes[1..], query);
      match FilterNode(lower, nodes[0], query)
      case Some(kept) => [kept] + rest
      case None => rest
  }

  // ----- Which entries are shown -----

  /** The needle is somewhere in the text. */
  ghost predicate Occurs(needle: string, text: string) {
    exists before: string, after: string :: text == before + needle + after
  }

  lemma ContainsIff(s: string, needle: string)
    ensures Contains(s, needle) <==> Occurs(needle, s)
  {
    if i :| 0 <= i <= |s| && needle <= s[i..] {
      assert s == s[..i] + needle + s[i + |needle|..];
    }
    if before: string, after: string :| s == before + needle + after {
      assert s[|before|..] == needle + after;
    }
  }

  /**
   A section with one binding: it is kept exactly when the needle is in one of its four texts, as it is when it is in
   the section's own, and otherwise without its description.
   */
  lemma SectionKept(lower: Lower, title: Option<string>, description: Option<string>, key: string, action: string,
      query: string)
    ensures var (node, needle) := (HelpNode(title, description, [HelpEntry(key, action)], []), Needle(lower, query));
      var section := (title.Some? && Occurs(needle, lower(title.value)))
        || (description.Some? && Occurs(needle, lower(description.value)));
      var binding := Occurs(needle, lower(key)) || Occurs(needle, lower(action));
      FilterNode(lower, node, query)
        == if needle == "" || section then Some(node) else if binding then Some(node.(description := None)) else None
  {
    hide Contains, Occurs, Needle;
    var (entry, needle) := (HelpEntry(key, action), Needle(lower, query));
    var node := HelpNode(title, description, [entry], []);
    ContainsIff(lower(key), needle);
    ContainsIff(lower(action), needle);
    if title.Some? {
      ContainsIff(lower(title.value), needle);
    }
    if description.Some? {
      ContainsIff(lower(description.value), needle);
    }
    assert [entry][1..] == [] && FilterEntries(lower, [], needle) == [] && FilterNodes(lower, [], needle) == [];
    assert FilterEntries(lower, node.entries, needle) == if EntryMatches(lower, entry, needle) then [entry] else [];
  }

  /** The entries of a tree, depth first. */
  function Entries(node: HelpNode): seq<HelpEntry>
    decreases node, 1
  {
    node.entries + EntriesOf(node.children)
  }

  function EntriesOf(nodes: seq<HelpNode>): seq<HelpEntry>
    decreases nodes, 0
  {
    if nodes == [] then [] else Entries(nodes[0]) + EntriesOf(nodes[1..])
  }

  function Shown(kept: Option<HelpNode>): seq<HelpEntry> { if kept.Some? then Entries(kept.value) else [] }

  /** For each entry of a tree, whether it matches or lies in a section that does. */
  function Marks(lower: Lower, node: HelpNode, needle: string, inside: bool): (marks: seq<bool>)
    ensures |marks| == |Entries(node)|
    decreases node, 1
  {
    var within := inside || NodeMatches(lower, node, needle);
    EntryMarks(lower, node.entries, needle, within) + MarksOf(lower, node.children, needle, within)
  }

  function MarksOf(lower: Lower, nodes: seq<HelpNode>, needle: string, inside: bool): (marks: seq<bool>)
    ensures |marks| == |EntriesOf(nodes)|
    decreases nodes, 0
  {
    if nodes == [] then [] else Marks(lower, nodes[0], needle, inside) + MarksOf(lower, nodes[1..], needle, inside)
  }

  function EntryMarks(lower: Lower, entries: seq<HelpEntry>, needle: string, inside: bool): (marks: seq<bool>)
    ensures |marks| == |entries|
  {
    if entries == [] then []
    else [inside || EntryMatches(lower, entries[0], needle)] + EntryMarks(lower, entries[1..], needle, inside)
  }

  function Select<T>(items: seq<T>, marks: seq<bool>): seq<T>
    requires |items| == |marks|
  {
    if items == [] then [] else (if marks[0] then [items[0]] else []) + Select(items[1..], marks[1..])
  }

  lemma {:induction false} SelectAppend<T>(a: seq<T>, b: seq<T>, ma: seq<bool>, mb: seq<bool>)
    requires |a| == |ma| && |b| == |mb|
    ensures Select(a + b, ma + mb) == Select(a, ma) + Select(b, mb)
  {
    if a == [] {
      assert a + b == b && ma + mb == mb;
    } else {
      SelectAppend(a[1..], b, ma[1..], mb);
      assert (a + b)[0] == a[0] && (a + b)[1..] == a[1..] + b && (ma + mb)[0] == ma[0];
      assert (ma + mb)[1..] == ma[1..] + mb;
      Regroup(if ma[0] then [a[0]] else [], Select(a[1..], ma[1..]), Select(b, mb));
    }
  }

  lemma {:induction false} SelectAll<T>(items: seq<T>, marks: seq<bool>)
    requires |items| == |marks| && forall i | 0 <= i < |marks| :: marks[i]
    ensures Select(items, marks) == items
  {
    if items != [] {
      SelectAll(items[1..], marks[1..]);
    }
  }

  lemma {:induction false} MarkedInside(lower: Lower, node: HelpNode, needle: string)
    ensures forall i | 0 <= i < |Marks(lower, node, needle, true)| :: Marks(lower, node, needle, true)[i]
    decreases node, 1
  {
    MarkedEntriesInside(lower, node.entries, needle);
    MarkedAllInside(lower, node.children, needle);
  }

  lemma {:induction false} MarkedEntriesInside(lower: Lower, entries: seq<HelpEntry>, needle: string)
    ensures forall i | 0 <= i < |entries| :: EntryMarks(lower, entries, needle, true)[i]
  {
    if entries != [] {
      MarkedEntriesInside(lower, entries[1..], needle);
    }
  }

  lemma {:induction false} MarkedAllInside(lower: Lower, nodes: seq<HelpNode>, needle: string)
    ensures forall i | 0 <= i < |MarksOf(lower, nodes, needle, true)| :: MarksOf(lower, nodes, needle, true)[i]
    decreases nodes, 0
  {
    hide Marks;
    if nodes != [] {
      MarkedInside(lower, nodes[0], needle);
      MarkedAllInside(lower, nodes[1..], needle);
    }
  }

  lemma {:induction false} EntriesSelected(lower: Lower, entries: seq<HelpEntry>, needle: string)
    ensures FilterEntries(lower, entries, needle) == Select(entries, EntryMarks(lower, entries, needle, false))
  {
    hide EntryMatches;
    if entries != [] {
      EntriesSelected(lower, entries[1..], needle);
    }
  }

  /** A needle is its own needle. */
  lemma NeedleSettles(lower: Lower, query: string)
    requires Settles(lower)
    ensures Needle(lower, Needle(lower, query)) == Needle(lower, query)
  {
  }

  /** Shown is exactly what matches or lies in a matching section, in order. */
  lemma {:induction false} ShownExactly(lower: Lower, node: HelpNode, query: string)
    requires Settles(lower) && Needle(lower, query) != ""
    ensures Shown(FilterNode(lower, node, query))
      == Select(Entries(node), Marks(lower, node, Needle(lower, query), false))
    decreases node, 1
  {
    hide Settles, EntryMatches, FilterEntries, NodeMatches, Select, Needle;
    var needle := Needle(lower, query);
    var within := NodeMatches(lower, node, needle);
    if within {
      MarkedInside(lower, node, needle);
      assert Marks(lower, node, needle, false) == Marks(lower, node, needle, true);
      SelectAll(Entries(node), Marks(lower, node, needle, false));
    } else {
      NeedleSettles(lower, query);
      EntriesSelected(lower, node.entries, needle);
      ShownAllExactly(lower, node.children, needle);
      SelectAppend(node.entries, EntriesOf(node.children),
        EntryMarks(lower, node.entries, needle, false), MarksOf(lower, node.children, needle, false));
      var kept := FilterNodes(lower, node.children, needle);
      if FilterEntries(lower, node.entries, needle) == [] && kept == [] {
        assert EntriesOf(kept) == [];
      }
    }
  }

  lemma {:induction false} ShownAllExactly(lower: Lower, nodes: seq<HelpNode>, query: string)
    requires Settles(lower) && Needle(lower, query) != ""
    ensures EntriesOf(FilterNodes(lower, nodes, query)) ==
      Select(EntriesOf(nodes), MarksOf(lower, nodes, Needle(lower, query), false))
    decreases nodes, 0
  {
    hide Settles, FilterNode, Marks, Needle, Entries;
    if nodes != [] {
      ShownExactly(lower, nodes[0], query);
      ShownAllExactly(lower, nodes[1..], query);
      var needle := Needle(lower, query);
      SelectAppend(Entries(nodes[0]), EntriesOf(nodes[1..]),
        Marks(lower, nodes[0], needle, false), MarksOf(lower, nodes[1..], needle, false));
      var kept := FilterNode(lower, nodes[0], query);
      var rest := FilterNodes(lower, nodes[1..], query);
      if kept.Some? {
        assert ([kept.value] + rest)[1..] == rest;
      }
    }
  }

  // ----- Filtering twice -----

  lemma {:induction false} EntriesTwice(lower: Lower, entries: seq<HelpEntry>, needle: string)
    ensures FilterEntries(lower, FilterEntries(lower, entries, needle), needle) == FilterEntries(lower, entries, needle)
  {
    hide EntryMatches;
    if entries != [] {
      EntriesTwice(lower, entries[1..], needle);
      var kept := FilterEntries(lower, entries[1..], needle);
      assert ([entries[0]] + kept)[1..] == kept && [] + kept == kept;
    }
  }

  /** What the filter keeps, it keeps again unchanged. */
  lemma {:induction false} Idempotent(lower: Lower, node: HelpNode, query: string)
    requires Settles(lower)
    ensures var kept := FilterNode(lower, node, query); kept.Some? ==> FilterNode(lower, kept.value, query) == kept
    decreases node, 1
  {
    hide Settles, FilterEntries, Contains, Needle;
    var needle := Needle(lower, query);
    if needle != "" && !NodeMatches(lower, node, needle) {
      NeedleSettles(lower, query);
      EntriesTwice(lower, node.entries, needle);
      IdempotentAll(lower, node.children, needle);
    }
  }

  lemma {:induction false} IdempotentAll(lower: Lower, nodes: seq<HelpNode>, query: string)
    requires Settles(lower)
    ensures FilterNodes(lower, FilterNodes(lower, nodes, query), query) == FilterNodes(lower, nodes, query)
    decreases nodes, 0
  {
    hide Settles, FilterNode;
    if nodes != [] {
      Idempotent(lower, nodes[0], query);
      IdempotentAll(lower, nodes[1..], query);
      var kept, rest := FilterNode(lower, nodes[0], query), FilterNodes(lower, nodes[1..], query);
      if kept.Some? {
        assert ([kept.value] + rest)[1..] == rest;
      }
    }
  }

  // ----- Pruning -----

  predicate Sub<T(==)>(a: seq<T>, b: seq<T>) {
    a == [] || (b != [] && ((a[0] == b[0] && Sub(a[1..], b[1..])) || Sub(a, b[1..])))
  }

  /** A pruning keeps a section as it is, or drops its description, some entries and some subsections. */
  predicate Prunes(kept: HelpNode, node: HelpNode)
    decreases node, 1
  {
    || kept == node
    || (kept.title == node.title && kept.description.None? && Sub(kept.entries, node.entries)
      && PrunesAll(kept.children, node.children))
  }

  predicate PrunesAll(kept: seq<HelpNode>, nodes: seq<HelpNode>)
    decreases nodes, 0
  {
    kept == [] || (nodes != []
      && ((Prunes(kept[0], nodes[0]) && PrunesAll(kept[1..], nodes[1..])) || PrunesAll(kept, nodes[1..])))
  }

  lemma {:induction false} EntriesSub(lower: Lower, entries: seq<HelpEntry>, needle: string)
    ensures Sub(FilterEntries(lower, entries, needle), entries)
  {
    hide EntryMatches;
    if entries != [] {
      EntriesSub(lower, entries[1..], needle);
      var kept := FilterEntries(lower, entries[1..], needle);
      assert ([entries[0]] + kept)[1..] == kept && [] + kept == kept;
    }
  }

  lemma {:induction false} KeptPrunes(lower: Lower, node: HelpNode, query: string)
    ensures var kept := FilterNode(lower, node, query); kept.Some? ==> Prunes(kept.value, node)
    decreases node, 1
  {
    hide Needle, NodeMatches, FilterEntries;
    EntriesSub(lower, node.entries, Needle(lower, query));
    KeptAllPrune(lower, node.children, Needle(lower, query));
  }

  lemma {:induction false} KeptAllPrune(lower: Lower, nodes: seq<HelpNode>, query: string)
    ensures PrunesAll(FilterNodes(lower, nodes, query), nodes)
    decreases nodes, 0
  {
    hide FilterNode, Prunes;
    if nodes != [] {
      KeptPrunes(lower, nodes[0], query);
      KeptAllPrune(lower, nodes[1..], query);
      var kept, rest := FilterNode(lower, nodes[0], query), FilterNodes(lower, nodes[1..], query);
      if kept.Some? {
        assert ([kept.value] + rest)[1..] == rest;
      }
    }
  }

  // ----- Longer queries -----

  lemma {:induction false} SelectSub<T>(items: seq<T>, few: seq<bool>, many: seq<bool>)
    requires |items| == |few| == |many| && forall i | 0 <= i < |few| :: few[i] ==> many[i]
    ensures Sub(Select(items, few), Select(items, many))
  {
    if items != [] {
      var a, b := Select(items[1..], few[1..]), Select(items[1..], many[1..]);
      SelectSub(items[1..], few[1..], many[1..]);
      assert ([items[0]] + a)[1..] == a && ([items[0]] + b)[1..] == b && [] + a == a && [] + b == b;
    }
  }

  lemma ContainsTrans(s: string, long: string, short: string)
    requires Contains(long, short)
    ensures Contains(s, long) ==> Contains(s, short)
  {
    var j :| 0 <= j <= |long| && short <= long[j..];
    if i :| 0 <= i <= |s| && long <= s[i..] {
      assert s[i + j..][..|short|] == long[j..][..|short|];
      assert short <= s[i + j..];
    }
  }

  predicate Implied(few: seq<bool>, many: seq<bool>) {
    |few| == |many| && forall i | 0 <= i < |few| :: few[i] ==> many[i]
  }

  lemma ImpliedAppend(a: seq<bool>, b: seq<bool>, ma: seq<bool>, mb: seq<bool>)
    requires Implied(a, ma) && Implied(b, mb)
    ensures Implied(a + b, ma + mb)
  {
  }

  lemma {:induction false} FewerEntryMarks(lower: Lower, entries: seq<HelpEntry>, long: string, short: string,
      a: bool, b: bool)
    requires Contains(long, short) && (a ==> b)
    ensures Implied(EntryMarks(lower, entries, long, a), EntryMarks(lower, entries, short, b))
  {
    hide Contains;
    if entries != [] {
      FewerEntryMarks(lower, entries[1..], long, short, a, b);
      ContainsTrans(lower(entries[0].key), long, short);
      ContainsTrans(lower(entries[0].action), long, short);
    }
  }

  /** A needle that contains another marks nothing the other does not. */
  lemma {:induction false} FewerMarks(lower: Lower, node: HelpNode, long: string, short: string, a: bool, b: bool)
    requires Contains(long, short) && (a ==> b)
    ensures Implied(Marks(lower, node, long, a), Marks(lower, node, short, b))
    decreases node, 1
  {
    hide Contains, Implied;
    if node.title.Some? {
      ContainsTrans(lower(node.title.value), long, short);
    }
    if node.description.Some? {
      ContainsTrans(lower(node.description.value), long, short);
    }
    var a', b' := a || NodeMatches(lower, node, long), b || NodeMatches(lower, node, short);
    FewerEntryMarks(lower, node.entries, long, short, a', b');
    FewerMarksOf(lower, node.children, long, short, a', b');
    ImpliedAppend(EntryMarks(lower, node.entries, long, a'), MarksOf(lower, node.children, long, a'),
      EntryMarks(lower, node.entries, short, b'), MarksOf(lower, node.children, short, b'));
  }

  lemma {:induction false} FewerMarksOf(lower: Lower, nodes: seq<HelpNode>, long: string, short: string, a: bool,
      b: bool)
    requires Contains(long, short) && (a ==> b)
    ensures Implied(MarksOf(lower, nodes, long, a), MarksOf(lower, nodes, short, b))
    decreases nodes, 0
  {
    hide Contains, Marks;
    if nodes != [] {
      FewerMarks(lower, nodes[0], long, short, a, b);
      FewerMarksOf(lower, nodes[1..], long, short, a, b);
      ImpliedAppend(Marks(lower, nodes[0], long, a), MarksOf(lower, nodes[1..], long, a),
        Marks(lower, nodes[0], short, b), MarksOf(lower, nodes[1..], short, b));
    }
  }

  /** Every tree shows under the second query only what it shows under the first. */
  ghost predicate NeverAdds(lower: Lower, query: string, longer: string) {
    forall node :: Sub(Shown(FilterNode(lower, node, longer)), Shown(FilterNode(lower, node, query)))
  }

  lemma ShowsFewer(lower: Lower, node: HelpNode, query: string, longer: string)
    requires Settles(lower) && (Needle(lower, query) == "" || Contains(Needle(lower, longer), Needle(lower, query)))
    ensures Sub(Shown(FilterNode(lower, node, longer)), Shown(FilterNode(lower, node, query)))
  {
    hide Settles, Needle, Marks, NodeMatches, Entries, Sub, Select;
    var long, short := Needle(lower, longer), Needle(lower, query);
    var all := seq(|Entries(node)|, i => true);
    SelectAll(Entries(node), all);
    if short == "" {
      if long == "" {
        SelectSub(Entries(node), all, all);
      } else {
        ShownExactly(lower, node, longer);
        SelectSub(Entries(node), Marks(lower, node, long, false), all);
      }
    } else {
      ShownExactly(lower, node, longer);
      ShownExactly(lower, node, query);
      FewerMarks(lower, node, long, short, false, false);
      SelectSub(Entries(node), Marks(lower, node, long, false), Marks(lower, node, short, false));
    }
  }

  /** A single entry whose action is the longer query's needle is shown under it, but not under the other. */
  lemma ShowsMore(lower: Lower, query: string, longer: string)
    requires Settles(lower) && Needle(lower, query) != "" && !Contains(Needle(lower, longer), Needle(lower, query))
    requires lower("") == ""
    ensures !NeverAdds(lower, query, longer)
  {
    hide Needle;
    var long, short := Needle(lower, longer), Needle(lower, query);
    var entry := HelpEntry("", long);
    var node := HelpNode(None, None, [entry], []);
    assert lower(long) == long;
    assert Contains(long, long) by { assert long <= long[0..]; }
    assert !Contains("", short);
    assert [entry][1..] == [];
    assert FilterEntries(lower, [], short) == [] && FilterEntries(lower, [], long) == [];
    assert FilterEntries(lower, [entry], short) == [] && FilterEntries(lower, [entry], long) == [entry];
    assert FilterNodes(lower, [], short) == [] && FilterNodes(lower, [], long) == [];
    assert FilterNode(lower, node, query) == None;
    assert FilterNode(lower, node, longer) == Some(node);
    assert Entries(node) == [entry];
    assert !Sub([entry], []);
  }

  /** A query never adds what another one hides exactly when its needle contains the other's. */
  lemma NeverAddsIff(lower: Lower, query: string, longer: string)
    requires Settles(lower) && lower("") == ""
    ensures NeverAdds(lower, query, longer) <==>
      Needle(lower, query) == "" || Contains(Needle(lower, longer), Needle(lower, query))
  {
    hide Settles, Needle, Contains, FilterNode, Shown;
    if Needle(lower, query) == "" || Contains(Needle(lower, longer), Needle(lower, query)) {
      forall node ensures Sub(Shown(FilterNode(lower, node, longer)), Shown(FilterNode(lower, node, query))) {
        ShowsFewer(lower, node, query, longer);
      }
    } else {
      ShowsMore(lower, query, longer);
    }
  }
}
