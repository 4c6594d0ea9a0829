/**
 The bulk rename (`backend/scripts/rename_files_and_dirs.py`: `collect_rename_ops`, `execute_renames`). An ordered
 list of in-place renames, deepest first, carries out a recursive map of names over a directory tree.
 */
module RenamePlan {
  import opened Wrappers
  import opened FileTrees

  const EXCLUDED_DIRS := {
    ".git", "target", "node_modules", ".venv", "venv", "__pycache__", "dist", "build", ".cargo",
    ".gitlab", ".idea", ".vs", ".vscode", ".zed"
  }

  /**
   A tree, with its links that point nowhere, its links that point at directories and the directories it will not
   list.
   */
  datatype World = World(tree: Tree, dangling: set<Rel>, dirLinks: set<Rel>, unreadable: set<Rel>)

  /** The new name of an entry, or nothing when it keeps its name. */
  type NameMap = string -> Option<string>

  function Last(p: Rel): string
    requires p != []
  {
    p[|p| - 1]
  }

  predicate Exists(w: World, p: Rel) { p in w.tree && p !in w.dangling }

  predicate Excluded(w: World, p: Rel) {
    p != [] && p in w.tree && (w.tree[p].Directory? || p in w.dirLinks) && Last(p) in EXCLUDED_DIRS
  }

  /** Neither the path nor a directory above it is excluded, and every directory above it can be listed. */
  predicate Visited(w: World, p: Rel) {
    p != [] ==> !Excluded(w, p) && Parent(p) !in w.unreadable && Visited(w, Parent(p))
  }

  /**
   An entry is visited exactly when no component of its path is an excluded directory, or a link to one, and every
   directory above it can be listed.
   */
  lemma {:induction false} VisitedIff(w: World, p: Rel)
    ensures Visited(w, p) <==> forall k | 0 < k <= |p| :: Passable(w, p[..k])
    decreases |p|
  {
    if p != [] {
      VisitedIff(w, Parent(p));
      assert p[..|p|] == p;
      assert forall k | 0 < k < |p| :: Parent(p)[..k] == p[..k];
    }
  }

  /** The walk goes on to the entry from the directory it is in. */
  predicate Passable(w: World, q: Rel)
    requires q != []
  {
    && q[..|q| - 1] !in w.unreadable
    && !(q in w.tree && (w.tree[q].Directory? || q in w.dirLinks)
         && q[|q| - 1] in {".git", "target", "node_modules", ".venv", "venv", "__pycache__", "dist", "build", ".cargo",
                           ".gitlab", ".idea", ".vs", ".vscode", ".zed"})
  }

  /** What an entry is to be called. */
  function NewName(w: World, name: NameMap, p: Rel): string
    requires p != []
  {
    if Visited(w, p) && p !in w.dangling && name(Last(p)).Some? then name(Last(p)).value else Last(p)
  }

  /** The recursive map: every component gets its new name. */
  function NewPath(w: World, name: NameMap, p: Rel): Rel {
    if p == [] then [] else NewPath(w, name, Parent(p)) + [NewName(w, name, p)]
  }

  datatype Op = Op(old_: Rel, new_: Rel)

  // ----- Collecting -----

  predicate Target(w: World, p: Rel) { p in w.tree && p != [] && Visited(w, p) }

  /** What the walk has listed: everything it is past, and the directories it is still to descend into. */
  ghost predicate Seen(w: World, items: seq<Rel>, stack: seq<Rel>, front: seq<Rel>) {
    && Apart(front) && Within(w.tree, front)
    && (forall i, j | 0 <= i < j < |items| :: items[i] != items[j])
    && (forall p | p in items :: Target(w, p) && (p in stack || !Covers(front, p)))
    && (forall p | Target(w, p) :: p in items || Covers(front, p))
  }

  lemma {:induction false} VisitedAbove(w: World, c: Rel, p: Rel)
    requires c <= p && Visited(w, p)
    ensures Visited(w, c)
    decreases |p|
  {
    if c != p {
      VisitedAbove(w, c, Parent(p));
    }
  }

  lemma EnterDirectory(w: World, items: seq<Rel>, stack: seq<Rel>, d: Rel, entries: seq<Rel>)
    requires WellFormed(w.tree) && Seen(w, items, stack + [d], stack + [d]) && Lists(w.tree, d, entries)
    requires d in w.tree && w.tree[d].Directory? && (d == [] || d in items)
    ensures Seen(w, items, stack, stack + entries)
    ensures Covered(w.tree, stack + entries) < Covered(w.tree, stack + [d])
  {
    hide Visited, Apart, Within, WellFormed, Lists;
    Expand(w.tree, stack, d, entries);
    assert Covers(stack + [d], d) by { CoversParts(stack, [d], d); CoversOne(stack, d, d); }
    hide Covers;
    assert d in Covered(w.tree, stack + [d]) && d !in Covered(w.tree, stack + entries);
    assert forall p | p in stack + [d] :: p in stack || p == d;
  }

  /** An excluded directory is passed over with everything below it. */
  lemma PassExcluded(w: World, items: seq<Rel>, stack: seq<Rel>, c: Rel, rest: seq<Rel>)
    requires WellFormed(w.tree) && Seen(w, items, stack, stack + [c] + rest) && Excluded(w, c)
    ensures Seen(w, items, stack, stack + rest)
    ensures Covered(w.tree, stack + rest) < Covered(w.tree, stack + [c] + rest)
  {
    hide Apart, Within, Covers, WellFormed;
    Drop(w.tree, stack, c, rest);
    forall p | Target(w, p) ensures p in items || Covers(stack + rest, p) {
      if c <= p {
        VisitedAbove(w, c, p);
      }
    }
  }

  lemma ListLeaf(w: World, items: seq<Rel>, stack: seq<Rel>, c: Rel, rest: seq<Rel>)
    requires WellFormed(w.tree) && Seen(w, items, stack, stack + [c] + rest)
    requires Target(w, c) && !w.tree[c].Directory?
    ensures Seen(w, items + [c], stack, stack + rest)
    ensures Covered(w.tree, stack + rest) < Covered(w.tree, stack + [c] + rest)
  {
    hide Visited, Apart, Within, WellFormed;
    NotListed(w, items, stack, c, rest);
    Drop(w.tree, stack, c, rest);
    hide Covers;
    forall p | Target(w, p) ensures p in items + [c] || Covers(stack + rest, p) {
      NothingBelow(w.tree, c, p);
    }
  }

  lemma ListDirectory(w: World, items: seq<Rel>, stack: seq<Rel>, c: Rel, rest: seq<Rel>)
    requires Seen(w, items, stack, stack + [c] + rest) && Target(w, c)
    ensures Seen(w, items + [c], stack + [c], stack + [c] + rest)
  {
    hide Visited, Apart, Within;
    NotListed(w, items, stack, c, rest);
    assert c in stack + [c] && forall p | p in stack :: p in stack + [c];
    hide Covers;
  }

  /** An entry still to come is neither stacked nor listed. */
  lemma NotListed(w: World, items: seq<Rel>, stack: seq<Rel>, c: Rel, rest: seq<Rel>)
    requires Seen(w, items, stack, stack + [c] + rest)
    ensures c !in items && c !in stack
  {
    hide Visited;
    var front := stack + [c] + rest;
    assert front[|stack|] == c;
    assert Covers(front, c);
    assert forall i | 0 <= i < |stack| :: front[i] == stack[i] && i != |stack|;
  }

  /** Every entry outside excluded directories, once. */
  method Walk(w: World) returns (items: seq<Rel>)
    requires WellFormed(w.tree)
    ensures forall i, j | 0 <= i < j < |items| :: items[i] != items[j]
    ensures forall p :: p in items <==> Target(w, p)
  {
    hide Seen, Covered, WellFormed, Lists, Excluded, Visited;
    items := [];
    var stack: seq<Rel> := [[]];
    StartWalk(w);
    while stack != []
      invariant Seen(w, items, stack, stack) && Stacked(w, items, stack)
      decreases Covered(w.tree, stack)
    {
      ghost var all := stack;
      var dir := stack[|stack| - 1];
      stack := stack[..|stack| - 1];
      assert all == stack + [dir];
      StackedLast(w, items, stack, dir);
      if !w.tree[dir].Directory? || dir in w.unreadable {
        PassUnlisted(w, items, stack, dir);
        continue;
      }
      var entries := ReadDir(w.tree, dir);
      EnterDirectory(w, items, stack, dir, entries);
      assert entries[0..] == entries;
      for i := 0 to |entries|
        invariant Seen(w, items, stack, stack + entries[i..]) && Stacked(w, items, stack)
        invariant Covered(w.tree, stack + entries[i..]) < Covered(w.tree, all)
        invariant dir == [] || dir in items
      {
        var entry, rest := entries[i], entries[i + 1..];
        EntryVisited(w, dir, entries, i, items);
        assert stack + entries[i..] == stack + [entry] + rest;
        if Excluded(w, entry) {
          PassExcluded(w, items, stack, entry, rest);
        } else if w.tree[entry].Directory? {
          ListDirectory(w, items, stack, entry, rest);
          StackedMore(w, items, stack, entry);
          items := items + [entry];
          stack := stack + [entry];
        } else {
          ListLeaf(w, items, stack, entry, rest);
          StackedMore(w, items, stack, entry);
          items := items + [entry];
        }
      }
      assert stack + entries[|entries|..] == stack;
    }
    FinishWalk(w, items);
  }

  /** What waits on the stack is the root, or a directory listed before. */
  ghost predicate Stacked(w: World, items: seq<Rel>, stack: seq<Rel>) {
    && (forall d | d in stack :: d in w.tree && (d == [] || (w.tree[d].Directory? && d in items)))
    && (forall p | p in items :: Target(w, p))
  }

  lemma StartWalk(w: World)
    requires WellFormed(w.tree)
    ensures Seen(w, [], [[]], [[]]) && Stacked(w, [], [[]])
  {
    hide Visited;
    forall p: Rel ensures Covers([[]], p) {
      assert [[]][0] <= p;
    }
  }

  lemma FinishWalk(w: World, items: seq<Rel>)
    requires Seen(w, items, [], [])
    ensures forall i, j | 0 <= i < j < |items| :: items[i] != items[j]
    ensures forall p :: p in items <==> Target(w, p)
  {
    hide Visited;
    assert forall p: Rel :: !Covers([], p);
  }

  lemma StackedLast(w: World, items: seq<Rel>, stack: seq<Rel>, d: Rel)
    requires Stacked(w, items, stack + [d])
    ensures Stacked(w, items, stack)
    ensures d in w.tree && (d == [] || (w.tree[d].Directory? && d in items)) && (d != [] ==> Visited(w, d))
  {
    hide Visited;
    assert d in stack + [d] && forall p | p in stack :: p in stack + [d];
  }

  lemma StackedMore(w: World, items: seq<Rel>, stack: seq<Rel>, d: Rel)
    requires Stacked(w, items, stack) && Target(w, d)
    ensures Stacked(w, items + [d], stack)
    ensures w.tree[d].Directory? ==> Stacked(w, items + [d], stack + [d])
  {
    hide Visited;
  }

  /** What cannot be listed is passed over with everything below it. */
  lemma PassUnlisted(w: World, items: seq<Rel>, stack: seq<Rel>, d: Rel)
    requires WellFormed(w.tree) && Seen(w, items, stack + [d], stack + [d]) && d in w.tree
    requires d == [] || d in items
    requires !w.tree[d].Directory? || d in w.unreadable
    ensures Seen(w, items, stack, stack)
    ensures Covered(w.tree, stack) < Covered(w.tree, stack + [d])
  {
    hide Visited, Apart, Within, WellFormed;
    assert stack + [d] + [] == stack + [d] && stack + [] == stack;
    Drop(w.tree, stack, d, []);
    forall p | Target(w, p) && d <= p ensures p == d {
      UnlistedBelow(w, d, p);
    }
    hide Covers;
    assert forall p | p in stack + [d] :: p in stack || p == d;
  }

  lemma UnlistedBelow(w: World, d: Rel, p: Rel)
    requires WellFormed(w.tree) && d in w.tree && (!w.tree[d].Directory? || d in w.unreadable)
    requires Target(w, p) && d <= p
    ensures p == d
  {
    hide WellFormed;
    if !w.tree[d].Directory? {
      NothingBelow(w.tree, d, p);
    } else if p != d {
      ListedAbove(w, d, p);
    }
  }

  lemma ListedAbove(w: World, d: Rel, p: Rel)
    requires Visited(w, p) && d <= p && p != d
    ensures d !in w.unreadable
  {
    var c := p[..|d| + 1];
    VisitedAbove(w, c, p);
    assert Parent(c) == d;
  }

  lemma EntryVisited(w: World, d: Rel, entries: seq<Rel>, i: nat, items: seq<Rel>)
    requires Lists(w.tree, d, entries) && i < |entries| && (d != [] ==> Visited(w, d)) && d !in w.unreadable
    ensures entries[i] in w.tree && (Target(w, entries[i]) <==> !Excluded(w, entries[i]))
  {
    hide Excluded;
    assert entries[i] in entries;
    assert Visited(w, []);
  }

  // ----- Sorting -----

  /** A path as text. */
  function Text(p: Rel): string { if p == [] then "" else Text(Parent(p)) + "/" + Last(p) }

  /** The order of texts by their first difference. */
  predicate Less(a: string, b: string) {
    b != "" && (a == "" || a[0] < b[0] || (a[0] == b[0] && Less(a[1..], b[1..])))
  }

  /** The deeper path first, within one depth by the text. */
  predicate Ahead(a: Rel, b: Rel) { |a| > |b| || (|a| == |b| && Less(Text(a), Text(b))) }

  predicate Sorted(items: seq<Rel>) { forall i, j | 0 <= i < j < |items| :: !Ahead(items[j], items[i]) }

  predicate Distinct<T(==)>(items: seq<T>) { forall i, j | 0 <= i < j < |items| :: items[i] != items[j] }

  /** What is not before another comes after whatever the other is not before. */
  lemma {:induction false} LessChain(a: string, b: string, c: string)
    requires !Less(b, a) && !Less(c, b)
    ensures !Less(c, a)
    decreases |a|
  {
    if a != "" && b != "" && c != "" && a[0] == b[0] == c[0] {
      LessChain(a[1..], b[1..], c[1..]);
    }
  }

  lemma {:induction false} LessOneWay(a: string, b: string)
    requires Less(a, b)
    ensures !Less(b, a)
    decreases |a|
  {
    if a != "" && a[0] == b[0] {
      LessOneWay(a[1..], b[1..]);
    }
  }

  lemma AheadOrder(a: Rel, b: Rel, c: Rel)
    ensures !Ahead(b, a) && !Ahead(c, b) ==> !Ahead(c, a)
    ensures Ahead(a, b) ==> !Ahead(b, a)
  {
    hide Text, Less;
    if !Ahead(b, a) && !Ahead(c, b) && |a| == |b| == |c| {
      LessChain(Text(a), Text(b), Text(c));
    }
    if |a| == |b| && Less(Text(a), Text(b)) {
      LessOneWay(Text(a), Text(b));
    }
  }

  /** `list.sort` by depth and text, as an insertion sort. */
  method SortDeepestFirst(items: seq<Rel>) returns (sorted: seq<Rel>)
    requires Distinct(items)
    ensures Sorted(sorted) && Distinct(sorted) && forall p :: p in sorted <==> p in items
  {
    hide Sorted, Ahead;
    sorted := [];
    assert Sorted([]) by { NothingSorted(); }
    for n := 0 to |items|
      invariant Sorted(sorted) && Distinct(sorted)
      invariant forall p :: p in sorted <==> p in items[..n]
    {
      var item := items[n];
      var k := 0;
      while k < |sorted| && !Ahead(item, sorted[k])
        invariant k <= |sorted| && forall i | 0 <= i < k :: !Ahead(item, sorted[i])
      {
        k := k + 1;
      }
      assert items[..n + 1] == items[..n] + [item];
      InsertItem(sorted, item, k);
      sorted := sorted[..k] + [item] + sorted[k..];
    }
    assert items[..|items|] == items;
  }

  lemma NothingSorted()
    ensures Sorted([])
  {
  }

  lemma InsertItem(sorted: seq<Rel>, item: Rel, k: nat)
    requires Sorted(sorted) && Distinct(sorted) && item !in sorted && k <= |sorted|
    requires (forall i | 0 <= i < k :: !Ahead(item, sorted[i])) && (k < |sorted| ==> Ahead(item, sorted[k]))
    ensures var longer := sorted[..k] + [item] + sorted[k..];
      Sorted(longer) && Distinct(longer) && forall p :: p in longer <==> p in sorted || p == item
  {
    hide Sorted, Distinct, Ahead;
    InsertSorted(sorted, item, k);
    InsertDistinct(sorted, item, k);
    assert sorted == sorted[..k] + sorted[k..];
  }

  lemma InsertSorted(sorted: seq<Rel>, item: Rel, k: nat)
    requires Sorted(sorted) && k <= |sorted|
    requires (forall i | 0 <= i < k :: !Ahead(item, sorted[i])) && (k < |sorted| ==> Ahead(item, sorted[k]))
    ensures Sorted(sorted[..k] + [item] + sorted[k..])
  {
    hide Ahead;
    forall j | k <= j < |sorted| ensures !Ahead(sorted[j], item) {
      AheadOrder(item, sorted[k], sorted[j]);
    }
    var longer := sorted[..k] + [item] + sorted[k..];
    forall i, j | 0 <= i < j < |longer| ensures !Ahead(longer[j], longer[i]) {
      var a, b := if i < k then i else i - 1, if j <= k then j else j - 1;
      assert i != k ==> longer[i] == sorted[a];
      assert j != k ==> longer[j] == sorted[b];
    }
  }

  lemma InsertDistinct(sorted: seq<Rel>, item: Rel, k: nat)
    requires Distinct(sorted) && item !in sorted && k <= |sorted|
    ensures Distinct(sorted[..k] + [item] + sorted[k..])
  {
    var longer := sorted[..k] + [item] + sorted[k..];
    forall i, j | 0 <= i < j < |longer| ensures longer[i] != longer[j] {
      var a, b := if i < k then i else i - 1, if j <= k then j else j - 1;
      assert i != k ==> longer[i] == sorted[a];
      assert j != k ==> longer[j] == sorted[b];
    }
  }

  // ----- Planning -----

  /** What is to be renamed: the new name differs and nothing bears it yet. */
  predicate Planned(w: World, name: NameMap, p: Rel) {
    && Target(w, p) && p !in w.dangling && NewName(w, name, p) != Last(p)
    && !Exists(w, Parent(p) + [NewName(w, name, p)])
  }

  function OpFor(w: World, name: NameMap, p: Rel): Op
    requires p != []
  {
    Op(p, Parent(p) + [NewName(w, name, p)])
  }

  /**
   A plan renames exactly what is to be renamed, each entry once, deeper entries first, else in the order of the
   text.
   */
  ghost predicate IsPlan(w: World, name: NameMap, ops: seq<Op>) {
    && (forall k | 0 <= k < |ops| :: Planned(w, name, ops[k].old_) && ops[k] == OpFor(w, name, ops[k].old_))
    && (forall i, j | 0 <= i < j < |ops| :: ops[i].old_ != ops[j].old_ && !Ahead(ops[j].old_, ops[i].old_))
    && (forall p | Planned(w, name, p) :: exists k | 0 <= k < |ops| :: ops[k].old_ == p)
  }

  /** The plan for the items looked at so far. */
  ghost predicate PlanFor(w: World, name: NameMap, ops: seq<Op>, items: seq<Rel>) {
    && (forall k | 0 <= k < |ops| ::
          Planned(w, name, ops[k].old_) && ops[k] == OpFor(w, name, ops[k].old_) && ops[k].old_ in items)
    && (forall i, j | 0 <= i < j < |ops| :: ops[i].old_ != ops[j].old_ && !Ahead(ops[j].old_, ops[i].old_))
    && (forall p | p in items && Planned(w, name, p) :: exists k | 0 <= k < |ops| :: ops[k].old_ == p)
  }

  lemma PlanNext(w: World, name: NameMap, ops: seq<Op>, items: seq<Rel>, item: Rel)
    requires PlanFor(w, name, ops, items) && item !in items && item != []
    requires forall p | p in items :: !Ahead(item, p)
    ensures Planned(w, name, item) ==> PlanFor(w, name, ops + [OpFor(w, name, item)], items + [item])
    ensures !Planned(w, name, item) ==> PlanFor(w, name, ops, items + [item])
  {
    hide Planned, NewName, Ahead;
    if Planned(w, name, item) {
      var longer := ops + [OpFor(w, name, item)];
      assert longer[|ops|].old_ == item && forall k | 0 <= k < |ops| :: longer[k] == ops[k];
      forall p | p in items + [item] && Planned(w, name, p)
        ensures exists k | 0 <= k < |longer| :: longer[k].old_ == p
      {
        if p != item {
          var k :| 0 <= k < |ops| && ops[k].old_ == p;
          assert longer[k].old_ == p;
        }
      }
    }
  }

  method CollectRenameOps(w: World, name: NameMap) returns (ops: seq<Op>)
    requires WellFormed(w.tree)
    ensures IsPlan(w, name, ops)
  {
    hide Visited, WellFormed, PlanFor, Ahead;
    var allItems := Walk(w);
    allItems := SortDeepestFirst(allItems);
    ops := [];
    assert PlanFor(w, name, [], []) by { NoPlan(w, name); }
    for i := 0 to |allItems|
      invariant PlanFor(w, name, ops, allItems[..i])
    {
      var item := allItems[i];
      assert allItems[..i + 1] == allItems[..i] + [item];
      assert item in allItems && Target(w, item);
      PlanNext(w, name, ops, allItems[..i], item);
      if Exists(w, item) {
        var renamed := name(Last(item));
        if renamed.Some? && renamed.value != Last(item) {
          var newPath := Parent(item) + [renamed.value];
          if !Exists(w, newPath) {
            ops := ops + [Op(item, newPath)];
          }
        }
      }
    }
    assert allItems[..|allItems|] == allItems;
    PlanDone(w, name, ops, allItems);
  }

  lemma NoPlan(w: World, name: NameMap)
    ensures PlanFor(w, name, [], [])
  {
  }

  lemma PlanDone(w: World, name: NameMap, ops: seq<Op>, items: seq<Rel>)
    requires PlanFor(w, name, ops, items) && forall p :: p in items <==> Target(w, p)
    ensures IsPlan(w, name, ops)
  {
    hide Visited;
  }
}
