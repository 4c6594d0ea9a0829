/**
 File trees as maps from paths, and what a traversal with an explicit stack of directories still has to cover.
 */
module FileTrees {
  import opened Wrappers

  /** A path below some root, as its components. */
  type Rel = seq<string>

  datatype Kind = Directory | File(bytes: seq<bv8>, mode: nat) | Symlink | Special

  /** Everything at and below one place of the file system; symbolic links are not followed. */
  type Tree = map<Rel, Kind>

  function Parent(p: Rel): Rel
    requires p != []
  {
    p[..|p| - 1]
  }

  predicate WellFormed(t: Tree) {
    [] in t && forall p | p in t && p != [] :: Parent(p) in t && t[Parent(p)].Directory?
  }

  /** The tree without symbolic links and special files. */
  function Plain(t: Tree): Tree {
    map p | p in t && (t[p].Directory? || t[p].File?) :: t[p]
  }

  function FileName(p: Rel): Option<string> { if p == [] then None else Some(p[|p| - 1]) }

  // ----- What a stack of directories covers -----

  /** No path of the front is at or below another. */
  predicate Apart(front: seq<Rel>) {
    forall i, j | 0 <= i < |front| && 0 <= j < |front| && i != j :: !(front[i] <= front[j])
  }

  predicate Covers(front: seq<Rel>, p: Rel) { exists i | 0 <= i < |front| :: front[i] <= p }

  predicate Within(t: Tree, front: seq<Rel>) { forall i | 0 <= i < |front| :: front[i] in t }

  /** What lies at and below the front. */
  function Covered(t: Tree, front: seq<Rel>): set<Rel> { set p | p in t && Covers(front, p) }

  predicate IsChild(d: Rel, p: Rel) { p != [] && Parent(p) == d }

  /** The entries of a directory, each once, in no particular order. */
  ghost predicate Lists(t: Tree, d: Rel, entries: seq<Rel>) {
    && (forall i, j | 0 <= i < j < |entries| :: entries[i] != entries[j])
    && (forall p :: p in entries <==> p in t && IsChild(d, p))
  }

  /** Every path above one in a tree is a directory of it. */
  lemma {:induction false} AboveIsDirectory(t: Tree, c: Rel, p: Rel)
    requires WellFormed(t) && p in t && c <= p && c != p
    ensures c in t && t[c].Directory?
    decreases |p|
  {
    if c != Parent(p) {
      AboveIsDirectory(t, c, Parent(p));
    }
  }

  /** What is strictly below a directory is at or below one of its entries. */
  lemma BelowChild(t: Tree, d: Rel, entries: seq<Rel>, p: Rel)
    requires WellFormed(t) && Lists(t, d, entries) && p in t && d <= p && p != d
    ensures Covers(entries, p)
  {
    var c := p[..|d| + 1];
    if c != p {
      AboveIsDirectory(t, c, p);
    }
    assert Parent(c) == d;
    var i :| 0 <= i < |entries| && entries[i] == c;
    assert entries[i] <= p;
  }

  lemma ChildBelow(d: Rel, c: Rel)
    requires IsChild(d, c)
    ensures d <= c && !(c <= d) && |c| == |d| + 1
  {
  }

  /** Replacing a directory of the front by its entries uncovers exactly the directory itself. */
  lemma Expand(t: Tree, front: seq<Rel>, d: Rel, entries: seq<Rel>)
    requires WellFormed(t) && Apart(front + [d]) && Within(t, front + [d]) && Lists(t, d, entries)
    ensures Apart(front + entries) && Within(t, front + entries)
    ensures forall p | p in t :: Covers(front + entries, p) <==> Covers(front + [d], p) && p != d
  {
    hide WellFormed;
    forall i | 0 <= i < |entries| ensures entries[i] in t && d <= entries[i] && |entries[i]| == |d| + 1 {
      assert entries[i] in entries;
      ChildBelow(d, entries[i]);
    }
    ExpandApart(front, d, entries);
    assert Within(t, front + entries) by {
      assert forall i | 0 <= i < |front| :: (front + [d])[i] == front[i];
    }
    forall p | p in t ensures Covers(front + entries, p) <==> Covers(front + [d], p) && p != d {
      CoversParts(front, [d], p);
      CoversParts(front, entries, p);
      CoversOne(front, d, p);
      if Covers(entries, p) {
        var i :| 0 <= i < |entries| && entries[i] <= p;
        assert d <= p;
      }
      if d <= p && p != d {
        BelowChild(t, d, entries, p);
      }
    }
  }

  lemma CoversParts(a: seq<Rel>, b: seq<Rel>, p: Rel)
    ensures Covers(a + b, p) <==> Covers(a, p) || Covers(b, p)
  {
    var all := a + b;
    if i :| 0 <= i < |a| && a[i] <= p {
      assert all[i] <= p;
    }
    if i :| 0 <= i < |b| && b[i] <= p {
      assert all[|a| + i] <= p;
    }
    if i :| 0 <= i < |all| && all[i] <= p {
      assert if i < |a| then a[i] <= p else b[i - |a|] <= p;
    }
  }

  lemma CoversOne(front: seq<Rel>, d: Rel, p: Rel)
    ensures Covers([d], p) <==> d <= p
    ensures Apart(front + [d]) ==> !Covers(front, d)
  {
    var all := front + [d];
    assert [d][0] == d && all[|front|] == d && forall i | 0 <= i < |front| :: all[i] == front[i];
  }

  lemma ExpandApart(front: seq<Rel>, d: Rel, entries: seq<Rel>)
    requires Apart(front + [d])
    requires forall i, j | 0 <= i < j < |entries| :: entries[i] != entries[j]
    requires forall i | 0 <= i < |entries| :: d <= entries[i] && |entries[i]| == |d| + 1
    ensures Apart(front + entries)
  {
    var before, after := front + [d], front + entries;
    assert before[|front|] == d && forall i | 0 <= i < |front| :: before[i] == front[i] == after[i];
    assert forall i | 0 <= i < |entries| :: after[|front| + i] == entries[i];
    forall i, j | 0 <= i < |after| && 0 <= j < |after| && i != j ensures !(after[i] <= after[j]) {
      if i < |front| && j < |front| {
        assert !(before[i] <= before[j]);
      } else if i < |front| {
        assert !(before[i] <= before[|front|]);
      } else if j < |front| {
        assert !(before[|front|] <= before[j]);
      }
    }
  }

  /** Taking a path off the front uncovers exactly what is at and below it. */
  lemma Drop(t: Tree, front: seq<Rel>, c: Rel, rest: seq<Rel>)
    requires Apart(front + [c] + rest) && Within(t, front + [c] + rest)
    ensures Apart(front + rest) && Within(t, front + rest)
    ensures forall p | p in t :: Covers(front + [c] + rest, p) <==> Covers(front + rest, p) || c <= p
    ensures !Covers(front + rest, c) && c in t
    ensures Covered(t, front + rest) < Covered(t, front + [c] + rest)
  {
    DropApart(t, front, c, rest);
    hide Apart, Within, Covers;
    forall p ensures Covers(front + [c] + rest, p) <==> Covers(front + rest, p) || c <= p {
      CoversParts(front + [c], rest, p);
      CoversParts(front, [c], p);
      CoversOne(front, c, p);
      CoversParts(front, rest, p);
    }
    assert c in Covered(t, front + [c] + rest) && c !in Covered(t, front + rest);
  }

  lemma DropApart(t: Tree, front: seq<Rel>, c: Rel, rest: seq<Rel>)
    requires Apart(front + [c] + rest) && Within(t, front + [c] + rest)
    ensures Apart(front + rest) && Within(t, front + rest)
    ensures !Covers(front + rest, c) && c in t
  {
    var before, after := front + [c] + rest, front + rest;
    var n := |front|;
    assert before[n] == c;
    assert forall i | 0 <= i < n :: before[i] == after[i];
    assert forall i | n <= i < |after| :: after[i] == before[i + 1];
  }

  /** Nothing lies below what is not a directory. */
  lemma NothingBelow(t: Tree, c: Rel, p: Rel)
    requires WellFormed(t) && c in t && !t[c].Directory? && p in t
    ensures c <= p <==> p == c
  {
    if c <= p && p != c {
      AboveIsDirectory(t, c, p);
    }
  }

  // ----- Reading a directory -----

  method ReadDir(t: Tree, d: Rel) returns (entries: seq<Rel>)
    ensures Lists(t, d, entries)
  {
    entries := [];
    var left := set p | p in t && IsChild(d, p);
    while left != {}
      invariant forall i, j | 0 <= i < j < |entries| :: entries[i] != entries[j]
      invariant forall p :: p in entries || p in left <==> p in t && IsChild(d, p)
      invariant forall p | p in entries :: p !in left
    {
      var p :| p in left;
      entries := entries + [p];
      left := left - {p};
    }
  }
}
