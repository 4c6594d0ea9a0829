/**
 The first of the self-updater's two traversals with an explicit stack (`backend/src/commands/update.rs`,
 `walk_files`), and the search for the main binary that uses it.
 */
module UpdateTrees {
  import opened Wrappers
  import opened FileTrees

  // ----- walk_files -----

  /** Entries whose type cannot be told, and directories that cannot be read. */
  datatype Faults = Faults(unlisted: set<Rel>, unreadable: set<Rel>)

  /** No fault hides the path or one of its ancestors. */
  predicate Open(faults: Faults, p: Rel) {
    p != [] ==> Open(faults, Parent(p)) && Parent(p) !in faults.unreadable && p !in faults.unlisted
  }

  /** The regular files below the root that no fault hides. */
  predicate Listed(t: Tree, faults: Faults, p: Rel) { p in t && t[p].File? && p != [] && Open(faults, p) }

  lemma {:induction false} OpenBelow(faults: Faults, c: Rel, p: Rel)
    requires c <= p && Open(faults, p)
    ensures Open(faults, c) && (c != p ==> c !in faults.unreadable)
    decreases |p|
  {
    if c != p {
      OpenBelow(faults, c, Parent(p));
    }
  }

  ghost predicate Progress(t: Tree, faults: Faults, front: seq<Rel>, out: seq<Rel>) {
    && Apart(front) && Within(t, front)
    && (forall i, j | 0 <= i < j < |out| :: out[i] != out[j])
    && (forall p | p in out :: Listed(t, faults, p) && !Covers(front, p))
    && (forall p | Listed(t, faults, p) :: p in out || Covers(front, p))
  }

  /** A path with nothing listed at or below it is passed over. */
  lemma PassOver(t: Tree, faults: Faults, front: seq<Rel>, c: Rel, rest: seq<Rel>, out: seq<Rel>)
    requires WellFormed(t) && Progress(t, faults, front + [c] + rest, out)
    requires c in t && !Listed(t, faults, c) && (t[c].Directory? ==> !Open(faults, c) || c in faults.unreadable)
    ensures Progress(t, faults, front + rest, out)
    ensures Covered(t, front + rest) < Covered(t, front + [c] + rest)
  {
    hide Open, Apart, Within, Covers;
    Drop(t, front, c, rest);
    forall p | Listed(t, faults, p) ensures p in out || Covers(front + rest, p) {
      if c <= p {
        OpenBelow(faults, c, p);
        if !t[c].Directory? {
          NothingBelow(t, c, p);
        }
      }
    }
  }

  lemma Found(t: Tree, faults: Faults, front: seq<Rel>, c: Rel, rest: seq<Rel>, out: seq<Rel>)
    requires WellFormed(t) && Progress(t, faults, front + [c] + rest, out) && Listed(t, faults, c)
    ensures Progress(t, faults, front + rest, out + [c])
    ensures Covered(t, front + rest) < Covered(t, front + [c] + rest)
  {
    hide Open, Apart, Within, Covers;
    Drop(t, front, c, rest);
    forall p | Listed(t, faults, p) ensures p in out + [c] || Covers(front + rest, p) {
      NothingBelow(t, c, p);
    }
  }

  lemma Enter(t: Tree, faults: Faults, front: seq<Rel>, d: Rel, entries: seq<Rel>, out: seq<Rel>)
    requires WellFormed(t) && Progress(t, faults, front + [d], out) && d in t && t[d].Directory? && Lists(t, d, entries)
    ensures Progress(t, faults, front + entries, out)
    ensures Covered(t, front + entries) < Covered(t, front + [d])
  {
    hide Open, Apart, Within, WellFormed, Lists;
    Expand(t, front, d, entries);
    assert Covers(front + [d], d) by { assert (front + [d])[|front|] == d; }
    hide Covers;
    assert d in Covered(t, front + [d]) && d !in Covered(t, front + entries);
  }

  /** What is on the stack: the root, and directories that no fault hides. */
  predicate Waiting(t: Tree, faults: Faults, stack: seq<Rel>) {
    forall i | 0 <= i < |stack| ::
      stack[i] in t && Open(faults, stack[i]) && (stack[i] == [] || t[stack[i]].Directory?)
  }

  lemma Start(t: Tree, faults: Faults)
    requires WellFormed(t)
    ensures Progress(t, faults, [[]], []) && Waiting(t, faults, [[]])
  {
    forall p: Rel ensures Covers([[]], p) {
      assert [[]][0] <= p;
    }
  }

  lemma Finish(t: Tree, faults: Faults, out: seq<Rel>)
    requires Progress(t, faults, [], out)
    ensures forall i, j | 0 <= i < j < |out| :: out[i] != out[j]
    ensures forall p :: p in out <==> Listed(t, faults, p)
  {
    assert forall p: Rel :: !Covers([], p);
  }

  lemma Popped(t: Tree, faults: Faults, stack: seq<Rel>, d: Rel)
    ensures Waiting(t, faults, stack + [d]) <==> Waiting(t, faults, stack) && Waiting(t, faults, [d])
    ensures Waiting(t, faults, [d]) <==> d in t && Open(faults, d) && (d == [] || t[d].Directory?)
  {
    hide Open;
    var all := stack + [d];
    assert all[|stack|] == d && [d][0] == d && forall i | 0 <= i < |stack| :: all[i] == stack[i];
  }

  /** An entry of a directory that is open and can be read is open itself unless its type cannot be told. */
  lemma Entry(t: Tree, faults: Faults, d: Rel, entries: seq<Rel>, i: nat)
    requires Lists(t, d, entries) && i < |entries| && Open(faults, d) && d !in faults.unreadable
    ensures entries[i] in t && entries[i] != [] && (Open(faults, entries[i]) <==> entries[i] !in faults.unlisted)
  {
    assert entries[i] in entries;
  }

  /** Every listed file exactly once. */
  method WalkFiles(t: Tree, faults: Faults) returns (out: seq<Rel>)
    requires WellFormed(t)
    ensures forall i, j | 0 <= i < j < |out| :: out[i] != out[j]
    ensures forall p :: p in out <==> Listed(t, faults, p)
  {
    hide Covered, Lists, Progress, WellFormed, Waiting, Open;
    out := [];
    var stack: seq<Rel> := [[]];
    Start(t, faults);
    while stack != []
      invariant Progress(t, faults, stack, out) && Waiting(t, faults, stack)
      decreases Covered(t, stack)
    {
      ghost var all := stack;
      var dir := stack[|stack| - 1];
      stack := stack[..|stack| - 1];
      assert all == stack + [dir] == stack + [dir] + [];
      assert stack + [] == stack;
      Popped(t, faults, stack, dir);
      if dir in faults.unreadable || !t[dir].Directory? {
        PassOver(t, faults, stack, dir, [], out);
        continue;
      }
      var entries := ReadDir(t, dir);
      Enter(t, faults, stack, dir, entries, out);
      assert entries[0..] == entries;
      for i := 0 to |entries|
        invariant Progress(t, faults, stack + entries[i..], out) && Waiting(t, faults, stack)
        invariant Covered(t, stack + entries[i..]) < Covered(t, all)
      {
        var path, rest := entries[i], entries[i + 1..];
        Entry(t, faults, dir, entries, i);
        assert stack + entries[i..] == stack + [path] + rest;
        if path in faults.unlisted {
          PassOver(t, faults, stack, path, rest, out);
        } else if t[path].Directory? {
          Popped(t, faults, stack, path);
          stack := stack + [path];
        } else if t[path].File? {
          Found(t, faults, stack, path, rest, out);
          out := out + [path];
        } else {
          PassOver(t, faults, stack, path, rest, out);
        }
      }
      assert stack + entries[|entries|..] == stack;
    }
    Finish(t, faults, out);
  }

  // ----- locate_main_binary -----

  /** A listed file with the name is returned whenever there is one. */
  method LocateMainBinary(t: Tree, faults: Faults, name: string) returns (found: Option<Rel>)
    requires WellFormed(t)
    ensures found.Some? ==>
      Listed(t, faults, found.value) && found.value != [] && found.value[|found.value| - 1] == name
    ensures found.None? ==> forall p | Listed(t, faults, p) && p != [] :: p[|p| - 1] != name
  {
    var files := WalkFiles(t, faults);
    for i := 0 to |files|
      invariant forall k | 0 <= k < i :: FileName(files[k]) != Some(name)
    {
      if FileName(files[i]) == Some(name) {
        assert files[i] in files;
        return Some(files[i]);
      }
    }
    return None;
  }
}
