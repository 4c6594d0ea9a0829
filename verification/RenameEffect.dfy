/**
 What the planned renames do (`backend/scripts/rename_files_and_dirs.py`, `execute_renames`), on POSIX. Every source
 path is still valid at its turn. Siblings with one new name are renamed onto each other: what is lost then is
 settled exactly, and when no names clash the final tree is the recursive map of names over the first.
 */
module RenameEffect {
  import opened Wrappers
  import opened FileTrees
  import opened RenamePlan

  // ----- One rename -----

  function Moved(p: Rel, old_: Rel, new_: Rel): Rel { if old_ <= p then new_ + p[|old_|..] else p }

  /** Everything at and below the old path appears at the new one. */
  function Move(t: Tree, old_: Rel, new_: Rel): Tree
    requires forall p | p in t :: !(new_ <= p)
  {
    map k | k in (set p | p in t :: Moved(p, old_, new_)) :: t[Origin(t, old_, new_, k)]
  }

  /** Where a path of the moved tree came from. */
  function Origin(t: Tree, old_: Rel, new_: Rel, k: Rel): (p: Rel)
    requires (forall p | p in t :: !(new_ <= p)) && exists p | p in t :: Moved(p, old_, new_) == k
    ensures p in t && Moved(p, old_, new_) == k
  {
    var p := if new_ <= k then old_ + k[|new_|..] else k;
    assert forall q | q in t && Moved(q, old_, new_) == k :: q == p by {
      forall q | q in t && Moved(q, old_, new_) == k ensures q == p {
        if old_ <= q {
          assert k[|new_|..] == q[|old_|..];
        }
      }
    }
    p
  }

  /** `rename`: nothing when the source or the target's directory is missing, or the target cannot be replaced. */
  function Rename(t: Tree, old_: Rel, new_: Rel): Option<Tree> {
    if old_ == [] || new_ == [] || old_ !in t || old_ <= new_ then (if old_ == new_ && old_ in t then Some(t) else None)
    else if Parent(new_) !in t || !t[Parent(new_)].Directory? then None
    else if exists p | p in t :: new_ <= p && p != new_ then None
    else if new_ in t && t[new_].Directory? != t[old_].Directory? then None
    else Some(Move(t - {new_}, old_, new_))
  }

  /** The renames one after another, and those that failed. */
  function Execute(t: Tree, ops: seq<Op>): (Tree, seq<Op>) {
    if ops == [] then (t, [])
    else
      var (before, errors) := Execute(t, ops[..|ops| - 1]);
      var op := ops[|ops| - 1];
      match Rename(before, op.old_, op.new_)
      case Some(after) => (after, errors)
      case None => (before, errors + [op])
  }

  method ExecuteRenames(t: Tree, ops: seq<Op>) returns (result: Tree, successCount: nat, errors: seq<Op>)
    ensures (result, errors) == Execute(t, ops) && successCount + |errors| == |ops|
  {
    hide Rename;
    result, successCount, errors := t, 0, [];
    assert ops[..0] == [];
    for i := 0 to |ops|
      invariant (result, errors) == Execute(t, ops[..i]) && successCount + |errors| == i
    {
      assert ops[..i + 1][..i] == ops[..i];
      var renamed := Rename(result, ops[i].old_, ops[i].new_);
      if renamed.Some? {
        result := renamed.value;
        successCount := successCount + 1;
      } else {
        errors := errors + [ops[i]];
      }
    }
    assert ops[..|ops|] == ops;
  }

  // ----- Where things are halfway -----

  /** The path of an original entry once the entries in `done` have their new names. */
  function Current(w: World, name: NameMap, done: set<Rel>, p: Rel): (r: Rel)
    ensures |r| == |p|
  {
    if p == [] then [] else Current(w, name, done, Parent(p)) + [if p in done then NewName(w, name, p) else Last(p)]
  }

  /**
   Every original entry but the lost ones is at its current path, no two at one, and nothing else is in the tree. A lost
   entry had nothing below it and has a sibling that is still there.
   */
  ghost predicate IsImage(w: World, name: NameMap, done: set<Rel>, lost: set<Rel>, t: Tree) {
    && (forall p | p in w.tree && p !in lost ::
          Current(w, name, done, p) in t && t[Current(w, name, done, p)] == w.tree[p])
    && (forall k | k in t :: exists p | p in w.tree && p !in lost :: Current(w, name, done, p) == k)
    && (forall p, q | p in w.tree && q in w.tree && p !in lost && q !in lost && p != q ::
          Current(w, name, done, p) != Current(w, name, done, q))
    && (forall l | l in lost :: Gone(w, done, lost, l))
  }

  ghost predicate Gone(w: World, done: set<Rel>, lost: set<Rel>, l: Rel) {
    && l in w.tree && l != [] && (l in done || l in w.dangling)
    && (forall r | r in w.tree :: l <= r ==> r == l)
    && (exists r | r in w.tree && r != [] && Parent(r) == Parent(l) :: r !in lost)
  }

  /** Renamed so far: entries of the plan, none above the depth. */
  ghost predicate DoneTo(w: World, name: NameMap, done: set<Rel>, depth: nat) {
    forall d | d in done :: Planned(w, name, d) && |d| >= depth
  }

  lemma {:induction false} ShallowStays(w: World, name: NameMap, done: set<Rel>, depth: nat, p: Rel)
    requires DoneTo(w, name, done, depth) && |p| < depth
    ensures Current(w, name, done, p) == p
    decreases |p|
  {
    hide NewName;
    if p != [] {
      ShallowStays(w, name, done, depth, Parent(p));
      Unsnoc(p);
    }
  }

  lemma {:induction false} CurrentPrefix(w: World, name: NameMap, done: set<Rel>, p: Rel, n: nat)
    requires n <= |p|
    ensures Current(w, name, done, p)[..n] == Current(w, name, done, p[..n])
    decreases |p|
  {
    hide NewName;
    if n == |p| {
      assert p[..n] == p;
    } else {
      CurrentPrefix(w, name, done, Parent(p), n);
      assert Parent(p)[..n] == p[..n];
      assert Current(w, name, done, p)[..n] == Current(w, name, done, Parent(p))[..n];
    }
  }

  lemma {:induction false} AncestorIn(t: Tree, p: Rel, n: nat)
    requires WellFormed(t) && p in t && n <= |p|
    ensures p[..n] in t
    decreases |p|
  {
    if n < |p| {
      AncestorIn(t, Parent(p), n);
      assert Parent(p)[..n] == p[..n];
    } else {
      assert p[..n] == p;
    }
  }

  lemma Unsnoc(p: Rel)
    requires p != []
    ensures p == Parent(p) + [Last(p)]
  {
  }

  lemma LastOf(a: Rel, x: string, b: Rel, y: string)
    ensures a + [x] == b + [y] <==> a == b && x == y
  {
    assert (a + [x])[..|a|] == a && (b + [y])[..|b|] == b;
    assert (a + [x])[|a|] == x && (b + [y])[|b|] == y;
  }

  lemma DoneFacts(w: World, name: NameMap, done: set<Rel>, depth: nat, s: Rel)
    requires DoneTo(w, name, done, depth) && s in done
    ensures Planned(w, name, s)
  {
    hide Planned;
  }

  lemma PlannedFacts(w: World, name: NameMap, q: Rel)
    requires Planned(w, name, q)
    ensures q in w.tree && q != [] && q !in w.dangling && NewName(w, name, q) != Last(q)
    ensures OpFor(w, name, q).new_ in w.tree ==> OpFor(w, name, q).new_ in w.dangling
    ensures OpFor(w, name, q).new_ != [] && Parent(OpFor(w, name, q).new_) == Parent(q)
    ensures |OpFor(w, name, q).new_| == |q|
  {
    hide NewName;
  }

  /** No planned entry takes the path of another planned one. */
  lemma NotOnto(w: World, name: NameMap, s: Rel, q: Rel)
    requires Planned(w, name, s) && Planned(w, name, q)
    ensures OpFor(w, name, s).new_ != q
  {
    hide Planned, NewName;
    PlannedFacts(w, name, s);
    PlannedFacts(w, name, q);
  }

  /** Where an entry of the depth in hand is: at its old path, or at its new one. */
  lemma AtTurn(w: World, name: NameMap, done: set<Rel>, s: Rel)
    requires s != [] && DoneTo(w, name, done, |s|)
    ensures Current(w, name, done, s) == if s in done then OpFor(w, name, s).new_ else s
  {
    hide NewName, DoneTo;
    ShallowStays(w, name, done, |s|, Parent(s));
    Unsnoc(s);
  }

  /**
   At the turn of an entry no other is at its path. One is at its new path when that is its own new path, or when it
   is a link there that points nowhere.
   */
  lemma SiblingTurn(w: World, name: NameMap, done: set<Rel>, q: Rel, s: Rel)
    requires DoneTo(w, name, done, |q|) && Planned(w, name, q) && q !in done
    requires s in w.tree && |s| == |q|
    ensures Current(w, name, done, s) == q <==> s == q
    ensures Current(w, name, done, s) == OpFor(w, name, q).new_ ==> s != [] && s != q && Parent(s) == Parent(q)
    ensures Current(w, name, done, s) == OpFor(w, name, q).new_ ==>
      if s in done then OpFor(w, name, s).new_ == OpFor(w, name, q).new_
      else s == OpFor(w, name, q).new_ && s in w.dangling
  {
    hide NewName, Planned, DoneTo, Current, OpFor;
    PlannedFacts(w, name, q);
    NotOnto(w, name, q, q);
    AtTurn(w, name, done, s);
    if s in done {
      DoneFacts(w, name, done, |q|, s);
      PlannedFacts(w, name, s);
      NotOnto(w, name, s, q);
    }
  }

  /**
   At the turn of an entry, what is at or below its path is what was, and what is at its new path is all of an entry.
   */
  lemma TurnOf(w: World, name: NameMap, done: set<Rel>, q: Rel, r: Rel)
    requires WellFormed(w.tree) && DoneTo(w, name, done, |q|) && Planned(w, name, q) && q !in done
    requires r in w.tree
    ensures q <= Current(w, name, done, r) <==> q <= r
    ensures OpFor(w, name, q).new_ <= Current(w, name, done, r) <==>
      |q| <= |r| && r[..|q|] in w.tree && Current(w, name, done, r[..|q|]) == OpFor(w, name, q).new_
  {
    hide NewName, Planned, WellFormed, DoneTo, Current, OpFor;
    PlannedFacts(w, name, q);
    if |q| <= |r| {
      AncestorIn(w.tree, r, |q|);
      CurrentPrefix(w, name, done, r, |q|);
      SiblingTurn(w, name, done, q, r[..|q|]);
    }
  }

  /** One more entry renamed changes the paths at and below it, and no other. */
  lemma {:induction false} CurrentMore(w: World, name: NameMap, done: set<Rel>, q: Rel, r: Rel)
    requires q != [] && q !in done && DoneTo(w, name, done, |q|)
    ensures Current(w, name, done + {q}, r) ==
      if q <= r then OpFor(w, name, q).new_ + Current(w, name, done, r)[|q|..] else Current(w, name, done, r)
    decreases |r|
  {
    hide NewName, DoneTo;
    if r == q {
      ShallowStays(w, name, done, |q|, Parent(q));
      CurrentMore(w, name, done, q, Parent(q));
      assert Current(w, name, done, r)[|q|..] == [];
    } else if r != [] {
      CurrentMore(w, name, done, q, Parent(r));
      assert q <= r <==> q <= Parent(r);
    }
  }

  // ----- One planned rename -----

  /** `rename` can put one thing in the place of another: both or neither a directory, and the other one empty. */
  ghost predicate CanReplace(t: Tree, s: Rel, q: Rel)
    requires s in t && q in t
  {
    t[s].Directory? == t[q].Directory? && forall r | r in t && s <= r :: r == s
  }

  /** A rename to a free path in an existing directory moves the entry. */
  lemma RenameGoes(t: Tree, old_: Rel, new_: Rel)
    requires old_ in t && old_ != [] && new_ != [] && !(old_ <= new_) && Parent(new_) in t && t[Parent(new_)].Directory?
    requires forall k | k in t :: !(new_ <= k)
    ensures Rename(t, old_, new_) == Some(Move(t, old_, new_))
  {
    hide Move;
    assert t - {new_} == t;
  }

  /** The entry whose turn it is lies where it was, in a directory that lies where it was. */
  lemma SourceHere(w: World, name: NameMap, done: set<Rel>, lost: set<Rel>, t: Tree, q: Rel)
    requires WellFormed(w.tree) && DoneTo(w, name, done, |q|) && Planned(w, name, q) && q !in done
    requires IsImage(w, name, done, lost, t)
    ensures q !in lost && q in t && t[q] == w.tree[q]
    ensures Parent(q) in t && t[Parent(q)].Directory?
  {
    hide NewName, DoneTo, Current, Planned;
    PlannedFacts(w, name, q);
    assert q !in lost;
    AtTurn(w, name, done, q);
    ShallowStays(w, name, done, |q|, Parent(q));
    assert Parent(q) !in lost by {
      assert Parent(q) <= q && Parent(q) != q;
    }
  }

  /** One planned rename to a free path: it moves the entry. */
  lemma RenameFree(w: World, name: NameMap, done: set<Rel>, lost: set<Rel>, t: Tree, q: Rel)
    requires WellFormed(w.tree) && DoneTo(w, name, done, |q|) && Planned(w, name, q) && q !in done
    requires IsImage(w, name, done, lost, t)
    requires forall s | s in w.tree && s !in lost :: Current(w, name, done, s) != OpFor(w, name, q).new_
    ensures var renamed := Rename(t, q, OpFor(w, name, q).new_);
      renamed.Some? && IsImage(w, name, done + {q}, lost, renamed.value)
  {
    hide NewName, Planned, WellFormed, DoneTo, Current, Move, Rename, IsImage, OpFor;
    PlannedFacts(w, name, q);
    var new_ := OpFor(w, name, q).new_;
    NotOnto(w, name, q, q);
    SourceHere(w, name, done, lost, t, q);
    NothingAtNew(w, name, done, lost, t, q);
    RenameGoes(t, q, new_);
    MoveImage(w, name, done, lost, t, q);
  }

  lemma NothingAtNew(w: World, name: NameMap, done: set<Rel>, lost: set<Rel>, t: Tree, q: Rel)
    requires WellFormed(w.tree) && DoneTo(w, name, done, |q|) && Planned(w, name, q) && q !in done
    requires IsImage(w, name, done, lost, t)
    requires forall s | s in w.tree && s !in lost :: Current(w, name, done, s) != OpFor(w, name, q).new_
    ensures forall k | k in t :: !(OpFor(w, name, q).new_ <= k)
  {
    hide NewName, Planned, WellFormed, DoneTo, Current, OpFor, Gone;
    PlannedFacts(w, name, q);
    forall k | k in t ensures !(OpFor(w, name, q).new_ <= k) {
      var p :| p in w.tree && p !in lost && Current(w, name, done, p) == k;
      TurnOf(w, name, done, q, p);
      if |q| <= |p| {
        NotLostAbove(w, name, done, lost, t, p, |q|);
      }
    }
  }

  /** What lies above an entry that is still there is still there. */
  lemma NotLostAbove(w: World, name: NameMap, done: set<Rel>, lost: set<Rel>, t: Tree, p: Rel, n: nat)
    requires IsImage(w, name, done, lost, t) && p in w.tree && p !in lost && n <= |p|
    ensures p[..n] !in lost
  {
    hide Current, NewName;
    assert p[..n] <= p;
  }

  lemma MoveImage(w: World, name: NameMap, done: set<Rel>, lost: set<Rel>, t: Tree, q: Rel)
    requires WellFormed(w.tree) && DoneTo(w, name, done, |q|) && Planned(w, name, q) && q !in done && q != []
    requires IsImage(w, name, done, lost, t) && forall k | k in t :: !(OpFor(w, name, q).new_ <= k)
    ensures IsImage(w, name, done + {q}, lost, Move(t, q, OpFor(w, name, q).new_))
  {
    hide NewName, Planned, WellFormed, DoneTo, Current, OpFor, Gone, Moved, Move;
    var new_ := OpFor(w, name, q).new_;
    var moved := Move(t, q, new_);
    forall p | p in w.tree
      ensures Current(w, name, done + {q}, p) == Moved(Current(w, name, done, p), q, new_)
    {
      MovedCurrent(w, name, done, q, p);
    }
    forall p | p in w.tree && p !in lost
      ensures Current(w, name, done + {q}, p) in moved && moved[Current(w, name, done + {q}, p)] == w.tree[p]
    {
      MovedOnce(t, q, new_, Current(w, name, done, p));
    }
    forall k | k in moved ensures exists p | p in w.tree && p !in lost :: Current(w, name, done + {q}, p) == k {
      var from := MovedFrom(t, q, new_, k);
      var p :| p in w.tree && p !in lost && Current(w, name, done, p) == from;
      assert Current(w, name, done + {q}, p) == k;
    }
    forall p, r | p in w.tree && r in w.tree && p !in lost && r !in lost && p != r
      ensures Current(w, name, done + {q}, p) != Current(w, name, done + {q}, r)
    {
      MovedApart(t, q, new_, Current(w, name, done, p), Current(w, name, done, r));
    }
    forall l | l in lost ensures Gone(w, done + {q}, lost, l) {
      GoneMore(w, done, lost, done + {q}, l);
    }
  }

  lemma MovedCurrent(w: World, name: NameMap, done: set<Rel>, q: Rel, p: Rel)
    requires WellFormed(w.tree) && DoneTo(w, name, done, |q|) && Planned(w, name, q) && q !in done && q != []
    requires p in w.tree
    ensures Current(w, name, done + {q}, p) == Moved(Current(w, name, done, p), q, OpFor(w, name, q).new_)
  {
    hide NewName, Planned, WellFormed, DoneTo, Current, OpFor;
    TurnOf(w, name, done, q, p);
    CurrentMore(w, name, done, q, p);
  }

  lemma GoneMore(w: World, done: set<Rel>, lost: set<Rel>, more: set<Rel>, l: Rel)
    requires Gone(w, done, lost, l) && done <= more
    ensures Gone(w, more, lost, l)
  {
  }

  lemma MovedOnce(t: Tree, old_: Rel, new_: Rel, p: Rel)
    requires p in t && forall k | k in t :: !(new_ <= k)
    ensures Moved(p, old_, new_) in Move(t, old_, new_) && Move(t, old_, new_)[Moved(p, old_, new_)] == t[p]
  {
    MovedApart(t, old_, new_, p, Origin(t, old_, new_, Moved(p, old_, new_)));
  }

  lemma MovedFrom(t: Tree, old_: Rel, new_: Rel, k: Rel) returns (from: Rel)
    requires (forall k | k in t :: !(new_ <= k)) && k in Move(t, old_, new_)
    ensures from in t && Moved(from, old_, new_) == k
  {
    hide Moved;
    from :| from in t && Moved(from, old_, new_) == k;
  }

  lemma MovedApart(t: Tree, old_: Rel, new_: Rel, p: Rel, q: Rel)
    requires p in t && q in t && forall k | k in t :: !(new_ <= k)
    ensures Moved(p, old_, new_) == Moved(q, old_, new_) <==> p == q
  {
    if old_ <= p && old_ <= q {
      assert (new_ + p[|old_|..])[|new_|..] == p[|old_|..];
      assert (new_ + q[|old_|..])[|new_|..] == q[|old_|..];
      assert p == old_ + p[|old_|..] && q == old_ + q[|old_|..];
    }
  }

  /** One planned rename to a path that another entry has reached: it replaces that entry, or fails. */
  lemma RenameOnto(w: World, name: NameMap, done: set<Rel>, lost: set<Rel>, t: Tree, q: Rel, s: Rel)
    requires WellFormed(w.tree) && DoneTo(w, name, done, |q|) && Planned(w, name, q) && q !in done && q in w.tree
    requires IsImage(w, name, done, lost, t)
    requires s in w.tree && s !in lost && Current(w, name, done, s) == OpFor(w, name, q).new_
    ensures var renamed := Rename(t, q, OpFor(w, name, q).new_);
      (renamed.Some? <==> CanReplace(w.tree, s, q))
      && (renamed.Some? ==> IsImage(w, name, done + {q}, lost + {s}, renamed.value))
  {
    hide NewName, Planned, WellFormed, DoneTo, Current, Move, IsImage, OpFor, CanReplace;
    PlannedFacts(w, name, q);
    var new_ := OpFor(w, name, q).new_;
    NotOnto(w, name, q, q);
    SourceHere(w, name, done, lost, t, q);
    BelowOccupant(w, name, done, lost, t, q, s);
    if CanReplace(w.tree, s, q) {
      LoseImage(w, name, done, lost, t, q, s);
      MoveImage(w, name, done, lost + {s}, t - {new_}, q);
    }
  }

  /** What is at the occupied path and below it is the occupant and what was below it. */
  lemma BelowOccupant(w: World, name: NameMap, done: set<Rel>, lost: set<Rel>, t: Tree, q: Rel, s: Rel)
    requires WellFormed(w.tree) && DoneTo(w, name, done, |q|) && Planned(w, name, q) && q !in done && q in w.tree
    requires IsImage(w, name, done, lost, t)
    requires s in w.tree && s !in lost && Current(w, name, done, s) == OpFor(w, name, q).new_
    ensures OpFor(w, name, q).new_ in t && t[OpFor(w, name, q).new_] == w.tree[s]
    ensures CanReplace(w.tree, s, q) <==>
      (w.tree[s].Directory? == w.tree[q].Directory?
      && !exists k | k in t :: OpFor(w, name, q).new_ <= k && k != OpFor(w, name, q).new_)
  {
    hide NewName, Planned, WellFormed, DoneTo, Current, OpFor, IsImage;
    PlannedFacts(w, name, q);
    var new_ := OpFor(w, name, q).new_;
    OccupantHere(w, name, done, lost, t, s);
    if r :| r in w.tree && s <= r && r != s {
      StillOccupied(w, name, done, lost, t, s, r);
    }
    forall k | k in t && new_ <= k && k != new_ ensures exists r | r in w.tree :: s <= r && r != s {
      var r := BelowNew(w, name, done, lost, t, q, s, k);
    }
  }

  lemma OccupantHere(w: World, name: NameMap, done: set<Rel>, lost: set<Rel>, t: Tree, s: Rel)
    requires IsImage(w, name, done, lost, t) && s in w.tree && s !in lost
    ensures Current(w, name, done, s) in t && t[Current(w, name, done, s)] == w.tree[s]
  {
    hide Current, Gone;
  }

  lemma StillOccupied(w: World, name: NameMap, done: set<Rel>, lost: set<Rel>, t: Tree, s: Rel, r: Rel)
    requires IsImage(w, name, done, lost, t) && r in w.tree && s <= r && r != s
    ensures exists k | k in t :: Current(w, name, done, s) <= k && k != Current(w, name, done, s)
  {
    hide Current, IsImage;
    var there := SurvivorBelow(w, name, done, lost, t, s, r);
    OccupantHere(w, name, done, lost, t, there);
    CurrentPrefix(w, name, done, there, |s|);
    assert there[..|s|] == s;
    assert Current(w, name, done, s) <= Current(w, name, done, there);
  }

  /** What is below an occupied path was below the occupant. */
  lemma BelowNew(w: World, name: NameMap, done: set<Rel>, lost: set<Rel>, t: Tree, q: Rel, s: Rel, k: Rel)
    returns (r: Rel)
    requires WellFormed(w.tree) && DoneTo(w, name, done, |q|) && Planned(w, name, q) && q !in done && q != []
    requires IsImage(w, name, done, lost, t)
    requires s in w.tree && s !in lost && Current(w, name, done, s) == OpFor(w, name, q).new_
    requires k in t && OpFor(w, name, q).new_ <= k && k != OpFor(w, name, q).new_
    ensures r in w.tree && s <= r && r != s
  {
    hide NewName, Planned, WellFormed, DoneTo, Current, OpFor, Gone;
    r :| r in w.tree && r !in lost && Current(w, name, done, r) == k;
    TurnOf(w, name, done, q, r);
    NotLostAbove(w, name, done, lost, t, r, |q|);
    assert r[..|q|] == s;
  }

  /** Below a path there is an entry that is still there as soon as there ever was one. */
  lemma SurvivorBelow(w: World, name: NameMap, done: set<Rel>, lost: set<Rel>, t: Tree, s: Rel, r: Rel)
    returns (there: Rel)
    requires IsImage(w, name, done, lost, t) && r in w.tree && s <= r && r != s
    ensures there in w.tree && there !in lost && s <= there && there != s
  {
    hide Current, NewName;
    if r !in lost {
      there := r;
    } else {
      assert Gone(w, done, lost, r);
      there :| there in w.tree && there != [] && Parent(there) == Parent(r) && there !in lost;
      assert s <= Parent(r) && Parent(there) <= there;
    }
  }

  /** With the occupant's path cleared, the tree is an image that has lost the occupant. */
  lemma LoseImage(w: World, name: NameMap, done: set<Rel>, lost: set<Rel>, t: Tree, q: Rel, s: Rel)
    requires WellFormed(w.tree) && DoneTo(w, name, done, |q|) && Planned(w, name, q) && q !in done && q in w.tree
    requires IsImage(w, name, done, lost, t)
    requires s in w.tree && s !in lost && Current(w, name, done, s) == OpFor(w, name, q).new_
    requires CanReplace(w.tree, s, q)
    requires !exists k | k in t :: OpFor(w, name, q).new_ <= k && k != OpFor(w, name, q).new_
    ensures IsImage(w, name, done, lost + {s}, t - {OpFor(w, name, q).new_})
    ensures forall k | k in t - {OpFor(w, name, q).new_} :: !(OpFor(w, name, q).new_ <= k)
  {
    hide NewName, Planned, WellFormed, DoneTo, Current, OpFor, Gone, CanReplace;
    SourceHere(w, name, done, lost, t, q);
    forall l | l in lost + {s} ensures Gone(w, done, lost + {s}, l) {
      if l == s {
        OccupantGone(w, name, done, lost, q, s);
      } else {
        OccupantSibling(w, name, done, q, s);
        GoneStill(w, done, lost, l, q, s);
      }
    }
  }

  lemma OccupantSibling(w: World, name: NameMap, done: set<Rel>, q: Rel, s: Rel)
    requires DoneTo(w, name, done, |q|) && Planned(w, name, q) && q !in done && s in w.tree
    requires Current(w, name, done, s) == OpFor(w, name, q).new_
    ensures q in w.tree && q != [] && s != [] && Parent(s) == Parent(q) && s != q && (s in done || s in w.dangling)
  {
    hide NewName, Planned, DoneTo, Current, OpFor;
    PlannedFacts(w, name, q);
    SiblingTurn(w, name, done, q, s);
  }

  lemma OccupantGone(w: World, name: NameMap, done: set<Rel>, lost: set<Rel>, q: Rel, s: Rel)
    requires DoneTo(w, name, done, |q|) && Planned(w, name, q) && q !in done && q !in lost && q in w.tree && s in w.tree
    requires Current(w, name, done, s) == OpFor(w, name, q).new_ && CanReplace(w.tree, s, q)
    ensures Gone(w, done, lost + {s}, s)
  {
    hide NewName, Planned, DoneTo, Current, OpFor;
    OccupantSibling(w, name, done, q, s);
    assert q !in lost + {s};
  }

  lemma GoneStill(w: World, done: set<Rel>, lost: set<Rel>, l: Rel, q: Rel, s: Rel)
    requires Gone(w, done, lost, l) && q in w.tree && q != [] && s != [] && Parent(s) == Parent(q) && s != q
    requires q !in lost
    ensures Gone(w, done, lost + {s}, l)
  {
    var r :| r in w.tree && r != [] && Parent(r) == Parent(l) && r !in lost;
    assert if r == s then q !in lost + {s} else r !in lost + {s};
  }

  // ----- Which entry is renamed first, and what is renamed onto it -----

  /** Of the entries that get one new path, the one whose turn comes first; nothing had the path before. */
  ghost predicate Leads(w: World, name: NameMap, s: Rel) {
    && Planned(w, name, s) && OpFor(w, name, s).new_ !in w.tree
    && forall r | r != s && Planned(w, name, r) && OpFor(w, name, r).new_ == OpFor(w, name, s).new_ :: Ahead(s, r)
  }

  /**
   What is at an entry's new path when its turn comes: a link that points nowhere, or the first to get the same one.
   */
  ghost predicate Holds(w: World, name: NameMap, s: Rel, q: Rel)
    requires q != []
  {
    s in w.tree && s != q &&
    (s == OpFor(w, name, q).new_ || (Leads(w, name, s) && OpFor(w, name, s).new_ == OpFor(w, name, q).new_))
  }

  /** An entry that is renamed onto what is at its new path. */
  ghost predicate Overwrites(w: World, name: NameMap, q: Rel) {
    Planned(w, name, q) && exists s | s in w.tree :: Holds(w, name, s, q) && CanReplace(w.tree, s, q)
  }

  lemma LeadsFacts(w: World, name: NameMap, s: Rel)
    requires Leads(w, name, s)
    ensures Planned(w, name, s) && OpFor(w, name, s).new_ !in w.tree
  {
    hide Planned, NewName;
  }

  lemma LeadsAhead(w: World, name: NameMap, s: Rel, r: Rel)
    requires Leads(w, name, s) && Planned(w, name, r) && r != s
    requires OpFor(w, name, r).new_ == OpFor(w, name, s).new_
    ensures Ahead(s, r) && !Ahead(r, s)
  {
    hide Planned, NewName, Ahead;
    AheadOrder(s, r, r);
  }

  /** Nothing else can be at the new path. */
  lemma HoldsOnce(w: World, name: NameMap, s: Rel, r: Rel, q: Rel)
    requires Planned(w, name, q) && Holds(w, name, s, q) && Holds(w, name, r, q)
    ensures s == r && !Leads(w, name, q)
  {
    hide Planned, NewName, Ahead, Leads;
    if Leads(w, name, q) {
      LeadsFacts(w, name, q);
      LeadsFacts(w, name, s);
      LeadsAhead(w, name, q, s);
      LeadsAhead(w, name, s, q);
    }
    if s != r {
      if Leads(w, name, s) {
        LeadsFacts(w, name, s);
      }
      if Leads(w, name, r) {
        LeadsFacts(w, name, r);
      }
      if Leads(w, name, s) && Leads(w, name, r) {
        LeadsAhead(w, name, s, r);
        LeadsAhead(w, name, r, s);
      }
    }
  }

  // ----- The whole plan -----

  function Sources(ops: seq<Op>): set<Rel> { set k | 0 <= k < |ops| :: ops[k].old_ }

  /** The entries whose rename succeeded. */
  function Carried(ops: seq<Op>, errors: seq<Op>): set<Rel> { Sources(ops) - Sources(errors) }

  lemma SourcesMore(ops: seq<Op>, op: Op)
    ensures Sources(ops + [op]) == Sources(ops) + {op.old_}
  {
    assert (ops + [op])[|ops|] == op;
    forall d | d in Sources(ops) ensures d in Sources(ops + [op]) {
      var k :| 0 <= k < |ops| && ops[k].old_ == d;
      assert (ops + [op])[k].old_ == d;
    }
  }

  lemma NoSources(ops: seq<Op>)
    ensures Sources(ops) == {} <==> ops == []
  {
    if ops != [] {
      assert ops[0].old_ in Sources(ops);
    }
  }

  lemma ExecuteLast(t: Tree, ops: seq<Op>, n: nat)
    requires 0 < n <= |ops|
    ensures var (before, errors) := Execute(t, ops[..n - 1]);
      var renamed := Rename(before, ops[n - 1].old_, ops[n - 1].new_);
      Execute(t, ops[..n]) == if renamed.Some? then (renamed.value, errors) else (before, errors + [ops[n - 1]])
  {
    hide Rename;
    assert ops[..n][..n - 1] == ops[..n - 1] && ops[..n][n - 1] == ops[n - 1];
  }

  lemma PlanOp(w: World, name: NameMap, ops: seq<Op>, n: nat)
    requires IsPlan(w, name, ops) && n < |ops|
    ensures Planned(w, name, ops[n].old_) && ops[n].old_ != [] && ops[n] == OpFor(w, name, ops[n].old_)
    ensures ops[n].old_ in w.tree
    ensures ops[n].old_ !in Sources(ops[..n]) && Sources(ops[..n + 1]) == Sources(ops[..n]) + {ops[n].old_}
  {
    hide NewName, Sources, Ahead, Planned;
    PlannedFacts(w, name, ops[n].old_);
    assert ops[..n + 1] == ops[..n] + [ops[n]];
    SourcesMore(ops[..n], ops[n]);
    SourceIndex(ops[..n], ops[n].old_);
  }

  lemma SourceIndex(ops: seq<Op>, d: Rel)
    ensures d in Sources(ops) ==> exists k | 0 <= k < |ops| :: ops[k].old_ == d
  {
  }

  lemma PlanDepth(w: World, name: NameMap, ops: seq<Op>, n: nat)
    requires IsPlan(w, name, ops) && n < |ops|
    ensures DoneTo(w, name, Sources(ops[..n]), |ops[n].old_|)
  {
    hide Planned, Text, Less, NewName;
    forall d | d in Sources(ops[..n]) ensures Planned(w, name, d) && |d| >= |ops[n].old_| {
      var k :| 0 <= k < n && ops[..n][k].old_ == d;
      assert ops[k].old_ == d;
    }
  }

  /** Among the entries with one new path, the plan has first the one that leads. */
  lemma PlanLeads(w: World, name: NameMap, ops: seq<Op>, n: nat)
    requires IsPlan(w, name, ops) && n < |ops|
    ensures Leads(w, name, ops[n].old_) <==>
      ops[n].new_ !in w.tree && forall i | 0 <= i < n :: ops[i].new_ != ops[n].new_
  {
    hide Planned, NewName, Ahead, Leads;
    var q := ops[n].old_;
    PlanOp(w, name, ops, n);
    if Leads(w, name, q) {
      LeadsFacts(w, name, q);
      forall i | 0 <= i < n ensures ops[i].new_ != ops[n].new_ {
        NoLeaderAfter(w, name, ops, i, n);
      }
    }
    if ops[n].new_ !in w.tree && forall i | 0 <= i < n :: ops[i].new_ != ops[n].new_ {
      FirstLeads(w, name, ops, n);
    }
  }

  lemma NoLeaderAfter(w: World, name: NameMap, ops: seq<Op>, i: nat, n: nat)
    requires IsPlan(w, name, ops) && i < n < |ops| && Leads(w, name, ops[n].old_)
    ensures ops[i].new_ != ops[n].new_
  {
    hide Planned, NewName, Ahead, Leads;
    if ops[i].new_ == ops[n].new_ {
      LeadsAhead(w, name, ops[n].old_, ops[i].old_);
    }
  }

  lemma FirstLeads(w: World, name: NameMap, ops: seq<Op>, n: nat)
    requires IsPlan(w, name, ops) && n < |ops|
    requires ops[n].new_ !in w.tree && forall i | 0 <= i < n :: ops[i].new_ != ops[n].new_
    ensures Leads(w, name, ops[n].old_)
  {
    hide Visited, Exists, NewName, Ahead, OpFor;
    var q := ops[n].old_;
    forall r | r != q && Planned(w, name, r) && OpFor(w, name, r).new_ == OpFor(w, name, q).new_ ensures Ahead(q, r) {
      var k :| 0 <= k < |ops| && ops[k].old_ == r;
      assert ops[k] == OpFor(w, name, r) && ops[n] == OpFor(w, name, q);
      assert !Ahead(r, q);
      SiblingsOrdered(w, name, q, r);
    }
  }

  lemma SiblingsOrdered(w: World, name: NameMap, q: Rel, r: Rel)
    requires Planned(w, name, q) && Planned(w, name, r) && q != r && q != [] && r != []
    requires OpFor(w, name, r).new_ == OpFor(w, name, q).new_
    ensures Ahead(q, r) || Ahead(r, q)
  {
    hide Planned, NewName, Ahead, OpFor;
    PlannedFacts(w, name, q);
    PlannedFacts(w, name, r);
    SiblingsAhead(q, r);
  }

  lemma SiblingsAhead(q: Rel, r: Rel)
    requires q != [] && r != [] && Parent(q) == Parent(r) && q != r
    ensures Ahead(q, r) || Ahead(r, q)
  {
    hide Less;
    Unsnoc(q);
    Unsnoc(r);
    var above := Text(Parent(q)) + "/";
    assert Text(q) == above + Last(q) && Text(r) == above + Last(r);
    assert Text(q)[|above|..] == Last(q) && Text(r)[|above|..] == Last(r);
    LessTotal(Text(q), Text(r));
  }

  lemma {:induction false} LessTotal(a: string, b: string)
    requires a != b
    ensures Less(a, b) || Less(b, a)
    decreases |a|
  {
    if a != "" && b != "" && a[0] == b[0] {
      assert a == [a[0]] + a[1..] && b == [b[0]] + b[1..];
      LessTotal(a[1..], b[1..]);
    }
  }

  /** The one that gets the new path before an entry does. */
  lemma HolderOf(w: World, name: NameMap, ops: seq<Op>, n: nat) returns (s: Rel)
    requires IsPlan(w, name, ops) && n < |ops| && !Leads(w, name, ops[n].old_)
    ensures s in w.tree && s != ops[n].old_ && ops[n].old_ != [] && Holds(w, name, s, ops[n].old_)
    ensures s == ops[n].new_ || (s in Sources(ops[..n]) && Leads(w, name, s) && s != [] && |s| == |ops[n].old_|)
  {
    hide Planned, NewName, Ahead, Leads, IsPlan, Sources;
    PlanOp(w, name, ops, n);
    PlannedFacts(w, name, ops[n].old_);
    if ops[n].new_ in w.tree {
      s := ops[n].new_;
    } else {
      PlanLeads(w, name, ops, n);
      var i := FirstWith(ops, n);
      PlanLeads(w, name, ops, i);
      PlanOp(w, name, ops, i);
      PlanOp(w, name, ops, n);
      PlannedFacts(w, name, ops[i].old_);
      s := ops[i].old_;
      SourceAt(ops[..n], i);
      assert ops[..n][i] == ops[i];
    }
  }

  lemma SourceAt(ops: seq<Op>, i: nat)
    requires i < |ops|
    ensures ops[i].old_ in Sources(ops)
  {
  }

  lemma FirstWith(ops: seq<Op>, n: nat) returns (i: nat)
    requires n < |ops| && exists i | 0 <= i < n :: ops[i].new_ == ops[n].new_
    ensures i < n && ops[i].new_ == ops[n].new_ && forall h | 0 <= h < i :: ops[h].new_ != ops[n].new_
  {
    i := 0;
    while ops[i].new_ != ops[n].new_
      invariant i < n && forall h | 0 <= h < i :: ops[h].new_ != ops[n].new_
      decreases n - i
    {
      i := i + 1;
    }
  }

  /** The state after the first renames of a plan. */
  ghost predicate After(w: World, name: NameMap, ops: seq<Op>, n: nat, lost: set<Rel>)
    requires n <= |ops|
  {
    var (t, errors) := Execute(w.tree, ops[..n]);
    && IsImage(w, name, Carried(ops[..n], errors), lost, t) && Sources(errors) <= Sources(ops[..n])
    && (lost == {} <==> forall q | q in Sources(ops[..n]) :: !Overwrites(w, name, q))
    && (lost == {} ==>
          forall q | q in Sources(ops[..n]) :: q in Carried(ops[..n], errors) <==> Leads(w, name, q))
  }

  /** Every prefix of a plan leaves the original under the names given so far, without what was renamed onto. */
  lemma {:induction false} PlanRuns(w: World, name: NameMap, ops: seq<Op>, n: nat) returns (lost: set<Rel>)
    requires WellFormed(w.tree) && IsPlan(w, name, ops) && n <= |ops|
    ensures After(w, name, ops, n, lost)
    decreases n
  {
    hide Planned, NewName, WellFormed, IsPlan, After, Leads;
    if n == 0 {
      lost := {};
      NothingDone(w, name, ops);
    } else {
      var before := PlanRuns(w, name, ops, n - 1);
      if Leads(w, name, ops[n - 1].old_) && before == {} {
        lost := {};
        FirstTurn(w, name, ops, n - 1);
      } else if before == {} {
        lost := HeldTurn(w, name, ops, n - 1);
      } else {
        lost := LaterTurn(w, name, ops, n - 1, before);
      }
    }
  }

  lemma NothingDone(w: World, name: NameMap, ops: seq<Op>)
    ensures After(w, name, ops, 0, {})
  {
    hide NewName, Overwrites, Leads, Gone, Rename;
    assert ops[..0] == [] && Sources([]) == {} && Carried([], []) == {};
    forall p: Rel ensures Current(w, name, {}, p) == p {
      ShallowStays(w, name, {}, |p| + 1, p);
    }
    assert Execute(w.tree, []) == (w.tree, []);
    assert IsImage(w, name, {}, {}, w.tree);
  }

  /** Where the plan stands when an entry's turn comes. */
  lemma TurnState(w: World, name: NameMap, ops: seq<Op>, n: nat, lost: set<Rel>)
    requires IsPlan(w, name, ops) && n < |ops| && After(w, name, ops, n, lost)
    ensures var (t, errors) := Execute(w.tree, ops[..n]);
      var (done, q) := (Carried(ops[..n], errors), ops[n].old_);
      && q in w.tree && q != [] && Planned(w, name, q) && ops[n] == OpFor(w, name, q)
      && q !in done && done <= Sources(ops[..n]) && DoneTo(w, name, done, |q|) && IsImage(w, name, done, lost, t)
  {
    hide Planned, NewName, IsPlan, IsImage, Execute, Overwrites, Leads;
    PlanOp(w, name, ops, n);
    PlanDepth(w, name, ops, n);
  }

  /** A rename that succeeds adds its entry to those renamed, one that fails leaves them as they were. */
  lemma Recorded(w: World, name: NameMap, ops: seq<Op>, n: nat)
    requires IsPlan(w, name, ops) && n < |ops|
    requires Sources(Execute(w.tree, ops[..n]).1) <= Sources(ops[..n])
    ensures var (t, errors) := Execute(w.tree, ops[..n]);
      var renamed := Rename(t, ops[n].old_, ops[n].new_);
      var (t', errors') := Execute(w.tree, ops[..n + 1]);
      && Sources(errors') <= Sources(ops[..n + 1]) && Sources(ops[..n + 1]) == Sources(ops[..n]) + {ops[n].old_}
      && (renamed.Some? ==>
        t' == renamed.value && Carried(ops[..n + 1], errors') == Carried(ops[..n], errors) + {ops[n].old_})
      && (renamed.None? ==> t' == t && Carried(ops[..n + 1], errors') == Carried(ops[..n], errors))
  {
    hide Planned, NewName, IsPlan, Execute, Rename, Sources;
    PlanOp(w, name, ops, n);
    ExecuteLast(w.tree, ops, n + 1);
    SourcesMore(Execute(w.tree, ops[..n]).1, ops[n]);
  }

  /** The turn of an entry that leads, nothing lost so far: it gets its new path. */
  lemma FirstTurn(w: World, name: NameMap, ops: seq<Op>, n: nat)
    requires WellFormed(w.tree) && IsPlan(w, name, ops) && n < |ops| && After(w, name, ops, n, {})
    requires Leads(w, name, ops[n].old_)
    ensures After(w, name, ops, n + 1, {})
  {
    hide Planned, NewName, WellFormed, IsPlan, IsImage, Execute, Overwrites, Leads, Rename, Sources, DoneTo, Carried;
    hide OpFor, Current;
    var (t, errors) := Execute(w.tree, ops[..n]);
    var (done, q) := (Carried(ops[..n], errors), ops[n].old_);
    TurnState(w, name, ops, n, {});
    Recorded(w, name, ops, n);
    forall s | s in w.tree ensures Current(w, name, done, s) != OpFor(w, name, q).new_ {
      NoOneThere(w, name, ops, n, done, s);
    }
    RenameFree(w, name, done, {}, t, q);
    LeaderKeeps(w, name, q);
    forall r | r in Sources(ops[..n + 1])
      ensures r in Carried(ops[..n + 1], Execute(w.tree, ops[..n + 1]).1) <==> Leads(w, name, r)
    {
      assert r in Sources(ops[..n]) || r == q;
    }
  }

  lemma LeaderKeeps(w: World, name: NameMap, q: Rel)
    requires Leads(w, name, q)
    ensures !Overwrites(w, name, q)
  {
    hide NewName, Planned, Leads, Holds, CanReplace, OpFor;
    LeadsFacts(w, name, q);
    PlannedFacts(w, name, q);
    if Overwrites(w, name, q) {
      var s :| s in w.tree && Holds(w, name, s, q) && CanReplace(w.tree, s, q);
      HoldsOnce(w, name, s, s, q);
    }
  }

  lemma NoOneThere(w: World, name: NameMap, ops: seq<Op>, n: nat, done: set<Rel>, s: Rel)
    requires IsPlan(w, name, ops) && n < |ops| && Leads(w, name, ops[n].old_) && done <= Sources(ops[..n])
    requires ops[n].old_ != [] && DoneTo(w, name, done, |ops[n].old_|) && ops[n].old_ !in done && s in w.tree
    ensures Current(w, name, done, s) != OpFor(w, name, ops[n].old_).new_
  {
    hide NewName, Planned, Leads, DoneTo, OpFor, Current, Ahead, IsPlan, Sources;
    var q := ops[n].old_;
    LeadsFacts(w, name, q);
    PlannedFacts(w, name, q);
    PlanOp(w, name, ops, n);
    if Current(w, name, done, s) == OpFor(w, name, q).new_ {
      SiblingTurn(w, name, done, q, s);
      if s in done {
        SourceIndex(ops[..n], s);
        var i :| 0 <= i < n && ops[..n][i].old_ == s;
        PlanOp(w, name, ops, i);
        PlanLeads(w, name, ops, n);
        assert false;
      }
    }
  }

  /** The turn of an entry whose new path is held, nothing lost so far: it replaces the holder or fails. */
  lemma HeldTurn(w: World, name: NameMap, ops: seq<Op>, n: nat) returns (lost: set<Rel>)
    requires WellFormed(w.tree) && IsPlan(w, name, ops) && n < |ops| && After(w, name, ops, n, {})
    requires !Leads(w, name, ops[n].old_)
    ensures After(w, name, ops, n + 1, lost)
  {
    hide Planned, NewName, WellFormed, IsPlan, IsImage, Execute, Overwrites, Leads, Rename, Sources, DoneTo, Carried;
    hide OpFor, Current, CanReplace, Holds;
    var (t, errors) := Execute(w.tree, ops[..n]);
    var (done, q) := (Carried(ops[..n], errors), ops[n].old_);
    TurnState(w, name, ops, n, {});
    Recorded(w, name, ops, n);
    var s := HolderOf(w, name, ops, n);
    HolderThere(w, name, done, q, s);
    RenameOnto(w, name, done, {}, t, q, s);
    HolderReplaced(w, name, s, q);
    lost := if CanReplace(w.tree, s, q) then {s} else {};
    assert {} + {s} == {s};
    forall r | r in Sources(ops[..n + 1])
      ensures lost == {} ==> (r in Carried(ops[..n + 1], Execute(w.tree, ops[..n + 1]).1) <==> Leads(w, name, r))
    {
      assert r in Sources(ops[..n]) || r == q;
    }
    assert lost != {} ==> q in Sources(ops[..n + 1]) && Overwrites(w, name, q);
  }

  lemma HolderThere(w: World, name: NameMap, done: set<Rel>, q: Rel, s: Rel)
    requires Planned(w, name, q) && q != [] && DoneTo(w, name, done, |q|) && s in w.tree && Holds(w, name, s, q)
    requires s == OpFor(w, name, q).new_ || (s in done && s != [] && |s| == |q|)
    ensures Current(w, name, done, s) == OpFor(w, name, q).new_
  {
    hide Planned, NewName, DoneTo, OpFor, Current, Leads;
    PlannedFacts(w, name, q);
    AtTurn(w, name, done, s);
    if s in done {
      DoneFacts(w, name, done, |q|, s);
      PlannedFacts(w, name, s);
    }
  }

  lemma HolderReplaced(w: World, name: NameMap, s: Rel, q: Rel)
    requires Planned(w, name, q) && q in w.tree && q != [] && s in w.tree && Holds(w, name, s, q)
    ensures Overwrites(w, name, q) <==> CanReplace(w.tree, s, q)
  {
    hide Planned, NewName, OpFor, Leads, Holds, CanReplace;
    if r :| r in w.tree && Holds(w, name, r, q) && CanReplace(w.tree, r, q) {
      HoldsOnce(w, name, s, r, q);
    }
  }

  /** The turn of an entry when something is lost already. */
  lemma LaterTurn(w: World, name: NameMap, ops: seq<Op>, n: nat, before: set<Rel>) returns (lost: set<Rel>)
    requires WellFormed(w.tree) && IsPlan(w, name, ops) && n < |ops| && After(w, name, ops, n, before) && before != {}
    ensures After(w, name, ops, n + 1, lost)
  {
    hide Planned, NewName, WellFormed, IsPlan, IsImage, Execute, Overwrites, Leads, Rename, Sources, DoneTo, Carried;
    hide OpFor, Current, CanReplace;
    var (t, errors) := Execute(w.tree, ops[..n]);
    var (done, q) := (Carried(ops[..n], errors), ops[n].old_);
    TurnState(w, name, ops, n, before);
    Recorded(w, name, ops, n);
    lost := before;
    if s :| s in w.tree && s !in before && Current(w, name, done, s) == OpFor(w, name, q).new_ {
      RenameOnto(w, name, done, before, t, q, s);
      if CanReplace(w.tree, s, q) {
        lost := before + {s};
      }
    } else {
      RenameFree(w, name, done, before, t, q);
    }
    assert Sources(ops[..n]) <= Sources(ops[..n + 1]);
    assert exists r :: r in Sources(ops[..n]) && Overwrites(w, name, r);
  }

  // ----- What is still there -----

  /** As many current paths as entries, when no two have the same. */
  lemma {:induction false} CurrentSize(w: World, name: NameMap, done: set<Rel>, kept: set<Rel>, paths: set<Rel>)
    requires forall p | p in kept :: Current(w, name, done, p) in paths
    requires forall k | k in paths :: exists p | p in kept :: Current(w, name, done, p) == k
    requires forall p, q | p in kept && q in kept && p != q :: Current(w, name, done, p) != Current(w, name, done, q)
    ensures |kept| == |paths|
  {
    hide Current, NewName;
    if kept == {} {
      assert paths == {};
    } else {
      var p :| p in kept;
      var (fewer, left) := (kept - {p}, paths - {Current(w, name, done, p)});
      forall k | k in left ensures exists r | r in fewer :: Current(w, name, done, r) == k {
        var r :| r in kept && Current(w, name, done, r) == k;
        assert r in fewer;
      }
      CurrentSize(w, name, done, fewer, left);
    }
  }

  /** Every entry is in the tree or lost. */
  lemma ImageSize(w: World, name: NameMap, done: set<Rel>, lost: set<Rel>, t: Tree)
    requires IsImage(w, name, done, lost, t)
    ensures |t| + |lost| == |w.tree|
  {
    hide Current, NewName;
    assert lost <= w.tree.Keys;
    hide IsImage, Gone;
    StillThere(w, name, done, lost, t);
    assert |w.tree.Keys - lost| == |w.tree.Keys| - |lost|;
  }

  lemma StillThere(w: World, name: NameMap, done: set<Rel>, lost: set<Rel>, t: Tree)
    requires IsImage(w, name, done, lost, t)
    ensures |w.tree.Keys - lost| == |t.Keys|
  {
    hide Current, NewName, Gone;
    var kept := w.tree.Keys - lost;
    forall k | k in t.Keys ensures exists p | p in kept :: Current(w, name, done, p) == k {
      var p :| p in w.tree && p !in lost && Current(w, name, done, p) == k;
      assert p in kept;
    }
    hide IsImage;
    CurrentSize(w, name, done, kept, t.Keys);
  }

  /**
   Every original entry is still there exactly when no entry is renamed onto another. Then the tree is the original one
   under the names given.
   */
  lemma KeptIff(w: World, name: NameMap, ops: seq<Op>)
    requires WellFormed(w.tree) && IsPlan(w, name, ops)
    ensures |Execute(w.tree, ops).0| == |w.tree| <==> forall q | q in w.tree :: !Overwrites(w, name, q)
    ensures |Execute(w.tree, ops).0| <= |w.tree|
    ensures |Execute(w.tree, ops).0| == |w.tree| ==>
      IsImage(w, name, Carried(ops, Execute(w.tree, ops).1), {}, Execute(w.tree, ops).0)
  {
    hide NewName, WellFormed, IsImage, Execute, Planned, IsPlan, CanReplace, Holds;
    var lost := PlanRuns(w, name, ops, |ops|);
    assert ops[..|ops|] == ops;
    ImageSize(w, name, Carried(ops, Execute(w.tree, ops).1), lost, Execute(w.tree, ops).0);
    forall q | q in w.tree ensures Overwrites(w, name, q) ==> q in Sources(ops) {
      if Overwrites(w, name, q) {
        InPlan(w, name, ops, q);
      }
    }
    forall q | q in Sources(ops) ensures q in w.tree {
      SourceIndex(ops, q);
      var k :| 0 <= k < |ops| && ops[k].old_ == q;
      PlanOp(w, name, ops, k);
    }
  }

  lemma InPlan(w: World, name: NameMap, ops: seq<Op>, p: Rel)
    requires IsPlan(w, name, ops) && Planned(w, name, p)
    ensures p in Sources(ops)
  {
    hide Planned, Ahead;
  }

  /** Entries that are no directories are renamed onto each other without an error. */
  lemma {:induction false} FilesSilent(w: World, name: NameMap, ops: seq<Op>, n: nat)
    requires WellFormed(w.tree) && IsPlan(w, name, ops) && n <= |ops|
    requires forall q | q in w.tree && (q in w.dangling || Planned(w, name, q)) :: !w.tree[q].Directory?
    ensures Execute(w.tree, ops[..n]).1 == []
    decreases n
  {
    hide NewName, WellFormed, IsImage, Execute, Planned, IsPlan, CanReplace, Rename, DoneTo, Current, OpFor;
    if n == 0 {
      ExecuteNothing(w.tree, ops);
    } else {
      FilesSilent(w, name, ops, n - 1);
      var lost := PlanRuns(w, name, ops, n - 1);
      TurnState(w, name, ops, n - 1, lost);
      ExecuteLast(w.tree, ops, n);
      var (t, q) := (Execute(w.tree, ops[..n - 1]).0, ops[n - 1].old_);
      var done := Carried(ops[..n - 1], []);
      if s :| s in w.tree && s !in lost && Current(w, name, done, s) == OpFor(w, name, q).new_ {
        RenameOnto(w, name, done, lost, t, q, s);
        SiblingFile(w, name, done, q, s);
      } else {
        RenameFree(w, name, done, lost, t, q);
      }
    }
  }

  lemma ExecuteNothing(t: Tree, ops: seq<Op>)
    ensures Execute(t, ops[..0]) == (t, [])
  {
    assert ops[..0] == [];
  }

  lemma SiblingFile(w: World, name: NameMap, done: set<Rel>, q: Rel, s: Rel)
    requires WellFormed(w.tree) && DoneTo(w, name, done, |q|) && Planned(w, name, q) && q !in done && q in w.tree
    requires forall q | q in w.tree && (q in w.dangling || Planned(w, name, q)) :: !w.tree[q].Directory?
    requires q != [] && s in w.tree && Current(w, name, done, s) == OpFor(w, name, q).new_
    ensures CanReplace(w.tree, s, q)
  {
    hide NewName, WellFormed, Planned, DoneTo, Current, OpFor;
    OccupantSibling(w, name, done, q, s);
    if s in done {
      DoneFacts(w, name, done, |q|, s);
    }
    forall r | r in w.tree && s <= r ensures r == s {
      NothingBelow(w.tree, s, r);
    }
  }

  // ----- When no names clash -----

  /** Siblings get different names, and a new name is no other sibling's old one. */
  ghost predicate NoClash(w: World, name: NameMap) {
    forall q, r | q in w.tree && r in w.tree && q != [] && r != [] && Parent(q) == Parent(r) && q != r ::
      NewName(w, name, q) != NewName(w, name, r) && (NewName(w, name, q) != Last(q) ==> NewName(w, name, q) != Last(r))
  }

  /** Nothing whose new name differs is left out of the plan. */
  ghost predicate NoneSkipped(w: World, name: NameMap) {
    forall p | p in w.tree && p != [] && NewName(w, name, p) != Last(p) :: Planned(w, name, p)
  }

  /** The tree is the recursive map of the names over the original one. */
  ghost predicate IsRenamed(w: World, name: NameMap, t: Tree) {
    && (forall p | p in w.tree :: NewPath(w, name, p) in t && t[NewPath(w, name, p)] == w.tree[p])
    && (forall k | k in t :: exists p | p in w.tree :: NewPath(w, name, p) == k)
  }

  lemma NoClashOf(w: World, name: NameMap, q: Rel, s: Rel)
    requires NoClash(w, name) && q in w.tree && s in w.tree && q != [] && s != [] && Parent(q) == Parent(s) && q != s
    ensures NewName(w, name, q) != NewName(w, name, s)
    ensures NewName(w, name, q) != Last(q) ==> NewName(w, name, q) != Last(s)
  {
    hide NewName;
  }

  lemma RenamedIsTarget(w: World, name: NameMap, p: Rel)
    requires p in w.tree && p != [] && NewName(w, name, p) != Last(p)
    ensures Target(w, p) && p !in w.dangling
  {
  }

  /** Without a clash every new path is free. */
  lemma FreeWithoutClash(w: World, name: NameMap, p: Rel)
    requires NoClash(w, name) && p in w.tree && p != [] && NewName(w, name, p) != Last(p)
    ensures Planned(w, name, p) && Leads(w, name, p)
  {
    hide NewName, NoClash, Visited;
    RenamedIsTarget(w, name, p);
    var new_ := OpFor(w, name, p).new_;
    LastOf(Parent(p), NewName(w, name, p), Parent(p), Last(p));
    Unsnoc(p);
    if new_ in w.tree {
      NoClashOf(w, name, p, new_);
    }
    forall r | r != p && Planned(w, name, r) ensures OpFor(w, name, r).new_ != new_ {
      LastOf(Parent(p), NewName(w, name, p), Parent(r), NewName(w, name, r));
      if Parent(r) == Parent(p) {
        NoClashOf(w, name, p, r);
      }
    }
  }

  /** When everything planned leads and nothing is skipped, no names clash. */
  lemma LeadersDoNotClash(w: World, name: NameMap)
    requires NoneSkipped(w, name) && forall q | Planned(w, name, q) :: Leads(w, name, q)
    ensures NoClash(w, name)
  {
    hide NewName, Planned, Leads, Ahead;
    forall q, r | q in w.tree && r in w.tree && q != [] && r != [] && Parent(q) == Parent(r) && q != r
      ensures NewName(w, name, q) != NewName(w, name, r)
      ensures NewName(w, name, q) != Last(q) ==> NewName(w, name, q) != Last(r)
    {
      Unsnoc(q);
      Unsnoc(r);
      LeaderApart(w, name, q, r);
      LeaderApart(w, name, r, q);
      if Planned(w, name, q) && Planned(w, name, r) && NewName(w, name, q) == NewName(w, name, r) {
        LeadsAhead(w, name, q, r);
        LeadsAhead(w, name, r, q);
      }
    }
  }

  lemma LeaderApart(w: World, name: NameMap, q: Rel, r: Rel)
    requires q != [] && r in w.tree && r != [] && Parent(q) == Parent(r) && (Planned(w, name, q) ==> Leads(w, name, q))
    ensures Planned(w, name, q) ==> NewName(w, name, q) != Last(r)
  {
    hide NewName, Planned;
    Unsnoc(r);
  }

  /** With all of the plan done, everything is at its new path. */
  lemma {:induction false} PlanComplete(w: World, name: NameMap, ops: seq<Op>, p: Rel)
    requires WellFormed(w.tree) && NoneSkipped(w, name) && IsPlan(w, name, ops) && p in w.tree
    ensures Current(w, name, Sources(ops), p) == NewPath(w, name, p)
    decreases |p|
  {
    hide NewName, Planned, IsPlan, Sources;
    if p != [] {
      PlanComplete(w, name, ops, Parent(p));
      if NewName(w, name, p) != Last(p) {
        InPlan(w, name, ops, p);
      }
    }
  }

  /** Everything is carried out, nothing is lost and nothing skipped, exactly when no names clash. */
  lemma PlanRenames(w: World, name: NameMap, ops: seq<Op>)
    requires WellFormed(w.tree) && IsPlan(w, name, ops)
    ensures NoClash(w, name) <==>
      (Execute(w.tree, ops).1 == [] && |Execute(w.tree, ops).0| == |w.tree| && NoneSkipped(w, name))
    ensures NoClash(w, name) ==> IsRenamed(w, name, Execute(w.tree, ops).0)
  {
    hide NewName, WellFormed, IsImage, Execute, Planned, IsPlan, Overwrites, Leads, NoClash, NoneSkipped, Sources;
    hide IsRenamed;
    var lost := PlanRuns(w, name, ops, |ops|);
    var (t, errors) := Execute(w.tree, ops);
    assert ops[..|ops|] == ops;
    ImageSize(w, name, Carried(ops, errors), lost, t);
    if NoClash(w, name) {
      forall q | q in Sources(ops) ensures Leads(w, name, q) && !Overwrites(w, name, q) {
        SourceFree(w, name, ops, q);
      }
      assert Sources(errors) == {};
      NoSources(errors);
      NoneSkippedThen(w, name);
      assert Carried(ops, errors) == Sources(ops);
      AllRenamed(w, name, ops, t);
    }
    if errors == [] && |t| == |w.tree| && NoneSkipped(w, name) {
      NoSources(errors);
      forall q | Planned(w, name, q) ensures Leads(w, name, q) {
        InPlan(w, name, ops, q);
      }
      LeadersDoNotClash(w, name);
    }
  }

  lemma SourceFree(w: World, name: NameMap, ops: seq<Op>, q: Rel)
    requires IsPlan(w, name, ops) && q in Sources(ops) && NoClash(w, name)
    ensures Leads(w, name, q) && !Overwrites(w, name, q)
  {
    hide NewName, Planned, NoClash, Leads, Overwrites, IsPlan;
    SourceIndex(ops, q);
    var k :| 0 <= k < |ops| && ops[k].old_ == q;
    PlanOp(w, name, ops, k);
    PlannedFacts(w, name, q);
    FreeWithoutClash(w, name, q);
    LeaderKeeps(w, name, q);
  }

  lemma NoneSkippedThen(w: World, name: NameMap)
    requires NoClash(w, name)
    ensures NoneSkipped(w, name)
  {
    hide NewName, Planned, NoClash, Leads;
    forall p | p in w.tree && p != [] && NewName(w, name, p) != Last(p) ensures Planned(w, name, p) {
      FreeWithoutClash(w, name, p);
    }
  }

  lemma AllRenamed(w: World, name: NameMap, ops: seq<Op>, t: Tree)
    requires WellFormed(w.tree) && NoneSkipped(w, name) && IsPlan(w, name, ops)
    requires IsImage(w, name, Sources(ops), {}, t)
    ensures IsRenamed(w, name, t)
  {
    hide NewName, NewPath, Current, WellFormed, NoneSkipped, IsPlan, Sources;
    forall p | p in w.tree ensures Current(w, name, Sources(ops), p) == NewPath(w, name, p) {
      PlanComplete(w, name, ops, p);
    }
  }

  /** For names that need no second renaming, different new names among siblings are enough. */
  lemma SettledNamesSuffice(w: World, name: NameMap)
    requires forall n: string | name(n).Some? :: name(name(n).value) in {None, Some(name(n).value)}
    requires forall p, q | p in w.tree && q in w.tree && p != [] && q != [] && Parent(p) == Parent(q) && p != q ::
      NewName(w, name, p) != NewName(w, name, q)
    ensures NoClash(w, name)
  {
    hide Visited;
  }

  /** Collecting and executing in one, on any tree. */
  method RenameAll(w: World, name: NameMap) returns (result: Tree, errors: seq<Op>)
    requires WellFormed(w.tree)
    ensures NoClash(w, name) <==> errors == [] && |result| == |w.tree| && NoneSkipped(w, name)
    ensures NoClash(w, name) ==> IsRenamed(w, name, result)
    ensures |result| == |w.tree| <==> forall q | q in w.tree :: !Overwrites(w, name, q)
  {
    hide NewName, NoClash, NoneSkipped, IsRenamed, Overwrites, WellFormed, IsPlan, Execute;
    var ops := CollectRenameOps(w, name);
    PlanRenames(w, name, ops);
    KeptIff(w, name, ops);
    var successCount;
    result, successCount, errors := ExecuteRenames(w.tree, ops);
  }
}
