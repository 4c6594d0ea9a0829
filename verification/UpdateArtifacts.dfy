/**
 Replacing what ships beside the binary (`backend/src/commands/update.rs`: `swap_file` on both platforms,
 `install_web_dist` with its copy fallback, `sweep_update_residue`). The old artefact is at its place or at the
 sidelined name until the new one is in place, whatever fails.
 */
module UpdateArtifacts {
  import opened FileTrees
  import opened UpdateDisk

  // ----- Names -----

  function ResiduePrefix(base: string): string { "." + base + ".update-" }

  function Staging(target: Place, pid: string): Place { Place(target.dir, ResiduePrefix(target.name) + pid) }

  function Sidelined(target: Place, pid: string): Place { Place(target.dir, ResiduePrefix(target.name) + "old-" + pid) }

  predicate IsResidue(target: Place, p: Place) { p.dir == target.dir && ResiduePrefix(target.name) <= p.name }

  ghost function Residue(target: Place): iset<Place> { iset p: Place | IsResidue(target, p) }

  lemma ResidueNames(target: Place, pid: string)
    ensures Staging(target, pid) in Residue(target) && Sidelined(target, pid) in Residue(target)
    ensures target !in Residue(target)
    ensures Staging(target, pid) != Sidelined(target, pid)
    ensures Staging(target, pid).dir == Sidelined(target, pid).dir == target.dir
  {
    var prefix := ResiduePrefix(target.name);
    assert Sidelined(target, pid).name == prefix + ("old-" + pid);
    assert (prefix + pid)[|prefix|..] == pid && (prefix + ("old-" + pid))[|prefix|..] == "old-" + pid;
    assert |prefix + pid| == |prefix| + |pid|;
  }

  // ----- sweep_update_residue -----

  predicate NoResidue(s: State, target: Place) { forall p | p in s :: !IsResidue(target, p) }

  /** Removes or prunes residue only, never the target; `clean` when every step of it worked, and then none is left. */
  method SweepUpdateResidue(disk: Disk, target: Place) returns (ghost clean: bool)
    modifies disk
    ensures old(disk.history) <= disk.history
    ensures old(disk.calls) <= disk.calls
    ensures Steps(disk.history, |old(disk.history)|, old(disk.entries), Residue(target))
    ensures SameBut(old(disk.entries), disk.entries, Residue(target)) && target !in Residue(target)
    ensures clean ==> NoResidue(disk.entries, target)
    ensures disk.Refused() >= old(disk.Refused()) && (!clean ==> disk.Refused() > old(disk.Refused()))
    ensures EndsInSweep(disk.calls, target.dir)
  {
    hide Refusals, IsResidue, IsFile, IsDirectory, OnlyRemoves, Steps, SameBut;
    ResidueNames(target, "");
    NoSteps(disk.history, disk.entries, Residue(target));
    var readable := disk.Ask(Listing(target.dir));
    ghost var (first, calls) := (|disk.calls| - 1, disk.calls);
    NothingElse(disk.calls);
    assert SweptFrom(disk.calls, first, target.dir);
    if !readable {
      return false;
    }
    clean := true;
    var left := set p | p in disk.entries && p.dir == target.dir;
    assert forall p | IsResidue(target, p) :: p.dir == target.dir by { ResidueBeside(target); }
    while left != {}
      invariant old(disk.history) <= disk.history
      invariant calls <= disk.calls && OnlyRemoves(disk.calls, first + 1)
      invariant Steps(disk.history, |old(disk.history)|, old(disk.entries), Residue(target))
      invariant SameBut(old(disk.entries), disk.entries, Residue(target))
      invariant clean ==> forall p | p in disk.entries && IsResidue(target, p) :: p in left
      invariant disk.Refused() >= old(disk.Refused()) && (!clean ==> disk.Refused() > old(disk.Refused()))
    {
      var p :| p in left;
      left := left - {p};
      ghost var (before, history, entries) := (disk.calls, disk.history, disk.entries);
      var listed;
      listed, clean := SweepNext(disk, target, p, clean);
      OnlyRemovesOn(before, disk.calls, first + 1);
      assert disk.history[..|history|] == history;
      StepsOn(disk.history, |old(disk.history)|, |history|, old(disk.entries), entries, disk.entries, Residue(target),
        Residue(target) * iset{p});
      if clean {
        ResidueLeft(entries, disk.entries, target, p, left);
      }
      if !listed {
        break;
      }
    }
    assert disk.calls[first] == calls[first];
    assert SweptFrom(disk.calls, first, target.dir);
  }

  /** The next entry of the directory goes if it is residue. */
  method SweepNext(disk: Disk, target: Place, p: Place, ghost clean0: bool) returns (listed: bool, ghost clean: bool)
    modifies disk
    ensures old(disk.history) <= disk.history
    ensures old(disk.calls) <= disk.calls
    ensures Steps(disk.history, |old(disk.history)|, old(disk.entries), Residue(target) * iset{p})
    ensures SameBut(old(disk.entries), disk.entries, Residue(target) * iset{p})
    ensures !listed ==> !clean
    ensures clean ==> clean0 && (IsResidue(target, p) ==> p !in disk.entries)
    ensures disk.Refused() >= old(disk.Refused()) && (clean0 && !clean ==> disk.Refused() > old(disk.Refused()))
    ensures OnlyRemoves(disk.calls, |old(disk.calls)|)
  {
    hide Refusals, IsResidue, IsFile, IsDirectory;
    listed := disk.Ask(Entry(target.dir));
    clean := listed && clean0;
    if listed && IsResidue(target, p) {
      var removed := RemoveEntry(disk, p);
      clean := clean && removed;
    }
  }

  lemma ResidueLeft(before: State, now: State, target: Place, p: Place, left: set<Place>)
    requires SameBut(before, now, Residue(target) * iset{p}) && (IsResidue(target, p) ==> p !in now)
    requires forall q | q in before && IsResidue(target, q) :: q in left + {p}
    ensures forall q | q in now && IsResidue(target, q) :: q in left
  {
    hide IsResidue;
  }

  lemma NoSteps(history: seq<State>, before: State, touched: iset<Place>)
    ensures Steps(history, |history|, before, touched) && SameBut(before, before, touched)
  {
  }

  lemma NothingElse(calls: seq<Call>)
    ensures OnlyRemoves(calls, |calls|)
  {
  }

  lemma OnlyRemovesOn(before: seq<Call>, after: seq<Call>, n: nat)
    requires before <= after && OnlyRemoves(before, n) && OnlyRemoves(after, |before|)
    ensures OnlyRemoves(after, n)
  {
    assert forall m | n <= m < |before| :: after[m] == before[m];
  }

  lemma ResidueBeside(target: Place)
    ensures forall p | IsResidue(target, p) :: p.dir == target.dir
  {
  }

  /** Removes a file or a tree, whichever the entry is or turns out to be. */
  method RemoveEntry(disk: Disk, p: Place) returns (ok: bool)
    modifies disk
    ensures old(disk.history) <= disk.history
    ensures old(disk.calls) <= disk.calls
    ensures Steps(disk.history, |old(disk.history)|, old(disk.entries), iset{p})
    ensures SameBut(old(disk.entries), disk.entries, iset{p})
    ensures ok ==> p !in disk.entries
    ensures disk.Refused() >= old(disk.Refused()) && (!ok ==> disk.Refused() > old(disk.Refused()))
    // A directory is removed as a tree, anything else as a file, and an entry of unknown kind as both if need be.
    ensures var n := |old(disk.calls)|;
      && |disk.calls| >= n + 2 && disk.calls[n] == Asked(Kind(p), disk.calls[n].ok)
      && (disk.calls[n].ok ==>
          var tree := p in old(disk.entries) && IsDirectory(old(disk.entries)[p]);
          |disk.calls| == n + 2 && disk.calls[n + 1] == if tree then TreeRemoved(p, ok) else Removed(p, ok))
      && (!disk.calls[n].ok ==>
          disk.calls[n + 1] == Removed(p, disk.calls[n + 1].ok)
          && (!disk.calls[n + 1].ok ==> |disk.calls| == n + 3 && disk.calls[n + 2] == TreeRemoved(p, ok)))
    ensures OnlyRemoves(disk.calls, |old(disk.calls)|)
  {
    hide Refusals;
    var known := disk.Ask(Kind(p));
    if known && p in disk.entries && IsDirectory(disk.entries[p]) {
      ok := disk.RemoveTree(p);
    } else {
      ok := disk.Remove(p);
      if !known && !ok {
        ok := disk.RemoveTree(p);
      }
    }
  }

  // ----- swap_file -----

  /** At every step the target is as it was, or already the new file. */
  ghost predicate Atomic(history: seq<State>, n: nat, before: State, target: Place, new_: Place) {
    forall k | n <= k < |history| ::
      At(history[k], target) == At(before, target) || (new_ in before && Holds(history[k], target, before[new_]))
  }

  /** Copying a file gave the copy its mode already. */
  lemma SameMode(t: Tree)
    requires IsFile(t)
    ensures WithMode(t, t[[]].mode) == t
  {
  }

  method MirrorMode(disk: Disk, new_: Place, tmp: Place)
    requires new_ in disk.entries && IsFile(disk.entries[new_]) && Holds(disk.entries, tmp, disk.entries[new_])
    modifies disk
    ensures disk.entries == old(disk.entries)
    ensures old(disk.history) <= disk.history
    ensures old(disk.calls) <= disk.calls
    ensures forall k | |old(disk.history)| <= k < |disk.history| :: disk.history[k] == disk.entries
    ensures disk.Refused() >= old(disk.Refused())
    ensures disk.Refused() == old(disk.Refused()) ==> LastCall(disk.calls, ModeSet(tmp, true))
  {
    hide Refusals;
    var known := disk.Exists(new_);
    if known {
      SameMode(disk.entries[tmp]);
      ghost var before := disk.entries;
      var mirrored := disk.SetMode(tmp, disk.entries[new_][[]].mode);
      assert disk.entries == before;
    }
  }

  method SwapFileUnix(disk: Disk, new_: Place, target: Place, pid: string) returns (ok: bool)
    requires new_.dir != target.dir
    modifies disk
    ensures old(disk.history) <= disk.history
    ensures old(disk.calls) <= disk.calls
    ensures Steps(disk.history, |old(disk.history)|, old(disk.entries), Residue(target) + iset{target})
    ensures SameBut(old(disk.entries), disk.entries, Residue(target) + iset{target})
    ensures Atomic(disk.history, |old(disk.history)|, old(disk.entries), target, new_)
    ensures ok ==> new_ in old(disk.entries) && Holds(disk.entries, target, old(disk.entries)[new_])
    ensures !ok ==> At(disk.entries, target) == At(old(disk.entries), target)
    // The staged file is given its mode before it is moved in.
    ensures ok && disk.Refused() == old(disk.Refused()) ==>
      exists k | |old(disk.calls)| <= k < |disk.calls| :: disk.calls[k] == ModeSet(Staging(target, pid), true)
    // The staged file is removed again, if it can be.
    ensures !ok ==>
      || LastCall(disk.calls, Copied(new_, Staging(target, pid), false)) || Staging(target, pid) !in disk.entries
      || LastCall(disk.calls, Removed(Staging(target, pid), false))
    ensures ok && disk.Refused() == old(disk.Refused()) ==> NoResidue(disk.entries, target)
    ensures ok ==> EndsInSweep(disk.calls, target.dir)
    ensures disk.Refused() >= old(disk.Refused()) && (!ok ==> disk.Refused() > old(disk.Refused()))
  {
    hide Refusals;
    hide IsResidue, IsDirectory, IsFile, WithMode, Staging, Replaceable;
    var tmp := Staging(target, pid);
    ResidueNames(target, pid);
    ok := disk.Copy(new_, tmp);
    if !ok {
      return;
    }
    MirrorMode(disk, new_, tmp);
    ghost var calls := disk.calls;
    ok := MoveIn(disk, tmp, target);
    assert disk.calls[|calls| - 1] == calls[|calls| - 1];
  }

  /** The staged file is renamed over the target, or removed again. */
  method MoveIn(disk: Disk, tmp: Place, target: Place) returns (ok: bool)
    requires tmp in Residue(target) && target !in Residue(target) && tmp in disk.entries
    modifies disk
    ensures old(disk.history) <= disk.history
    ensures old(disk.calls) <= disk.calls
    ensures Steps(disk.history, |old(disk.history)|, old(disk.entries), Residue(target) + iset{target})
    ensures SameBut(old(disk.entries), disk.entries, Residue(target) + iset{target})
    ensures Atomic(disk.history, |old(disk.history)|, old(disk.entries), target, tmp)
    ensures ok ==> Holds(disk.entries, target, old(disk.entries)[tmp])
    ensures !ok ==> At(disk.entries, target) == At(old(disk.entries), target)
    ensures !ok ==> tmp !in disk.entries || LastCall(disk.calls, Removed(tmp, false))
    ensures ok && disk.Refused() == old(disk.Refused()) ==> NoResidue(disk.entries, target)
    ensures ok ==> EndsInSweep(disk.calls, target.dir)
    ensures disk.Refused() >= old(disk.Refused()) && (!ok ==> disk.Refused() > old(disk.Refused()))
  {
    hide Refusals, IsResidue, IsDirectory, IsFile, Replaceable;
    ok := disk.Rename(tmp, target);
    if !ok {
      var removed := disk.Remove(tmp);
      return;
    }
    ghost var clean := SweepUpdateResidue(disk, target);
  }

  method SwapFileWindows(disk: Disk, new_: Place, target: Place, pid: string) returns (ok: bool)
    requires new_.dir != target.dir
    modifies disk
    ensures old(disk.history) <= disk.history
    ensures old(disk.calls) <= disk.calls
    ensures Steps(disk.history, |old(disk.history)|, old(disk.entries), Residue(target) + iset{target})
    ensures SameBut(old(disk.entries), disk.entries, Residue(target) + iset{target})
    ensures KeptAside(disk.history, |old(disk.history)|, old(disk.entries), target, Sidelined(target, pid), new_)
    ensures ok ==> new_ in old(disk.entries) && Holds(disk.entries, target, old(disk.entries)[new_])
    // A failed swap leaves the old file aside only when putting it back did not work either.
    ensures !ok && target in old(disk.entries) ==>
      || Holds(disk.entries, target, old(disk.entries)[target])
      || (Holds(disk.entries, Sidelined(target, pid), old(disk.entries)[target])
          && disk.Refused() >= old(disk.Refused()) + 3)
    ensures !ok && target !in old(disk.entries) ==> target !in disk.entries
    // A locked target is no reason to give up: it is moved aside.
    ensures !ok ==>
      || LastCall(disk.calls, Copied(new_, Staging(target, pid), false)) || disk.Refused() >= old(disk.Refused()) + 2
    ensures !ok ==>
      || LastCall(disk.calls, Copied(new_, Staging(target, pid), false)) || Staging(target, pid) !in disk.entries
      || LastCall(disk.calls, Removed(Staging(target, pid), false))
    ensures ok && disk.Refused() == old(disk.Refused()) ==> NoResidue(disk.entries, target)
    ensures ok ==> EndsInSweep(disk.calls, target.dir)
    ensures disk.Refused() >= old(disk.Refused()) && (!ok ==> disk.Refused() > old(disk.Refused()))
  {
    hide Refusals;
    hide IsResidue, IsDirectory, Staging, Sidelined, Replaceable;
    var tmp := Staging(target, pid);
    ResidueNames(target, pid);
    ok := disk.Copy(new_, tmp);
    if !ok {
      return;
    }
    ok := disk.Rename(tmp, target);
    if ok {
      ghost var clean := SweepUpdateResidue(disk, target);
      return;
    }
    ok := SwapAside(disk, tmp, target, Sidelined(target, pid));
  }

  /** The target is locked: move it aside, then the staged file into its place, or back. */
  method SwapAside(disk: Disk, tmp: Place, target: Place, sidelined: Place) returns (ok: bool)
    requires tmp in Residue(target) && sidelined in Residue(target) && tmp != sidelined && target !in Residue(target)
    requires tmp in disk.entries
    modifies disk
    ensures old(disk.history) <= disk.history
    ensures old(disk.calls) <= disk.calls
    ensures Steps(disk.history, |old(disk.history)|, old(disk.entries), Residue(target) + iset{target})
    ensures SameBut(old(disk.entries), disk.entries, Residue(target) + iset{target})
    ensures KeptAside(disk.history, |old(disk.history)|, old(disk.entries), target, sidelined, tmp)
    ensures ok ==> Holds(disk.entries, target, old(disk.entries)[tmp])
    ensures !ok && target in old(disk.entries) ==>
      || Holds(disk.entries, target, old(disk.entries)[target])
      || (Holds(disk.entries, sidelined, old(disk.entries)[target]) && disk.Refused() >= old(disk.Refused()) + 2)
    ensures !ok && target !in old(disk.entries) ==> target !in disk.entries
    ensures !ok ==> tmp !in disk.entries || LastCall(disk.calls, Removed(tmp, false))
    ensures ok && disk.Refused() == old(disk.Refused()) ==> NoResidue(disk.entries, target)
    ensures ok ==> EndsInSweep(disk.calls, target.dir)
    ensures disk.Refused() >= old(disk.Refused()) && (!ok ==> disk.Refused() > old(disk.Refused()))
  {
    hide Refusals;
    hide IsResidue, IsDirectory, IsFile, Plain, Replaceable;
    ok := disk.Rename(target, sidelined);
    if !ok {
      var removed := disk.Remove(tmp);
      return;
    }
    ok := FillFrom(disk, tmp, target, sidelined);
  }

  /** Moves the staged file into the place left free, or puts back what was there. */
  method FillFrom(disk: Disk, tmp: Place, target: Place, sidelined: Place) returns (ok: bool)
    requires tmp in Residue(target) && sidelined in Residue(target) && tmp != sidelined && target !in Residue(target)
    requires tmp in disk.entries && sidelined in disk.entries && target !in disk.entries
    modifies disk
    ensures old(disk.history) <= disk.history
    ensures old(disk.calls) <= disk.calls
    ensures Steps(disk.history, |old(disk.history)|, old(disk.entries), Residue(target) + iset{target})
    ensures SameBut(old(disk.entries), disk.entries, Residue(target) + iset{target})
    ensures forall k | |old(disk.history)| <= k < |disk.history| ::
      || Holds(disk.history[k], sidelined, old(disk.entries)[sidelined])
      || Holds(disk.history[k], target, old(disk.entries)[sidelined])
      || Holds(disk.history[k], target, old(disk.entries)[tmp])
    ensures ok ==> Holds(disk.entries, target, old(disk.entries)[tmp])
    ensures !ok ==>
      || Holds(disk.entries, target, old(disk.entries)[sidelined])
      || (Holds(disk.entries, sidelined, old(disk.entries)[sidelined])
          && disk.Refused() >= old(disk.Refused()) + 2)
    ensures !ok ==> tmp !in disk.entries || LastCall(disk.calls, Removed(tmp, false))
    ensures ok && disk.Refused() == old(disk.Refused()) ==> NoResidue(disk.entries, target)
    ensures ok ==> EndsInSweep(disk.calls, target.dir)
    ensures disk.Refused() >= old(disk.Refused()) && (!ok ==> disk.Refused() > old(disk.Refused()))
  {
    hide Refusals;
    hide IsResidue, IsDirectory, IsFile, Replaceable;
    ok := disk.Rename(tmp, target);
    if ok {
      var removed := disk.Remove(sidelined);
      ghost var clean := SweepUpdateResidue(disk, target);
    } else {
      PutBack(disk, tmp, target, sidelined);
    }
  }

  /** What was moved aside comes back, if it can, and the staged file goes. */
  method PutBack(disk: Disk, tmp: Place, target: Place, sidelined: Place)
    requires tmp in Residue(target) && sidelined in Residue(target) && tmp != sidelined && target !in Residue(target)
    requires sidelined in disk.entries && target !in disk.entries
    modifies disk
    ensures old(disk.history) <= disk.history
    ensures old(disk.calls) <= disk.calls
    ensures Steps(disk.history, |old(disk.history)|, old(disk.entries), Residue(target) + iset{target})
    ensures SameBut(old(disk.entries), disk.entries, Residue(target) + iset{target})
    ensures forall k | |old(disk.history)| <= k < |disk.history| ::
      || Holds(disk.history[k], sidelined, old(disk.entries)[sidelined])
      || Holds(disk.history[k], target, old(disk.entries)[sidelined])
    ensures disk.Refused() >= old(disk.Refused())
    ensures
      || Holds(disk.entries, target, old(disk.entries)[sidelined])
      || (Holds(disk.entries, sidelined, old(disk.entries)[sidelined]) && disk.Refused() > old(disk.Refused()))
    ensures tmp !in disk.entries || LastCall(disk.calls, Removed(tmp, false))
  {
    hide Refusals;
    hide IsResidue, IsDirectory, IsFile, Replaceable;
    var restored := disk.Rename(sidelined, target);
    var removed := disk.Remove(tmp);
  }

  // ----- copy_dir_recursive -----

  /** What the copy has made so far: everything the stack no longer covers, without links and special files. */
  function Made(t: Tree, front: seq<Rel>): Tree {
    map p | p in t && (t[p].Directory? || t[p].File?) && !Covers(front, p) :: t[p]
  }

  function TreeAt(s: State, p: Place): Tree { if p in s then s[p] else map[] }

  lemma MadeAll(t: Tree)
    ensures Made(t, []) == Plain(t) && Made(t, [[]]) == map[]
  {
    forall p: Rel ensures Covers([[]], p) && !Covers([], p) {
      assert [[]][0] <= p;
    }
  }

  /** Making a directory and stacking its entries instead of it makes exactly that directory. */
  lemma MadeDirectory(t: Tree, front: seq<Rel>, d: Rel, entries: seq<Rel>)
    requires WellFormed(t) && Apart(front + [d]) && Within(t, front + [d]) && Lists(t, d, entries)
    requires d in t && t[d].Directory?
    ensures Made(t, front + entries) == Made(t, front + [d])[d := Directory]
    ensures Apart(front + entries) && Within(t, front + entries)
    ensures Covered(t, front + entries) < Covered(t, front + [d])
  {
    hide WellFormed, Apart, Within, Lists;
    Expand(t, front, d, entries);
    CoversParts(front, [d], d);
    CoversOne(front, d, d);
    hide Covers;
    assert d in Covered(t, front + [d]) && d !in Covered(t, front + entries);
  }

  lemma WithinEach(t: Tree, front: seq<Rel>, d: Rel)
    requires Within(t, front + [d])
    ensures d in t && Within(t, front)
  {
    var all := front + [d];
    assert all[|front|] == d && forall i | 0 <= i < |front| :: all[i] == front[i];
  }

  /** Past an entry that is not a directory, exactly that entry has been dealt with. */
  lemma MadeEntry(t: Tree, front: seq<Rel>, c: Rel, rest: seq<Rel>)
    requires WellFormed(t) && Apart(front + [c] + rest) && Within(t, front + [c] + rest) && c in t && !t[c].Directory?
    ensures Made(t, front + rest) ==
      if t[c].File? then Made(t, front + [c] + rest)[c := t[c]] else Made(t, front + [c] + rest)
    ensures Apart(front + rest) && Within(t, front + rest)
    ensures Covered(t, front + rest) < Covered(t, front + [c] + rest)
  {
    Drop(t, front, c, rest);
    hide Covers, Apart, Within, WellFormed;
    forall p | p in t ensures c <= p <==> p == c {
      NothingBelow(t, c, p);
    }
  }

  /** A copy stops at the first call that does not work. */
  predicate StoppedCopying(calls: seq<Call>) {
    calls != [] && var last := calls[|calls| - 1]; !last.ok && (last.Asked? || last.DirectoryMade? || last.FileCopied?)
  }

  /** One directory's entries: files are copied, directories stacked, everything else is left out. */
  method CopyEntries(disk: Disk, src: Place, dst: Place, entries: seq<Rel>, waiting: seq<Rel>)
    returns (ok: bool, stack: seq<Rel>)
    requires src != dst && src in disk.entries && WellFormed(disk.entries[src]) && dst in disk.entries
    requires Apart(waiting + entries) && Within(disk.entries[src], waiting + entries)
    requires disk.entries[dst] == Made(disk.entries[src], waiting + entries)
    requires forall d | d in waiting :: DirectoryIn(disk.entries, src, d)
    modifies disk
    ensures old(disk.history) <= disk.history
    ensures old(disk.calls) <= disk.calls
    ensures Steps(disk.history, |old(disk.history)|, old(disk.entries), iset{dst})
    ensures SameBut(old(disk.entries), disk.entries, iset{dst})
    ensures ok ==> var t := old(disk.entries)[src];
      && Apart(stack) && Within(t, stack) && Holds(disk.entries, dst, Made(t, stack))
      && Covered(t, stack) <= Covered(t, waiting + entries)
      && forall d | d in stack :: DirectoryIn(old(disk.entries), src, d)
    ensures !ok ==> StoppedCopying(disk.calls)
    ensures disk.Refused() >= old(disk.Refused()) && (!ok ==> disk.Refused() > old(disk.Refused()))
  {
    hide Refusals;
    hide WellFormed, Apart, Within, Covered, Made;
    ghost var t := disk.entries[src];
    stack := waiting;
    assert entries[0..] == entries;
    for i := 0 to |entries|
      invariant old(disk.history) <= disk.history
      invariant old(disk.calls) <= disk.calls
      invariant Steps(disk.history, |old(disk.history)|, old(disk.entries), iset{dst})
      invariant SameBut(old(disk.entries), disk.entries, iset{dst})
      invariant Apart(stack + entries[i..]) && Within(t, stack + entries[i..])
      invariant Holds(disk.entries, dst, Made(t, stack + entries[i..]))
      invariant Covered(t, stack + entries[i..]) <= Covered(t, waiting + entries)
      invariant forall d | d in stack :: d in t && t[d].Directory?
      invariant disk.Refused() >= old(disk.Refused())
    {
      var path, rest := entries[i], entries[i + 1..];
      assert stack + entries[i..] == stack + [path] + rest;
      var typed := disk.Ask(TreeKind(src, path));
      if !typed {
        return false, [];
      }
      assert path in t by { WithinMiddle(t, stack, path, rest); }
      if disk.entries[src][path].Directory? {
        stack := stack + [path];
      } else {
        MadeEntry(t, stack, path, rest);
        if disk.entries[src][path].File? {
          ok := disk.CopyWithin(src, dst, path);
          if !ok {
            return;
          }
        }
      }
    }
    assert stack + entries[|entries|..] == stack;
    ok := true;
  }

  /** One directory of the tree: it is made, and its entries are copied or stacked. */
  method CopyDirectory(disk: Disk, src: Place, dst: Place, dir: Rel, waiting: seq<Rel>)
    returns (ok: bool, stack: seq<Rel>)
    requires src != dst && src in disk.entries && WellFormed(disk.entries[src])
    requires Apart(waiting + [dir]) && Within(disk.entries[src], waiting + [dir])
    requires TreeAt(disk.entries, dst) == Made(disk.entries[src], waiting + [dir])
    requires forall d | d in waiting :: DirectoryIn(disk.entries, src, d)
    modifies disk
    ensures old(disk.history) <= disk.history
    ensures old(disk.calls) <= disk.calls
    ensures Steps(disk.history, |old(disk.history)|, old(disk.entries), iset{dst})
    ensures SameBut(old(disk.entries), disk.entries, iset{dst})
    ensures ok ==> var t := old(disk.entries)[src];
      && Apart(stack) && Within(t, stack) && Holds(disk.entries, dst, Made(t, stack))
      && Covered(t, stack) < Covered(t, waiting + [dir])
      && forall d | d in stack :: DirectoryIn(old(disk.entries), src, d)
    ensures !ok && DirectoryIn(old(disk.entries), src, dir) ==>
      StoppedCopying(disk.calls) && disk.Refused() > old(disk.Refused())
    ensures disk.Refused() >= old(disk.Refused())
  {
    hide Refusals;
    hide WellFormed, Apart, Within, Lists, Covered, Made, Plain;
    ghost var t := disk.entries[src];
    stack := [];
    WithinEach(t, waiting, dir);
    ok := disk.CreateDir(dst, dir);
    if !ok {
      return;
    }
    ok := disk.ReadTree(src, dir);
    if !ok {
      return;
    }
    var entries := ReadDir(disk.entries[src], dir);
    MadeDirectory(t, waiting, dir, entries);
    ok, stack := CopyEntries(disk, src, dst, entries, waiting);
  }

  /** On success the copy is exactly the source tree without symbolic links and special files. */
  method CopyDirRecursive(disk: Disk, src: Place, dst: Place) returns (ok: bool)
    requires src != dst && src in disk.entries && WellFormed(disk.entries[src]) && dst !in disk.entries
    modifies disk
    ensures old(disk.history) <= disk.history
    ensures old(disk.calls) <= disk.calls
    ensures Steps(disk.history, |old(disk.history)|, old(disk.entries), iset{dst})
    ensures SameBut(old(disk.entries), disk.entries, iset{dst})
    ensures ok ==> Holds(disk.entries, dst, Plain(old(disk.entries)[src]))
    ensures !ok && IsDirectory(old(disk.entries)[src]) ==>
      StoppedCopying(disk.calls) && disk.Refused() > old(disk.Refused())
    ensures disk.Refused() >= old(disk.Refused())
  {
    hide Refusals;
    hide WellFormed, Apart, Within, Lists, Covered, Made, Plain, StoppedCopying;
    ghost var t := disk.entries[src];
    var stack: seq<Rel> := [[]];
    MadeAll(t);
    RootAlone(t);
    while stack != []
      invariant old(disk.history) <= disk.history
      invariant old(disk.calls) <= disk.calls
      invariant Steps(disk.history, |old(disk.history)|, old(disk.entries), iset{dst})
      invariant SameBut(old(disk.entries), disk.entries, iset{dst})
      invariant Apart(stack) && Within(t, stack) && TreeAt(disk.entries, dst) == Made(t, stack)
      invariant stack == [[]] || (dst in disk.entries && forall d | d in stack :: d in t && t[d].Directory?)
      invariant disk.Refused() >= old(disk.Refused())
      decreases Covered(t, stack)
    {
      var dir, waiting := stack[|stack| - 1], stack[..|stack| - 1];
      assert stack == waiting + [dir];
      ok, stack := CopyDirectory(disk, src, dst, dir, waiting);
      if !ok {
        return;
      }
    }
    ok := true;
  }

  lemma WithinMiddle(t: Tree, front: seq<Rel>, c: Rel, rest: seq<Rel>)
    requires Within(t, front + [c] + rest)
    ensures c in t
  {
    assert (front + [c] + rest)[|front|] == c;
  }

  lemma RootAlone(t: Tree)
    requires WellFormed(t)
    ensures Apart([[]]) && Within(t, [[]])
  {
  }

  // ----- install_web_dist -----

  lemma PlainTwice(t: Tree)
    ensures Plain(Plain(t)) == Plain(t)
  {
  }

  lemma ElsewhereNoResidue(target: Place, p: Place)
    requires p.dir != target.dir
    ensures p !in Residue(target)
  {
  }

  /** The bundle lies on the target's file system, moved there whole or copied without links and special files. */
  method StageBundle(disk: Disk, staged: Place, staging: Place) returns (ok: bool)
    requires staged != staging && staging !in disk.entries
    requires staged in disk.entries ==> WellFormed(disk.entries[staged])
    modifies disk
    ensures old(disk.history) <= disk.history
    ensures old(disk.calls) <= disk.calls
    ensures Steps(disk.history, |old(disk.history)|, old(disk.entries), iset{staged, staging})
    ensures SameBut(old(disk.entries), disk.entries, iset{staged, staging})
    ensures ok ==> staging in disk.entries && staged in old(disk.entries)
    ensures ok ==>
      || (disk.entries[staging] == old(disk.entries)[staged] && staged !in disk.entries)
      || (disk.entries[staging] == Plain(old(disk.entries)[staged])
        && Holds(disk.entries, staged, old(disk.entries)[staged]))
    // Where it cannot be moved it is copied, and a copy that fails is removed again.
    ensures !ok && staged in old(disk.entries) && IsDirectory(old(disk.entries)[staged]) ==>
      && |disk.calls| > 0 && StoppedCopying(disk.calls[..|disk.calls| - 1])
      && disk.calls[|disk.calls| - 1].TreeRemoved? && disk.calls[|disk.calls| - 1].place == staging
    ensures !ok ==> staging !in disk.entries || LastCall(disk.calls, TreeRemoved(staging, false))
    ensures disk.Refused() >= old(disk.Refused()) && (!ok ==> disk.Refused() > old(disk.Refused()))
  {
    hide Refusals;
    hide WellFormed, Plain, IsDirectory;
    ok := disk.Rename(staged, staging);
    if !ok && staged in disk.entries {
      ok := CopyDirRecursive(disk, staged, staging);
      if !ok {
        ghost var copied := disk.calls;
        var removed := disk.RemoveTree(staging);
        assert disk.calls[..|disk.calls| - 1] == copied;
      }
    }
  }

  /** The old bundle is moved aside when there is one, the new one into its place, or the old one back. */
  method SwapBundle(disk: Disk, staging: Place, target: Place, sidelined: Place) returns (ok: bool)
    requires staging in Residue(target) && sidelined in Residue(target) && staging != sidelined
    requires target !in Residue(target)
    requires staging in disk.entries
    modifies disk
    ensures old(disk.history) <= disk.history
    ensures old(disk.calls) <= disk.calls
    ensures Steps(disk.history, |old(disk.history)|, old(disk.entries), Residue(target) + iset{target})
    ensures SameBut(old(disk.entries), disk.entries, Residue(target) + iset{target})
    ensures KeptAside(disk.history, |old(disk.history)|, old(disk.entries), target, sidelined, staging)
    ensures ok ==> Holds(disk.entries, target, old(disk.entries)[staging])
    ensures !ok && target in old(disk.entries) ==>
      || Holds(disk.entries, target, old(disk.entries)[target])
      || (Holds(disk.entries, sidelined, old(disk.entries)[target]) && disk.Refused() >= old(disk.Refused()) + 2)
    ensures !ok && target !in old(disk.entries) ==> target !in disk.entries
    // What is found at the target is moved aside first; where nothing is found, the new bundle goes there at once.
    ensures var n := |old(disk.calls)|;
      && |disk.calls| >= n + 2 && disk.calls[n].Asked? && disk.calls[n + 1].Renamed?
      && (disk.calls[n].ok ==> disk.calls[n + 1].from == if target in old(disk.entries) then target else staging)
    ensures !ok ==> staging !in disk.entries || LastCall(disk.calls, TreeRemoved(staging, false))
    ensures ok && disk.Refused() == old(disk.Refused()) ==> NoResidue(disk.entries, target)
    ensures ok ==> EndsInSweep(disk.calls, target.dir)
    ensures disk.Refused() >= old(disk.Refused()) && (!ok ==> disk.Refused() > old(disk.Refused()))
  {
    hide Refusals;
    hide IsResidue, IsDirectory, Plain, Replaceable;
    var hadExisting := disk.Exists(target);
    if hadExisting {
      ok := disk.Rename(target, sidelined);
      if !ok {
        var removed := disk.RemoveTree(staging);
        return;
      }
      ok := FillBundle(disk, staging, target, sidelined);
      return;
    }
    ok := PlaceBundle(disk, staging, target);
  }

  /** The new bundle is moved into its place, where nothing was found. */
  method PlaceBundle(disk: Disk, staging: Place, target: Place) returns (ok: bool)
    requires staging in Residue(target) && target !in Residue(target) && staging in disk.entries
    modifies disk
    ensures |disk.calls| > |old(disk.calls)| && disk.calls[|old(disk.calls)|].Renamed?
    ensures disk.calls[|old(disk.calls)|].from == staging
    ensures old(disk.history) <= disk.history
    ensures old(disk.calls) <= disk.calls
    ensures Steps(disk.history, |old(disk.history)|, old(disk.entries), Residue(target) + iset{target})
    ensures SameBut(old(disk.entries), disk.entries, Residue(target) + iset{target})
    ensures Atomic(disk.history, |old(disk.history)|, old(disk.entries), target, staging)
    ensures ok ==> Holds(disk.entries, target, old(disk.entries)[staging])
    ensures !ok ==> At(disk.entries, target) == At(old(disk.entries), target)
    ensures !ok ==> staging !in disk.entries || LastCall(disk.calls, TreeRemoved(staging, false))
    ensures ok && disk.Refused() == old(disk.Refused()) ==> NoResidue(disk.entries, target)
    ensures ok ==> EndsInSweep(disk.calls, target.dir)
    ensures disk.Refused() >= old(disk.Refused()) && (!ok ==> disk.Refused() > old(disk.Refused()))
  {
    hide Refusals;
    hide IsResidue, IsDirectory, Plain, Replaceable;
    ok := disk.Rename(staging, target);
    if !ok {
      var removed := disk.RemoveTree(staging);
      return;
    }
    ghost var clean := SweepUpdateResidue(disk, target);
  }

  method FillBundle(disk: Disk, staging: Place, target: Place, sidelined: Place) returns (ok: bool)
    requires staging in Residue(target) && sidelined in Residue(target) && staging != sidelined
    requires target !in Residue(target)
    requires staging in disk.entries && sidelined in disk.entries && target !in disk.entries
    modifies disk
    ensures old(disk.history) <= disk.history
    ensures old(disk.calls) <= disk.calls
    ensures Steps(disk.history, |old(disk.history)|, old(disk.entries), Residue(target) + iset{target})
    ensures SameBut(old(disk.entries), disk.entries, Residue(target) + iset{target})
    ensures forall k | |old(disk.history)| <= k < |disk.history| ::
      || Holds(disk.history[k], sidelined, old(disk.entries)[sidelined])
      || Holds(disk.history[k], target, old(disk.entries)[sidelined])
      || Holds(disk.history[k], target, old(disk.entries)[staging])
    ensures ok ==> Holds(disk.entries, target, old(disk.entries)[staging])
    ensures !ok ==>
      || Holds(disk.entries, target, old(disk.entries)[sidelined])
      || (Holds(disk.entries, sidelined, old(disk.entries)[sidelined])
          && disk.Refused() >= old(disk.Refused()) + 2)
    ensures !ok ==> staging !in disk.entries || LastCall(disk.calls, TreeRemoved(staging, false))
    ensures ok && disk.Refused() == old(disk.Refused()) ==> NoResidue(disk.entries, target)
    ensures ok ==> EndsInSweep(disk.calls, target.dir)
    ensures disk.Refused() >= old(disk.Refused()) && (!ok ==> disk.Refused() > old(disk.Refused()))
  {
    hide Refusals;
    hide IsResidue, IsDirectory, IsFile, Replaceable;
    ok := disk.Rename(staging, target);
    if !ok {
      var restored := disk.Rename(sidelined, target);
      var removed := disk.RemoveTree(staging);
      return;
    }
    var removed := disk.RemoveTree(sidelined);
    ghost var clean := SweepUpdateResidue(disk, target);
  }

  /** On success the target is exactly the staged bundle; symbolic links are lost only when it had to be copied. */
  method InstallWebDist(disk: Disk, staged: Place, target: Place, pid: string) returns (ok: bool)
    requires staged.dir != target.dir && Staging(target, pid) !in disk.entries
    requires staged in disk.entries ==> WellFormed(disk.entries[staged])
    modifies disk
    ensures old(disk.history) <= disk.history
    ensures old(disk.calls) <= disk.calls
    ensures Steps(disk.history, |old(disk.history)|, old(disk.entries), Residue(target) + iset{target, staged})
    ensures SameBut(old(disk.entries), disk.entries, Residue(target) + iset{target, staged})
    ensures KeptAside(disk.history, |old(disk.history)|, old(disk.entries), target, Sidelined(target, pid), staged)
    ensures ok ==> staged in old(disk.entries)
    ensures ok ==>
      || (Holds(disk.entries, target, old(disk.entries)[staged]) && staged !in disk.entries)
      || (Holds(disk.entries, target, Plain(old(disk.entries)[staged]))
        && Holds(disk.entries, staged, old(disk.entries)[staged]))
    ensures !ok && target in old(disk.entries) ==>
      || Holds(disk.entries, target, old(disk.entries)[target])
      || (Holds(disk.entries, Sidelined(target, pid), old(disk.entries)[target])
          && disk.Refused() >= old(disk.Refused()) + 2)
    ensures !ok && target !in old(disk.entries) ==> target !in disk.entries
    ensures ok && disk.Refused() == old(disk.Refused()) ==> NoResidue(disk.entries, target)
    ensures ok ==> EndsInSweep(disk.calls, target.dir)
    ensures disk.Refused() >= old(disk.Refused()) && (!ok ==> disk.Refused() > old(disk.Refused()))
  {
    hide Refusals;
    hide IsResidue, WellFormed, Plain, Staging, Sidelined;
    var staging, sidelined := Staging(target, pid), Sidelined(target, pid);
    ResidueNames(target, pid);
    ElsewhereNoResidue(target, staged);
    ok := disk.Ask(Writable);
    if !ok {
      return;
    }
    ok := StageBundle(disk, staged, staging);
    if !ok {
      return;
    }
    PlainTwice(old(disk.entries)[staged]);
    ok := SwapBundle(disk, staging, target, sidelined);
  }
}
