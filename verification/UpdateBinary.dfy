/**
 Replacing the running binary (`backend/src/commands/update.rs`: `swap_binary`, `rollback_binary` on both platforms, and
 the six phases of `run`). Whatever fails, and wherever the update is interrupted, the original binary exists at its own
 path or at the backup path until the new one has passed its smoke test.
 */
module UpdateBinary {
  import opened UpdateDisk

  predicate EndsWith(s: string, suffix: string) { |suffix| <= |s| && s[|s| - |suffix|..] == suffix }

  // ----- Names -----

  /** The name up to its last dot, unless that dot is its first character. */
  function Stem(name: string): string {
    var n := LastDot(name);
    if n == 0 then name else name[..n]
  }

  /** The position of the last dot, 0 when there is none. */
  function LastDot(name: string): (n: nat)
    ensures n <= |name|
  {
    if name == [] then 0 else if name[|name| - 1] == '.' then |name| - 1 else LastDot(name[..|name| - 1])
  }

  function Backup(exe: Place): Place { Place(exe.dir, Stem(exe.name) + ".bak") }

  /** The backup's name is the binary's with its extension, if it has one, replaced. */
  lemma BackupName(dir: string, stem: string, extension: string)
    requires stem != "" && '.' !in extension
    ensures Backup(Place(dir, stem + "." + extension)) == Place(dir, stem + ".bak")
    ensures '.' !in stem ==> Backup(Place(dir, stem)) == Place(dir, stem + ".bak")
    ensures Backup(Place(dir, "." + extension)) == Place(dir, "." + extension + ".bak")
  {
    DotBefore(stem, extension);
    DotBefore("", extension);
    assert "" + "." + extension == "." + extension;
    assert (stem + "." + extension)[..|stem|] == stem;
    if '.' !in stem {
      NoDot(stem);
    }
  }

  lemma {:induction false} DotBefore(stem: string, extension: string)
    requires '.' !in extension
    ensures LastDot(stem + "." + extension) == |stem|
    decreases |extension|
  {
    var name := stem + "." + extension;
    if extension != "" {
      var shorter := extension[..|extension| - 1];
      assert name[|name| - 1] == extension[|extension| - 1];
      assert name[..|name| - 1] == stem + "." + shorter;
      DotBefore(stem, shorter);
    }
  }

  lemma {:induction false} NoDot(name: string)
    requires '.' !in name
    ensures LastDot(name) == 0
  {
    if name != "" {
      NoDot(name[..|name| - 1]);
    }
  }

  function Sidecar(target: Place, pid: string, suffix: string): Place {
    Place(target.dir, target.name + "." + pid + suffix)
  }

  predicate IsSidecar(target: Place, p: Place) {
    p.dir == target.dir && target.name + "." <= p.name
      && (EndsWith(p.name, ".old") || EndsWith(p.name, ".rollback-old"))
  }

  /** What replacing a binary may touch: the target and its sidecars. */
  ghost function Touched(target: Place): iset<Place> { iset p: Place | p == target || IsSidecar(target, p) }

  lemma BackupUntouched(exe: Place)
    requires Backup(exe) != exe
    ensures Backup(exe) !in Touched(exe)
  {
    var name := Backup(exe).name;
    assert name[|name| - 1] == 'k' && ".old"[3] == 'd' && ".rollback-old"[12] == 'd';
    LastChar(name, ".old");
    LastChar(name, ".rollback-old");
  }

  lemma LastChar(s: string, suffix: string)
    requires suffix != []
    ensures EndsWith(s, suffix) ==> s[|s| - 1] == suffix[|suffix| - 1]
  {
  }

  lemma SidecarTouched(target: Place, pid: string, suffix: string)
    requires suffix in {".old", ".rollback-old"}
    ensures IsSidecar(target, Sidecar(target, pid, suffix)) && Sidecar(target, pid, suffix) != target
  {
    var name := Sidecar(target, pid, suffix).name;
    assert name[|name| - |suffix|..] == suffix;
    assert name[..|target.name| + 1] == target.name + ".";
  }

  // ----- swap_binary and rollback_binary -----

  predicate Unlinks(call: Call, target: Place) { call.Removed? && call.place == target }

  predicate MovesAside(call: Call, target: Place) { call.Renamed? && call.from == target && IsSidecar(target, call.to) }

  method SwapUnix(disk: Disk, new_: Place, target: Place) returns (ok: bool)
    requires new_ != target
    modifies disk
    ensures old(disk.history) <= disk.history
    ensures old(disk.calls) <= disk.calls
    ensures Steps(disk.history, |old(disk.history)|, old(disk.entries), Touched(target))
    ensures SameBut(old(disk.entries), disk.entries, Touched(target))
    ensures ok ==> new_ in old(disk.entries) && disk.entries == old(disk.entries)[target := old(disk.entries)[new_]]
    // The running binary is unlinked before it is written; only a call that does not work stops the swap.
    ensures ok ==> disk.calls == old(disk.calls) + [Removed(target, true), Copied(new_, target, true)]
    ensures |disk.calls| > |old(disk.calls)| && Unlinks(disk.calls[|old(disk.calls)|], target)
    ensures disk.Refused() >= old(disk.Refused()) && (!ok ==> disk.Refused() > old(disk.Refused()))
  {
    hide Refusals;
    ok := disk.Remove(target);
    if ok {
      ok := disk.Copy(new_, target);
    }
  }

  method SwapWindows(disk: Disk, new_: Place, target: Place, pid: string) returns (ok: bool)
    requires new_.dir != target.dir
    modifies disk
    ensures old(disk.history) <= disk.history
    ensures old(disk.calls) <= disk.calls
    ensures Steps(disk.history, |old(disk.history)|, old(disk.entries), Touched(target))
    ensures SameBut(old(disk.entries), disk.entries, Touched(target))
    ensures ok ==> new_ in old(disk.entries) && Holds(disk.entries, target, old(disk.entries)[new_])
    ensures KeptAside(disk.history, |old(disk.history)|, old(disk.entries), target, Sidecar(target, pid, ".old"), new_)
    ensures |disk.calls| > |old(disk.calls)| && MovesAside(disk.calls[|old(disk.calls)|], target)
    // A failed swap leaves the binary aside only when putting it back did not work either.
    ensures !ok && target in old(disk.entries) ==>
      || Holds(disk.entries, target, old(disk.entries)[target])
      || (Holds(disk.entries, Sidecar(target, pid, ".old"), old(disk.entries)[target])
          && disk.Refused() >= old(disk.Refused()) + 2)
    ensures ok && disk.Refused() == old(disk.Refused()) ==> NoSidecars(disk.entries, target)
    ensures disk.Refused() >= old(disk.Refused()) && (!ok ==> disk.Refused() > old(disk.Refused()))
  {
    hide Refusals;
    hide IsSidecar, IsFile, IsDirectory, Replaceable;
    var sidelined := Sidecar(target, pid, ".old");
    SidecarTouched(target, pid, ".old");
    ok := disk.Rename(target, sidelined);
    if ok {
      ok := FillTarget(disk, new_, target, sidelined);
    }
  }

  /** Writes the new binary where the old one was moved aside from, or puts the old one back. */
  method FillTarget(disk: Disk, new_: Place, target: Place, aside: Place) returns (ok: bool)
    requires new_.dir != target.dir && IsSidecar(target, aside) && aside != target && aside in disk.entries
    modifies disk
    ensures old(disk.history) <= disk.history
    ensures old(disk.calls) <= disk.calls
    ensures Steps(disk.history, |old(disk.history)|, old(disk.entries), Touched(target))
    ensures SameBut(old(disk.entries), disk.entries, Touched(target))
    ensures ok ==> new_ in old(disk.entries) && Holds(disk.entries, target, old(disk.entries)[new_])
    ensures forall k | |old(disk.history)| <= k < |disk.history| ::
      || Holds(disk.history[k], aside, old(disk.entries)[aside])
        || Holds(disk.history[k], target, old(disk.entries)[aside])
      || (new_ in old(disk.entries) && Holds(disk.history[k], target, old(disk.entries)[new_]))
    ensures !ok ==>
      || Holds(disk.entries, target, old(disk.entries)[aside])
      || (Holds(disk.entries, aside, old(disk.entries)[aside]) && disk.Refused() >= old(disk.Refused()) + 2)
    ensures ok && disk.Refused() == old(disk.Refused()) ==> NoSidecars(disk.entries, target)
    ensures disk.Refused() >= old(disk.Refused()) && (!ok ==> disk.Refused() > old(disk.Refused()))
  {
    hide Refusals;
    hide IsSidecar, IsFile, IsDirectory, Replaceable;
    ok := disk.Copy(new_, target);
    if !ok {
      var restored := disk.Rename(aside, target);
      return;
    }
    var removed := disk.Remove(aside);
    SweepStaleSidecars(disk, target);
  }

  predicate NoSidecars(s: State, target: Place) { forall p | p in s :: !IsSidecar(target, p) }

  /** Removes nothing but sidecars, so never the target, and all of them when every call works. */
  method SweepStaleSidecars(disk: Disk, target: Place)
    modifies disk
    ensures old(disk.history) <= disk.history
    ensures old(disk.calls) <= disk.calls
    ensures Steps(disk.history, |old(disk.history)|, old(disk.entries), Touched(target) - iset{target})
    ensures SameBut(old(disk.entries), disk.entries, Touched(target) - iset{target})
    ensures disk.Refused() >= old(disk.Refused())
    ensures disk.Refused() == old(disk.Refused()) ==> NoSidecars(disk.entries, target)
  {
    hide Refusals;
    var readable := disk.Ask(Listing(target.dir));
    if !readable {
      return;
    }
    var left := set p | p in disk.entries && p.dir == target.dir;
    while left != {}
      invariant old(disk.history) <= disk.history
      invariant old(disk.calls) <= disk.calls
      invariant Steps(disk.history, |old(disk.history)|, old(disk.entries), Touched(target) - iset{target})
      invariant SameBut(old(disk.entries), disk.entries, Touched(target) - iset{target})
      invariant disk.Refused() >= old(disk.Refused())
      invariant disk.Refused() == old(disk.Refused()) ==>
        forall p | p in disk.entries && IsSidecar(target, p) :: p in left
    {
      var listed := disk.Ask(Entry(target.dir));
      if !listed {
        return;
      }
      var p :| p in left;
      left := left - {p};
      if IsSidecar(target, p) {
        var removed := disk.Remove(p);
      }
    }
  }

  method RollbackUnix(disk: Disk, backup: Place, target: Place) returns (ok: bool)
    requires backup != target
    modifies disk
    ensures old(disk.history) <= disk.history
    ensures old(disk.calls) <= disk.calls
    ensures Steps(disk.history, |old(disk.history)|, old(disk.entries), Touched(target))
    ensures SameBut(old(disk.entries), disk.entries, Touched(target))
    ensures ok ==> backup in old(disk.entries) && Holds(disk.entries, target, old(disk.entries)[backup])
    // Whether the binary could be removed or not, the backup is copied over it.
    ensures exists removed :: disk.calls == old(disk.calls) + [Removed(target, removed), Copied(backup, target, ok)]
    ensures disk.Refused() >= old(disk.Refused())
    ensures !ok ==> LastCall(disk.calls, Copied(backup, target, false))
  {
    hide Refusals;
    var removed := disk.Remove(target);
    ok := disk.Copy(backup, target);
    assert disk.calls == old(disk.calls) + [Removed(target, removed), Copied(backup, target, ok)];
  }

  method RollbackWindows(disk: Disk, backup: Place, target: Place, pid: string) returns (ok: bool)
    requires backup !in Touched(target)
    modifies disk
    ensures old(disk.history) <= disk.history
    ensures old(disk.calls) <= disk.calls
    ensures Steps(disk.history, |old(disk.history)|, old(disk.entries), Touched(target))
    ensures SameBut(old(disk.entries), disk.entries, Touched(target))
    ensures ok ==> backup in old(disk.entries) && Holds(disk.entries, target, old(disk.entries)[backup])
    // Whatever is at the target is moved aside first; the rollback fails only when the copy does not work.
    ensures |disk.calls| > |old(disk.calls)| && MovesAside(disk.calls[|old(disk.calls)|], target)
    ensures !ok ==> LastCall(disk.calls, Copied(backup, target, false))
    ensures ok && disk.Refused() == old(disk.Refused()) ==> Sidecar(target, pid, ".rollback-old") !in disk.entries
    ensures disk.Refused() >= old(disk.Refused())
  {
    hide Refusals;
    hide IsSidecar, IsFile, IsDirectory, Replaceable;
    var sidelined := Sidecar(target, pid, ".rollback-old");
    SidecarTouched(target, pid, ".rollback-old");
    assert sidelined != target && backup != target && backup != sidelined;
    hide Sidecar;
    var moved := disk.Rename(target, sidelined);
    ok := CopyBack(disk, backup, target, sidelined);
  }

  /** The backup is copied to the target, and what was moved aside for it is removed. */
  method CopyBack(disk: Disk, backup: Place, target: Place, sidelined: Place) returns (ok: bool)
    requires backup != target && backup != sidelined && sidelined != target
    modifies disk
    ensures old(disk.history) <= disk.history
    ensures old(disk.calls) <= disk.calls
    ensures Steps(disk.history, |old(disk.history)|, old(disk.entries), iset{target, sidelined})
    ensures SameBut(old(disk.entries), disk.entries, iset{target, sidelined})
    ensures ok ==> backup in old(disk.entries) && Holds(disk.entries, target, old(disk.entries)[backup])
    ensures !ok ==> LastCall(disk.calls, Copied(backup, target, false))
    ensures ok && disk.Refused() == old(disk.Refused()) ==> sidelined !in disk.entries
    ensures disk.Refused() >= old(disk.Refused())
  {
    hide Refusals, IsFile, IsDirectory;
    ok := disk.Copy(backup, target);
    if !ok {
      return;
    }
    var removed := disk.Remove(sidelined);
  }
}
