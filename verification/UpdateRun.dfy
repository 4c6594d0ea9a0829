/**
 The six phases of the self-updater (`backend/src/commands/update.rs`, `run`): preflight, download, backup,
 validation, swap with rollback, smoke test with rollback, and the companion files. The network, the processes it
 starts and the content of the archive are the environment's choice.
 */
module UpdateRun {
  import opened Wrappers
  import opened FileTrees
  import opened UpdateDisk
  import opened UpdateBinary
  import opened UpdateArtifacts

  datatype Release = Release(isNewer: bool, hasAsset: bool)

  /** How an update ends; a failed swap or smoke test says whether the rollback restored the backup. */
  datatype Outcome = UpToDate | Updated | Failed | SwapFailed(restored: bool) | SmokeFailed(restored: bool)

  const MIN_BINARY_SIZE := 1_000_000

  predicate Acceptable(t: Tree) { IsFile(t) && |t[[]].bytes| >= MIN_BINARY_SIZE }

  predicate ShouldInstall(isNewer: bool, force: bool) { isNewer || force }

  function Probe(exe: Place, pid: string): Place { Place(exe.dir, ".omnesagent-update-probe-" + pid) }

  predicate InTemp(temp: string, p: Place) { temp <= p.dir }

  ghost function TempPlaces(temp: string): iset<Place> { iset p: Place | InTemp(temp, p) }

  function Companion(exe: Place,
      windows: bool): Place { Place(exe.dir, if windows then "zerocode.exe" else "zerocode") }

  function StagedWeb(staging: string): Place { Place(staging + "/web", "dist") }

  /** The companion file as the archive brings it. */
  function StagedCompanion(staging: string, exe: Place, windows: bool): Place {
    Place(staging, Companion(exe, windows).name)
  }

  ghost function BundlePlaces(staging: string, web: Place): iset<Place> { Residue(web) + iset{web, StagedWeb(staging)} }

  ghost function CompanionPlaces(staging: string, exe: Place, web: Place, windows: bool): iset<Place> {
    BundlePlaces(staging, web) + Residue(Companion(exe, windows)) + iset{Companion(exe, windows)}
  }

  /** Since position `n` a place has held what it held before. */
  ghost predicate Still(history: seq<State>, n: nat, before: State, now: State, p: Place) {
    At(now, p) == At(before, p) && forall k | n <= k < |history| :: At(history[k], p) == At(before, p)
  }

  /**
   What has become of a target since position `n`: not attempted, it never changed; replaced, it is what was staged;
   tried in vain, it is what it was, on Windows perhaps under the sidelined name. On Unix it was never anything else
   in between.
   */
  ghost predicate Settled(history: seq<State>, n: nat, before: State, now: State, staged: Place, target: Place,
                          aside: Place, windows: bool, replaced: Option<bool>)
  {
    && (replaced.None? ==> Still(history, n, before, now, target))
    && (replaced == Some(true) ==> staged in before && Holds(now, target, before[staged]))
    && (replaced == Some(false) && !windows ==> At(now, target) == At(before, target))
    && (replaced == Some(false) && windows && target in before ==>
          Holds(now, target, before[target]) || Holds(now, aside, before[target]))
    && (!windows ==> Atomic(history, n, before, target, staged))
  }

  /** The original binary is at its own path or at the backup path. */
  predicate Kept(s: State, exe: Place, original: Tree) { Holds(s, exe, original) || Holds(s, Backup(exe), original) }

  // ----- Companion artifacts -----

  predicate DirectoryAt(s: State, p: Place) { p in s && IsDirectory(s[p]) }

  predicate FileAt(s: State, p: Place) { p in s && IsFile(s[p]) }

  /** What the archive brings was installed, unless a call did not work. */
  ghost predicate InstalledUnlessRefused(brought: bool, installed: Option<bool>, refused0: nat, refused: nat) {
    && refused >= refused0
    && (installed == Some(false) ==> refused > refused0)
    && (installed.None? && brought ==> refused > refused0)
  }

  /**
   The dashboard bundle and the companion files on the allowlist. Failures are swallowed: the results say what was
   attempted and whether it worked.
   */
  method InstallCompanions(disk: Disk, staging: string, exe: Place, web: Place, windows: bool, pid: string)
    returns (bundle: Option<bool>, companion: Option<bool>)
    requires staging != exe.dir && staging != web.dir && staging + "/web" != web.dir && web.dir != exe.dir
    requires staging + "/web" != exe.dir && Staging(web, pid) !in disk.entries
    requires StagedWeb(staging) in disk.entries ==> WellFormed(disk.entries[StagedWeb(staging)])
    modifies disk
    ensures old(disk.history) <= disk.history
    ensures old(disk.calls) <= disk.calls
    ensures Steps(disk.history, |old(disk.history)|, old(disk.entries), CompanionPlaces(staging, exe, web, windows))
    ensures SameBut(old(disk.entries), disk.entries, CompanionPlaces(staging, exe, web, windows))
    ensures bundle == Some(true) ==>
      && StagedWeb(staging) in old(disk.entries) && web in disk.entries
      && disk.entries[web] in {old(disk.entries)[StagedWeb(staging)], Plain(old(disk.entries)[StagedWeb(staging)])}
    ensures Settled(disk.history, |old(disk.history)|, old(disk.entries), disk.entries,
      StagedCompanion(staging, exe, windows), Companion(exe, windows), Sidelined(Companion(exe, windows), pid), windows,
      companion)
    ensures companion.None? ==>
      && Steps(disk.history, |old(disk.history)|, old(disk.entries), BundlePlaces(staging, web))
      && SameBut(old(disk.entries), disk.entries, BundlePlaces(staging, web))
    ensures InstalledUnlessRefused(old(DirectoryAt(disk.entries, StagedWeb(staging))), bundle,
      old(disk.Refused()), disk.Refused())
    ensures InstalledUnlessRefused(old(FileAt(disk.entries, StagedCompanion(staging, exe, windows))), companion,
      old(disk.Refused()), disk.Refused())
  {
    hide Refusals;
    hide WellFormed, Residue, Plain, Staging, Sidelined, Companion, StagedWeb, Settled;
    bundle := InstallBundle(disk, staging, web, pid);
    ghost var (before, middle, now) := (old(disk.entries), disk.entries, disk.history);
    PlacesApart(staging, exe, web, windows);
    companion := InstallListed(disk, staging, exe, windows, pid);
    SettledAfter(disk.history, |old(disk.history)|, |now|, before, middle, disk.entries,
      StagedCompanion(staging, exe, windows), Companion(exe, windows), Sidelined(Companion(exe, windows), pid), windows,
      companion, BundlePlaces(staging, web));
  }

  method InstallBundle(disk: Disk, staging: string, web: Place, pid: string) returns (bundle: Option<bool>)
    requires staging + "/web" != web.dir && Staging(web, pid) !in disk.entries
    requires StagedWeb(staging) in disk.entries ==> WellFormed(disk.entries[StagedWeb(staging)])
    modifies disk
    ensures old(disk.history) <= disk.history
    ensures old(disk.calls) <= disk.calls
    ensures Steps(disk.history, |old(disk.history)|, old(disk.entries), BundlePlaces(staging, web))
    ensures SameBut(old(disk.entries), disk.entries, BundlePlaces(staging, web))
    ensures bundle == Some(true) ==>
      && StagedWeb(staging) in old(disk.entries) && web in disk.entries
      && disk.entries[web] in {old(disk.entries)[StagedWeb(staging)], Plain(old(disk.entries)[StagedWeb(staging)])}
    ensures bundle.Some? ==> old(DirectoryAt(disk.entries, StagedWeb(staging)))
    ensures InstalledUnlessRefused(old(DirectoryAt(disk.entries, StagedWeb(staging))), bundle,
      old(disk.Refused()), disk.Refused())
  {
    hide Refusals;
    hide WellFormed, Residue, KeptAside, Plain, Staging, Sidelined;
    bundle := None;
    var found := disk.Exists(StagedWeb(staging));
    if found && IsDirectory(disk.entries[StagedWeb(staging)]) {
      var installed := InstallWebDist(disk, StagedWeb(staging), web, pid);
      bundle := Some(installed);
    }
  }

  /** The top-level files of the archive, in any order: the one on the allowlist is swapped in, once. */
  method InstallListed(disk: Disk, staging: string, exe: Place, windows: bool, pid: string)
    returns (companion: Option<bool>)
    requires staging != exe.dir
    modifies disk
    ensures old(disk.history) <= disk.history
    ensures old(disk.calls) <= disk.calls
    ensures Steps(disk.history, |old(disk.history)|, old(disk.entries),
      Residue(Companion(exe, windows)) + iset{Companion(exe, windows)})
    ensures SameBut(old(disk.entries), disk.entries, Residue(Companion(exe, windows)) + iset{Companion(exe, windows)})
    ensures Settled(disk.history, |old(disk.history)|, old(disk.entries), disk.entries,
      StagedCompanion(staging, exe, windows), Companion(exe, windows), Sidelined(Companion(exe, windows), pid), windows,
      companion)
    ensures companion.None? ==> disk.entries == old(disk.entries) && disk.history == old(disk.history)
    ensures companion.Some? ==> old(FileAt(disk.entries, StagedCompanion(staging, exe, windows)))
    ensures InstalledUnlessRefused(old(FileAt(disk.entries, StagedCompanion(staging, exe, windows))), companion,
      old(disk.Refused()), disk.Refused())
  {
    hide Refusals;
    hide Residue, IsFile, Sidelined, Settled;
    companion := None;
    NothingAttempted(disk.history, disk.entries, StagedCompanion(staging, exe, windows), Companion(exe, windows),
      Sidelined(Companion(exe, windows), pid), windows);
    var readable := disk.Ask(Listing(staging));
    if !readable {
      return;
    }
    var left := set p | p in disk.entries && p.dir == staging;
    while left != {}
      invariant old(disk.history) <= disk.history
      invariant old(disk.calls) <= disk.calls
      invariant Steps(disk.history, |old(disk.history)|, old(disk.entries),
        Residue(Companion(exe, windows)) + iset{Companion(exe, windows)})
      invariant SameBut(old(disk.entries), disk.entries,
        Residue(Companion(exe, windows)) + iset{Companion(exe, windows)})
      invariant forall p | p in left :: p.dir == staging
      invariant Settled(disk.history, |old(disk.history)|, old(disk.entries), disk.entries,
        StagedCompanion(staging, exe, windows), Companion(exe, windows), Sidelined(Companion(exe, windows), pid),
          windows,
        companion)
      invariant companion.None? ==> disk.entries == old(disk.entries) && disk.history == old(disk.history)
      invariant companion.Some? ==> StagedCompanion(staging, exe, windows) !in left
      invariant disk.Refused() >= old(disk.Refused())
      invariant companion == Some(false) ==> disk.Refused() > old(disk.Refused())
      invariant companion.Some? ==> old(FileAt(disk.entries, StagedCompanion(staging, exe, windows)))
      invariant companion.None? && FileAt(disk.entries, StagedCompanion(staging, exe, windows)) ==>
        StagedCompanion(staging, exe, windows) in left || disk.Refused() > old(disk.Refused())
    {
      var p :| p in left;
      left := left - {p};
      var known := disk.Ask(Kind(p));
      if known && p in disk.entries && IsFile(disk.entries[p]) && p.name == Companion(exe, windows).name {
        assert p == StagedCompanion(staging, exe, windows) && companion.None?;
        var installed := SwapFile(disk, p, Companion(exe, windows), windows, pid);
        companion := Some(installed);
      }
    }
  }

  lemma NothingAttempted(history: seq<State>, now: State, staged: Place, target: Place, aside: Place, windows: bool)
    ensures Settled(history, |history|, now, now, staged, target, aside, windows, None)
  {
  }

  /** Steps that touch neither the target nor what is staged for it may come before. */
  lemma SettledAfter(history: seq<State>, n: nat, m: nat, before: State, middle: State, now: State, staged: Place,
                     target: Place, aside: Place, windows: bool, replaced: Option<bool>, touched: iset<Place>)
    requires Settled(history, m, middle, now, staged, target, aside, windows, replaced)
    requires n <= m <= |history| && Steps(history[..m], n, before, touched) && SameBut(before, middle, touched)
    requires target !in touched && staged !in touched
    ensures Settled(history, n, before, now, staged, target, aside, windows, replaced)
  {
    forall k | n <= k < m ensures At(history[k], target) == At(before, target) {
      assert history[..m][k] == history[k];
    }
  }

  /** The bundle, the companion and what is staged are in directories of their own. */
  lemma PlacesApart(staging: string, exe: Place, web: Place, windows: bool)
    requires staging != web.dir && web.dir != exe.dir && staging + "/web" != exe.dir
    ensures web !in Residue(Companion(exe, windows)) + iset{Companion(exe, windows)}
    ensures StagedWeb(staging) !in Residue(Companion(exe, windows)) + iset{Companion(exe, windows)}
    ensures Companion(exe, windows) !in BundlePlaces(staging, web)
    ensures StagedCompanion(staging, exe, windows) !in BundlePlaces(staging, web)
  {
    assert |staging + "/web"| != |staging|;
  }

  method SwapFile(disk: Disk, new_: Place, target: Place, windows: bool, pid: string) returns (ok: bool)
    requires new_.dir != target.dir
    modifies disk
    ensures old(disk.history) <= disk.history
    ensures old(disk.calls) <= disk.calls
    ensures Steps(disk.history, |old(disk.history)|, old(disk.entries), Residue(target) + iset{target})
    ensures SameBut(old(disk.entries), disk.entries, Residue(target) + iset{target})
    ensures Settled(disk.history, |old(disk.history)|, old(disk.entries), disk.entries, new_, target,
      Sidelined(target, pid), windows, Some(ok))
    // On Windows a locked target is no reason to give up.
    ensures windows && !ok ==>
      LastCall(disk.calls, Copied(new_, Staging(target, pid), false)) || disk.Refused() >= old(disk.Refused()) + 2
    ensures disk.Refused() >= old(disk.Refused()) && (!ok ==> disk.Refused() > old(disk.Refused()))
  {
    hide Refusals;
    if windows {
      ok := SwapFileWindows(disk, new_, target, pid);
    } else {
      ok := SwapFileUnix(disk, new_, target, pid);
    }
  }

  /** The dashboard bundle the archive brings is the one in place. */
  ghost predicate BundleInstalled(before: State, now: State, temp: string, web: Place) {
    var staged := StagedWeb(temp + "/staging");
    DirectoryAt(before, staged) ==> web in now && now[web] in {before[staged], Plain(before[staged])}
  }

  // ----- The binary on either platform -----

  method SwapBinary(disk: Disk, new_: Place, target: Place, windows: bool, pid: string) returns (ok: bool)
    requires new_.dir != target.dir
    modifies disk
    ensures old(disk.history) <= disk.history
    ensures old(disk.calls) <= disk.calls
    ensures Steps(disk.history, |old(disk.history)|, old(disk.entries), Touched(target))
    ensures SameBut(old(disk.entries), disk.entries, Touched(target))
    ensures ok ==> new_ in old(disk.entries) && Holds(disk.entries, target, old(disk.entries)[new_])
    ensures disk.Refused() >= old(disk.Refused()) && (!ok ==> disk.Refused() > old(disk.Refused()))
    ensures |disk.calls| > |old(disk.calls)|
    ensures if windows then MovesAside(disk.calls[|old(disk.calls)|], target)
      else Unlinks(disk.calls[|old(disk.calls)|], target)
  {
    hide Refusals;
    if windows {
      ok := SwapWindows(disk, new_, target, pid);
    } else {
      ok := SwapUnix(disk, new_, target);
    }
  }

  method RollbackBinary(disk: Disk, backup: Place, target: Place, windows: bool, pid: string) returns (ok: bool)
    requires backup !in Touched(target)
    modifies disk
    ensures old(disk.history) <= disk.history
    ensures old(disk.calls) <= disk.calls
    ensures Steps(disk.history, |old(disk.history)|, old(disk.entries), Touched(target))
    ensures SameBut(old(disk.entries), disk.entries, Touched(target))
    ensures ok ==> backup in old(disk.entries) && Holds(disk.entries, target, old(disk.entries)[backup])
    ensures !ok ==> LastCall(disk.calls, Copied(backup, target, false))
    ensures disk.Refused() >= old(disk.Refused())
    ensures |disk.calls| > |old(disk.calls)|
    ensures if windows then MovesAside(disk.calls[|old(disk.calls)|], target)
      else Unlinks(disk.calls[|old(disk.calls)|], target)
  {
    hide Refusals;
    if windows {
      ok := RollbackWindows(disk, backup, target, pid);
    } else {
      ok := RollbackUnix(disk, backup, target);
    }
  }

  // ----- Phases 1 to 4 -----

  ghost predicate AskedSince(calls: seq<Call>, n: nat, question: Question, ok: bool) {
    exists k | n <= k < |calls| :: calls[k] == Asked(question, ok)
  }

  lemma AskedOn(before: seq<Call>, after: seq<Call>, n: nat, m: nat, question: Question, ok: bool)
    requires before <= after && n <= m && AskedSince(before, m, question, ok)
    ensures AskedSince(after, n, question, ok)
  {
    var k :| m <= k < |before| && before[k] == Asked(question, ok);
    assert after[k] == before[k];
  }

  /** A file is created next to the binary and removed again. */
  method EnsureInstallDirWritable(disk: Disk, exe: Place, pid: string) returns (ok: bool)
    modifies disk
    ensures old(disk.history) <= disk.history
    ensures old(disk.calls) <= disk.calls
    ensures Steps(disk.history, |old(disk.history)|, old(disk.entries), iset{Probe(exe, pid)})
    ensures SameBut(old(disk.entries), disk.entries, iset{Probe(exe, pid)})
    ensures ok && disk.Refused() == old(disk.Refused()) ==> Probe(exe, pid) !in disk.entries
    ensures old(disk.calls) + [Asked(Writable, ok)] <= disk.calls && (!ok ==> |disk.calls| == |old(disk.calls)| + 1)
    ensures disk.Refused() >= old(disk.Refused()) && (!ok ==> disk.Refused() > old(disk.Refused()))
  {
    hide Refusals;
    ok := disk.Ask(Writable);
    if ok {
      disk.Leave(Probe(exe, pid));
      var removed := disk.Remove(Probe(exe, pid));
    }
  }

  /** The archive is unpacked below the temporary directory; the main binary is one of the places there. */
  method DownloadRelease(disk: Disk, temp: string) returns (main: Option<Place>)
    requires forall p | p in disk.entries :: !InTemp(temp, p)
    modifies disk
    ensures old(disk.history) <= disk.history
    ensures old(disk.calls) <= disk.calls
    ensures Steps(disk.history, |old(disk.history)|, old(disk.entries), TempPlaces(temp))
    ensures SameBut(old(disk.entries), disk.entries, TempPlaces(temp))
    ensures main.Some? ==> InTemp(temp, main.value) && main.value in disk.entries
    ensures forall p | p in disk.entries && InTemp(temp, p) :: WellFormed(disk.entries[p])
    ensures disk.Refused() >= old(disk.Refused())
    ensures AskedSince(disk.calls, |old(disk.calls)|, Download, true) || disk.Refused() > old(disk.Refused())
    ensures main.Some? ==> AskedSince(disk.calls, |old(disk.calls)|, Download, true)
    ensures main.None? ==>
      disk.Refused() > old(disk.Refused()) || forall p | p in disk.entries :: !InTemp(temp, p)
  {
    hide Refusals;
    hide WellFormed;
    main := None;
    var left: int := *;
    while left > 0
      invariant old(disk.history) <= disk.history
      invariant old(disk.calls) <= disk.calls
      invariant Steps(disk.history, |old(disk.history)|, old(disk.entries), TempPlaces(temp))
      invariant SameBut(old(disk.entries), disk.entries, TempPlaces(temp))
      invariant forall p | p in disk.entries && InTemp(temp, p) :: WellFormed(disk.entries[p])
      invariant disk.calls == old(disk.calls)
    {
      left := left - 1;
      var p: Place := *;
      var t: Tree := *;
      if InTemp(temp, p) && WellFormed(t) {
        disk.Unpack(p, t);
      }
    }
    var downloaded := disk.Ask(Download);
    assert disk.calls[|old(disk.calls)|] == Asked(Download, downloaded);
    var unpacked := set p | p in disk.entries && InTemp(temp, p);
    assert forall p | p in disk.entries && InTemp(temp, p) :: p in unpacked;
    if downloaded && unpacked != {} {
      var p :| p in unpacked;
      main := Some(p);
    }
  }

  /**
   Large enough, of this host's architecture, and it prints its name: all but the first is the environment's answer.
   */
  method ValidateBinary(disk: Disk, main: Place) returns (ok: bool)
    modifies disk`calls
    ensures ok ==> main in disk.entries && Acceptable(disk.entries[main])
    ensures ok ==> |disk.entries[main][[]].bytes| >= 1_000_000
    ensures disk.Refused() >= old(disk.Refused())
    ensures !ok && FileAt(disk.entries, main) && |disk.entries[main][[]].bytes| >= 1_000_000 ==>
      disk.Refused() > old(disk.Refused())
    ensures ok ==> LastCall(disk.calls, Asked(Sound, true))
    ensures old(disk.calls) <= disk.calls
  {
    hide Refusals;
    var known := disk.Exists(main);
    if !known || !Acceptable(disk.entries[main]) {
      return false;
    }
    ok := disk.Ask(Sound);
  }

  /** Where an update finds its places: nothing is in the way of the names it makes up. */
  predicate Placed(s: State, exe: Place, web: Place, temp: string, pid: string) {
    && exe in s && Backup(exe) != exe
    && Probe(exe, pid) !in s && Staging(web, pid) !in s
    && (forall p | p in s :: !InTemp(temp, p))
    && !(temp <= exe.dir) && !(temp <= web.dir) && web.dir != exe.dir
  }

  /** Nothing was downloaded, or something that is no acceptable binary. */
  ghost predicate BadDownload(s: State, temp: string) {
    (forall p | p in s :: !InTemp(temp, p)) || exists p | p in s && InTemp(temp, p) :: !Acceptable(s[p])
  }

  /** Preflight, download, backup and validation; the binary itself is never touched. */
  method Prepare(disk: Disk, exe: Place, web: Place, temp: string, pid: string) returns (main: Option<Place>)
    requires Placed(disk.entries, exe, web, temp, pid)
    modifies disk
    ensures old(disk.history) <= disk.history
    ensures old(disk.calls) <= disk.calls
    ensures Steps(disk.history, |old(disk.history)|, old(disk.entries),
      TempPlaces(temp) + iset{Probe(exe, pid), Backup(exe)})
    ensures SameBut(old(disk.entries), disk.entries, TempPlaces(temp) + iset{Probe(exe, pid), Backup(exe)})
    ensures Probe(exe, pid) != exe && exe !in TempPlaces(temp)
    ensures main.Some? ==>
      && InTemp(temp, main.value) && main.value in disk.entries && Acceptable(disk.entries[main.value])
      && Holds(disk.entries, Backup(exe), old(disk.entries)[exe])
      && |disk.calls| > |old(disk.calls)| && LastCall(disk.calls, Asked(Sound, true))
    ensures forall p | p in disk.entries && InTemp(temp, p) :: WellFormed(disk.entries[p])
    ensures disk.Refused() >= old(disk.Refused())
    // Without a writable directory nothing is downloaded, and without a sound download nothing is used.
    ensures old(disk.calls) < disk.calls
    ensures disk.calls[|old(disk.calls)|] == Asked(Writable, disk.calls[|old(disk.calls)|].ok)
    ensures !disk.calls[|old(disk.calls)|].ok ==> main.None? && |disk.calls| == |old(disk.calls)| + 1
    ensures main.None? ==>
      || disk.Refused() > old(disk.Refused())
      || (AskedSince(disk.calls, |old(disk.calls)|, Download, true) && BadDownload(disk.entries, temp))
  {
    hide Refusals;
    hide WellFormed, Backup, Staging, IsFile, AskedSince, Acceptable;
    BackupPlace(exe);
    main := Fetch(disk, exe, temp, pid);
    ghost var calls := disk.calls;
    if main.None? {
      return;
    }
    var ok := BackUpAndValidate(disk, exe, main.value);
    AskedOn(calls, disk.calls, |old(disk.calls)|, |old(disk.calls)|, Download, true);
    if !ok {
      return None;
    }
  }

  /** The preflight's probe of the directory, then the download. */
  method Fetch(disk: Disk, exe: Place, temp: string, pid: string) returns (main: Option<Place>)
    requires !(temp <= exe.dir) && forall p | p in disk.entries :: !InTemp(temp, p)
    modifies disk
    ensures old(disk.history) <= disk.history
    ensures Steps(disk.history, |old(disk.history)|, old(disk.entries), TempPlaces(temp) + iset{Probe(exe, pid)})
    ensures SameBut(old(disk.entries), disk.entries, TempPlaces(temp) + iset{Probe(exe, pid)})
    ensures main.Some? ==> InTemp(temp, main.value) && main.value in disk.entries
    ensures forall p | p in disk.entries && InTemp(temp, p) :: WellFormed(disk.entries[p])
    ensures disk.Refused() >= old(disk.Refused())
    ensures old(disk.calls) < disk.calls
    ensures disk.calls[|old(disk.calls)|] == Asked(Writable, disk.calls[|old(disk.calls)|].ok)
    ensures !disk.calls[|old(disk.calls)|].ok ==> main.None? && |disk.calls| == |old(disk.calls)| + 1
    ensures main.Some? ==> AskedSince(disk.calls, |old(disk.calls)|, Download, true)
    ensures main.None? ==>
      || disk.Refused() > old(disk.Refused())
      || (AskedSince(disk.calls, |old(disk.calls)|, Download, true) && BadDownload(disk.entries, temp))
  {
    hide Refusals, WellFormed, AskedSince, Acceptable;
    var ok := EnsureInstallDirWritable(disk, exe, pid);
    if !ok {
      return None;
    }
    ghost var n := |disk.calls|;
    main := DownloadRelease(disk, temp);
    if AskedSince(disk.calls, n, Download, true) {
      AskedOn(disk.calls, disk.calls, |old(disk.calls)|, n, Download, true);
    }
  }

  /** The backup, then the validation of the download. */
  method BackUpAndValidate(disk: Disk, exe: Place, main: Place) returns (ok: bool)
    requires Backup(exe) != exe && Backup(exe) != main && main in disk.entries
    modifies disk
    ensures old(disk.history) <= disk.history
    ensures old(disk.calls) <= disk.calls
    ensures Steps(disk.history, |old(disk.history)|, old(disk.entries), iset{Backup(exe)})
    ensures SameBut(old(disk.entries), disk.entries, iset{Backup(exe)})
    ensures ok ==>
      && Acceptable(disk.entries[main]) && exe in old(disk.entries)
      && Holds(disk.entries, Backup(exe), old(disk.entries)[exe])
      && |disk.calls| > |old(disk.calls)| && LastCall(disk.calls, Asked(Sound, true))
    ensures disk.Refused() >= old(disk.Refused())
    ensures !ok ==> disk.Refused() > old(disk.Refused()) || !Acceptable(disk.entries[main])
  {
    hide Refusals, Backup, IsFile;
    ok := disk.Copy(exe, Backup(exe));
    if !ok {
      return;
    }
    ok := ValidateBinary(disk, main);
  }

  lemma BackupPlace(exe: Place)
    ensures Backup(exe).dir == exe.dir
  {
  }

  // ----- Phases 5 and 6 -----

  /** The binary does not bear the name of a companion file, nor one of its residue. */
  predicate NotCompanion(exe: Place, windows: bool) {
    exe != Companion(exe, windows) && !IsResidue(Companion(exe, windows), exe)
  }

  lemma BinaryApart(staging: string, exe: Place, web: Place, windows: bool)
    requires web.dir != exe.dir && staging + "/web" != exe.dir
    ensures exe !in BundlePlaces(staging, web)
    ensures NotCompanion(exe, windows) ==> exe !in CompanionPlaces(staging, exe, web, windows)
  {
  }

  lemma StagedApart(staging: string, exe: Place, web: Place, windows: bool)
    requires staging != exe.dir && staging != web.dir
    ensures StagedCompanion(staging, exe, windows) !in CompanionPlaces(staging, exe, web, windows)
    ensures StagedCompanion(staging, exe, windows) != Backup(exe)
  {
    assert |staging + "/web"| != |staging|;
  }

  /** Where the archive's companion file is staged. */
  function CompanionIn(temp: string, exe: Place, windows: bool): Place {
    StagedCompanion(temp + "/staging", exe, windows)
  }

  /**
   What becomes of a binary, in place since position `n`, when the companion files are installed. Nothing, unless it
   bears the companion's name and the companion is installed: then the companion's bytes are in its place.
   */
  ghost predicate BinaryAfter(history: seq<State>, n: nat, now: State, exe: Place, binary: Tree, temp: string,
                              windows: bool, companion: Option<bool>)
  {
    var staged := CompanionIn(temp, exe, windows);
    && (NotCompanion(exe, windows) || companion.None? ==>
          Holds(now, exe, binary) && forall k | n <= k < |history| :: Holds(history[k], exe, binary))
    && (companion == Some(true) ==> staged in now && Holds(now, Companion(exe, windows), now[staged]))
    && (exe == Companion(exe, windows) && companion == Some(false) && !windows ==> Holds(now, exe, binary))
    && (exe == Companion(exe, windows) && !windows ==>
          forall k | n <= k < |history| :: Holds(history[k], exe, binary)
            || (staged in now && Holds(history[k], exe, now[staged])))
  }

  lemma SettledBinary(history: seq<State>, n: nat, before: State, now: State, exe: Place, temp: string, windows: bool,
                      pid: string, companion: Option<bool>)
    requires exe in before && Settled(history, n, before, now, CompanionIn(temp, exe, windows),
      Companion(exe, windows), Sidelined(Companion(exe, windows), pid), windows, companion)
    requires At(now, CompanionIn(temp, exe, windows)) == At(before, CompanionIn(temp, exe, windows))
    requires NotCompanion(exe, windows) || companion.None? ==> Still(history, n, before, now, exe)
    ensures BinaryAfter(history, n, now, exe, before[exe], temp, windows, companion)
  {
    hide Sidelined, IsResidue, Companion, CompanionIn;
    forall k | n <= k < |history| && At(history[k], exe) == At(before, exe)
      ensures Holds(history[k], exe, before[exe])
    {
    }
  }

  lemma StepsStill(history: seq<State>, n: nat, before: State, now: State, touched: iset<Place>, p: Place)
    requires Steps(history, n, before, touched) && SameBut(before, now, touched) && p !in touched
    ensures Still(history, n, before, now, p)
  {
  }

  /** Steps before the installation, and then what the installation did. */
  lemma StillAfter(history: seq<State>, n: nat, m: nat, before: State, middle: State, now: State, p: Place)
    requires n <= m <= |history| && Still(history[..m], n, before, middle, p) && Still(history, m, middle, now, p)
    ensures Still(history, n, before, now, p)
  {
    forall k | n <= k < m ensures At(history[k], p) == At(before, p) {
      assert history[..m][k] == history[k];
    }
  }

  /** Cleans up and installs the rest of the archive: the new binary stays, unless it bears the companion's name. */
  method Complete(disk: Disk, exe: Place, web: Place, temp: string, windows: bool, pid: string)
    returns (companion: Option<bool>)
    requires Backup(exe) != exe && web.dir != exe.dir && !(temp <= exe.dir) && !(temp <= web.dir)
    requires Staging(web, pid) !in disk.entries && exe in disk.entries
    requires forall p | p in disk.entries && InTemp(temp, p) :: WellFormed(disk.entries[p])
    modifies disk
    ensures old(disk.history) <= disk.history
    ensures old(disk.calls) <= disk.calls
    ensures BinaryAfter(disk.history, |old(disk.history)|, disk.entries, exe, old(disk.entries)[exe], temp, windows,
      companion)
    ensures At(disk.entries, CompanionIn(temp, exe, windows)) == At(old(disk.entries), CompanionIn(temp, exe, windows))
    ensures InstalledUnlessRefused(old(FileAt(disk.entries, CompanionIn(temp, exe, windows))), companion,
      old(disk.Refused()), disk.Refused())
    ensures disk.Refused() == old(disk.Refused()) && !IsResidue(Companion(exe, windows), Backup(exe)) ==>
      Backup(exe) !in disk.entries
    ensures disk.Refused() == old(disk.Refused()) ==> BundleInstalled(old(disk.entries), disk.entries, temp, web)
  {
    hide Refusals;
    hide WellFormed, Backup, Staging, Residue, IsResidue, CompanionPlaces, BundlePlaces, Settled, Sidelined;
    hide BinaryAfter;
    hide NotCompanion;
    var staging := temp + "/staging";
    assert temp <= staging && temp <= staging + "/web";
    BinaryApart(staging, exe, web, windows);
    StagedApart(staging, exe, web, windows);
    BackupPlace(exe);
    ghost var (before, n) := (disk.entries, |disk.history|);
    var removed := disk.Remove(Backup(exe));
    ghost var (middle, m, then_) := (disk.entries, |disk.history|, disk.history);
    var bundle;
    bundle, companion := InstallCompanions(disk, staging, exe, web, windows, pid);
    assert disk.history[..m] == then_;
    CompanionNotBackup(exe, windows);
    SettledAfter(disk.history, n, m, before, middle, disk.entries, CompanionIn(temp, exe, windows),
      Companion(exe, windows), Sidelined(Companion(exe, windows), pid), windows, companion, iset{Backup(exe)});
    StepsStill(then_, n, before, middle, iset{Backup(exe)}, exe);
    if companion.None? {
      StepsStill(disk.history, m, middle, disk.entries, BundlePlaces(staging, web), exe);
      StillAfter(disk.history, n, m, before, middle, disk.entries, exe);
    } else if NotCompanion(exe, windows) {
      StepsStill(disk.history, m, middle, disk.entries, CompanionPlaces(staging, exe, web, windows), exe);
      StillAfter(disk.history, n, m, before, middle, disk.entries, exe);
    }
    SettledBinary(disk.history, n, before, disk.entries, exe, temp, windows, pid, companion);
    if !IsResidue(Companion(exe, windows), Backup(exe)) {
      BackupApart(staging, exe, web, windows);
    }
    match bundle {
      case Some(installed) =>
        assert bundle == if installed then Some(true) else Some(false);
      case None =>
    }
  }

  lemma BackupApart(staging: string, exe: Place, web: Place, windows: bool)
    requires web.dir != exe.dir && staging + "/web" != exe.dir && !IsResidue(Companion(exe, windows), Backup(exe))
    ensures Backup(exe) !in CompanionPlaces(staging, exe, web, windows)
  {
    CompanionNotBackup(exe, windows);
    BackupPlace(exe);
    hide Backup, Companion;
  }

  lemma CompanionNotBackup(exe: Place, windows: bool)
    ensures Companion(exe, windows) != Backup(exe)
  {
    var name := Backup(exe).name;
    assert name[|name| - 1] == 'k';
  }

  /** Swap and smoke test; `passed` is the position in the history at which the smoke test succeeded. */
  method Commit(disk: Disk, exe: Place, main: Place, web: Place, temp: string, windows: bool, pid: string)
    returns (r: Outcome, companion: Option<bool>, ghost passed: nat)
    requires Backup(exe) != exe && web.dir != exe.dir && !(temp <= exe.dir) && !(temp <= web.dir)
    requires Staging(web, pid) !in disk.entries && Backup(exe) in disk.entries && main in disk.entries
    requires InTemp(temp, main)
    requires forall p | p in disk.entries && InTemp(temp, p) :: WellFormed(disk.entries[p])
    modifies disk
    ensures old(disk.history) <= disk.history && |old(disk.history)| <= passed <= |disk.history|
    ensures old(disk.calls) <= disk.calls
    ensures r.Updated? || ((r.SwapFailed? || r.SmokeFailed?) && passed == |disk.history|)
    ensures forall k | |old(disk.history)| <= k < passed ::
      Holds(disk.history[k], Backup(exe), old(disk.entries)[Backup(exe)])
    ensures r.Updated? ==>
      BinaryAfter(disk.history, passed, disk.entries, exe, old(disk.entries)[main], temp, windows, companion)
    ensures At(disk.entries, CompanionIn(temp, exe, windows)) == At(old(disk.entries), CompanionIn(temp, exe, windows))
    ensures !r.Updated? ==> companion.None? && Holds(disk.entries, Backup(exe), old(disk.entries)[Backup(exe)])
    ensures r in {SwapFailed(true), SmokeFailed(true)} ==> Holds(disk.entries, exe, old(disk.entries)[Backup(exe)])
    // The backup is copied back after every failure: only that copy can fail it.
    ensures r in {SwapFailed(false), SmokeFailed(false)} ==> LastCall(disk.calls, Copied(Backup(exe), exe, false))
    ensures !r.Updated? ==> disk.Refused() > old(disk.Refused())
    // The new binary stays only when it passed its smoke test.
    ensures r.Updated? ==> AskedSince(disk.calls, |old(disk.calls)|, Smoke, true)
    ensures r.SmokeFailed? ==> AskedSince(disk.calls, |old(disk.calls)|, Smoke, false)
    ensures r.Updated? ==>
      InstalledUnlessRefused(old(FileAt(disk.entries, CompanionIn(temp, exe, windows))), companion,
        old(disk.Refused()), disk.Refused())
    ensures r.Updated? && disk.Refused() == old(disk.Refused()) && !IsResidue(Companion(exe, windows), Backup(exe)) ==>
      Backup(exe) !in disk.entries
    ensures r.Updated? && disk.Refused() == old(disk.Refused()) ==>
      BundleInstalled(old(disk.entries), disk.entries, temp, web)
  {
    hide WellFormed, Backup, Staging, Touched, NotCompanion, BinaryAfter;
    TouchedHere(exe, main, web, temp, windows, pid);
    companion := None;
    var ok := SwapBinary(disk, main, exe, windows, pid);
    if !ok {
      var restored := RollbackBinary(disk, Backup(exe), exe, windows, pid);
      return SwapFailed(restored), None, |disk.history|;
    }
    var runs := disk.Ask(Smoke);
    if !runs {
      var restored := RollbackBinary(disk, Backup(exe), exe, windows, pid);
      return SmokeFailed(restored), None, |disk.history|;
    }
    passed := |disk.history|;
    companion := Complete(disk, exe, web, temp, windows, pid);
    r := Updated;
  }

  lemma TouchedHere(exe: Place, main: Place, web: Place, temp: string, windows: bool, pid: string)
    requires Backup(exe) != exe && web.dir != exe.dir && !(temp <= exe.dir)
    ensures Backup(exe) !in Touched(exe) && Staging(web, pid) !in Touched(exe)
    ensures forall p | InTemp(temp, p) :: p !in Touched(exe) && p.dir != exe.dir
    ensures CompanionIn(temp, exe, windows) !in Touched(exe)
  {
    BackupUntouched(exe);
    assert InTemp(temp, CompanionIn(temp, exe, windows));
  }

  // ----- The whole update -----

  /**
   Until the smoke test has passed the original is at its own path or at the backup path; afterwards the validated
   binary is in place. An error leaves the original in place unless it says that the rollback failed. A binary that
   bears the companion's name is the exception: an update that installs the companion ends with the companion in its
   place.
   */
  method Run(disk: Disk, exe: Place, web: Place, temp: string, release: Option<Release>, force: bool, windows: bool,
             pid: string)
    returns (r: Outcome, validated: Option<Tree>, companion: Option<bool>, ghost passed: nat)
    requires Placed(disk.entries, exe, web, temp, pid)
    modifies disk
    ensures old(disk.history) <= disk.history && |old(disk.history)| <= passed <= |disk.history|
    ensures old(disk.calls) <= disk.calls
    ensures !r.Updated? ==> passed == |disk.history| && companion.None?
    ensures forall k | |old(disk.history)| <= k < passed :: Kept(disk.history[k], exe, old(disk.entries)[exe])
    ensures r.Updated? ==> validated.Some? && Acceptable(validated.value)
    ensures r.Updated? && (NotCompanion(exe, windows) || companion.None?) ==>
      && Holds(disk.entries, exe, validated.value)
      && forall k | passed <= k < |disk.history| :: Holds(disk.history[k], exe, validated.value)
    ensures r.Updated? && exe == Companion(exe, windows) && companion == Some(true) ==>
      && CompanionIn(temp, exe, windows) in disk.entries
      && Holds(disk.entries, exe, disk.entries[CompanionIn(temp, exe, windows)])
    ensures r.Updated? && exe == Companion(exe, windows) && companion == Some(false) && !windows ==>
      Holds(disk.entries, exe, validated.value)
    ensures r in {UpToDate, Failed, SwapFailed(true), SmokeFailed(true)} ==>
      Holds(disk.entries, exe, old(disk.entries)[exe])
    ensures r in {SwapFailed(false), SmokeFailed(false)} ==> Holds(disk.entries, Backup(exe), old(disk.entries)[exe])
    ensures r == UpToDate <==> release.Some? && !release.value.isNewer && !force
    ensures r == UpToDate ==> disk.entries == old(disk.entries)
    // It fails for a reason, and a rollback that failed was tried.
    ensures r == Failed ==>
      || release.None? || !release.value.hasAsset || disk.Refused() > old(disk.Refused())
      || (AskedSince(disk.calls, |old(disk.calls)|, Download, true) && BadDownload(disk.entries, temp))
    ensures r in {SwapFailed(false), SmokeFailed(false)} ==> LastCall(disk.calls, Copied(Backup(exe), exe, false))
    ensures r.SwapFailed? || r.SmokeFailed? ==> disk.Refused() > old(disk.Refused())
    ensures r.Updated? && disk.Refused() == old(disk.Refused()) && !IsResidue(Companion(exe, windows), Backup(exe)) ==>
      Backup(exe) !in disk.entries
    // Nothing is installed unless the download was sound, nor kept unless it passed its smoke test.
    ensures r.Updated? ==>
      AskedSince(disk.calls, |old(disk.calls)|, Sound, true) && AskedSince(disk.calls, |old(disk.calls)|, Smoke, true)
    ensures r.SwapFailed? || r.SmokeFailed? ==> AskedSince(disk.calls, |old(disk.calls)|, Sound, true)
    ensures r.SmokeFailed? ==> AskedSince(disk.calls, |old(disk.calls)|, Smoke, false)
    ensures r.Updated? && disk.Refused() == old(disk.Refused()) ==>
      && companion != Some(false)
      && (FileAt(disk.entries, CompanionIn(temp, exe, windows)) ==> companion.Some? && companion.value)
  {
    hide Refusals;
    hide WellFormed, Backup, Staging, NotCompanion, Touched, IsFile, CompanionIn, Companion, AskedSince;
    validated, companion, passed := None, None, |disk.history|;
    if release.None? {
      return Failed, None, None, |disk.history|;
    }
    if !ShouldInstall(release.value.isNewer, force) {
      return UpToDate, None, None, |disk.history|;
    }
    if !release.value.hasAsset {
      return Failed, None, None, |disk.history|;
    }
    BackupPlace(exe);
    ResidueNames(web, pid);
    var main := Prepare(disk, exe, web, temp, pid);
    if main.None? {
      return Failed, None, None, |disk.history|;
    }
    validated := Some(disk.entries[main.value]);
    ghost var calls := disk.calls;
    LastAsked(calls, |old(disk.calls)|, Sound, true);
    r, companion, passed := Commit(disk, exe, main.value, web, temp, windows, pid);
    AskedOn(calls, disk.calls, |old(disk.calls)|, |old(disk.calls)|, Sound, true);
    Since(calls, disk.calls, |old(disk.calls)|);
    match companion {
      case Some(installed) =>
        assert !installed ==> companion == Some(false);
      case None =>
    }
  }

  lemma LastAsked(calls: seq<Call>, n: nat, question: Question, ok: bool)
    requires n < |calls| && LastCall(calls, Asked(question, ok))
    ensures AskedSince(calls, n, question, ok)
  {
  }

  /** What was asked since a later call was asked since an earlier one. */
  lemma Since(calls: seq<Call>, after: seq<Call>, n: nat)
    requires n <= |calls|
    ensures forall ok | AskedSince(after, |calls|, Smoke, ok) :: AskedSince(after, n, Smoke, ok)
  {
  }

  /**
   On Unix the binary in place is the validated one exactly when no companion took its place, or took it with the same
   bytes.
   */
  lemma ValidatedIff(history: seq<State>, n: nat, now: State, exe: Place, binary: Tree, temp: string,
                     companion: Option<bool>)
    requires BinaryAfter(history, n, now, exe, binary, temp, false, companion)
    requires !IsResidue(Companion(exe, false), exe)
    ensures Holds(now, exe, binary) <==>
      (exe == Companion(exe, false) && companion == Some(true) ==> now[CompanionIn(temp, exe, false)] == binary)
  {
    hide IsResidue, CompanionIn, Companion;
    match companion
    case None =>
    case Some(installed) => assert companion == if installed then Some(true) else Some(false);
  }
}
