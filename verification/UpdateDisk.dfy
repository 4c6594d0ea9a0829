/**
 The file operations of the self-updater (`backend/src/commands/update.rs`). Every operation may fail, a copy or a
 removal may stop halfway, and every state the disk passes through is recorded, so that what holds at any
 interruption can be stated. Every call is recorded too with its answer: a step that fails, or is left out, must have
 been refused. A place is a name in a directory; what it holds is a tree.
 */
module UpdateDisk {
  import opened Wrappers
  import opened FileTrees

  datatype Place = Place(dir: string, name: string)

  type State = map<Place, Tree>

  predicate IsDirectory(t: Tree) { [] in t && t[[]].Directory? }

  predicate IsFile(t: Tree) { [] in t && t[[]].File? && t == map[[] := t[[]]] }

  predicate Holds(s: State, p: Place, t: Tree) { p in s && s[p] == t }

  function At(s: State, p: Place): Option<Tree> { if p in s then Some(s[p]) else None }

  /** The two states agree outside the touched places. */
  ghost predicate SameBut(before: State, after: State, touched: iset<Place>) {
    forall p | p !in touched :: (p in before <==> p in after) && (p in before ==> before[p] == after[p])
  }

  /** What a rename may replace: another non-directory by a non-directory, an empty directory by a directory. */
  predicate Replaceable(s: State, from: Place, to: Place)
    requires from in s
  {
    to in s && to != from ==>
      if IsDirectory(s[to]) then IsDirectory(s[from]) && s[to] == map[[] := Directory] else !IsDirectory(s[from])
  }

  function WithMode(t: Tree, mode: nat): Tree {
    if IsFile(t) then t[[] := File(t[[]].bytes, mode)] else t
  }

  /** From position `n` on, every recorded state differs from `before` only in the touched places. */
  ghost predicate Steps(history: seq<State>, n: nat, before: State, touched: iset<Place>) {
    forall k | n <= k < |history| :: SameBut(before, history[k], touched)
  }

  /** Steps that touched some places, and then others. */
  lemma StepsOn(history: seq<State>, n: nat, m: nat, before: State, middle: State, now: State, touched: iset<Place>,
      more: iset<Place>)
    requires n <= m <= |history| && more <= touched
    requires Steps(history[..m], n, before, touched) && SameBut(before, middle, touched)
    requires Steps(history, m, middle, more) && SameBut(middle, now, more)
    ensures Steps(history, n, before, touched) && SameBut(before, now, touched)
  {
    forall k | n <= k < |history| ensures SameBut(before, history[k], touched) {
      if k < m {
        assert history[..m][k] == history[k];
      } else {
        assert SameBut(middle, history[k], more);
      }
    }
  }

  /** The tree staged at a place, whole or as a copy that leaves links and special files out. */
  predicate IsStaged(before: State, staged: Place, t: Tree) {
    staged in before && (t == before[staged] || t == Plain(before[staged]))
  }

  /** Since position `n`, what was at the target is there or aside, or the new artefact is in its place. */
  ghost predicate KeptAside(history: seq<State>, n: nat, before: State, target: Place, aside: Place, staged: Place) {
    target in before ==>
      forall k | n <= k < |history| ::
        || Holds(history[k], target, before[target]) || Holds(history[k], aside, before[target])
        || (target in history[k] && IsStaged(before, staged, history[k][target]))
  }

  /** What the environment alone decides. */
  datatype Question =
    | Present(place: Place)
    | Listing(dir: string)
    | Entry(dir: string)
    | Kind(place: Place)
    | TreeListing(place: Place, rel: Rel)
    | TreeKind(place: Place, rel: Rel)
    | Writable
    | Download
    | Sound
    | Smoke

  /** A call, and whether it worked. */
  datatype Call =
    | Asked(question: Question, ok: bool)
    | Removed(place: Place, ok: bool)
    | Renamed(from: Place, to: Place, ok: bool)
    | Copied(from: Place, to: Place, ok: bool)
    | TreeRemoved(place: Place, ok: bool)
    | ModeSet(place: Place, ok: bool)
    | DirectoryMade(place: Place, rel: Rel, ok: bool)
    | FileCopied(from: Place, to: Place, rel: Rel, ok: bool)

  /** How many calls did not work. */
  function Refusals(calls: seq<Call>): nat {
    if calls == [] then 0 else Refusals(calls[..|calls| - 1]) + (if calls[|calls| - 1].ok then 0 else 1)
  }

  predicate DirectoryIn(s: State, p: Place, rel: Rel) { p in s && rel in s[p] && s[p][rel].Directory? }

  /** The last calls listed a directory and removed what was found. */
  ghost predicate EndsInSweep(calls: seq<Call>, dir: string) {
    exists k | 0 <= k < |calls| :: SweptFrom(calls, k, dir)
  }

  predicate SweptFrom(calls: seq<Call>, k: nat, dir: string)
    requires k < |calls|
  {
    calls[k].Asked? && calls[k].question == Listing(dir) && OnlyRemoves(calls, k + 1)
  }

  predicate OnlyRemoves(calls: seq<Call>, n: nat) {
    forall m | n <= m < |calls| :: calls[m].Asked? || calls[m].Removed? || calls[m].TreeRemoved?
  }

  predicate LastCall(calls: seq<Call>, call: Call) { calls != [] && calls[|calls| - 1] == call }

  class Disk {
    var entries: State
    ghost var history: seq<State>
    ghost var calls: seq<Call>

    constructor (initial: State)
      ensures entries == initial && history == [initial] && calls == []
    {
      entries, history, calls := initial, [initial], [];
    }

    ghost function Refused(): nat
      reads this`calls
    {
      Refusals(calls)
    }

    /** Every call is recorded. */
    ghost method Record(call: Call)
      modifies this`calls
      ensures calls == old(calls) + [call] && Refused() == old(Refused()) + (if call.ok then 0 else 1)
    {
      calls := calls + [call];
      assert calls[..|calls| - 1] == old(calls);
    }

    method Ask(question: Question) returns (ok: bool)
      modifies this`calls
      ensures calls == old(calls) + [Asked(question, ok)] && Refused() == old(Refused()) + (if ok then 0 else 1)
    {
      ok := *;
      Record(Asked(question, ok));
    }

    method Exists(p: Place) returns (ok: bool)
      modifies this`calls
      ensures ok ==> p in entries
      ensures calls == old(calls) + [Asked(Present(p), ok <==> p in entries)]
      ensures Refused() == old(Refused()) + (if ok <==> p in entries then 0 else 1)
    {
      ok := *;
      ok := ok && p in entries;
      Record(Asked(Present(p), ok <==> p in entries));
    }

    /** Reads a directory of the tree at a place; only a directory can be read. */
    method ReadTree(p: Place, rel: Rel) returns (ok: bool)
      modifies this`calls
      ensures ok ==> DirectoryIn(entries, p, rel)
      ensures calls == old(calls) + [Asked(TreeListing(p, rel), ok <==> DirectoryIn(entries, p, rel))]
      ensures Refused() == old(Refused()) + (if ok <==> DirectoryIn(entries, p, rel) then 0 else 1)
    {
      ok := *;
      ok := ok && DirectoryIn(entries, p, rel);
      Record(Asked(TreeListing(p, rel), ok <==> DirectoryIn(entries, p, rel)));
    }

    method Remove(p: Place) returns (ok: bool)
      modifies this
      ensures history == old(history) + [entries]
      ensures ok ==> p in old(entries) && !IsDirectory(old(entries)[p]) && entries == old(entries) - {p}
      ensures !ok ==> entries == old(entries)
      ensures calls == old(calls) + [Removed(p, ok)] && Refused() == old(Refused()) + (if ok then 0 else 1)
    {
      ok := *;
      ok := ok && p in entries && !IsDirectory(entries[p]);
      if ok {
        entries := entries - {p};
      }
      history := history + [entries];
      Record(Removed(p, ok));
    }

    method Rename(from: Place, to: Place) returns (ok: bool)
      modifies this
      ensures history == old(history) + [entries]
      ensures ok ==> from in old(entries) && Replaceable(old(entries), from, to)
      ensures ok ==> entries == (old(entries) - {from})[to := old(entries)[from]]
      ensures !ok ==> entries == old(entries)
      ensures calls == old(calls) + [Renamed(from, to, ok)] && Refused() == old(Refused()) + (if ok then 0 else 1)
    {
      ok := *;
      ok := ok && from in entries && Replaceable(entries, from, to);
      if ok {
        entries := (entries - {from})[to := entries[from]];
      }
      history := history + [entries];
      Record(Renamed(from, to, ok));
    }

    /** Whatever is left of a place after an operation on it stopped halfway. */
    method Leave(p: Place)
      modifies this`entries, this`history
      ensures history == old(history) + [entries] && SameBut(old(entries), entries, iset{p})
    {
      var kept: bool := *;
      if kept {
        var rest: Tree := *;
        entries := entries[p := rest];
      } else {
        entries := entries - {p};
      }
      history := history + [entries];
    }

    method Copy(from: Place, to: Place) returns (ok: bool)
      requires from != to
      modifies this
      ensures old(history) < history && Steps(history, |old(history)|, old(entries), iset{to})
      ensures history[|history| - 1] == entries
      ensures ok ==>
        from in old(entries) && IsFile(old(entries)[from]) && entries == old(entries)[to := old(entries)[from]]
      ensures calls == old(calls) + [Copied(from, to, ok)] && Refused() == old(Refused()) + (if ok then 0 else 1)
    {
      ok := *;
      ok := ok && from in entries && IsFile(entries[from]) && !(to in entries && IsDirectory(entries[to]));
      ghost var before := entries;
      var source := if ok then entries[from] else map[];
      Leave(to);
      if ok {
        entries := entries[to := source];
        history := history + [entries];
        assert entries == before[to := source];
      }
      Record(Copied(from, to, ok));
    }

    method RemoveTree(p: Place) returns (ok: bool)
      modifies this
      ensures old(history) < history && Steps(history, |old(history)|, old(entries), iset{p})
      ensures history[|history| - 1] == entries
      ensures ok ==> p in old(entries) && entries == old(entries) - {p}
      ensures calls == old(calls) + [TreeRemoved(p, ok)] && Refused() == old(Refused()) + (if ok then 0 else 1)
    {
      ok := *;
      ok := ok && p in entries;
      ghost var before := entries;
      Leave(p);
      if ok {
        entries := entries - {p};
        history := history + [entries];
        assert entries == before - {p};
      }
      Record(TreeRemoved(p, ok));
    }

    /** Something is unpacked at a place. */
    method Unpack(p: Place, t: Tree)
      modifies this`entries, this`history
      ensures history == old(history) + [entries] && entries == old(entries)[p := t]
    {
      entries := entries[p := t];
      history := history + [entries];
    }

    method SetMode(p: Place, mode: nat) returns (ok: bool)
      modifies this
      ensures history == old(history) + [entries]
      ensures entries == old(entries)
        || (p in old(entries) && entries == old(entries)[p := WithMode(old(entries)[p], mode)])
      ensures calls == old(calls) + [ModeSet(p, ok)] && Refused() == old(Refused()) + (if ok then 0 else 1)
    {
      ok := *;
      ok := ok && p in entries;
      if ok {
        entries := entries[p := WithMode(entries[p], mode)];
      }
      history := history + [entries];
      Record(ModeSet(p, ok));
    }

    /** `create_dir_all` inside the tree at a place; the directories above it exist. */
    method CreateDir(p: Place, rel: Rel) returns (ok: bool)
      modifies this
      ensures history == old(history) + [entries]
      ensures !ok ==> entries == old(entries)
      ensures var tree := if p in old(entries) then old(entries)[p] else map[];
        ok ==> entries == old(entries)[p := tree[rel := Directory]]
      ensures calls == old(calls) + [DirectoryMade(p, rel, ok)] && Refused() == old(Refused()) + (if ok then 0 else 1)
    {
      ok := *;
      var tree := if p in entries then entries[p] else map[];
      if ok {
        entries := entries[p := tree[rel := Directory]];
      }
      history := history + [entries];
      Record(DirectoryMade(p, rel, ok));
    }

    /** Copies one file of the tree at a place to the same path of the tree at another. */
    method CopyWithin(from: Place, to: Place, rel: Rel) returns (ok: bool)
      requires from != to
      modifies this
      ensures old(history) < history && Steps(history, |old(history)|, old(entries), iset{to})
      ensures history[|history| - 1] == entries
      ensures ok ==> from in old(entries) && to in old(entries) && rel in old(entries)[from]
      ensures ok ==> entries == old(entries)[to := old(entries)[to][rel := old(entries)[from][rel]]]
      ensures calls == old(calls) + [FileCopied(from, to, rel, ok)]
      ensures Refused() == old(Refused()) + (if ok then 0 else 1)
    {
      ok := *;
      ok := ok && from in entries && to in entries && rel in entries[from] && entries[from][rel].File?;
      ghost var before := entries;
      var copied := if ok then entries[to][rel := entries[from][rel]] else map[];
      Leave(to);
      if ok {
        entries := entries[to := copied];
        history := history + [entries];
        assert entries == before[to := copied];
      }
      Record(FileCopied(from, to, rel, ok));
    }
  }
}
