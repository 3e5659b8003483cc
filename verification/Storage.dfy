/**
 A disk of named files whose every durable state is recorded, so that a power
 cut is the choice of one recorded state. Any primitive may fail, unless the
 disk is one on which exactly certain ones do.
 */
module Storage {
  import opened Options

  type Path = string
  type Files = map<Path, string>

  function Get(files: Files, path: Path): Option<string> {
    if path in files then Some(files[path]) else None
  }

  ghost predicate Anything(s: Files) {
    true
  }

  /** What fails: anything at any time, or exactly the removals of some files, every write, every synchronisation. */
  datatype Trouble = Any | Only(removals: set<Path>, writes: bool, syncs: bool)

  class Disk {
    const trouble: Trouble
    var files: Files
    // Every state since the disk was mounted, the current one last.
    var states: seq<Files>
    // Where the present watch began.
    var mark: nat
    // The watch: every state since the mark lies in `good`.
    ghost var good: iset<Files>
    // How many primitives have failed, and how many of them were removals.
    ghost var faults: nat
    ghost var refusals: nat

    ghost predicate Valid()
      reads this
    {
      && mark < |states|
      && states[|states| - 1] == files
      && forall i {:trigger states[i]} :: mark <= i < |states| ==> states[i] in good
    }

    constructor (initial: Files, trouble: Trouble)
      ensures Valid() && files == initial && this.trouble == trouble && faults == refusals == 0
      ensures states == [initial] && good == iset s: Files | Anything(s)
    {
      this.trouble := trouble;
      files := initial;
      states := [initial];
      mark := 0;
      good := iset s: Files | Anything(s);
      faults, refusals := 0, 0;
    }

    /** Nothing fails but the removal of certain files. */
    predicate Calm() {
      trouble.Only? && !trouble.writes && !trouble.syncs
    }

    /** Every rename works, and every removal. */
    predicate Obeys() {
      trouble.Only? && trouble.removals == {}
    }

    /** Nothing can be written or synchronised any more; names still move. */
    predicate Broken() {
      trouble == Only({}, true, true)
    }

    /** From here on, every state must lie in the given set. */
    method Watch(ghost allowed: iset<Files>)
      requires Valid() && files in allowed
      modifies this`mark, this`good
      ensures Valid() && good == allowed && mark == |states| - 1
    {
      mark := |states| - 1;
      good := allowed;
    }

    /** Nothing is promised any more. */
    ghost method Unwatch()
      requires Valid()
      modifies this`good
      ensures Valid() && good == iset s: Files | Anything(s)
    {
      good := iset s: Files | Anything(s);
    }

    method Become(next: Files)
      requires Valid() && next in good
      modifies this`files, this`states
      ensures Valid() && files == next && states == old(states) + [next]
    {
      files := next;
      states := states + [next];
    }

    /** Whether a primitive reports an error and changes nothing. */
    method Fault(certain: bool) returns (fails: bool)
      modifies this`faults
      ensures faults == old(faults) + if fails then 1 else 0
      ensures trouble.Only? ==> fails == certain
    {
      fails := certain;
      if trouble.Any? {
        if * {
          fails := true;
        } else {
          fails := false;
        }
      }
      if fails {
        faults := faults + 1;
      }
    }

    method Exists(path: Path) returns (r: Option<bool>)
      modifies this`faults
      ensures r.Some? ==> r.value == (path in files) && faults == old(faults)
      ensures r.None? ==> faults == old(faults) + 1
      ensures trouble.Only? ==> r.Some?
    {
      var fails := Fault(false);
      return if fails then None else Some(path in files);
    }

    method ReadFile(path: Path) returns (r: Option<string>)
      modifies this`faults
      ensures r.Some? ==> path in files && r.value == files[path]
      ensures faults == old(faults) + if r.None? && path in files then 1 else 0
      ensures trouble.Only? && path in files ==> r.Some?
    {
      if path !in files {
        return None;
      }
      var fails := Fault(false);
      return if fails then None else Some(files[path]);
    }

    /** Create or truncate, append chunk by chunk, synchronise. Any prefix may be what survives. */
    method WriteFile(path: Path, contents: string) returns (ok: bool)
      requires Valid()
      requires forall k {:trigger contents[..k]} :: 0 <= k <= |contents| ==> files[path := contents[..k]] in good
      modifies this`files, this`states, this`faults
      ensures Valid()
      ensures faults == old(faults) + if ok then 0 else 1
      ensures ok ==> files == old(files)[path := contents]
      ensures files == old(files) || exists k :: 0 <= k <= |contents| && files == old(files)[path := contents[..k]]
      ensures trouble.Only? ==> ok == !trouble.writes
      ensures trouble.Only? && !ok ==> files == old(files) && states == old(states)
    {
      var fails := Fault(trouble.Only? && trouble.writes);
      if fails {
        return false;
      }
      ghost var before := files;
      assert contents[..0] == "";
      Become(files[path := ""]);
      var written := 0;
      while written < |contents|
        invariant 0 <= written <= |contents|
        invariant Valid() && faults == old(faults)
        invariant files == before[path := contents[..written]]
      {
        fails := Fault(false);
        if fails {
          return false;
        }
        var count :| 0 < count <= |contents| - written;
        written := written + count;
        assert files[path := contents[..written]] == before[path := contents[..written]];
        Become(files[path := contents[..written]]);
      }
      assert contents[..written] == contents;
      fails := Fault(false);
      return !fails;
    }

    method Rename(from: Path, to: Path) returns (ok: bool)
      requires Valid() && from != to
      requires from in files ==> files[to := files[from]] - {from} in good
      modifies this`files, this`states, this`faults
      ensures Valid()
      ensures ok ==> from in old(files) && files == old(files)[to := old(files)[from]] - {from}
      ensures !ok ==> files == old(files)
      ensures faults == old(faults) + if ok || from !in old(files) then 0 else 1
      ensures states == old(states) + if ok then [files] else []
      ensures trouble.Only? && from in old(files) ==> ok
    {
      if from !in files {
        return false;
      }
      var fails := Fault(false);
      if fails {
        return false;
      }
      Become(files[to := files[from]] - {from});
      return true;
    }

    /** std::filesystem::remove: false when nothing was removed. */
    method Remove(path: Path) returns (ok: bool)
      requires Valid()
      requires path in files ==> files - {path} in good
      modifies this`files, this`states, this`faults, this`refusals
      ensures Valid()
      ensures ok ==> path in old(files) && files == old(files) - {path}
      ensures !ok ==> files == old(files)
      ensures faults == old(faults) + if ok || path !in old(files) then 0 else 1
      ensures refusals == old(refusals) + if ok || path !in old(files) then 0 else 1
      ensures states == old(states) + if ok then [files] else []
      ensures trouble.Only? && path in old(files) ==> (ok <==> path !in trouble.removals)
    {
      if path !in files {
        return false;
      }
      var fails := Fault(trouble.Only? && path in trouble.removals);
      if fails {
        refusals := refusals + 1;
        return false;
      }
      Become(files - {path});
      return true;
    }

    /** A removal whose failure nobody hears of. */
    method RemoveIfPresent(path: Path)
      requires Valid()
      requires path in files ==> files - {path} in good
      modifies this`files, this`states, this`faults, this`refusals
      ensures Valid()
      ensures files == old(files) || files == old(files) - {path}
      ensures faults == old(faults) + if path in files then 1 else 0
      ensures refusals == old(refusals) + if path in files then 1 else 0
      ensures states == old(states) + if path in old(files) && path !in files then [files] else []
      ensures trouble.Only? ==> (path in files <==> path in old(files) && path in trouble.removals)
    {
      var ok := Remove(path);
    }

    method SyncDirectory() returns (ok: bool)
      modifies this`faults
      ensures faults == old(faults) + if ok then 0 else 1
      ensures trouble.Only? ==> ok == !trouble.syncs
    {
      var fails := Fault(trouble.Only? && trouble.syncs);
      return !fails;
    }

    /** Power is cut: the disk is as it was at some moment of the watch. */
    method PowerCut()
      requires Valid()
      modifies this`files, this`states
      ensures Valid() && files in good
      ensures exists i :: old(mark) <= i < |old(states)| && files == old(states)[i]
    {
      var i :| mark <= i < |states|;
      Become(states[i]);
    }
  }
}
