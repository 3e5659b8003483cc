/** Recovery of an interrupted commit, and the sweep of stale transaction files. */
module Recovery {
  import opened Options
  import opened Names
  import opened Storage
  import opened Plan
  import Journal

  ghost predicate Within(s: Files, names: iset<Path>) {
    forall p :: p in s ==> p in names
  }

  /** Any file but the plan's own may go without touching what is guarded. */
  lemma GuardIgnores(s: Files, a: seq<CommitArtifact>, journal: string, v: Files, p: Path)
    requires Guarded(s, a, journal, v)
    requires p != MARKER && !IsUser(p) && forall i :: 0 <= i < |a| ==> p != a[i].backup && p != a[i].path
    ensures Guarded(s - {p}, a, journal, v)
  {
  }

  /** A destination may go while its old contents are in the backup, or when it had none. */
  lemma GuardDropsDestination(s: Files, a: seq<CommitArtifact>, journal: string, v: Files, i: nat)
    requires Apart(a) && Guarded(s, a, journal, v) && i < |a|
    requires a[i].existed ==> a[i].backup in s
    ensures Guarded(s - {a[i].path}, a, journal, v)
  {
    var t, q := s - {a[i].path}, a[i].path;
    forall j | 0 <= j < |a| ensures OldKept(t, a[j], v) {
      assert OldKept(s, a[j], v);
      assert j != i ==> a[j].path != q;
      assert a[j].backup != q;
    }
    assert Covers(a, q);
  }

  lemma OldKeptAfterMove(s: Files, x: CommitArtifact, v: Files, from: Path, to: Path)
    requires OldKept(s, x, v) && from in s && from != to
    requires x.path != to && x.path != from && x.backup != to && x.backup != from
    ensures OldKept(s[to := s[from]] - {from}, x, v)
  {
  }

  /** Moving a backup home restores the destination for good. */
  lemma GuardRestores(s: Files, a: seq<CommitArtifact>, journal: string, v: Files, i: nat)
    requires Apart(a) && Guarded(s, a, journal, v) && i < |a| && a[i].backup in s
    ensures a[i].backup != a[i].path
    ensures Guarded(s[a[i].path := s[a[i].backup]] - {a[i].backup}, a, journal, v)
  {
    var q, b := a[i].path, a[i].backup;
    var t := s[q := s[b]] - {b};
    assert OldKept(s, a[i], v);
    assert OldKept(t, a[i], v);
    forall j | 0 <= j < |a| && j != i ensures OldKept(t, a[j], v) {
      assert OldKept(s, a[j], v);
      OldKeptAfterMove(s, a[j], v, b, q);
    }
    assert Covers(a, q);
  }

  /** Entry i of the journal is done with, but for a removal that was silently refused. */
  ghost predicate Settled(s: Files, x: CommitArtifact, v: Files, stuck: set<Path>) {
    && x.backup !in s
    && (x.existed ==> Get(s, x.path) == Get(v, x.path))
    && (!x.existed ==> (x.path in s <==> x.path in stuck))
  }

  /** The states a recovery may pass through: what they stand for, and the names they use. */
  ghost function Standing(v: Files, names: iset<Path>): iset<Files> {
    iset s: Files | Shows(s, v) && Within(s, names)
  }

  /** Every guarded state of this plan is acceptable to the watch. */
  ghost predicate AcceptsGuarded(good: iset<Files>, a: seq<CommitArtifact>, journal: string, v: Files, names: iset<Path>) {
    forall s {:trigger Guarded(s, a, journal, v)} :: Guarded(s, a, journal, v) && Within(s, names) ==> s in good
  }

  /** What recovery of one entry leaves of the others. */
  ghost predicate OthersKept(a: seq<CommitArtifact>, i: nat, before: Files, after: Files) {
    forall j :: 0 <= j < |a| && j != i ==>
      && Get(after, a[j].path) == Get(before, a[j].path)
      && (a[j].backup in before <==> a[j].backup in after)
  }

  // ---- What a refused removal can leave ----------------------------------------

  /** A file that the interrupted commit created and that is still there. */
  ghost predicate Risky(s: Files, x: CommitArtifact) {
    !x.existed && x.backup !in s && x.path in s
  }

  ghost function RiskyFrom(s: Files, a: seq<CommitArtifact>, k: nat): set<Path>
    requires k <= |a|
    decreases |a| - k
  {
    if k == |a| then {} else RiskyFrom(s, a, k + 1) + if Risky(s, a[k]) then {a[k].path} else {}
  }

  /** The paths on this disk that a recovery has to remove: those its journal says the commit created. */
  ghost function AtRisk(s: Files): set<Path> {
    if MARKER in s && Journal.Parse(s[MARKER]).Some? then RiskyFrom(s, PlanOf(Journal.Parse(s[MARKER]).value), 0) else {}
  }

  lemma {:induction false} RiskyIn(s: Files, a: seq<CommitArtifact>, k: nat, p: Path)
    requires k <= |a|
    ensures p in RiskyFrom(s, a, k) <==> exists j :: k <= j < |a| && Risky(s, a[j]) && a[j].path == p
    decreases |a| - k
  {
    if k < |a| {
      RiskyIn(s, a, k + 1, p);
    }
  }

  /** Where destinations and backups are as they were, so is the risk. */
  lemma {:induction false} RiskShrinks(s: Files, t: Files, a: seq<CommitArtifact>, k: nat)
    requires k <= |a| && forall j :: k <= j < |a| && Risky(t, a[j]) ==> Risky(s, a[j])
    ensures RiskyFrom(t, a, k) <= RiskyFrom(s, a, k)
    decreases |a| - k
  {
    if k < |a| {
      RiskShrinks(s, t, a, k + 1);
    }
  }

  /** When the user's files are plainly there, nothing is at risk. */
  lemma NoRisk(s: Files, v: Files)
    requires Shows(s, v) && UserFiles(s, v)
    ensures AtRisk(s) == {}
  {
    if MARKER in s {
      var a := PlanOf(Journal.Parse(s[MARKER]).value);
      forall p ensures p !in RiskyFrom(s, a, 0) {
        RiskyIn(s, a, 0, p);
        forall j | 0 <= j < |a| ensures !Risky(s, a[j]) {
          assert OldKept(s, a[j], v) && IsUser(a[j].path);
        }
      }
    }
  }

  // ---- What a recovery leaves, as a function of the disk -------------------------

  /** A file removed, unless the disk refuses that. */
  ghost function Unlinked(s: Files, p: Path, removals: set<Path>): Files {
    if p in removals then s else s - {p}
  }

  ghost function DestinationRecovered(s: Files, x: CommitArtifact, removals: set<Path>): Files {
    if x.backup in s then s[x.path := s[x.backup]] - {x.backup}
    else if x.existed then s
    else Unlinked(s, x.path, removals)
  }

  ghost function EntryRecovered(s: Files, x: CommitArtifact, removals: set<Path>): Files {
    Unlinked(DestinationRecovered(s, x, removals), x.temporary, removals)
  }

  /** The entries from the last down to k. */
  ghost function RecoveredFrom(s: Files, a: seq<CommitArtifact>, k: nat, removals: set<Path>): Files
    requires k <= |a|
    decreases |a| - k
  {
    if k == |a| then s else EntryRecovered(RecoveredFrom(s, a, k + 1, removals), a[k], removals)
  }

  /** The files after a recovery on a disk that refuses just these removals. */
  ghost function Recovered(s: Files, removals: set<Path>): Files {
    if MARKER in s && Journal.Parse(s[MARKER]).Some?
    then RecoveredFrom(s, PlanOf(Journal.Parse(s[MARKER]).value), 0, removals) - {MARKER}
    else s
  }

  // ---- One entry ---------------------------------------------------------------

  /** Put back the old file of one entry. */
  method RestoreBackup(d: Disk, x: CommitArtifact, ghost a: seq<CommitArtifact>, ghost i: nat, ghost journal: string,
                       ghost v: Files, ghost names: iset<Path>)
    returns (ok: bool)
    requires d.Valid() && Apart(a) && i < |a| && x == a[i] && x.backup in d.files
    requires Guarded(d.files, a, journal, v) && Within(d.files, names) && x.path in names
    requires AcceptsGuarded(d.good, a, journal, v, names)
    modifies d`files, d`states, d`faults, d`refusals
    ensures d.Valid() && d.faults >= old(d.faults) && d.refusals >= old(d.refusals)
    ensures Guarded(d.files, a, journal, v) && Within(d.files, names)
    ensures OthersKept(a, i, old(d.files), d.files)
    ensures ok ==> Settled(d.files, x, v, {})
    ensures !ok ==> d.faults > old(d.faults)
    ensures d.Calm() ==> ok
    ensures ok ==> d.files == old(d.files)[x.path := old(d.files)[x.backup]] - {x.backup}
  {
    ghost var s := d.files;
    GuardDropsDestination(s, a, journal, v, i);
    d.RemoveIfPresent(x.path);
    GuardRestores(d.files, a, journal, v, i);
    MoveHome(s, d.files, a, journal, v, i);
    ok := d.Rename(x.backup, x.path);
  }

  lemma MoveHome(s: Files, s1: Files, a: seq<CommitArtifact>, journal: string, v: Files, i: nat)
    requires Apart(a) && Guarded(s, a, journal, v) && i < |a| && a[i].backup in s
    requires s1 == s || s1 == s - {a[i].path}
    ensures a[i].backup != a[i].path && a[i].backup in s1
    ensures OthersKept(a, i, s, s1)
    ensures var t := s1[a[i].path := s1[a[i].backup]] - {a[i].backup};
            OthersKept(a, i, s, t) && Settled(t, a[i], v, {}) && t == s[a[i].path := s[a[i].backup]] - {a[i].backup}
  {
    assert OldKept(s, a[i], v);
    var t := s1[a[i].path := s1[a[i].backup]] - {a[i].backup};
    forall j | 0 <= j < |a| && j != i
      ensures Get(t, a[j].path) == Get(s1, a[j].path) == Get(s, a[j].path)
      ensures a[j].backup in s <==> a[j].backup in t
    {
      assert a[j].path != a[i].path && a[j].backup != a[i].path && a[j].path != a[i].backup && a[j].backup != a[i].backup;
    }
  }

  /** Remove the file that the commit had created for one entry. */
  method DropCreated(d: Disk, x: CommitArtifact, ghost a: seq<CommitArtifact>, ghost i: nat, ghost journal: string,
                     ghost v: Files, ghost names: iset<Path>)
    returns (refused: bool)
    requires d.Valid() && Apart(a) && i < |a| && x == a[i] && x.backup !in d.files && !x.existed
    requires Guarded(d.files, a, journal, v) && Within(d.files, names)
    requires AcceptsGuarded(d.good, a, journal, v, names)
    modifies d`files, d`states, d`faults, d`refusals
    ensures d.Valid() && d.faults >= old(d.faults) && d.refusals >= old(d.refusals) && (refused ==> d.faults > old(d.faults))
    ensures Guarded(d.files, a, journal, v) && Within(d.files, names)
    ensures OthersKept(a, i, old(d.files), d.files)
    ensures Settled(d.files, x, v, if refused then {x.path} else {})
    ensures refused ==> x.path in old(d.files) && d.refusals > old(d.refusals)
    ensures d.Calm() ==> (refused <==> x.path in old(d.files) && x.path in d.trouble.removals)
    ensures d.Calm() ==> d.files == Unlinked(old(d.files), x.path, d.trouble.removals)
  {
    GuardDropsDestination(d.files, a, journal, v, i);
    d.RemoveIfPresent(x.path);
    refused := x.path in d.files;
  }

  /** The destination of one entry: the old file back from its backup, or a file the commit created removed. */
  method RecoverDestination(d: Disk, x: CommitArtifact, ghost a: seq<CommitArtifact>, ghost i: nat, ghost journal: string,
                            ghost v: Files, ghost names: iset<Path>)
    returns (ok: bool, refused: bool)
    requires d.Valid() && Apart(a) && i < |a| && x == a[i]
    requires Guarded(d.files, a, journal, v) && Within(d.files, names) && x.path in names
    requires AcceptsGuarded(d.good, a, journal, v, names)
    modifies d`files, d`states, d`faults, d`refusals
    ensures d.Valid() && d.faults >= old(d.faults) && d.refusals >= old(d.refusals)
    ensures Guarded(d.files, a, journal, v) && Within(d.files, names)
    ensures OthersKept(a, i, old(d.files), d.files)
    ensures ok ==> Settled(d.files, x, v, if refused then {x.path} else {})
    ensures !ok ==> d.faults > old(d.faults)
    ensures refused ==> Risky(old(d.files), x) && d.faults > old(d.faults) && d.refusals > old(d.refusals)
    ensures Risky(d.files, x) ==> Risky(old(d.files), x)
    ensures d.Calm() ==> ok && (refused <==> Risky(old(d.files), x) && x.path in d.trouble.removals)
    ensures d.Calm() ==> d.files == DestinationRecovered(old(d.files), x, d.trouble.removals)
  {
    ok, refused := false, false;
    assert OldKept(d.files, x, v);
    var present := d.Exists(x.backup);
    if present.Some? {
      ok := true;
      if present.value {
        ok := RestoreBackup(d, x, a, i, journal, v, names);
      } else if !x.existed {
        refused := DropCreated(d, x, a, i, journal, v, names);
      }
    }
  }

  /** One journal entry: its destination, then its temporary removed and its directory synchronised. */
  method RecoverEntry(d: Disk, x: CommitArtifact, ghost a: seq<CommitArtifact>, ghost i: nat, ghost journal: string,
                      ghost v: Files, ghost names: iset<Path>)
    returns (ok: bool, refused: bool)
    requires d.Valid() && Apart(a) && i < |a| && x == a[i]
    requires Guarded(d.files, a, journal, v) && Within(d.files, names) && x.path in names
    requires AcceptsGuarded(d.good, a, journal, v, names)
    modifies d`files, d`states, d`faults, d`refusals
    ensures d.Valid() && d.faults >= old(d.faults) && d.refusals >= old(d.refusals)
    ensures Guarded(d.files, a, journal, v) && Within(d.files, names)
    ensures OthersKept(a, i, old(d.files), d.files)
    ensures ok ==> Settled(d.files, x, v, if refused then {x.path} else {})
    ensures !ok ==> d.faults > old(d.faults)
    ensures refused ==> Risky(old(d.files), x) && d.faults > old(d.faults) && d.refusals > old(d.refusals)
    ensures Risky(d.files, x) ==> Risky(old(d.files), x)
    ensures d.Calm() ==> ok && (refused <==> Risky(old(d.files), x) && x.path in d.trouble.removals)
    ensures d.Calm() ==> d.files == EntryRecovered(old(d.files), x, d.trouble.removals)
  {
    ghost var s0 := d.files;
    ok, refused := RecoverDestination(d, x, a, i, journal, v, names);
    if ok {
      ghost var s := d.files;
      DropTemporary(s, a, journal, v, i, if refused then {x.path} else {});
      d.RemoveIfPresent(x.temporary);
      StillKept(s0, s, s - {x.temporary}, a, i);
      ok := d.SyncDirectory();
    }
  }

  lemma StillKept(s: Files, t: Files, u: Files, a: seq<CommitArtifact>, i: nat)
    requires OthersKept(a, i, s, t) && OthersKept(a, i, t, u)
    ensures OthersKept(a, i, s, u)
  {
  }

  lemma DropTemporary(s: Files, a: seq<CommitArtifact>, journal: string, v: Files, i: nat, stuck: set<Path>)
    requires Apart(a) && Guarded(s, a, journal, v) && i < |a| && Settled(s, a[i], v, stuck)
    ensures var t := s - {a[i].temporary};
            && Guarded(t, a, journal, v) && Settled(t, a[i], v, stuck) && OthersKept(a, i, s, t)
            && (Risky(t, a[i]) <==> Risky(s, a[i]))
  {
    GuardIgnores(s, a, journal, v, a[i].temporary);
  }

  ghost predicate AllSettledFrom(s: Files, a: seq<CommitArtifact>, v: Files, stuck: set<Path>, k: nat) {
    forall j :: k <= j < |a| ==> Settled(s, a[j], v, stuck)
  }

  /** Stuck paths are destinations the interrupted commit had created. */
  ghost predicate CreatedHere(a: seq<CommitArtifact>, stuck: set<Path>, k: nat) {
    forall p :: p in stuck ==> exists j :: k <= j < |a| && !a[j].existed && a[j].path == p
  }

  /** Settling one more entry, with its path stuck when its removal was refused. */
  lemma SettleOne(a: seq<CommitArtifact>, before: Files, after: Files, v: Files, stuck: set<Path>, refused: bool, k: nat)
    requires Apart(a) && k < |a|
    requires AllSettledFrom(before, a, v, stuck, k + 1) && CreatedHere(a, stuck, k + 1)
    requires OthersKept(a, k, before, after)
    requires refused ==> !a[k].existed
    requires Settled(after, a[k], v, if refused then {a[k].path} else {})
    ensures var now := stuck + if refused then {a[k].path} else {};
            AllSettledFrom(after, a, v, now, k) && CreatedHere(a, now, k)
  {
    var now := stuck + if refused then {a[k].path} else {};
    forall j | k <= j < |a| ensures Settled(after, a[j], v, now) {
      if j > k {
        assert Settled(before, a[j], v, stuck);
        assert a[k].path != a[j].path;
      } else {
        assert a[k].path !in stuck;
      }
    }
  }

  /** Once every entry is settled, dropping the marker leaves the old files, stuck ones apart. */
  lemma SettledShows(s: Files, a: seq<CommitArtifact>, journal: string, v: Files, stuck: set<Path>)
    requires Apart(a) && Guarded(s, a, journal, v) && AllSettledFrom(s, a, v, stuck, 0)
    requires CreatedHere(a, stuck, 0)
    ensures RestoredBut(s - {MARKER}, v, stuck)
    ensures stuck == {} ==> UserFiles(s - {MARKER}, v)
  {
  }

  /** v is what is there, apart from the stuck paths, which v did not have. */
  ghost predicate RestoredBut(s: Files, v: Files, stuck: set<Path>) {
    && (forall p: Path {:trigger IsUser(p)} :: IsUser(p) ==> (Get(s, p) == Get(v, p) <==> p !in stuck))
    && (forall p :: p in stuck ==> IsUser(p) && p !in v)
  }

  ghost predicate UserNames(names: iset<Path>) {
    forall p: Path {:trigger IsUser(p)} :: IsUser(p) ==> p in names
  }

  /**
   Recovery at the next start. Wherever it is interrupted the disk still stands
   for v, and when it reports success v is what is there. The one thing it does
   not notice is a refused removal of a file the commit had created: `stuck`
   names exactly the paths where the result then differs from v. Each of them
   was at risk on the disk to begin with, and each took a refused removal; on a
   disk where nothing else fails they are exactly the paths at risk that the
   disk will not remove.
   */
  method RecoverTransaction(d: Disk, ghost v: Files, ghost names: iset<Path>) returns (ok: bool, stuck: set<Path>)
    requires d.Valid() && Shows(d.files, v) && Within(d.files, names) && UserNames(names)
    requires Standing(v, names) <= d.good
    modifies d`files, d`states, d`faults, d`refusals, d`good
    ensures d.Valid() && Within(d.files, names)
    ensures d.faults >= old(d.faults) && d.refusals >= old(d.refusals) && (stuck != {} ==> d.faults > old(d.faults))
    ensures stuck == {} ==> d.good == old(d.good) && Shows(d.files, v)
    ensures stuck != {} ==> d.good == iset s: Files | Anything(s)
    ensures ok ==> MARKER !in d.files && RestoredBut(d.files, v, stuck)
    ensures !ok ==> d.faults > old(d.faults)
    ensures stuck <= AtRisk(old(d.files)) && AtRisk(d.files) <= AtRisk(old(d.files))
    ensures d.faults >= old(d.faults) + |stuck| && d.refusals >= old(d.refusals) + |stuck|
    ensures d.Calm() && MARKER !in d.trouble.removals ==>
              ok && stuck == AtRisk(old(d.files)) * d.trouble.removals &&
              d.files == Recovered(old(d.files), d.trouble.removals)
    ensures old(MARKER !in d.files) ==> stuck == {} && d.files == old(d.files)
  {
    ok, stuck := false, {};
    var present := d.Exists(MARKER);
    if present == Some(false) {
      UserFilesRestored(d.files, v);
      ok := true;
    } else if present == Some(true) {
      var text := d.ReadFile(MARKER);
      if text.Some? {
        var record := Journal.ReadJournal(text.value);
        if record.Some? {
          ok, stuck := Replay(d, record.value, PlanOf(record.value), text.value, v, names);
        }
      }
    }
  }

  lemma UserFilesRestored(s: Files, v: Files)
    requires UserFiles(s, v)
    ensures RestoredBut(s, v, {})
  {
  }

  /** Undo what the journal lists, then drop the marker. */
  method Replay(d: Disk, record: Journal.Record, ghost a: seq<CommitArtifact>, ghost journal: string,
                ghost v: Files, ghost names: iset<Path>)
    returns (ok: bool, stuck: set<Path>)
    requires d.Valid() && a == PlanOf(record) && Apart(a) && Journal.Parse(journal) == Some(record)
    requires Guarded(d.files, a, journal, v) && Within(d.files, names) && UserNames(names)
    requires Standing(v, names) <= d.good
    modifies d`files, d`states, d`faults, d`refusals, d`good
    ensures d.Valid() && Within(d.files, names)
    ensures d.faults >= old(d.faults) && d.refusals >= old(d.refusals) && (stuck != {} ==> d.faults > old(d.faults))
    ensures stuck == {} ==> d.good == old(d.good) && Shows(d.files, v)
    ensures stuck != {} ==> d.good == iset s: Files | Anything(s)
    ensures ok ==> MARKER !in d.files && RestoredBut(d.files, v, stuck)
    ensures !ok ==> d.faults > old(d.faults)
    ensures stuck <= RiskyFrom(old(d.files), a, 0) && AtRisk(d.files) <= RiskyFrom(old(d.files), a, 0)
    ensures d.faults >= old(d.faults) + |stuck| && d.refusals >= old(d.refusals) + |stuck|
    ensures d.Calm() && MARKER !in d.trouble.removals ==>
              ok && stuck == RiskyFrom(old(d.files), a, 0) * d.trouble.removals &&
              d.files == RecoveredFrom(old(d.files), a, 0, d.trouble.removals) - {MARKER}
  {
    ghost var s0 := d.files;
    StandingAccepts(d.good, record, a, journal, v, names);
    ok, stuck := RecoverEntries(d, record, a, journal, v, names);
    RiskShrinks(s0, d.files, a, 0);
    if !ok {
      return false, {};
    }
    SettledShows(d.files, a, journal, v, stuck);
    ghost var last := d.files - {MARKER};
    if stuck == {} {
      PlainStands(last, v, names);
    }
    ok := DropMarker(d, stuck);
  }

  lemma PlainStands(s: Files, v: Files, names: iset<Path>)
    requires MARKER !in s && UserFiles(s, v) && Within(s, names)
    ensures s in Standing(v, names) && Shows(s, v)
  {
  }

  /** The last step of recovery: the marker goes. */
  method DropMarker(d: Disk, stuck: set<Path>) returns (ok: bool)
    requires d.Valid() && MARKER in d.files
    requires stuck == {} ==> d.files - {MARKER} in d.good
    modifies d`files, d`states, d`faults, d`refusals, d`good
    ensures d.Valid() && d.faults >= old(d.faults) && d.refusals >= old(d.refusals)
    ensures d.good == if stuck == {} then old(d.good) else iset s: Files | Anything(s)
    ensures d.files == old(d.files) || d.files == old(d.files) - {MARKER}
    ensures ok ==> d.files == old(d.files) - {MARKER}
    ensures !ok ==> d.faults > old(d.faults)
    ensures d.Calm() && MARKER !in d.trouble.removals ==> ok
  {
    if stuck != {} {
      d.Unwatch();
    }
    ok := d.Remove(MARKER);
    if ok {
      ok := d.SyncDirectory();
    }
  }

  /** Entries below k are as risky as they were, and no entry is riskier. */
  ghost predicate RiskKept(s0: Files, s: Files, a: seq<CommitArtifact>, k: nat) {
    && (forall j :: 0 <= j < |a| && Risky(s, a[j]) ==> Risky(s0, a[j]))
    && (forall j :: 0 <= j < k && j < |a| ==> (Risky(s, a[j]) <==> Risky(s0, a[j])))
  }

  lemma RiskStep(s0: Files, before: Files, after: Files, a: seq<CommitArtifact>, k: nat)
    requires k < |a| && RiskKept(s0, before, a, k + 1) && OthersKept(a, k, before, after)
    requires Risky(after, a[k]) ==> Risky(before, a[k])
    ensures RiskKept(s0, after, a, k) && (Risky(before, a[k]) <==> Risky(s0, a[k]))
  {
    forall j | 0 <= j < |a| && j != k ensures Risky(after, a[j]) <==> Risky(before, a[j]) {
      assert Get(after, a[j].path) == Get(before, a[j].path);
    }
  }

  /** Entries from k on are settled, and what is stuck was at risk. */
  ghost predicate Progress(s0: Files, s: Files, a: seq<CommitArtifact>, v: Files, stuck: set<Path>, k: nat) {
    && k <= |a| && AllSettledFrom(s, a, v, stuck, k) && CreatedHere(a, stuck, k)
    && stuck <= RiskyFrom(s0, a, k) && RiskKept(s0, s, a, k)
  }

  /** The sets of one step: what was at risk grows by p if p was risky, what is stuck if its removal was refused. */
  lemma OneMoreStuck(risk: set<Path>, stuck: set<Path>, p: Path, risky: bool, refused: bool, removals: set<Path>)
    requires stuck <= risk && (refused ==> risky)
    ensures var now := stuck + if refused then {p} else {};
            now <= risk + (if risky then {p} else {}) && |now| <= |stuck| + if refused then 1 else 0
    ensures (refused <==> risky && p in removals) && stuck == risk * removals ==>
              stuck + (if refused then {p} else {}) == (risk + if risky then {p} else {}) * removals
  {
    if p in stuck {
      assert stuck + {p} == stuck;
    }
  }

  lemma NoProgress(s: Files, a: seq<CommitArtifact>, v: Files)
    ensures Progress(s, s, a, v, {}, |a|) && RiskyFrom(s, a, |a|) == {}
  {
  }

  lemma OneMoreEntry(s0: Files, before: Files, after: Files, a: seq<CommitArtifact>, v: Files, stuck: set<Path>,
                     refused: bool, trouble: Trouble, k: nat)
    requires Apart(a) && k < |a| && Progress(s0, before, a, v, stuck, k + 1) && OthersKept(a, k, before, after)
    requires Risky(after, a[k]) ==> Risky(before, a[k])
    requires refused ==> Risky(before, a[k])
    requires Settled(after, a[k], v, if refused then {a[k].path} else {})
    ensures var now := stuck + if refused then {a[k].path} else {};
            Progress(s0, after, a, v, now, k) && |now| <= |stuck| + if refused then 1 else 0
    ensures trouble.Only? && (refused <==> Risky(before, a[k]) && a[k].path in trouble.removals) &&
            stuck == RiskyFrom(s0, a, k + 1) * trouble.removals ==>
              stuck + (if refused then {a[k].path} else {}) == RiskyFrom(s0, a, k) * trouble.removals
  {
    SettleOne(a, before, after, v, stuck, refused, k);
    RiskStep(s0, before, after, a, k);
    OneMoreStuck(RiskyFrom(s0, a, k + 1), stuck, a[k].path, Risky(s0, a[k]), refused,
                 if trouble.Only? then trouble.removals else {});
    assert RiskyFrom(s0, a, k) == RiskyFrom(s0, a, k + 1) + if Risky(s0, a[k]) then {a[k].path} else {};
  }

  ghost predicate PathsWithin(a: seq<CommitArtifact>, names: iset<Path>) {
    forall i :: 0 <= i < |a| ==> a[i].path in names
  }

  /** The body of the loop below: one entry more, from the last to the first. */
  method RecoverAt(d: Disk, record: Journal.Record, ghost a: seq<CommitArtifact>, ghost done: nat, k: nat,
                   stuck: set<Path>, ghost s0: Files, ghost journal: string, ghost v: Files, ghost names: iset<Path>)
    returns (ok: bool, now: set<Path>)
    requires d.Valid() && a == PlanOf(record) && Apart(a) && k < |a| && done == k + 1 && a[k].path in names
    requires Guarded(d.files, a, journal, v) && Within(d.files, names) && AcceptsGuarded(d.good, a, journal, v, names)
    requires Progress(s0, d.files, a, v, stuck, done)
    modifies d`files, d`states, d`faults, d`refusals
    ensures d.Valid() && Guarded(d.files, a, journal, v) && Within(d.files, names)
    ensures RiskKept(s0, d.files, a, k)
    ensures stuck <= now && |now| - |stuck| <= d.faults - old(d.faults) && |now| - |stuck| <= d.refusals - old(d.refusals)
    ensures ok ==> Progress(s0, d.files, a, v, now, k)
    ensures !ok ==> d.faults > old(d.faults)
    ensures d.Calm() ==> ok
    ensures d.Calm() && stuck == RiskyFrom(s0, a, done) * d.trouble.removals ==>
              now == RiskyFrom(s0, a, k) * d.trouble.removals
    ensures d.Calm() && old(d.files) == RecoveredFrom(s0, a, done, d.trouble.removals) ==>
              d.files == RecoveredFrom(s0, a, k, d.trouble.removals)
  {
    var path, nonce := record.entries[k].path, record.nonce;
    var existed := record.entries[k].existed;
    var x := CommitArtifact(path, "", false, Temporary(path, nonce), Backup(path, nonce), existed, false, false);
    ghost var before := d.files;
    var refused;
    ok, refused := RecoverEntry(d, x, a, k, journal, v, names);
    RiskStep(s0, before, d.files, a, k);
    now := stuck;
    if ok {
      OneMoreEntry(s0, before, d.files, a, v, stuck, refused, d.trouble, k);
      now := stuck + if refused then {path} else {};
    }
  }

  /** The backward loop over the journal. */
  method RecoverEntries(d: Disk, record: Journal.Record, ghost a: seq<CommitArtifact>, ghost journal: string,
                        ghost v: Files, ghost names: iset<Path>)
    returns (ok: bool, stuck: set<Path>)
    requires d.Valid() && a == PlanOf(record) && Apart(a) && PathsWithin(a, names)
    requires Guarded(d.files, a, journal, v) && Within(d.files, names) && AcceptsGuarded(d.good, a, journal, v, names)
    modifies d`files, d`states, d`faults, d`refusals
    ensures d.Valid() && Guarded(d.files, a, journal, v) && Within(d.files, names)
    ensures ok ==> Progress(old(d.files), d.files, a, v, stuck, 0)
    ensures !ok ==> stuck == {} && d.faults > old(d.faults)
    ensures d.faults >= old(d.faults) + |stuck| && d.refusals >= old(d.refusals) + |stuck|
    ensures RiskKept(old(d.files), d.files, a, 0)
    ensures d.Calm() ==> ok && stuck == RiskyFrom(old(d.files), a, 0) * d.trouble.removals
    ensures d.Calm() ==> d.files == RecoveredFrom(old(d.files), a, 0, d.trouble.removals)
  {
    stuck := {};
    ghost var s0 := d.files;
    NoProgress(s0, a, v);
    var k := |record.entries|;
    while k > 0
      invariant 0 <= k <= |a|
      invariant d.Valid() && Guarded(d.files, a, journal, v) && Within(d.files, names)
      invariant Progress(s0, d.files, a, v, stuck, k)
      invariant d.faults >= old(d.faults) + |stuck| && d.refusals >= old(d.refusals) + |stuck|
      invariant d.Calm() ==> stuck == RiskyFrom(s0, a, k) * d.trouble.removals
      invariant d.Calm() ==> d.files == RecoveredFrom(s0, a, k, d.trouble.removals)
    {
      ghost var done := k;
      k := k - 1;
      ok, stuck := RecoverAt(d, record, a, done, k, stuck, s0, journal, v, names);
      if !ok {
        return false, {};
      }
    }
    ok := true;
  }

  lemma StandingAccepts(good: iset<Files>, record: Journal.Record, a: seq<CommitArtifact>, journal: string, v: Files,
                        names: iset<Path>)
    requires a == PlanOf(record) && Apart(a) && Journal.Parse(journal) == Some(record)
    requires Standing(v, names) <= good && UserNames(names)
    ensures AcceptsGuarded(good, a, journal, v, names) && PathsWithin(a, names)
  {
    forall i | 0 <= i < |a| ensures a[i].path in names {
      assert IsUser(a[i].path);
    }
    forall s: Files | Guarded(s, a, journal, v) && Within(s, names) ensures s in good {
      assert s in Standing(v, names);
    }
  }

  /** No transaction file is left in the transaction directory or in its Timelines folder. */
  ghost predicate NoLeftovers(s: Files) {
    forall name: string {:trigger IsTransactionLeftover(name)} ::
      '/' !in name && IsTransactionLeftover(name) ==> name !in s && "Timelines/" + name !in s
  }

  /** Only what the sweep is for has gone. */
  ghost predicate OnlySwept(before: Files, after: Files) {
    forall p {:trigger Get(after, p)} :: Get(after, p) == Get(before, p) || (p !in after && IsSwept(p))
  }

  lemma SweepOne(before: Files, s: Files, t: Files, path: Path)
    requires OnlySwept(before, s) && (t == s || (IsSwept(path) && t == s - {path}))
    ensures OnlySwept(before, t)
  {
    forall p ensures Get(t, p) == Get(before, p) || (p !in t && IsSwept(p)) {
      assert Get(s, p) == Get(before, p) || (p !in s && IsSwept(p));
    }
  }

  lemma NothingSweptLeft(s: Files)
    requires forall p :: p in s ==> !IsSwept(p)
    ensures NoLeftovers(s)
  {
    forall name: string | '/' !in name && IsTransactionLeftover(name)
      ensures name !in s && "Timelines/" + name !in s
    {
      assert IsSwept(name) && IsSwept("Timelines/" + name);
    }
  }

  /** The sweep removes what the leftover test recognises, and nothing else. */
  method RemoveTransactionLeftovers(d: Disk, ghost w: Files, ghost names: iset<Path>)
    requires d.Valid() && MARKER !in d.files && UserFiles(d.files, w) && Within(d.files, names)
    requires AcceptsPlain(d.good, w, names)
    modifies d`files, d`states, d`faults, d`refusals
    ensures d.Valid() && d.faults >= old(d.faults) && d.refusals >= old(d.refusals)
    ensures MARKER !in d.files && UserFiles(d.files, w)
    ensures d.files.Keys <= old(d.files).Keys && Within(d.files, names)
    ensures OnlySwept(old(d.files), d.files)
    ensures d.faults == old(d.faults) ==> NoLeftovers(d.files)
  {
    var listing := d.files.Keys;
    while listing != {}
      invariant d.Valid() && d.faults >= old(d.faults) && d.refusals >= old(d.refusals)
      invariant MARKER !in d.files && UserFiles(d.files, w)
      invariant d.files.Keys <= old(d.files).Keys && Within(d.files, names)
      invariant OnlySwept(old(d.files), d.files)
      invariant d.faults == old(d.faults) ==> forall p :: p in d.files && IsSwept(p) ==> p in listing
      decreases listing
    {
      var fails := d.Fault(false);
      if fails {
        return;  // the directory iterator reported an error
      }
      var path :| path in listing;
      listing := listing - {path};
      SweptIff(path);
      if InScannedDirectory(path) && IsLeftover(path) {
        assert UserFiles(d.files - {path}, w);
        ghost var before := d.files;
        d.RemoveIfPresent(path);
        SweepOne(old(d.files), before, d.files, path);
      }
    }
    if d.faults == old(d.faults) {
      NothingSweptLeft(d.files);
    }
  }

  /** Every state without a marker that holds w is acceptable to the watch. */
  ghost predicate AcceptsPlain(good: iset<Files>, w: Files, names: iset<Path>) {
    forall s {:trigger UserFiles(s, w)} :: MARKER !in s && UserFiles(s, w) && Within(s, names) ==> s in good
  }
}
