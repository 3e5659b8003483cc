/** The whole commit, and any run of commits, recoveries and power cuts. */
module Transaction {
  import opened Options
  import opened Names
  import opened Storage
  import opened Plan
  import opened Recovery
  import opened Phases
  import opened Publishing
  import Journal

  // ---- One commit --------------------------------------------------------------

  /** What the caller of a commit must respect. */
  ghost predicate GoodPlan(a: seq<CommitArtifact>, nonce: string) {
    && Named(a, nonce) && DistinctPaths(a) && NotStarted(a)
    && forall i :: 0 <= i < |a| ==>
         IsUser(a[i].path) && Journal.AllBytes(a[i].path) && Journal.SafeRelative(a[i].path)
  }

  /** The nonce is new, and every name the transaction can use is allowed. */
  ghost predicate Room(s: Files, a: seq<CommitArtifact>, nonce: string, names: iset<Path>) {
    && NoBackups(s, a) && NamesWithin(a, names) && UserNames(names)
    && MARKER in names && Temporary(MARKER, nonce) in names
  }

  /** The watch allows every state that stands for v, and every unmarked one with the commit applied. */
  ghost predicate AllowsBoth(good: iset<Files>, v: Files, a: seq<CommitArtifact>, names: iset<Path>) {
    Standing(v, names) <= good && AcceptsPlain(good, Applied(v, a), names)
  }

  lemma {:induction false} AppliedSame(v: Files, a: seq<CommitArtifact>, b: seq<CommitArtifact>)
    requires |a| == |b|
    requires forall i :: 0 <= i < |a| ==>
               a[i].path == b[i].path && a[i].contents == b[i].contents && a[i].remove == b[i].remove
    ensures Applied(v, a) == Applied(v, b)
  {
    if a != [] {
      AppliedSame(v, a[..|a| - 1], b[..|b| - 1]);
    }
  }

  lemma MarkerTemporaryIsOwn(a: seq<CommitArtifact>, nonce: string, names: iset<Path>)
    requires Named(a, nonce) && Apart(a) && Temporary(MARKER, nonce) in names
    ensures OwnName(Temporary(MARKER, nonce), a, names)
  {
    OwnNames(MARKER, nonce);
    forall i | 0 <= i < |a|
      ensures Temporary(MARKER, nonce) != a[i].backup && Temporary(MARKER, nonce) != a[i].temporary
    {
      NamesDiffer(MARKER, a[i].path, nonce);
      NamesDiffer(a[i].path, a[i].path, nonce);
      assert a[i].path != MARKER;
    }
  }

  lemma Accepted(good: iset<Files>, v: Files, a: seq<CommitArtifact>, nonce: string, journal: string, names: iset<Path>)
    requires Named(a, nonce) && Apart(a)
    requires Journal.Parse(journal) == Some(Journal.Record(nonce, EntriesOf(a)))
    requires Standing(v, names) <= good
    ensures AcceptsPlain(good, v, names) && AcceptsGuarded(good, a, journal, v, names)
  {
    forall s: Files | Guarded(s, a, journal, v) && Within(s, names) ensures s in good {
      GuardedShows(s, a, nonce, journal, v);
      assert s in Standing(v, names);
    }
    forall s: Files | MARKER !in s && UserFiles(s, v) && Within(s, names) ensures s in good {
      PlainStands(s, v, names);
    }
  }

  lemma PlainAccepted(good: iset<Files>, v: Files, names: iset<Path>)
    requires Standing(v, names) <= good
    ensures AcceptsPlain(good, v, names)
  {
  }

  /** Everything installed: without the marker the commit has happened. */
  lemma InstalledIsApplied(s: Files, a: seq<CommitArtifact>, journal: string, v: Files)
    requires Apart(a) && Guarded(s, a, journal, v) && Installing(s, a, v, |a|)
    ensures UserFiles(s - {MARKER}, Applied(v, a))
  {
    forall p: Path {:trigger IsUser(p)} | IsUser(p) ensures Get(s - {MARKER}, p) == Get(Applied(v, a), p) {
      AppliedAt(v, a, p);
      if i :| 0 <= i < |a| && a[i].path == p {
        assert In(s, a[i], v);
      } else {
        assert !Covers(a, p);
      }
    }
  }

  /** Publishing the marker again over installed files: back to standing for v. */
  lemma RepublishedIsGuarded(s: Files, t: Files, a: seq<CommitArtifact>, journal: string, v: Files, m: Path, names: iset<Path>)
    requires Apart(a) && ExistedIs(a, v) && Guarded(s, a, journal, v) && Installing(s, a, v, |a|)
    requires OwnName(m, a, names) && t == (s - {MARKER})[m := journal]
    ensures var u := t[MARKER := t[m]] - {m};
            Guarded(u, a, journal, v) && Installing(u, a, v, |a|)
  {
    var u := t[MARKER := t[m]] - {m};
    forall i | 0 <= i < |a| ensures OldKept(u, a[i], v) && In(u, a[i], v) {
      assert In(s, a[i], v);
      assert a[i].backup != MARKER && a[i].backup != m && a[i].path != MARKER && a[i].path != m;
      assert IsUser(a[i].path);
    }
  }

  /** Rollback looks only at destinations and backups. */
  lemma AroundMarker(s: Files, t: Files, a: seq<CommitArtifact>, v: Files)
    requires Apart(a) && AllUndoable(s, a, v, |a|) && Outside(s, a, v)
    requires forall p: Path {:trigger IsUser(p)} :: IsUser(p) ==> Get(t, p) == Get(s, p)
    requires forall i :: 0 <= i < |a| ==> Get(t, a[i].backup) == Get(s, a[i].backup)
    ensures AllUndoable(t, a, v, |a|) && Outside(t, a, v)
  {
  }

  /** Backups are not the user's: dropping them leaves the commit as it is. */
  method DropBackups(d: Disk, a: seq<CommitArtifact>, ghost w: Files, ghost names: iset<Path>)
    requires d.Valid() && Apart(a) && Plain(d.files, w, names) && NamesWithin(a, names) && AcceptsPlain(d.good, w, names)
    modifies d`files, d`states, d`faults, d`refusals
    ensures d.Valid() && d.faults >= old(d.faults) && d.refusals >= old(d.refusals) && Plain(d.files, w, names)
    ensures d.faults == old(d.faults) ==> forall i :: 0 <= i < |a| && a[i].backedUp ==> a[i].backup !in d.files
    ensures d.files.Keys <= old(d.files).Keys
  {
    var i := 0;
    while i < |a|
      invariant 0 <= i <= |a|
      invariant d.Valid() && d.faults >= old(d.faults) && d.refusals >= old(d.refusals) && Plain(d.files, w, names)
      invariant d.faults == old(d.faults) ==> forall j :: 0 <= j < i && a[j].backedUp ==> a[j].backup !in d.files
      invariant d.files.Keys <= old(d.files).Keys
    {
      if a[i].backedUp {
        PlainIgnores(d.files, w, names, a[i].backup, "");
        d.RemoveIfPresent(a[i].backup);
      }
      i := i + 1;
    }
  }

  /**
   After the sync behind the marker's removal has failed: put the marker back,
   and only then undo. `exposed` reports that the marker could not be put back.
   */
  method TakeBack(d: Disk, a: seq<CommitArtifact>, journal: string, m: Path, ghost s0: Files,
                  ghost v: Files, ghost names: iset<Path>)
    returns (exposed: bool)
    requires d.Valid() && Apart(a) && NamesWithin(a, names) && ExistedIs(a, v) && OwnName(m, a, names) && MARKER in names
    requires Guarded(s0, a, journal, v) && Installing(s0, a, v, |a|) && AllUndoable(s0, a, v, |a|) && Outside(s0, a, v)
    requires d.files == s0 - {MARKER} && Plain(d.files, Applied(v, a), names)
    requires AcceptsGuarded(d.good, a, journal, v, names) && AcceptsPlain(d.good, Applied(v, a), names)
    modifies d`files, d`states, d`faults, d`refusals, d`good
    ensures d.Valid() && d.faults >= old(d.faults) && d.refusals >= old(d.refusals)
    ensures !exposed ==> d.good == old(d.good) && Guarded(d.files, a, journal, v) && Within(d.files, names)
    ensures exposed ==> d.faults > old(d.faults)
    ensures exposed && d.faults <= old(d.faults) + 1 ==> UserFiles(d.files, v)
    ensures d.faults == old(d.faults) ==> UserFiles(d.files, v)
    ensures d.Broken() ==> exposed && Undid(old(d.states), d.states, Moments(old(d.files), a, 0), v)
  {
    var published := Republish(d, a, journal, m, s0, v, Applied(v, a), names);
    OnlyMarkerNames(s0, d.files, a, v, m, names);
    exposed := !published;
    if !published {
      d.Unwatch();
    }
    Rollback(d, a, journal, v, names, published);
  }

  /** The marker again, through its temporary name. */
  method Republish(d: Disk, a: seq<CommitArtifact>, journal: string, m: Path, ghost s0: Files,
                   ghost v: Files, ghost w: Files, ghost names: iset<Path>)
    returns (published: bool)
    requires d.Valid() && Apart(a) && ExistedIs(a, v) && OwnName(m, a, names) && MARKER in names
    requires Guarded(s0, a, journal, v) && Installing(s0, a, v, |a|)
    requires d.files == s0 - {MARKER} && Plain(d.files, w, names)
    requires AcceptsGuarded(d.good, a, journal, v, names) && AcceptsPlain(d.good, w, names)
    modifies d`files, d`states, d`faults, d`refusals
    ensures d.Valid() && d.faults >= old(d.faults) && d.refusals >= old(d.refusals) && Within(d.files, names)
    ensures forall p :: p != MARKER && p != m ==> Get(d.files, p) == Get(s0, p)
    ensures published ==> Guarded(d.files, a, journal, v)
    ensures !published ==> d.faults > old(d.faults)
    ensures d.Broken() ==> !published && d.files == old(d.files) && d.states == old(d.states)
  {
    ghost var s1 := d.files;
    forall k | 0 <= k <= |journal| ensures s1[m := journal[..k]] in d.good {
      PlainIgnores(s1, w, names, m, journal[..k]);
      assert UserFiles(s1[m := journal[..k]], w);
    }
    var written := d.WriteFile(m, journal);
    published := false;
    if written {
      RepublishedIsGuarded(s0, d.files, a, journal, v, m, names);
      published := d.Rename(m, MARKER);
      if published {
        var ignored := d.SyncDirectory();
      }
    }
  }

  lemma OnlyMarkerNames(s: Files, t: Files, a: seq<CommitArtifact>, v: Files, m: Path, names: iset<Path>)
    requires Apart(a) && AllUndoable(s, a, v, |a|) && Outside(s, a, v) && OwnName(m, a, names)
    requires forall p :: p != MARKER && p != m ==> Get(t, p) == Get(s, p)
    ensures AllUndoable(t, a, v, |a|) && Outside(t, a, v)
  {
    forall i | 0 <= i < |a| ensures Get(t, a[i].backup) == Get(s, a[i].backup) {
      assert a[i].backup != MARKER && a[i].backup != m;
    }
    AroundMarker(s, t, a, v);
  }

  /** With the backups dropped nothing of the commit is left. */
  lemma AllOwnGone(s: Files, dropped: Files, t: Files, a: seq<CommitArtifact>, v: Files)
    requires Installing(s, a, v, |a|) && FlaggedInstalled(a, |a|) && TempsGone(s, a, |a|)
    requires t.Keys <= dropped.Keys <= s.Keys
    requires forall i :: 0 <= i < |a| && a[i].backedUp ==> a[i].backup !in dropped
    ensures OwnGone(t, a)
  {
    forall i | 0 <= i < |a|
      ensures a[i].backup !in t
    {
      assert In(s, a[i], v);
    }
  }

  /** The commit point and what follows it. */
  method Conclude(d: Disk, a: seq<CommitArtifact>, journal: string, m: Path, ghost v: Files, ghost names: iset<Path>)
    returns (ok: bool, exposed: bool)
    requires d.Valid() && Apart(a) && NamesWithin(a, names) && ExistedIs(a, v) && OwnName(m, a, names) && MARKER in names
    requires Guarded(d.files, a, journal, v) && Within(d.files, names)
    requires Installing(d.files, a, v, |a|) && AllUndoable(d.files, a, v, |a|)
    requires FlaggedInstalled(a, |a|)
    requires AcceptsGuarded(d.good, a, journal, v, names) && AcceptsPlain(d.good, Applied(v, a), names)
    modifies d`files, d`states, d`faults, d`refusals, d`good
    ensures d.Valid() && d.faults >= old(d.faults) && d.refusals >= old(d.refusals)
    ensures ok ==> !exposed && Plain(d.files, Applied(v, a), names)
    ensures ok && d.faults == old(d.faults) ==> NoLeftovers(d.files)
    ensures ok && d.faults == old(d.faults) && TempsGone(old(d.files), a, |a|) ==> OwnGone(d.files, a)
    ensures !exposed ==> d.good == old(d.good)
    ensures !ok && !exposed ==> Guarded(d.files, a, journal, v) && Within(d.files, names)
    ensures !ok && d.faults <= old(d.faults) + 1 ==> UserFiles(d.files, v)
    ensures exposed && d.faults <= old(d.faults) + 2 ==> UserFiles(d.files, v)
    ensures !ok ==> d.faults > old(d.faults)
    ensures exposed ==> d.faults >= old(d.faults) + 2
    ensures d.Broken() ==>
              exposed && var u := old(d.files) - {MARKER}; Undid(old(d.states) + [u], d.states, Moments(u, a, 0), v)
  {
    exposed := false;
    ghost var s0, w := d.files, Applied(v, a);
    InstalledIsApplied(s0, a, journal, v);
    assert Plain(s0 - {MARKER}, w, names);
    ok := d.Remove(MARKER);
    if !ok {
      Rollback(d, a, journal, v, names, true);
      return;
    }
    ok := d.SyncDirectory();
    if !ok {
      exposed := TakeBack(d, a, journal, m, s0, v, names);
      return;
    }
    DropBackups(d, a, w, names);
    ghost var dropped := d.files;
    RemoveTransactionLeftovers(d, w, names);
    if d.faults == old(d.faults) && TempsGone(s0, a, |a|) {
      AllOwnGone(s0, dropped, d.files, a, v);
    }
    ok := true;
  }

  /** Backups out, new files in, and the commit point; or back to where it began. */
  method MoveFiles(d: Disk, a0: seq<CommitArtifact>, journal: string, m: Path, ghost v: Files, ghost names: iset<Path>)
    returns (ok: bool, exposed: bool)
    requires d.Valid() && Apart(a0) && NamesWithin(a0, names) && ExistedIs(a0, v) && NotStarted(a0)
    requires OwnName(m, a0, names) && MARKER in names
    requires MARKER in d.files && Early(d.files, a0, journal, v, names) && AllTempsReady(d.files, a0, 0)
    requires AcceptsGuarded(d.good, a0, journal, v, names) && AcceptsPlain(d.good, Applied(v, a0), names)
    modifies d`files, d`states, d`faults, d`refusals, d`good
    ensures d.Valid() && d.faults >= old(d.faults) && d.refusals >= old(d.refusals)
    ensures ok ==> !exposed && Plain(d.files, Applied(v, a0), names)
    ensures ok && d.faults == old(d.faults) ==> NoLeftovers(d.files) && OwnGone(d.files, a0)
    ensures !exposed ==> d.good == old(d.good)
    ensures !ok && !exposed ==> Guarded(d.files, a0, journal, v) && Within(d.files, names)
    ensures !ok && d.faults <= old(d.faults) + 1 ==> UserFiles(d.files, v)
    ensures exposed && d.faults <= old(d.faults) + 2 ==> UserFiles(d.files, v)
    ensures !ok ==> d.faults > old(d.faults)
    ensures exposed ==> d.faults >= old(d.faults) + 2
  {
    exposed := false;
    EarlyStands(d.files, a0, journal, v, names);
    var a;
    ok, a := BackUp(d, a0, journal, v, names);
    SamePlanEverywhere(d.good, a, a0, journal, v, names);
    AppliedSame(v, a, a0);
    if ok {
      AllOut(d.files, a, v);
      ok, exposed := InstallAndConclude(d, a, journal, m, v, names);
      if ok && d.faults == old(d.faults) {
        SameOwnGone(d.files, a, a0);
      }
    } else {
      Rollback(d, a, journal, v, names, true);
    }
    SamePlanGuarded(d.files, a, a0, journal, v);
  }

  /** From the old files moved out to the commit point. */
  method InstallAndConclude(d: Disk, a: seq<CommitArtifact>, journal: string, m: Path, ghost v: Files, ghost names: iset<Path>)
    returns (ok: bool, exposed: bool)
    requires d.Valid() && Apart(a) && NamesWithin(a, names) && ExistedIs(a, v) && OwnName(m, a, names) && MARKER in names
    requires Guarded(d.files, a, journal, v) && Within(d.files, names)
    requires Installing(d.files, a, v, 0) && FlaggedInstalled(a, 0) && AllTempsReady(d.files, a, 0)
    requires AcceptsGuarded(d.good, a, journal, v, names) && AcceptsPlain(d.good, Applied(v, a), names)
    modifies d`files, d`states, d`faults, d`refusals, d`good
    ensures d.Valid() && d.faults >= old(d.faults) && d.refusals >= old(d.refusals)
    ensures ok ==> !exposed && Plain(d.files, Applied(v, a), names)
    ensures ok && d.faults == old(d.faults) ==> NoLeftovers(d.files) && OwnGone(d.files, a)
    ensures !exposed ==> d.good == old(d.good)
    ensures !ok && !exposed ==> Guarded(d.files, a, journal, v) && Within(d.files, names)
    ensures !ok && d.faults <= old(d.faults) + 1 ==> UserFiles(d.files, v)
    ensures exposed && d.faults <= old(d.faults) + 2 ==> UserFiles(d.files, v)
    ensures !ok ==> d.faults > old(d.faults)
    ensures exposed ==> d.faults >= old(d.faults) + 2
  {
    exposed := false;
    var b;
    ok, b := Install(d, a, journal, v, names);
    SamePlanEverywhere(d.good, b, a, journal, v, names);
    AppliedSame(v, b, a);
    if ok {
      ok, exposed := Conclude(d, b, journal, m, v, names);
      if ok && d.faults == old(d.faults) {
        SameOwnGone(d.files, b, a);
      }
    } else {
      Rollback(d, b, journal, v, names, true);
    }
    SamePlanGuarded(d.files, b, a, journal, v);
  }

  lemma SamePlanEverywhere(good: iset<Files>, a: seq<CommitArtifact>, b: seq<CommitArtifact>, journal: string, v: Files,
                           names: iset<Path>)
    requires SamePlan(a, b) && Apart(b) && AcceptsGuarded(good, b, journal, v, names)
    ensures Apart(a) && AcceptsGuarded(good, a, journal, v, names)
    ensures forall s {:trigger Guarded(s, a, journal, v)} {:trigger Guarded(s, b, journal, v)} ::
              Guarded(s, a, journal, v) <==> Guarded(s, b, journal, v)
    ensures forall s {:trigger Outside(s, a, v)} :: Guarded(s, b, journal, v) ==> Outside(s, a, v)
  {
    SamePaths(a, b);
    forall s ensures Guarded(s, a, journal, v) <==> Guarded(s, b, journal, v) {
      SamePlanGuarded(s, a, b, journal, v);
    }
  }

  lemma AllOut(s: Files, a: seq<CommitArtifact>, v: Files)
    requires BackingUp(s, a, v, |a|) && FlaggedBackedUp(a, |a|)
    ensures Installing(s, a, v, 0) && FlaggedInstalled(a, 0)
  {
  }

  /** The commit proper, on a disk without a marker. */
  method CommitFromClean(d: Disk, a0: seq<CommitArtifact>, nonce: string, ghost v: Files, ghost names: iset<Path>)
    returns (ok: bool, exposed: bool)
    requires d.Valid() && GoodPlan(a0, nonce) && Room(d.files, a0, nonce, names)
    requires Plain(d.files, v, names) && AllowsBoth(d.good, v, a0, names)
    modifies d`files, d`states, d`faults, d`refusals, d`good
    ensures d.Valid() && d.faults >= old(d.faults) && d.refusals >= old(d.refusals)
    ensures ok ==> !exposed && Plain(d.files, Applied(v, a0), names)
    ensures ok && d.faults == old(d.faults) ==> NoLeftovers(d.files) && OwnGone(d.files, a0)
    ensures !exposed ==> d.good == old(d.good)
    ensures !ok && !exposed ==> Shows(d.files, v) && Within(d.files, names)
    ensures !ok && d.faults <= old(d.faults) + 1 ==> UserFiles(d.files, v)
    ensures exposed && d.faults <= old(d.faults) + 2 ==> UserFiles(d.files, v)
    ensures !ok ==> d.faults > old(d.faults)
    ensures exposed ==> d.faults >= old(d.faults) + 2
  {
    exposed := false;
    NamedApart(a0, nonce);
    PlainAccepted(d.good, v, names);
    var a;
    ok, a := Prepare(d, a0, v, names);
    PreparedPlan(a, a0, nonce, d.files, v, names);
    if ok {
      ok, exposed := PublishAndMove(d, a, nonce, v, names);
      if ok && d.faults == old(d.faults) {
        SameOwnGone(d.files, a, a0);
      }
    } else {
      Abandon(d, a, v, names);
    }
  }

  lemma PreparedPlan(a: seq<CommitArtifact>, b: seq<CommitArtifact>, nonce: string, s: Files, v: Files, names: iset<Path>)
    requires SameNames(a, b) && GoodPlan(b, nonce) && Apart(b) && NamesWithin(b, names) && NoBackups(s, b)
    ensures GoodPlan(a, nonce) && Apart(a) && NamesWithin(a, names) && NoBackups(s, a)
    ensures Applied(v, a) == Applied(v, b)
  {
    AppliedSame(v, a, b);
    NamedApart(a, nonce);
  }

  /** A commit that could not be prepared leaves nothing of itself. */
  method Abandon(d: Disk, a: seq<CommitArtifact>, ghost v: Files, ghost names: iset<Path>)
    requires d.Valid() && Apart(a) && NamesWithin(a, names) && Plain(d.files, v, names) && AcceptsPlain(d.good, v, names)
    modifies d`files, d`states, d`faults, d`refusals
    ensures d.Valid() && d.faults >= old(d.faults) && d.refusals >= old(d.refusals) && Plain(d.files, v, names)
    ensures d.faults == old(d.faults) ==> forall i :: 0 <= i < |a| ==> a[i].temporary !in d.files
  {
    ghost var inv := iset s: Files | Plain(s, v, names);
    forall s: Files, i | s in inv && 0 <= i < |a| ensures s - {a[i].temporary} in inv {
      PlainIgnores(s, v, names, a[i].temporary, "");
    }
    CleanupTemporary(d, a, inv);
  }

  /** From prepared files to the commit point. */
  method PublishAndMove(d: Disk, a: seq<CommitArtifact>, nonce: string, ghost v: Files, ghost names: iset<Path>)
    returns (ok: bool, exposed: bool)
    requires d.Valid() && GoodPlan(a, nonce) && Apart(a) && ExistedIs(a, v) && Room(d.files, a, nonce, names)
    requires Plain(d.files, v, names) && AllTempsReady(d.files, a, 0)
    requires Standing(v, names) <= d.good && AcceptsPlain(d.good, Applied(v, a), names)
    modifies d`files, d`states, d`faults, d`refusals, d`good
    ensures d.Valid() && d.faults >= old(d.faults) && d.refusals >= old(d.refusals)
    ensures ok ==> !exposed && Plain(d.files, Applied(v, a), names)
    ensures ok && d.faults == old(d.faults) ==> NoLeftovers(d.files) && OwnGone(d.files, a)
    ensures !exposed ==> d.good == old(d.good)
    ensures !ok && !exposed ==> Shows(d.files, v) && Within(d.files, names)
    ensures !ok && d.faults <= old(d.faults) + 1 ==> UserFiles(d.files, v)
    ensures exposed && d.faults <= old(d.faults) + 2 ==> UserFiles(d.files, v)
    ensures !ok ==> d.faults > old(d.faults)
    ensures exposed ==> d.faults >= old(d.faults) + 2
  {
    exposed := false;
    var record := Journal.Record(nonce, EntriesOf(a));
    var journal := Journal.WriteJournal(record);
    Journal.ParseText(record);
    Accepted(d.good, v, a, nonce, journal, names);
    var m := Temporary(MARKER, nonce);
    MarkerTemporaryIsOwn(a, nonce, names);
    ok := Publish(d, a, journal, m, v, names);
    if ok {
      ok, exposed := MoveFiles(d, a, journal, m, v, names);
      if !ok && !exposed {
        GuardedShows(d.files, a, nonce, journal, v);
      }
    } else {
      EarlyShows(d.files, a, nonce, journal, v, names);
    }
  }

  lemma EarlyShows(s: Files, a: seq<CommitArtifact>, nonce: string, journal: string, v: Files, names: iset<Path>)
    requires Named(a, nonce) && Apart(a) && ExistedIs(a, v) && Early(s, a, journal, v, names)
    requires Journal.Parse(journal) == Some(Journal.Record(nonce, EntriesOf(a)))
    ensures Shows(s, v)
  {
    EarlyStands(s, a, journal, v, names);
    if MARKER in s {
      GuardedShows(s, a, nonce, journal, v);
    }
  }

  /** The user's files as they are on the disk. */
  ghost function Present(s: Files): (v: Files)
    ensures UserFiles(s, v) && OnlyUser(v)
  {
    map p | p in s && IsUser(p) :: s[p]
  }

  lemma PresentIs(s: Files, v: Files)
    requires UserFiles(s, v) && OnlyUser(v)
    ensures Present(s) == v
  {
  }

  /** A disk stands for one set of user files at most: what a recovery will bring back is settled. */
  lemma StandsForOne(s: Files, v: Files, w: Files)
    requires Shows(s, v) && Shows(s, w) && OnlyUser(v) && OnlyUser(w)
    ensures v == w
  {
    forall p: Path | IsUser(p) ensures Get(v, p) == Get(w, p) {
      if MARKER in s {
        var a := PlanOf(Journal.Parse(s[MARKER]).value);
        if Covers(a, p) {
          var i :| 0 <= i < |a| && a[i].path == p;
          assert OldKept(s, a[i], v) && OldKept(s, a[i], w);
        }
      }
    }
    SameFiles(v, w);
  }

  lemma SameFiles(v: Files, w: Files)
    requires OnlyUser(v) && OnlyUser(w) && forall p: Path :: IsUser(p) ==> Get(v, p) == Get(w, p)
    ensures v == w
  {
    assert forall p :: p in v ==> IsUser(p) && Get(v, p) == Get(w, p);
    assert forall p :: p in w ==> IsUser(p) && Get(v, p) == Get(w, p);
  }

  /**
   CommitArtifacts: recover what an earlier commit left, sweep, commit. Unless
   the two named hazards occur, every state the disk passes through stands for
   the files before or the files after, success leaves the files after, and
   failure leaves a disk that stands for the files before.
   */
  method CommitArtifacts(d: Disk, artifacts: seq<CommitArtifact>, nonce: string, ghost v: Files, ghost names: iset<Path>)
    returns (ok: bool, stuck: set<Path>, exposed: bool)
    requires d.Valid() && GoodPlan(artifacts, nonce) && Room(d.files, artifacts, nonce, names)
    requires Shows(d.files, v) && OnlyUser(v) && Within(d.files, names) && AllowsBoth(d.good, v, artifacts, names)
    modifies d`files, d`states, d`faults, d`refusals, d`good
    ensures d.Valid() && d.faults >= old(d.faults) && d.refusals >= old(d.refusals)
    ensures stuck == {} && !exposed ==> d.good == old(d.good) && Within(d.files, names)
    ensures stuck == {} && ok ==> !exposed && Shows(d.files, Applied(v, artifacts))
    ensures artifacts != [] && ok ==> MARKER !in d.files
    ensures artifacts != [] && ok && d.faults == old(d.faults) ==> NoLeftovers(d.files) && OwnGone(d.files, artifacts)
    ensures stuck == {} && !ok && !exposed ==> Shows(d.files, v)
    ensures !ok ==> d.faults > old(d.faults)
    ensures old(MARKER !in d.files) && !ok && d.faults <= old(d.faults) + 1 ==> UserFiles(d.files, v)
    ensures stuck == {} && exposed && d.faults <= old(d.faults) + 2 ==> UserFiles(d.files, v)
    ensures stuck <= AtRisk(old(d.files)) && d.refusals >= old(d.refusals) + |stuck|
    ensures d.faults >= old(d.faults) + |stuck| + if exposed then 2 else 0
    ensures AtRisk(old(d.files)) == {} && d.faults <= old(d.faults) + 1 ==> AtRisk(d.files) == {}
  {
    stuck, exposed := {}, false;
    if artifacts == [] {
      return true, stuck, exposed;
    }
    ghost var present := iset p | p in d.files || IsUser(p);
    ok, stuck := RecoverTransaction(d, v, present);
    if !ok {
      return;
    }
    ghost var w := Present(d.files);
    if stuck == {} {
      PresentIs(d.files, v);
    }
    Swept(d.files, present, artifacts, nonce);
    ok, exposed := SweepAndCommit(d, artifacts, nonce, w, names);
  }

  /** The commit of a recovered disk. */
  method SweepAndCommit(d: Disk, a: seq<CommitArtifact>, nonce: string, ghost w: Files, ghost names: iset<Path>)
    returns (ok: bool, exposed: bool)
    requires d.Valid() && GoodPlan(a, nonce) && Room(d.files, a, nonce, names)
    requires Plain(d.files, w, names) && AllowsBoth(d.good, w, a, names)
    modifies d`files, d`states, d`faults, d`refusals, d`good
    ensures d.Valid() && d.faults >= old(d.faults) && d.refusals >= old(d.refusals)
    ensures ok ==> !exposed && Plain(d.files, Applied(w, a), names)
    ensures ok && d.faults == old(d.faults) ==> NoLeftovers(d.files) && OwnGone(d.files, a)
    ensures !exposed ==> d.good == old(d.good)
    ensures !ok && !exposed ==> Shows(d.files, w) && Within(d.files, names)
    ensures !ok && d.faults <= old(d.faults) + 1 ==> UserFiles(d.files, w)
    ensures exposed && d.faults <= old(d.faults) + 2 ==> UserFiles(d.files, w)
    ensures !ok ==> d.faults > old(d.faults)
    ensures exposed ==> d.faults >= old(d.faults) + 2
    ensures ok || d.faults <= old(d.faults) + 1 ==> AtRisk(d.files) == {}
  {
    PlainAccepted(d.good, w, names);
    RemoveTransactionLeftovers(d, w, names);
    ok, exposed := CommitFromClean(d, a, nonce, w, names);
    if !ok && !exposed && UserFiles(d.files, w) {
      NoRisk(d.files, w);
    }
  }

  /** Recovery brings back user files only, so a new nonce stays new. */
  lemma Swept(s: Files, present: iset<Path>, a: seq<CommitArtifact>, nonce: string)
    requires Within(s, present) && GoodPlan(a, nonce)
    requires forall i :: 0 <= i < |a| && a[i].backup in present ==> IsUser(a[i].backup)
    ensures NoBackups(s, a)
  {
    NamedApart(a, nonce);
  }
}
