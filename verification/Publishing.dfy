/** Publishing the journal, moving old files out and new files in. */
module Publishing {
  import opened Names
  import opened Storage
  import opened Plan
  import opened Recovery
  import opened Phases

  // ---- Publish the journal ---------------------------------------------------

  /** Nothing has been moved yet; the marker, if there, is complete. */
  ghost predicate Early(s: Files, a: seq<CommitArtifact>, journal: string, v: Files, names: iset<Path>) {
    && Within(s, names) && UserFiles(s, v) && NoBackups(s, a)
    && (MARKER in s ==> s[MARKER] == journal)
  }

  lemma EarlyStands(s: Files, a: seq<CommitArtifact>, journal: string, v: Files, names: iset<Path>)
    requires Apart(a) && ExistedIs(a, v) && Early(s, a, journal, v, names)
    ensures MARKER in s ==> Guarded(s, a, journal, v) && BackingUp(s, a, v, 0)
    ensures MARKER !in s ==> Plain(s, v, names)
  {
  }

  lemma EarlyIgnores(s: Files, a: seq<CommitArtifact>, journal: string, v: Files, names: iset<Path>, p: Path, c: string)
    requires Early(s, a, journal, v, names) && !IsUser(p)
    ensures Early(s - {p}, a, journal, v, names)
    ensures p in names && (p == MARKER ==> c == journal) && (forall i :: 0 <= i < |a| ==> a[i].backup != p) ==>
              Early(s[p := c], a, journal, v, names)
  {
  }

  ghost function EarlyStates(a: seq<CommitArtifact>, journal: string, v: Files, names: iset<Path>): iset<Files> {
    iset s: Files | Early(s, a, journal, v, names)
  }

  lemma EarlyAccepted(good: iset<Files>, a: seq<CommitArtifact>, journal: string, v: Files, names: iset<Path>)
    requires Apart(a) && ExistedIs(a, v)
    requires AcceptsPlain(good, v, names) && AcceptsGuarded(good, a, journal, v, names)
    ensures EarlyStates(a, journal, v, names) <= good
  {
    forall s: Files | Early(s, a, journal, v, names) ensures s in good {
      EarlyStands(s, a, journal, v, names);
      assert UserFiles(s, v);
    }
  }

  /** A name of this transaction that is neither a destination nor any artifact's own. */
  ghost predicate OwnName(p: Path, a: seq<CommitArtifact>, names: iset<Path>) {
    && !IsUser(p) && p != MARKER && p in names
    && forall i :: 0 <= i < |a| ==> p != a[i].backup && p != a[i].temporary && p != a[i].path
  }

  /** The journal reaches its name in one rename; on any error everything is taken back. */
  method Publish(d: Disk, a: seq<CommitArtifact>, journal: string, markerTemporary: Path, ghost v: Files, ghost names: iset<Path>)
    returns (ok: bool)
    requires d.Valid() && Apart(a) && ExistedIs(a, v) && OwnName(markerTemporary, a, names) && MARKER in names
    requires Early(d.files, a, journal, v, names) && AllTempsReady(d.files, a, 0)
    requires AcceptsPlain(d.good, v, names) && AcceptsGuarded(d.good, a, journal, v, names)
    modifies d`files, d`states, d`faults, d`refusals
    ensures d.Valid() && d.faults >= old(d.faults) && d.refusals >= old(d.refusals)
    ensures Early(d.files, a, journal, v, names)
    ensures ok ==> MARKER in d.files && AllTempsReady(d.files, a, 0)
    ensures !ok ==> d.faults > old(d.faults)
  {
    EarlyAccepted(d.good, a, journal, v, names);
    ok := PublishMarker(d, a, journal, markerTemporary, v, names);
    if !ok {
      ghost var inv := EarlyStates(a, journal, v, names);
      forall s: Files, i | s in inv && 0 <= i < |a| ensures s - {a[i].temporary} in inv {
        EarlyIgnores(s, a, journal, v, names, a[i].temporary, "");
      }
      CleanupTemporary(d, a, inv);
      EarlyIgnores(d.files, a, journal, v, names, markerTemporary, "");
      d.RemoveIfPresent(markerTemporary);
      EarlyIgnores(d.files, a, journal, v, names, MARKER, journal);
      d.RemoveIfPresent(MARKER);
    }
  }

  /** However much of the journal its temporary holds, nothing else has changed. */
  lemma JournalWritten(s: Files, t: Files, a: seq<CommitArtifact>, journal: string, v: Files, names: iset<Path>, p: Path)
    requires Early(s, a, journal, v, names) && OwnName(p, a, names)
    requires t == s || exists k :: 0 <= k <= |journal| && t == s[p := journal[..k]]
    ensures Early(t, a, journal, v, names) && (AllTempsReady(s, a, 0) ==> AllTempsReady(t, a, 0))
  {
    if t != s {
      var k :| 0 <= k <= |journal| && t == s[p := journal[..k]];
      EarlyIgnores(s, a, journal, v, names, p, journal[..k]);
    }
  }

  lemma JournalRenamed(s: Files, t: Files, a: seq<CommitArtifact>, journal: string, v: Files, names: iset<Path>, p: Path)
    requires Early(s, a, journal, v, names) && OwnName(p, a, names) && MARKER in names && Apart(a)
    requires t == s[MARKER := journal] - {p}
    ensures Early(t, a, journal, v, names) && (AllTempsReady(s, a, 0) ==> AllTempsReady(t, a, 0))
  {
    EarlyIgnores(s, a, journal, v, names, MARKER, journal);
    EarlyIgnores(s[MARKER := journal], a, journal, v, names, p, "");
  }

  method PublishMarker(d: Disk, a: seq<CommitArtifact>, journal: string, markerTemporary: Path, ghost v: Files, ghost names: iset<Path>)
    returns (ok: bool)
    requires d.Valid() && OwnName(markerTemporary, a, names) && MARKER in names && Apart(a)
    requires Early(d.files, a, journal, v, names) && AllTempsReady(d.files, a, 0)
    requires EarlyStates(a, journal, v, names) <= d.good
    modifies d`files, d`states, d`faults
    ensures d.Valid() && d.faults >= old(d.faults)
    ensures Early(d.files, a, journal, v, names)
    ensures ok ==> MARKER in d.files && AllTempsReady(d.files, a, 0)
    ensures !ok ==> d.faults > old(d.faults)
  {
    ghost var s := d.files;
    forall k | 0 <= k <= |journal| ensures s[markerTemporary := journal[..k]] in d.good {
      JournalWritten(s, s[markerTemporary := journal[..k]], a, journal, v, names, markerTemporary);
    }
    ok := d.WriteFile(markerTemporary, journal);
    ghost var written := d.files;
    JournalWritten(s, written, a, journal, v, names, markerTemporary);
    if ok {
      JournalRenamed(written, written[MARKER := journal] - {markerTemporary}, a, journal, v, names, markerTemporary);
      ok := d.Rename(markerTemporary, MARKER);
      if ok {
        ok := d.SyncDirectory();
      }
    }
  }

  // ---- Back up and install -----------------------------------------------------

  /** The first loop: every existing destination moves to its backup. */
  method BackUp(d: Disk, a0: seq<CommitArtifact>, ghost journal: string, ghost v: Files, ghost names: iset<Path>)
    returns (ok: bool, a: seq<CommitArtifact>)
    requires d.Valid() && Apart(a0) && NamesWithin(a0, names) && ExistedIs(a0, v)
    requires Guarded(d.files, a0, journal, v) && Within(d.files, names) && AcceptsGuarded(d.good, a0, journal, v, names)
    requires BackingUp(d.files, a0, v, 0) && FlaggedBackedUp(a0, 0) && AllTempsReady(d.files, a0, 0)
    modifies d`files, d`states, d`faults, d`refusals
    ensures d.Valid() && d.faults >= old(d.faults) && d.refusals >= old(d.refusals)
    ensures SamePlan(a, a0) && ExistedIs(a, v)
    ensures Guarded(d.files, a0, journal, v) && Within(d.files, names)
    ensures ok ==> BackingUp(d.files, a, v, |a|) && FlaggedBackedUp(a, |a|) && AllTempsReady(d.files, a, 0)
    ensures !ok ==> AllUndoable(d.files, a, v, |a|) && d.faults > old(d.faults)
  {
    a := a0;
    var i := 0;
    while i < |a|
      invariant 0 <= i <= |a| && SamePlan(a, a0) && ExistedIs(a, v)
      invariant d.Valid() && d.faults >= old(d.faults) && d.refusals >= old(d.refusals)
      invariant Guarded(d.files, a0, journal, v) && Within(d.files, names)
      invariant BackingUp(d.files, a0, v, i) && FlaggedBackedUp(a, i) && AllTempsReady(d.files, a0, 0)
    {
      if a[i].existed {
        var moved;
        ok, moved := MoveOut(d, a0, i, journal, v, names);
        SetBackedUp(a, a0, v, i, moved);
        a := a[i := a[i].(backedUp := moved)];
        if !ok {
          MidBackUpUndoable(d.files, a, a0, v, if moved then i + 1 else i);
          return;
        }
      } else {
        NothingToBackUp(d.files, a0, journal, v, i);
        SetBackedUp(a, a0, v, i, false);
        assert a[i := a[i].(backedUp := false)] == a;
      }
      i := i + 1;
    }
    SameStanding(d.files, a, a0, v);
    ok := true;
  }

  lemma SetBackedUp(a: seq<CommitArtifact>, a0: seq<CommitArtifact>, v: Files, i: nat, moved: bool)
    requires SamePlan(a, a0) && ExistedIs(a, v) && FlaggedBackedUp(a, i) && i < |a|
    requires moved ==> a[i].existed
    ensures var b := a[i := a[i].(backedUp := moved)];
            && SamePlan(b, a0) && ExistedIs(b, v)
            && FlaggedBackedUp(b, if moved || !a[i].existed then i + 1 else i)
  {
  }

  /** One destination to its backup, and its directory synchronised. */
  method MoveOut(d: Disk, a: seq<CommitArtifact>, i: nat, ghost journal: string, ghost v: Files, ghost names: iset<Path>)
    returns (ok: bool, moved: bool)
    requires d.Valid() && Apart(a) && NamesWithin(a, names) && i < |a| && a[i].existed
    requires Guarded(d.files, a, journal, v) && Within(d.files, names) && AcceptsGuarded(d.good, a, journal, v, names)
    requires BackingUp(d.files, a, v, i) && AllTempsReady(d.files, a, 0)
    modifies d`files, d`states, d`faults
    ensures d.Valid() && Guarded(d.files, a, journal, v) && Within(d.files, names)
    ensures BackingUp(d.files, a, v, if moved then i + 1 else i) && AllTempsReady(d.files, a, 0)
    ensures ok ==> moved
    ensures d.faults == old(d.faults) + if ok then 0 else 1
  {
    BackUpOne(d.files, a, journal, v, i);
    ok := d.Rename(a[i].path, a[i].backup);
    moved := ok;
    if ok {
      ok := d.SyncDirectory();
    }
  }

  lemma MidBackUpUndoable(s: Files, a: seq<CommitArtifact>, b: seq<CommitArtifact>, v: Files, i: nat)
    requires SamePlan(a, b) && BackingUp(s, b, v, i) && ExistedIs(a, v) && FlaggedBackedUp(a, i)
    ensures AllUndoable(s, a, v, |a|)
  {
  }

  lemma SameStanding(s: Files, a: seq<CommitArtifact>, b: seq<CommitArtifact>, v: Files)
    requires SamePlan(a, b)
    ensures forall i :: BackingUp(s, b, v, i) ==> BackingUp(s, a, v, i)
    ensures AllTempsReady(s, b, 0) ==> AllTempsReady(s, a, 0)
  {
  }

  /** The install loop at i: below, destinations are final; above, they are out. */
  ghost predicate Installing(s: Files, a: seq<CommitArtifact>, v: Files, i: nat) {
    forall j :: 0 <= j < |a| ==> if j < i then In(s, a[j], v) else Out(s, a[j], v)
  }

  /** The first new files have moved away from their temporaries. */
  ghost predicate TempsGone(s: Files, a: seq<CommitArtifact>, i: nat) {
    forall j :: 0 <= j < i && j < |a| && !a[j].remove ==> a[j].temporary !in s
  }

  /** None of the files a commit makes for itself is there. */
  ghost predicate OwnGone(s: Files, a: seq<CommitArtifact>) {
    NoBackups(s, a) && TempsGone(s, a, |a|)
  }

  lemma SameOwnGone(s: Files, a: seq<CommitArtifact>, b: seq<CommitArtifact>)
    requires |a| == |b| && OwnGone(s, a)
    requires forall i :: 0 <= i < |a| ==>
               a[i].backup == b[i].backup && a[i].temporary == b[i].temporary && a[i].remove == b[i].remove
    ensures OwnGone(s, b)
  {
  }

  ghost predicate FlaggedInstalled(a: seq<CommitArtifact>, i: nat) {
    forall j :: 0 <= j < |a| ==> a[j].backedUp == a[j].existed && a[j].committed == (j < i && !a[j].remove)
  }

  lemma InstallOne(s: Files, a: seq<CommitArtifact>, journal: string, v: Files, i: nat)
    requires Apart(a) && Guarded(s, a, journal, v) && Installing(s, a, v, i) && i < |a| && !a[i].remove
    requires AllTempsReady(s, a, i)
    ensures a[i].path != a[i].temporary && a[i].temporary in s
    ensures var t := s[a[i].path := s[a[i].temporary]] - {a[i].temporary};
            Guarded(t, a, journal, v) && Installing(t, a, v, i + 1) && AllTempsReady(t, a, i + 1) &&
            (TempsGone(s, a, i) ==> TempsGone(t, a, i + 1))
  {
    var q, m := a[i].path, a[i].temporary;
    assert TempReady(s, a[i]) && Out(s, a[i], v);
    var t := s[q := s[m]] - {m};
    forall j | 0 <= j < |a|
      ensures OldKept(t, a[j], v) && (j > i ==> TempReady(t, a[j]))
      ensures if j < i + 1 then In(t, a[j], v) else Out(t, a[j], v)
    {
      assert OldKept(s, a[j], v) && (j > i ==> TempReady(s, a[j]));
      assert m != a[j].backup && m != a[j].path && a[j].temporary != q && a[j].backup != q;
      assert j != i ==> a[j].path != q && a[j].temporary != m;
      assert if j < i then In(s, a[j], v) else Out(s, a[j], v);
    }
    assert Covers(a, q);
  }

  lemma InstallingUndoable(s: Files, a: seq<CommitArtifact>, v: Files, i: nat, flagged: nat)
    requires Installing(s, a, v, i) && ExistedIs(a, v) && FlaggedInstalled(a, flagged)
    requires flagged == i
    ensures AllUndoable(s, a, v, |a|)
  {
  }

  lemma SameInstalling(s: Files, a: seq<CommitArtifact>, b: seq<CommitArtifact>, v: Files, i: nat)
    requires SamePlan(a, b) && Installing(s, b, v, i)
    ensures Installing(s, a, v, i)
  {
  }

  /** The second loop: every new file moves into place. */
  method Install(d: Disk, a0: seq<CommitArtifact>, ghost journal: string, ghost v: Files, ghost names: iset<Path>)
    returns (ok: bool, a: seq<CommitArtifact>)
    requires d.Valid() && Apart(a0) && NamesWithin(a0, names) && ExistedIs(a0, v)
    requires Guarded(d.files, a0, journal, v) && Within(d.files, names) && AcceptsGuarded(d.good, a0, journal, v, names)
    requires Installing(d.files, a0, v, 0) && FlaggedInstalled(a0, 0) && AllTempsReady(d.files, a0, 0)
    modifies d`files, d`states, d`faults, d`refusals
    ensures d.Valid() && d.faults >= old(d.faults) && d.refusals >= old(d.refusals)
    ensures SamePlan(a, a0) && ExistedIs(a, v)
    ensures Guarded(d.files, a0, journal, v) && Within(d.files, names)
    ensures AllUndoable(d.files, a, v, |a|)
    ensures ok ==> Installing(d.files, a, v, |a|) && FlaggedInstalled(a, |a|) && TempsGone(d.files, a, |a|)
    ensures !ok ==> d.faults > old(d.faults)
  {
    a := a0;
    var i := 0;
    while i < |a|
      invariant 0 <= i <= |a| && SamePlan(a, a0) && ExistedIs(a, v)
      invariant d.Valid() && d.faults >= old(d.faults) && d.refusals >= old(d.refusals)
      invariant Guarded(d.files, a0, journal, v) && Within(d.files, names)
      invariant Installing(d.files, a0, v, i) && FlaggedInstalled(a, i) && AllTempsReady(d.files, a0, i)
      invariant TempsGone(d.files, a0, i)
    {
      if a[i].remove {
        RemovalInPlace(d.files, a0, v, i);
        SetCommitted(a, a0, v, i, false);
        assert a[i := a[i].(committed := false)] == a;
      } else {
        var moved;
        ok, moved := MoveIn(d, a0, i, journal, v, names);
        SetCommitted(a, a0, v, i, moved);
        a := a[i := a[i].(committed := moved)];
        if !ok {
          MidInstallUndoable(d.files, a, a0, v, if moved then i + 1 else i);
          return;
        }
      }
      i := i + 1;
    }
    SameInstalling(d.files, a, a0, v, i);
    InstallingUndoable(d.files, a, v, i, i);
    ok := true;
  }

  lemma RemovalInPlace(s: Files, a: seq<CommitArtifact>, v: Files, i: nat)
    requires Installing(s, a, v, i) && AllTempsReady(s, a, i) && i < |a| && a[i].remove
    ensures Installing(s, a, v, i + 1) && AllTempsReady(s, a, i + 1)
  {
  }

  lemma SetCommitted(a: seq<CommitArtifact>, a0: seq<CommitArtifact>, v: Files, i: nat, moved: bool)
    requires SamePlan(a, a0) && ExistedIs(a, v) && FlaggedInstalled(a, i) && i < |a|
    requires moved ==> !a[i].remove
    ensures var b := a[i := a[i].(committed := moved)];
            && SamePlan(b, a0) && ExistedIs(b, v)
            && FlaggedInstalled(b, if moved || a[i].remove then i + 1 else i)
  {
  }

  /** One new file to its destination, and its directory synchronised. */
  method MoveIn(d: Disk, a: seq<CommitArtifact>, i: nat, ghost journal: string, ghost v: Files, ghost names: iset<Path>)
    returns (ok: bool, moved: bool)
    requires d.Valid() && Apart(a) && NamesWithin(a, names) && i < |a| && !a[i].remove
    requires Guarded(d.files, a, journal, v) && Within(d.files, names) && AcceptsGuarded(d.good, a, journal, v, names)
    requires Installing(d.files, a, v, i) && AllTempsReady(d.files, a, i) && TempsGone(d.files, a, i)
    modifies d`files, d`states, d`faults
    ensures d.Valid() && Guarded(d.files, a, journal, v) && Within(d.files, names)
    ensures var k := if moved then i + 1 else i;
            Installing(d.files, a, v, k) && AllTempsReady(d.files, a, k) && TempsGone(d.files, a, k)
    ensures ok ==> moved
    ensures d.faults == old(d.faults) + if ok then 0 else 1
  {
    InstallOne(d.files, a, journal, v, i);
    ok := d.Rename(a[i].temporary, a[i].path);
    moved := ok;
    if ok {
      ok := d.SyncDirectory();
    }
  }

  lemma MidInstallUndoable(s: Files, a: seq<CommitArtifact>, b: seq<CommitArtifact>, v: Files, i: nat)
    requires SamePlan(a, b) && Installing(s, b, v, i) && ExistedIs(a, v) && FlaggedInstalled(a, i)
    ensures AllUndoable(s, a, v, |a|)
  {
  }
}
