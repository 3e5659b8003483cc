/**
 When a recovery can report success without having restored the old files: a
 removal it asks for is refused, and it does not look whether it was.
 */
module RefusedRemovals {
  import opened Options
  import opened Names
  import opened Storage
  import opened Plan
  import opened Recovery
  import opened Interrupted
  import Journal

  /**
   Recovery from a disk state that stands for v, on a disk with any trouble.
   With nothing at risk a reported success has restored v. On a disk that
   refuses only removals recovery does report success, its files are those of
   the specification, and they are v exactly when none of the refused paths was
   at risk.
   */
  method RecoverFrom(s: Files, trouble: Trouble, ghost v: Files) returns (ok: bool, files: Files, ghost stuck: set<Path>)
    requires Shows(s, v)
    ensures ok ==> MARKER !in files && RestoredBut(files, v, stuck) && stuck <= AtRisk(s)
    ensures ok && AtRisk(s) == {} ==> UserFiles(files, v)
    ensures trouble.Only? && !trouble.writes && !trouble.syncs && MARKER !in trouble.removals ==>
              ok && files == Recovered(s, trouble.removals) && stuck == AtRisk(s) * trouble.removals &&
              (UserFiles(files, v) <==> stuck == {})
  {
    var d := new Disk(s, trouble);
    ghost var names := iset p | p in s || IsUser(p);
    d.Watch(Standing(v, names));
    var left;
    ok, left := RecoverTransaction(d, v, names);
    files, stuck := d.files, left;
    if ok {
      StuckDiffers(files, v, stuck);
    }
  }

  lemma StuckDiffers(files: Files, v: Files, stuck: set<Path>)
    requires RestoredBut(files, v, stuck)
    ensures UserFiles(files, v) <==> stuck == {}
  {
    if p :| p in stuck {
      assert IsUser(p) && Get(files, p) != Get(v, p);
    }
  }

  /** Only user files are ever at risk. */
  lemma RiskIsOfUsers(s: Files, v: Files, p: Path)
    requires Shows(s, v) && p in AtRisk(s)
    ensures IsUser(p)
  {
    var a := PlanOf(Journal.Parse(s[MARKER]).value);
    RiskyIn(s, a, 0, p);
    var j :| 0 <= j < |a| && Risky(s, a[j]) && a[j].path == p;
  }

  /** The path that a recovery of this entry leaves: it is at risk and its removal is refused. */
  ghost function Left(s: Files, x: CommitArtifact, removals: set<Path>): set<Path> {
    if Risky(s, x) && x.path in removals then {x.path} else {}
  }

  lemma DestinationSettles(s: Files, a: seq<CommitArtifact>, journal: string, v: Files, i: nat, removals: set<Path>)
    requires Apart(a) && Guarded(s, a, journal, v) && i < |a|
    ensures var t := DestinationRecovered(s, a[i], removals);
            && Guarded(t, a, journal, v) && OthersKept(a, i, s, t)
            && Settled(t, a[i], v, Left(s, a[i], removals)) && (Risky(t, a[i]) ==> Risky(s, a[i]))
  {
    assert OldKept(s, a[i], v);
    if a[i].backup in s {
      GuardRestores(s, a, journal, v, i);
      MoveHome(s, s, a, journal, v, i);
    } else if !a[i].existed {
      GuardDropsDestination(s, a, journal, v, i);
    }
  }

  /** One entry of the specification: settled, unless its path was at risk and is refused. */
  lemma EntrySettles(s: Files, a: seq<CommitArtifact>, journal: string, v: Files, i: nat, removals: set<Path>)
    requires Apart(a) && Guarded(s, a, journal, v) && i < |a|
    ensures var t := EntryRecovered(s, a[i], removals);
            && Guarded(t, a, journal, v) && OthersKept(a, i, s, t)
            && Settled(t, a[i], v, Left(s, a[i], removals)) && (Risky(t, a[i]) ==> Risky(s, a[i]))
  {
    var t := DestinationRecovered(s, a[i], removals);
    DestinationSettles(s, a, journal, v, i, removals);
    DropTemporary(t, a, journal, v, i, Left(s, a[i], removals));
    StillKept(s, t, EntryRecovered(s, a[i], removals), a, i);
  }

  /** The recovery of s0 has come down to entry k, with just the refused paths at risk left. */
  ghost predicate Midway(s0: Files, s: Files, a: seq<CommitArtifact>, journal: string, v: Files, k: nat, removals: set<Path>) {
    k <= |a| && Guarded(s, a, journal, v) && Progress(s0, s, a, v, RiskyFrom(s0, a, k) * removals, k)
  }

  lemma OneMoreSettles(s0: Files, s: Files, a: seq<CommitArtifact>, journal: string, v: Files, done: nat, k: nat,
                       removals: set<Path>)
    requires Apart(a) && k < |a| && done == k + 1 && Midway(s0, s, a, journal, v, done, removals)
    ensures Midway(s0, EntryRecovered(s, a[k], removals), a, journal, v, k, removals)
  {
    EntrySettles(s, a, journal, v, k, removals);
    OneMoreEntry(s0, s, EntryRecovered(s, a[k], removals), a, v, RiskyFrom(s0, a, done) * removals,
                 Risky(s, a[k]) && a[k].path in removals, Only(removals, false, false), k);
  }

  lemma {:induction false} EntriesSettle(s: Files, a: seq<CommitArtifact>, journal: string, v: Files, k: nat,
                                         removals: set<Path>)
    requires Apart(a) && Guarded(s, a, journal, v) && k <= |a|
    ensures Midway(s, RecoveredFrom(s, a, k, removals), a, journal, v, k, removals)
    decreases |a| - k
  {
    if k == |a| {
      NoProgress(s, a, v);
      assert RiskyFrom(s, a, k) * removals == {};
    } else {
      EntriesSettle(s, a, journal, v, k + 1, removals);
      OneMoreSettles(s, RecoveredFrom(s, a, k + 1, removals), a, journal, v, k + 1, k, removals);
    }
  }

  /** The recovered files are the old ones but for the refused paths at risk. */
  lemma RecoveredIs(s: Files, v: Files, removals: set<Path>)
    requires Shows(s, v)
    ensures RestoredBut(Recovered(s, removals), v, AtRisk(s) * removals)
    ensures UserFiles(Recovered(s, removals), v) <==> AtRisk(s) * removals == {}
  {
    if MARKER in s {
      var a := PlanOf(Journal.Parse(s[MARKER]).value);
      EntriesSettle(s, a, s[MARKER], v, 0, removals);
      SettledShows(RecoveredFrom(s, a, 0, removals), a, s[MARKER], v, AtRisk(s) * removals);
    } else {
      UserFilesRestored(s, v);
      assert AtRisk(s) * removals == {};
    }
    StuckDiffers(Recovered(s, removals), v, AtRisk(s) * removals);
  }

  // ---- What it leaves of the interrupted commit itself ------------------------------------

  ghost predicate IsNameOf(x: CommitArtifact, p: Path) {
    p == x.path || p == x.temporary || p == x.backup
  }

  /**
   Of an entry: its backup is gone, having become the destination if it was
   there, its temporary is gone unless that was refused, and a created
   destination too.
   */
  ghost predicate Cleared(s: Files, t: Files, x: CommitArtifact, removals: set<Path>) {
    && x.backup !in t
    && Get(t, x.temporary) == (if x.temporary in removals then Get(s, x.temporary) else None)
    && Get(t, x.path) == if x.backup in s then Get(s, x.backup)
                         else if x.existed || x.path in removals then Get(s, x.path) else None
  }

  ghost predicate SameNamed(s: Files, t: Files, x: CommitArtifact) {
    Get(s, x.path) == Get(t, x.path) && Get(s, x.temporary) == Get(t, x.temporary) && Get(s, x.backup) == Get(t, x.backup)
  }

  lemma EntryElsewhere(s: Files, x: CommitArtifact, removals: set<Path>, p: Path)
    requires !IsNameOf(x, p)
    ensures Get(EntryRecovered(s, x, removals), p) == Get(s, p)
  {
  }

  lemma EntryClears(s: Files, x: CommitArtifact, removals: set<Path>)
    requires x.path != x.temporary && x.path != x.backup && x.temporary != x.backup
    ensures Cleared(s, EntryRecovered(s, x, removals), x, removals)
  {
  }

  lemma {:induction false} OthersUntouched(s: Files, a: seq<CommitArtifact>, k: nat, removals: set<Path>, p: Path)
    requires k <= |a| && forall j :: k <= j < |a| ==> !IsNameOf(a[j], p)
    ensures Get(RecoveredFrom(s, a, k, removals), p) == Get(s, p)
    decreases |a| - k
  {
    if k < |a| {
      OthersUntouched(s, a, k + 1, removals, p);
      EntryElsewhere(RecoveredFrom(s, a, k + 1, removals), a[k], removals, p);
    }
  }

  /** No two entries share a name. */
  lemma NamesApart(a: seq<CommitArtifact>, i: nat, j: nat)
    requires Apart(a) && i < |a| && j < |a| && i != j
    ensures var x, y := a[i], a[j]; !IsNameOf(y, x.path) && !IsNameOf(y, x.temporary) && !IsNameOf(y, x.backup)
  {
  }

  lemma LaterUntouched(s: Files, a: seq<CommitArtifact>, i: nat, removals: set<Path>)
    requires Apart(a) && i < |a|
    ensures SameNamed(s, RecoveredFrom(s, a, i + 1, removals), a[i])
  {
    forall j | i < j < |a|
      ensures !IsNameOf(a[j], a[i].path) && !IsNameOf(a[j], a[i].temporary) && !IsNameOf(a[j], a[i].backup)
    {
      NamesApart(a, i, j);
    }
    OthersUntouched(s, a, i + 1, removals, a[i].path);
    OthersUntouched(s, a, i + 1, removals, a[i].temporary);
    OthersUntouched(s, a, i + 1, removals, a[i].backup);
  }

  lemma EarlierUntouched(s: Files, a: seq<CommitArtifact>, k: nat, removals: set<Path>, i: nat)
    requires Apart(a) && k < i < |a|
    ensures SameNamed(s, EntryRecovered(s, a[k], removals), a[i])
  {
    NamesApart(a, i, k);
    EntryElsewhere(s, a[k], removals, a[i].path);
    EntryElsewhere(s, a[k], removals, a[i].temporary);
    EntryElsewhere(s, a[k], removals, a[i].backup);
  }

  /** From its own turn on. */
  lemma ClearedAtTurn(s: Files, a: seq<CommitArtifact>, i: nat, removals: set<Path>)
    requires Apart(a) && i < |a|
    ensures Cleared(s, RecoveredFrom(s, a, i, removals), a[i], removals)
  {
    var t := RecoveredFrom(s, a, i + 1, removals);
    LaterUntouched(s, a, i, removals);
    OwnNamesDiffer(a, i);
    EntryClears(t, a[i], removals);
    ClearedSame(t, s, EntryRecovered(t, a[i], removals), EntryRecovered(t, a[i], removals), a[i], removals);
  }

  lemma StaysCleared(s: Files, t: Files, a: seq<CommitArtifact>, k: nat, removals: set<Path>, i: nat)
    requires Apart(a) && k < i < |a| && Cleared(s, t, a[i], removals)
    ensures Cleared(s, EntryRecovered(t, a[k], removals), a[i], removals)
  {
    EarlierUntouched(t, a, k, removals, i);
    ClearedSame(s, s, t, EntryRecovered(t, a[k], removals), a[i], removals);
  }

  lemma {:induction false} EntryCleared(s: Files, a: seq<CommitArtifact>, k: nat, removals: set<Path>, i: nat)
    requires Apart(a) && k <= i < |a|
    ensures Cleared(s, RecoveredFrom(s, a, k, removals), a[i], removals)
    decreases i - k
  {
    if k < i {
      EntryCleared(s, a, k + 1, removals, i);
      StaysCleared(s, RecoveredFrom(s, a, k + 1, removals), a, k, removals, i);
    } else {
      ClearedAtTurn(s, a, i, removals);
    }
  }

  lemma OwnNamesDiffer(a: seq<CommitArtifact>, i: nat)
    requires Apart(a) && i < |a|
    ensures a[i].path != a[i].temporary && a[i].path != a[i].backup && a[i].temporary != a[i].backup
    ensures !IsNameOf(a[i], MARKER)
  {
  }

  lemma ClearedSame(s: Files, s0: Files, t: Files, t0: Files, x: CommitArtifact, removals: set<Path>)
    requires SameNamed(s, s0, x) && SameNamed(t, t0, x) && Cleared(s, t, x, removals)
    ensures Cleared(s0, t0, x, removals)
  {
  }

  lemma RecoveredEntry(s: Files, a: seq<CommitArtifact>, i: nat, removals: set<Path>)
    requires Apart(a) && i < |a|
    ensures Cleared(s, RecoveredFrom(s, a, 0, removals) - {MARKER}, a[i], removals)
  {
    var t := RecoveredFrom(s, a, 0, removals);
    EntryCleared(s, a, 0, removals, i);
    OwnNamesDiffer(a, i);
    assert SameNamed(t, t - {MARKER}, a[i]);
    ClearedSame(s, s, t, t - {MARKER}, a[i], removals);
  }

  /** The recovered files, file by file: every entry of the journal is cleared and no other file but the marker changes. */
  lemma RecoveredClears(s: Files, v: Files, removals: set<Path>, p: Path)
    requires Shows(s, v) && MARKER in s
    ensures var a := PlanOf(Journal.Parse(s[MARKER]).value);
            && (forall i :: 0 <= i < |a| ==> Cleared(s, Recovered(s, removals), a[i], removals))
            && (p != MARKER && (forall i :: 0 <= i < |a| ==> !IsNameOf(a[i], p)) ==>
                  Get(Recovered(s, removals), p) == Get(s, p))
  {
    var a := PlanOf(Journal.Parse(s[MARKER]).value);
    forall i | 0 <= i < |a|
      ensures Cleared(s, Recovered(s, removals), a[i], removals)
    {
      RecoveredEntry(s, a, i, removals);
    }
    if forall i :: 0 <= i < |a| ==> !IsNameOf(a[i], p) {
      OthersUntouched(s, a, 0, removals, p);
    }
  }

  /** Recovery restores v whatever removals are refused. */
  ghost predicate AlwaysRestores(s: Files, v: Files) {
    forall removals: set<Path> {:trigger Recovered(s, removals)} ::
      MARKER !in removals ==> UserFiles(Recovered(s, removals), v)
  }

  /** The condition, on the disk as it is before recovery: no created file of the interrupted commit is there. */
  lemma AlwaysRestoresIff(s: Files, v: Files)
    requires Shows(s, v)
    ensures AlwaysRestores(s, v) <==> AtRisk(s) == {}
  {
    if p :| p in AtRisk(s) {
      RiskIsOfUsers(s, v, p);
      RecoveredIs(s, v, {p});
      assert p in AtRisk(s) * {p};
      assert !UserFiles(Recovered(s, {p}), v);
    } else {
      forall removals: set<Path> ensures UserFiles(Recovered(s, removals), v) {
        RecoveredIs(s, v, removals);
      }
    }
  }

  /** Wherever a created file is at risk there is a recovery that reports success and leaves it. */
  method LeaveAtRisk(s: Files, p: Path, ghost v: Files) returns (files: Files)
    requires Shows(s, v) && p in AtRisk(s)
    ensures MARKER !in files && Get(files, p) != Get(v, p) && IsUser(p) && !UserFiles(files, v)
  {
    RiskIsOfUsers(s, v, p);
    var ok;
    ghost var stuck;
    ok, files, stuck := RecoverFrom(s, Only({p}, false, false), v);
    assert p in stuck;
  }

  /**
   A commit of two new files, interrupted before its commit point, and a
   recovery that reports success but was refused the removal of one of them:
   neither the old files nor the new ones are there.
   */
  method RefusalTears() returns (files: Files)
    ensures MARKER !in files
    ensures !UserFiles(files, map[]) && !UserFiles(files, map["a" := "1", "b" := "2"])
  {
    var nonce := SomeNonce();
    var journal := Journal.WriteJournal(GoodRecord(nonce));
    IsShown(State(journal), journal, nonce);
    var ok;
    ghost var stuck;
    ok, files, stuck := RecoverFrom(State(journal), Only({"a"}, false, false), map[]);
    assert stuck == {"a"} && "b" !in stuck;
    ShortNamesAreUsers("b");
    assert Get(files, "b") == None;
  }
}
