/**
 The rollback that runs without its marker, after the marker could not be put
 back: when a power cut inside it is harmless, and when it is not.
 */
module ExposedRollback {
  import opened Options
  import opened Names
  import opened Storage
  import opened Plan
  import opened Recovery
  import opened Phases
  import opened Publishing
  import opened Transaction
  import opened Interrupted
  import Journal

  ghost predicate Moves(x: CommitArtifact) {
    x.committed || x.backedUp
  }

  /** The rollback has one file to move or remove, or none. */
  ghost predicate AtMostOneMove(a: seq<CommitArtifact>) {
    && (forall i :: 0 <= i < |a| ==> !(a[i].committed && a[i].backedUp))
    && (forall i, j :: 0 <= i < j < |a| ==> !(Moves(a[i]) && Moves(a[j])))
  }

  /** Old, new or torn: without a marker a disk is one of the first two or neither. */
  ghost predicate Torn(s: Files, v: Files, w: Files) {
    !UserFiles(s, v) && !UserFiles(s, w)
  }

  ghost predicate Installed(a: seq<CommitArtifact>, v: Files) {
    Apart(a) && ExistedIs(a, v) && FlaggedInstalled(a, |a|)
  }

  /** Artifacts from k on are undone, those below still installed. */
  ghost predicate HalfUndone(s: Files, a: seq<CommitArtifact>, v: Files, k: nat) {
    && MARKER !in s && k <= |a|
    && Outside(s, a, v)
    && (forall j :: 0 <= j < k ==> In(s, a[j], v))
    && (forall j :: k <= j < |a| ==> Get(s, a[j].path) == Get(v, a[j].path))
  }

  lemma UndoOne(s: Files, a: seq<CommitArtifact>, v: Files, k: nat)
    requires k < |a| && Installed(a, v) && HalfUndone(s, a, v, k + 1)
    ensures HalfUndone(Undone(s, a[k]), a, v, k)
  {
    var x, d, t := a[k], Dropped(s, a[k]), Undone(s, a[k]);
    assert In(s, x, v);
    DropIsItemOnly(s, a, k, v);
    if x.backedUp {
      MoveIsItemOnly(d, a, k, v);
    }
    InAfterItem(s, d, a, v, k);
    InAfterItem(d, t, a, v, k);
    assert Get(t, x.path) == Get(v, x.path);
  }

  lemma InAfterItem(s: Files, t: Files, a: seq<CommitArtifact>, v: Files, k: nat)
    requires k < |a| && ItemOnly(a, k, s, t)
    requires forall j :: 0 <= j < k ==> In(s, a[j], v)
    requires forall j :: k < j < |a| ==> Get(s, a[j].path) == Get(v, a[j].path)
    ensures forall j :: 0 <= j < k ==> In(t, a[j], v)
    ensures forall j :: k < j < |a| ==> Get(t, a[j].path) == Get(v, a[j].path)
  {
  }

  /** A plain state shows v exactly when every destination holds what v holds. */
  lemma ShowsByDestinations(s: Files, a: seq<CommitArtifact>, v: Files)
    requires Apart(a) && MARKER !in s && Outside(s, a, v)
    ensures UserFiles(s, v) <==> forall j :: 0 <= j < |a| ==> Get(s, a[j].path) == Get(v, a[j].path)
    ensures UserFiles(s, Applied(v, a)) <==> forall j :: 0 <= j < |a| ==> Get(s, a[j].path) == Wanted(a[j])
  {
    forall j | 0 <= j < |a| ensures IsUser(a[j].path) && Get(Applied(v, a), a[j].path) == Wanted(a[j]) {
      AppliedAt(v, a, a[j].path);
    }
    forall p | IsUser(p) && !Covers(a, p) ensures Get(s, p) == Get(v, p) == Get(Applied(v, a), p) {
      AppliedAt(v, a, p);
    }
  }

  lemma {:induction false} AfterIsHalfUndone(s: Files, a: seq<CommitArtifact>, v: Files, k: nat)
    requires Installed(a, v) && HalfUndone(s, a, v, |a|) && k <= |a|
    ensures HalfUndone(After(s, a, k), a, v, k)
    decreases |a| - k
  {
    if k == |a| {
      assert After(s, a, k) == s;
    } else {
      AfterIsHalfUndone(s, a, v, k + 1);
      UndoOne(After(s, a, k + 1), a, v, k);
    }
  }

  /** An artifact that replaced a file leaves its destination empty for a moment. */
  lemma OverwriteTears(s: Files, a: seq<CommitArtifact>, v: Files, k: nat)
    requires Installed(a, v) && k < |a| && HalfUndone(s, a, v, k + 1)
    requires a[k].committed && a[k].backedUp
    ensures Torn(Dropped(s, a[k]), v, Applied(v, a))
  {
    var t := Dropped(s, a[k]);
    DropIsItemOnly(s, a, k, v);
    ShowsByDestinations(t, a, v);
    assert Get(t, a[k].path) == None;
  }

  /** A creation or a removal changes what is at its destination. */
  lemma MoveDiffers(s: Files, x: CommitArtifact, v: Files)
    requires (x.existed <==> x.path in v) && x.backedUp == x.existed && x.committed == !x.remove
    requires Moves(x) && !(x.committed && x.backedUp)
    ensures Wanted(x) != Get(v, x.path)
  {
  }

  /** Undoing one artifact while another is still installed mixes old and new. */
  lemma MixTears(s: Files, a: seq<CommitArtifact>, v: Files, j: nat, i: nat)
    requires Installed(a, v) && HalfUndone(s, a, v, i) && j < i < |a|
    requires Moves(a[j]) && !(a[j].committed && a[j].backedUp)
    requires Moves(a[i]) && !(a[i].committed && a[i].backedUp)
    ensures Torn(s, v, Applied(v, a))
  {
    ShowsByDestinations(s, a, v);
    assert In(s, a[j], v);
    MoveDiffers(s, a[i], v);
    MoveDiffers(s, a[j], v);
  }

  lemma StillNew(s: Files, a: seq<CommitArtifact>, v: Files, k: nat)
    requires Installed(a, v) && HalfUndone(s, a, v, k)
    requires forall j :: k <= j < |a| ==> !Moves(a[j])
    ensures UserFiles(s, Applied(v, a))
  {
    ShowsByDestinations(s, a, v);
    forall j | 0 <= j < |a| ensures Get(s, a[j].path) == Wanted(a[j]) {
      assert j < k ==> In(s, a[j], v);
    }
  }

  lemma AlreadyOld(s: Files, a: seq<CommitArtifact>, v: Files, k: nat)
    requires Installed(a, v) && HalfUndone(s, a, v, k)
    requires forall j :: 0 <= j < k ==> !Moves(a[j])
    ensures UserFiles(s, v)
  {
  }

  lemma OneMoveKeepsWhole(s: Files, a: seq<CommitArtifact>, v: Files, k: nat)
    requires Installed(a, v) && AtMostOneMove(a) && k <= |a| && HalfUndone(s, a, v, k)
    ensures !Torn(s, v, Applied(v, a))
  {
    if i :| k <= i < |a| && Moves(a[i]) {
      AlreadyOld(s, a, v, k);
    } else {
      StillNew(s, a, v, k);
    }
  }

  lemma OneDropKeepsWhole(s: Files, a: seq<CommitArtifact>, v: Files, k: nat)
    requires k < |a| && Installed(a, v) && AtMostOneMove(a) && HalfUndone(s, a, v, k + 1)
    ensures !Torn(Dropped(s, a[k]), v, Applied(v, a))
  {
    if a[k].committed {
      UndoOne(s, a, v, k);
      AlreadyOld(Undone(s, a[k]), a, v, k);
      assert Dropped(s, a[k]) == Undone(s, a[k]);
    } else {
      OneMoveKeepsWhole(s, a, v, k + 1);
    }
  }

  /** Some moment of this rollback is neither old nor new. */
  ghost predicate TornSomewhere(s: Files, a: seq<CommitArtifact>, v: Files) {
    exists k :: 0 <= k <= |a| && TornAt(s, a, v, k)
  }

  /** Torn with artifact k half undone or undone, or, for k past the last, before anything is undone. */
  ghost predicate TornAt(s: Files, a: seq<CommitArtifact>, v: Files, k: nat)
    requires k <= |a|
  {
    var w := Applied(v, a);
    Torn(After(s, a, k), v, w) || (k < |a| && Torn(Dropped(After(s, a, k + 1), a[k]), v, w))
  }

  /**
   A power cut during the rollback that has lost its marker can tear the
   commit exactly when that rollback has more than one file to move or remove.
   */
  lemma TornIffTwoMoves(s: Files, a: seq<CommitArtifact>, journal: string, v: Files)
    requires Installed(a, v) && Guarded(s, a, journal, v) && Installing(s, a, v, |a|)
    ensures TornSomewhere(s - {MARKER}, a, v) <==> !AtMostOneMove(a)
  {
    var u := s - {MARKER};
    forall j | 0 <= j < |a| ensures In(u, a[j], v) {
      assert In(s, a[j], v) && IsUser(a[j].path) && a[j].backup != MARKER;
    }
    forall k: nat | k <= |a| ensures HalfUndone(After(u, a, k), a, v, k) {
      AfterIsHalfUndone(u, a, v, k);
    }
    if AtMostOneMove(a) {
      forall k: nat | k <= |a| ensures !TornAt(u, a, v, k) {
        OneMoveKeepsWhole(After(u, a, k), a, v, k);
        if k < |a| {
          OneDropKeepsWhole(After(u, a, k + 1), a, v, k);
        }
      }
    } else if i :| 0 <= i < |a| && a[i].committed && a[i].backedUp {
      OverwriteTears(After(u, a, i + 1), a, v, i);
      assert TornAt(u, a, v, i);
    } else {
      var j, i :| 0 <= j < i < |a| && Moves(a[j]) && Moves(a[i]);
      MixTears(After(u, a, i), a, v, j, i);
      assert TornAt(u, a, v, i);
    }
  }

  // ---- The run itself -----------------------------------------------------------

  ghost predicate IsMoment(t: Files, s: Files, a: seq<CommitArtifact>, k: nat)
    requires k <= |a|
  {
    t == After(s, a, k) || (k < |a| && t == Dropped(After(s, a, k + 1), a[k]))
  }

  /** A moment is a disk with some artifacts undone, or one more of them half undone. */
  lemma {:induction false} MomentsAre(s: Files, a: seq<CommitArtifact>, k: nat, t: Files)
    requires k <= |a|
    ensures t in Moments(s, a, k) <==> exists j: nat :: k <= j <= |a| && IsMoment(t, s, a, j)
    decreases |a| - k
  {
    if k < |a| {
      MomentsAre(s, a, k + 1, t);
      assert t in Moments(s, a, k) <==> t in Moments(s, a, k + 1) || IsMoment(t, s, a, k);
    } else {
      assert IsMoment(s, s, a, k);
    }
  }

  ghost predicate SomeTorn(states: seq<Files>, v: Files, w: Files) {
    exists i :: 0 <= i < |states| && Torn(states[i], v, w)
  }

  /** A rollback's history has a torn state exactly when one of its moments is torn. */
  lemma TornInHistory(before: seq<Files>, after: seq<Files>, s: Files, a: seq<CommitArtifact>, v: Files)
    requires Undid(before, after, Moments(s, a, 0), v) && !SomeTorn(before, v, Applied(v, a))
    ensures SomeTorn(after, v, Applied(v, a)) <==> TornSomewhere(s, a, v)
  {
    var w := Applied(v, a);
    if i :| 0 <= i < |after| && Torn(after[i], v, w) {
      MomentsAre(s, a, 0, after[i]);
      var j: nat :| 0 <= j <= |a| && IsMoment(after[i], s, a, j);
      assert TornAt(s, a, v, j);
    }
    if k :| 0 <= k <= |a| && TornAt(s, a, v, k) {
      var t := if Torn(After(s, a, k), v, w) then After(s, a, k) else Dropped(After(s, a, k + 1), a[k]);
      assert IsMoment(t, s, a, k);
      MomentsAre(s, a, 0, t);
      assert t in after;
    }
  }

  lemma WholeSoFar(s: Files, u: Files, v: Files, w: Files)
    requires u == s - {MARKER} && UserFiles(u, w)
    ensures !SomeTorn([s] + [u], v, w)
  {
    assert UserFiles(s, w) by {
      forall p: Path | IsUser(p) ensures Get(s, p) == Get(w, p) {
        assert p != MARKER && Get(s, p) == Get(u, p);
      }
    }
  }

  /** Ready for its commit point. */
  ghost predicate Ready(s: Files, a: seq<CommitArtifact>, journal: string, m: Path, v: Files, names: iset<Path>) {
    && Installed(a, v) && NamesWithin(a, names) && OwnName(m, a, names) && MARKER in names
    && Guarded(s, a, journal, v) && Within(s, names) && Installing(s, a, v, |a|)
    && AllUndoable(s, a, v, |a|)
  }

  /**
   The commit point on a disk that can no longer write or synchronise: the
   marker goes, its removal cannot be synchronised, it cannot be written back,
   and the rollback runs without it. A torn state is then on the disk at some
   moment exactly when the rollback has more than one file to move or remove.
   */
  method ConcludeBroken(s: Files, a: seq<CommitArtifact>, journal: string, m: Path, ghost v: Files, ghost names: iset<Path>)
    returns (d: Disk)
    requires Ready(s, a, journal, m, v, names)
    ensures d.faults >= 2
    ensures SomeTorn(d.states, v, Applied(v, a)) <==> !AtMostOneMove(a)
  {
    d := new Disk(s, Only({}, true, true));
    var ok, exposed := Conclude(d, a, journal, m, v, names);
    ghost var u := s - {MARKER};
    InstalledIsApplied(s, a, journal, v);
    WholeSoFar(s, u, v, Applied(v, a));
    TornInHistory([s] + [u], d.states, u, a, v);
    TornIffTwoMoves(s, a, journal, v);
  }

  lemma TwoFilesReady(s: Files, a: seq<CommitArtifact>, journal: string, nonce: string, names: iset<Path>)
    requires Journal.ValidNonce(nonce) && a == TwoFiles(nonce) && s == State(journal)
    requires names == iset p: Path | AnyName(p)
    ensures Ready(s, a, journal, Temporary(MARKER, nonce), map[], names)
  {
    PlanIsGood(a, nonce);
    IsInstalled(s, a, journal, nonce);
    MarkerTemporaryIsOwn(a, nonce, names);
  }

  /** Two created files: neither the old files nor the new ones at some moment. */
  method TwoFilesTear() returns (d: Disk)
    ensures SomeTorn(d.states, map[], map["a" := "1", "b" := "2"])
  {
    var nonce := SomeNonce();
    var a := TwoFiles(nonce);
    var journal := Journal.WriteJournal(GoodRecord(nonce));
    ghost var names := iset p: Path | AnyName(p);
    TwoFilesReady(State(journal), a, journal, nonce, names);
    d := ConcludeBroken(State(journal), a, journal, Temporary(MARKER, nonce), map[], names);
    assert Moves(a[0]) && Moves(a[1]);
    AppliedIs(a, nonce);
  }
}
