/** What a disk state stands for while a multi-file commit is under way. */
module Plan {
  import opened Options
  import opened Names
  import opened Storage
  import Journal

  datatype CommitArtifact = CommitArtifact(
    path: Path, contents: string, remove: bool,
    temporary: Path, backup: Path,
    existed: bool, backedUp: bool, committed: bool)

  // ---- The user's files -------------------------------------------------

  /** v is what a user sees in state s. */
  ghost predicate UserFiles(s: Files, v: Files) {
    forall p: Path {:trigger IsUser(p)} :: IsUser(p) ==> Get(s, p) == Get(v, p)
  }

  ghost predicate OnlyUser(v: Files) {
    forall p :: p in v ==> IsUser(p)
  }

  ghost predicate Covers(a: seq<CommitArtifact>, p: Path) {
    exists i :: 0 <= i < |a| && a[i].path == p
  }

  /** The whole commit as one step on the user's files. */
  ghost function Applied(v: Files, a: seq<CommitArtifact>): Files {
    if a == [] then v
    else
      var w, x := Applied(v, a[..|a| - 1]), a[|a| - 1];
      if x.remove then w - {x.path} else w[x.path := x.contents]
  }

  ghost function Wanted(x: CommitArtifact): Option<string> {
    if x.remove then None else Some(x.contents)
  }

  ghost predicate DistinctPaths(a: seq<CommitArtifact>) {
    forall i, j :: 0 <= i < j < |a| ==> a[i].path != a[j].path
  }

  lemma {:induction false} AppliedAt(v: Files, a: seq<CommitArtifact>, p: Path)
    requires DistinctPaths(a)
    ensures !Covers(a, p) ==> Get(Applied(v, a), p) == Get(v, p)
    ensures forall i :: 0 <= i < |a| && a[i].path == p ==> Get(Applied(v, a), p) == Wanted(a[i])
  {
    if a != [] {
      var k := |a| - 1;
      var init := a[..k];
      AppliedAt(v, init, p);
      assert Covers(init, p) ==> Covers(a, p);
      assert a[k] == a[k] && (a[k].path == p ==> Covers(a, p));
      forall i | 0 <= i < |a| && a[i].path == p ensures Get(Applied(v, a), p) == Wanted(a[i]) {
        if i < k {
          assert init[i] == a[i];
          assert a[i].path != a[k].path;
        }
      }
    }
  }

  // ---- A published transaction --------------------------------------------

  /** The names of a plan never meet each other, the marker or a user file. */
  ghost predicate Apart(a: seq<CommitArtifact>) {
    && DistinctPaths(a)
    && (forall i :: 0 <= i < |a| ==>
          && IsUser(a[i].path)
          && !IsUser(a[i].temporary) && a[i].temporary != MARKER
          && !IsUser(a[i].backup) && a[i].backup != MARKER)
    && (forall i, j :: 0 <= i < |a| && 0 <= j < |a| ==> a[i].temporary != a[j].backup)
    && (forall i, j :: 0 <= i < j < |a| ==> a[i].temporary != a[j].temporary && a[i].backup != a[j].backup)
  }

  ghost predicate Named(a: seq<CommitArtifact>, nonce: string) {
    && Journal.ValidNonce(nonce)
    && forall i :: 0 <= i < |a| ==>
         a[i].temporary == Temporary(a[i].path, nonce) && a[i].backup == Backup(a[i].path, nonce)
  }

  lemma NamedApart(a: seq<CommitArtifact>, nonce: string)
    requires Named(a, nonce) && DistinctPaths(a)
    requires forall i :: 0 <= i < |a| ==> IsUser(a[i].path)
    ensures Apart(a)
    ensures forall i :: 0 <= i < |a| ==> NonceOf(a[i].temporary) == nonce && NonceOf(a[i].backup) == nonce
  {
    forall i | 0 <= i < |a|
      ensures !IsUser(a[i].temporary) && a[i].temporary != MARKER && !IsUser(a[i].backup) && a[i].backup != MARKER
      ensures NonceOf(a[i].temporary) == nonce && NonceOf(a[i].backup) == nonce
    {
      OwnNames(a[i].path, nonce);
    }
    forall i, j | 0 <= i < |a| && 0 <= j < |a|
      ensures a[i].temporary != a[j].backup
      ensures i < j ==> a[i].temporary != a[j].temporary && a[i].backup != a[j].backup
    {
      NamesDiffer(a[i].path, a[j].path, nonce);
    }
  }

  /** The old file of one destination is in its backup, or has not left its path. */
  ghost predicate OldKept(s: Files, x: CommitArtifact, v: Files) {
    && (x.existed <==> x.path in v)
    && (x.backup in s ==> x.existed && s[x.backup] == v[x.path])
    && (x.existed && x.backup !in s ==> Get(s, x.path) == Get(v, x.path))
  }

  /**
   The marker is in place, so this state stands for v whatever has been moved so
   far: every old file is kept, and a new one is disposable.
   */
  ghost predicate Guarded(s: Files, a: seq<CommitArtifact>, journal: string, v: Files) {
    && MARKER in s && s[MARKER] == journal
    && (forall i {:trigger OldKept(s, a[i], v)} {:trigger a[i]} :: 0 <= i < |a| ==> OldKept(s, a[i], v))
    && (forall p: Path {:trigger IsUser(p)} :: IsUser(p) && !Covers(a, p) ==> Get(s, p) == Get(v, p))
  }

  /** A journal entry seen as the plan it came from. */
  ghost function PlanOf(r: Journal.Record): (a: seq<CommitArtifact>)
    ensures |a| == |r.entries|
  {
    seq(|r.entries|, i requires 0 <= i < |r.entries| =>
      var p := r.entries[i].path;
      CommitArtifact(p, "", false, Temporary(p, r.nonce), Backup(p, r.nonce), r.entries[i].existed, false, false))
  }

  function EntriesOf(a: seq<CommitArtifact>): (es: seq<Journal.Entry>)
    ensures |es| == |a|
    ensures forall i :: 0 <= i < |a| ==> es[i] == Journal.Entry(a[i].path, a[i].existed)
  {
    seq(|a|, i requires 0 <= i < |a| => Journal.Entry(a[i].path, a[i].existed))
  }

  /**
   State s stands for the user's files v: without a marker they are simply
   there; with one, they are what the journal will bring back.
   */
  ghost predicate Shows(s: Files, v: Files) {
    if MARKER !in s then UserFiles(s, v)
    else
      && Journal.Parse(s[MARKER]).Some?
      && var a := PlanOf(Journal.Parse(s[MARKER]).value);
         Apart(a) && Guarded(s, a, s[MARKER], v)
  }

  /** The parts of an artifact that no step of the commit changes. */
  ghost predicate SamePlan(a: seq<CommitArtifact>, b: seq<CommitArtifact>) {
    && |a| == |b|
    && forall i :: 0 <= i < |a| ==>
         && a[i].path == b[i].path && a[i].contents == b[i].contents && a[i].remove == b[i].remove
         && a[i].temporary == b[i].temporary && a[i].backup == b[i].backup && a[i].existed == b[i].existed
  }

  lemma GuardedShows(s: Files, a: seq<CommitArtifact>, nonce: string, journal: string, v: Files)
    requires Named(a, nonce) && Apart(a) && Guarded(s, a, journal, v)
    requires Journal.Parse(journal) == Some(Journal.Record(nonce, EntriesOf(a)))
    ensures Shows(s, v)
  {
    var b := PlanOf(Journal.Record(nonce, EntriesOf(a)));
    assert forall i :: 0 <= i < |a| ==>
      b[i].path == a[i].path && b[i].existed == a[i].existed && b[i].backup == a[i].backup && b[i].temporary == a[i].temporary;
    SamePaths(a, b);
    forall i | 0 <= i < |b| ensures OldKept(s, b[i], v) {
      assert OldKept(s, a[i], v);
    }
  }

  lemma SamePaths(a: seq<CommitArtifact>, b: seq<CommitArtifact>)
    requires |a| == |b| && forall i :: 0 <= i < |a| ==> a[i].path == b[i].path
    ensures forall p :: Covers(a, p) <==> Covers(b, p)
  {
  }
}
