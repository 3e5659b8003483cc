/**
 A commit interrupted just before its commit point: two files created, both
 installed, the marker still in place. A concrete state for the hazards.
 */
module Interrupted {
  import opened Options
  import opened Names
  import opened Storage
  import opened Plan
  import opened Recovery
  import opened Phases
  import opened Publishing
  import Journal

  function Created(path: Path, contents: string, nonce: string): CommitArtifact {
    CommitArtifact(path, contents, false, Temporary(path, nonce), Backup(path, nonce), false, false, true)
  }

  /** Two new files in a directory that had none. */
  function TwoFiles(nonce: string): (a: seq<CommitArtifact>)
    ensures |a| == 2 && a[0] == Created("a", "1", nonce) && a[1] == Created("b", "2", nonce)
  {
    [Created("a", "1", nonce), Created("b", "2", nonce)]
  }

  function RecordOf(nonce: string): Journal.Record {
    Journal.Record(nonce, [Journal.Entry("a", false), Journal.Entry("b", false)])
  }

  function State(journal: string): Files {
    map["a" := "1", "b" := "2", MARKER := journal]
  }

  ghost predicate AnyName(p: Path) {
    true
  }

  /** A nonce as the commit makes them. */
  function SomeNonce(): (nonce: string)
    ensures Journal.ValidNonce(nonce)
  {
    var nonce := Journal.NONCE_HEAD + seq(26, i => '0');
    assert nonce[..12] == Journal.NONCE_HEAD;
    nonce
  }

  lemma ShortNamesAreUsers(path: string)
    requires |path| == 1 && path != "/"
    ensures IsUser(path) && Journal.SafeRelative(path)
  {
    LeftoverPath(path);
    assert Journal.Components([]) == [[]];
    assert Journal.Components(path) == [[path[0]] + []];
    assert |Journal.Components(path)[0]| == 1;
  }

  lemma PlanIsGood(a: seq<CommitArtifact>, nonce: string)
    requires Journal.ValidNonce(nonce) && a == TwoFiles(nonce)
    ensures Named(a, nonce) && Apart(a) && ExistedIs(a, map[]) && FlaggedInstalled(a, |a|)
    ensures IsUser("a") && IsUser("b")
  {
    ShortNamesAreUsers("a");
    ShortNamesAreUsers("b");
    assert "a"[0] != "b"[0];
    NamedApart(a, nonce);
  }

  lemma RecordIsGood(a: seq<CommitArtifact>, nonce: string)
    requires Journal.ValidNonce(nonce) && a == TwoFiles(nonce)
    ensures Journal.WellFormed(RecordOf(nonce)) && EntriesOf(a) == RecordOf(nonce).entries
  {
    ShortNamesAreUsers("a");
    ShortNamesAreUsers("b");
  }

  function GoodRecord(nonce: string): (r: Journal.Record)
    requires Journal.ValidNonce(nonce)
    ensures Journal.WellFormed(r) && r == RecordOf(nonce)
  {
    RecordIsGood(TwoFiles(nonce), nonce);
    RecordOf(nonce)
  }

  /** What lies under the names of the plan. */
  lemma StateHolds(s: Files, journal: string, nonce: string)
    requires Journal.ValidNonce(nonce) && s == State(journal)
    ensures Backup("a", nonce) !in s && Backup("b", nonce) !in s && MARKER in s && s[MARKER] == journal
    ensures Get(s, "a") == Some("1") && Get(s, "b") == Some("2")
    ensures forall p :: p in s ==> p == "a" || p == "b" || p == MARKER
  {
    assert |Backup("a", nonce)| == |Backup("b", nonce)| == 43 && |MARKER| == 23;
  }

  /** The state is one that the commit passes through: everything installed, the marker guarding the old, empty state. */
  lemma IsInstalled(s: Files, a: seq<CommitArtifact>, journal: string, nonce: string)
    requires Journal.ValidNonce(nonce) && a == TwoFiles(nonce) && s == State(journal)
    ensures Guarded(s, a, journal, map[]) && Installing(s, a, map[], |a|)
    ensures AllUndoable(s, a, map[], |a|) && Outside(s, a, map[])
  {
    PlanIsGood(a, nonce);
    StateHolds(s, journal, nonce);
    assert Covers(a, "a") && Covers(a, "b") by {
      assert a[0].path == "a" && a[1].path == "b";
    }
  }

  lemma IsShown(s: Files, journal: string, nonce: string)
    requires Journal.ValidNonce(nonce) && journal == Journal.Text(GoodRecord(nonce)) && s == State(journal)
    ensures Shows(s, map[]) && AtRisk(s) == {"a", "b"}
  {
    var a, r := TwoFiles(nonce), GoodRecord(nonce);
    PlanIsGood(a, nonce);
    StateHolds(s, journal, nonce);
    RecordIsGood(a, nonce);
    Journal.ParseText(r);
    IsInstalled(s, a, journal, nonce);
    GuardedShows(s, a, nonce, journal, map[]);
    var b := PlanOf(r);
    assert b[0].path == "a" && b[1].path == "b" && Risky(s, b[0]) && Risky(s, b[1]);
    assert RiskyFrom(s, b, 2) == {};
    assert RiskyFrom(s, b, 1) == {"b"};
  }

  /** Applied to no files the commit gives its two. */
  lemma AppliedIs(a: seq<CommitArtifact>, nonce: string)
    requires a == TwoFiles(nonce)
    ensures Applied(map[], a) == map["a" := "1", "b" := "2"]
  {
    assert a[..2] == a && a[..1] == [a[0]] && a[..1][..0] == [];
    assert Applied(map[], a[..1]) == map["a" := "1"];
  }
}
