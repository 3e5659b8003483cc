/**
 The project log's operations carry the whole resulting project as saved
 text, and replay by loading it. That makes them exact whatever the edits
 themselves do, given only that loading a saved valid project gives it back.
 */
module ProjectHistory {
  import opened Options
  import opened EditHistory

  /** What was asked for, and the exact project it leads to once that is known. */
  datatype ProjectOperation<+I> = ProjectOperation(intent: I, exact: Option<string>)

  datatype Projects<!D(!new), !I(!new)> = Projects(
    save: D -> string,
    load: string -> Option<D>,
    valid: D -> bool,
    edit: (D, I, nat) -> Option<(D, I)>,
    activate: D -> I)
  {
    function Save(d: D): string {
      save(d)
    }

    function Load(text: string): Option<D> {
      load(text)
    }

    predicate Valid(d: D) {
      valid(d)
    }

    /** The edited project and the intention completed with generated identities. */
    function Edit(d: D, intent: I, seed: nat): Option<(D, I)> {
      edit(d, intent, seed)
    }

    function Activate(d: D): I {
      activate(d)
    }

    ghost predicate SavesExactly() {
      forall d :: Valid(d) ==> Load(Save(d)) == Some(d)
    }

    /** The project an operation leads to and its completed form, before validation. */
    function Candidate(d: D, op: ProjectOperation<I>, seed: nat): Option<(D, ProjectOperation<I>)> {
      if op.exact.Some? then
        match Load(op.exact.value)
        case None => None
        case Some(restored) => Some((restored, op))
      else
        match Edit(d, op.intent, seed)
        case None => None
        case Some(edited) => Some((edited.0, ProjectOperation(edited.1, Some(Save(edited.0)))))
    }

    function Apply(d: D, op: ProjectOperation<I>, seed: nat): Applied<D, ProjectOperation<I>> {
      match Candidate(d, op, seed)
      case None => Refused
      case Some(c) =>
        if Valid(c.0) then Done(c.0, c.1, ProjectOperation(c.1.intent, Some(Save(d)))) else Refused
    }

    function AsEngine(): Engine<D, ProjectOperation<I>> {
      Engine((d, op, seed) => Apply(d, op, seed), d => Valid(d))
    }

    function SnapshotOf(d: D): ProjectOperation<I> {
      ProjectOperation(Activate(d), Some(Save(d)))
    }

    function AsSnapshots(): Snapshots<D, ProjectOperation<I>> {
      Snapshots(d => SnapshotOf(d))
    }
  }

  /** An operation that carries a saved valid project leads to it from anywhere. */
  lemma ExactReplays<D(!new), I(!new)>(p: Projects<D, I>, from: D, op: ProjectOperation<I>, to: D)
    requires p.SavesExactly() && p.Valid(to) && op.exact == Some(p.Save(to))
    ensures p.AsEngine().Replays(from, op, to)
  {
    var e := p.AsEngine();
    forall seed: nat
      ensures e.Apply(from, op, seed).Done? && e.Apply(from, op, seed).document == to
    {
      assert e.Apply(from, op, seed) == p.Apply(from, op, seed);
    }
  }

  /** An operation given an exact project carries the text of a project that may not be the canonical one. */
  lemma GivenExactReplays<D(!new), I(!new)>(p: Projects<D, I>, from: D, op: ProjectOperation<I>, to: D)
    requires op.exact.Some? && p.Load(op.exact.value) == Some(to) && p.Valid(to)
    ensures p.AsEngine().Replays(from, op, to)
  {
    var e := p.AsEngine();
    forall seed: nat
      ensures e.Apply(from, op, seed).Done? && e.Apply(from, op, seed).document == to
    {
      assert e.Apply(from, op, seed) == p.Apply(from, op, seed);
    }
  }

  /** Project operations replay exactly and are undone exactly, and a batch's snapshots restore. */
  lemma ProjectsAreExact<D(!new), I(!new)>(p: Projects<D, I>)
    requires p.SavesExactly()
    ensures p.AsEngine().Exact() && p.AsSnapshots().Restore(p.AsEngine())
  {
    var e, snaps := p.AsEngine(), p.AsSnapshots();
    forall d, op, seed: nat | e.Sound(d) && e.Apply(d, op, seed).Done?
      ensures e.ExactAt(d, e.Apply(d, op, seed))
    {
      var r := e.Apply(d, op, seed);
      assert r == p.Apply(d, op, seed);
      assert p.Valid(d) && p.Valid(r.document);
      ExactReplays(p, r.document, r.inverse, d);
      GivenExactReplays(p, d, r.operation, r.document);
    }
    forall from, d | e.Sound(from) && e.Sound(d)
      ensures e.Replays(from, snaps.Of(d), d)
    {
      assert snaps.Of(d) == p.SnapshotOf(d) && p.Valid(d);
      ExactReplays(p, from, snaps.Of(d), d);
    }
  }

  /** Any run of project edits, batches, undos and redos can be undone to the first project. */
  lemma AnyProjectRunUndoes<D(!new), I(!new)>(p: Projects<D, I>, d: D, cs: seq<Command<ProjectOperation<I>>>, seed: nat,
                                              k: nat, back: nat, again: nat)
    requires p.SavesExactly() && p.Valid(d)
    ensures var e, s := p.AsEngine(), Run(p.AsEngine(), p.AsSnapshots(), Fresh(d), cs, seed);
            Undos(e, s, |s.applied|, back).document == d &&
            (k <= |s.applied| ==> Redos(e, Undos(e, s, k, back), k, again) == s)
  {
    ProjectsAreExact(p);
    AnyRunUndoes(p.AsEngine(), p.AsSnapshots(), d, cs, seed, k, back, again);
  }
}
