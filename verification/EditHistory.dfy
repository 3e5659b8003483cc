/**
 Undo and redo. What an operation does to a document is a parameter; the
 only thing assumed of it is that an applied operation, as completed by its
 application, replays exactly, and that its inverse undoes it exactly.
 */
module EditHistory {
  import opened Options

  /** An application: the new document, the operation completed with generated identities, and its inverse. */
  datatype Applied<+D, +O> = Done(document: D, operation: O, inverse: O) | Refused

  /** How operations act. The seed stands for the identities generated on the way. */
  datatype Engine<!D(!new), !O(!new)> = Engine(apply: (D, O, nat) -> Applied<D, O>, sound: D -> bool)
  {
    function Apply(d: D, op: O, seed: nat): Applied<D, O> {
      apply(d, op, seed)
    }

    predicate Sound(d: D) {
      sound(d)
    }

    /** Applied to the one document, the operation always gives the other, whatever is generated. */
    ghost predicate Replays(from: D, op: O, to: D) {
      forall seed :: Apply(from, op, seed).Done? && Apply(from, op, seed).document == to
    }

    ghost predicate Exact() {
      forall d, op, seed :: Sound(d) && Apply(d, op, seed).Done? ==> ExactAt(d, Apply(d, op, seed))
    }

    ghost predicate ExactAt(d: D, r: Applied<D, O>)
      requires r.Done?
    {
      Sound(r.document) && Replays(d, r.operation, r.document) && Replays(r.document, r.inverse, d)
    }
  }

  datatype Entry<+O> = Entry(op: O, inverse: O)

  datatype State<+D, +O> = State(document: D, applied: seq<Entry<O>>, undone: seq<Entry<O>>)

  // ---- One call ------------------------------------------------------------------

  function AfterApply<D(!new), O(!new)>(e: Engine<D, O>, s: State<D, O>, op: O, seed: nat): State<D, O> {
    match e.Apply(s.document, op, seed)
    case Refused => s
    case Done(document, operation, inverse) => State(document, s.applied + [Entry(operation, inverse)], [])
  }

  function AfterUndo<D(!new), O(!new)>(e: Engine<D, O>, s: State<D, O>, seed: nat): State<D, O> {
    if s.applied == [] then s
    else
      var last := |s.applied| - 1;
      match e.Apply(s.document, s.applied[last].inverse, seed)
      case Refused => s
      case Done(document, _, _) => State(document, s.applied[..last], s.undone + [s.applied[last]])
  }

  function AfterRedo<D(!new), O(!new)>(e: Engine<D, O>, s: State<D, O>, seed: nat): State<D, O> {
    if s.undone == [] then s
    else
      var last := |s.undone| - 1;
      match e.Apply(s.document, s.undone[last].op, seed)
      case Refused => s
      case Done(document, _, _) => State(document, s.applied + [s.undone[last]], s.undone[..last])
  }

  /** The operations one after another; nothing if any is refused. */
  function Chain<D(!new), O(!new)>(e: Engine<D, O>, d: D, ops: seq<O>, seed: nat): Option<D>
    decreases |ops|
  {
    if ops == [] then Some(d)
    else
      match e.Apply(d, ops[0], seed)
      case Refused => None
      case Done(document, _, _) => Chain(e, document, ops[1..], seed + 1)
  }

  /** The operation that sets a whole document. */
  datatype Snapshots<!D(!new), !O(!new)> = Snapshots(of: D -> O)
  {
    function Of(d: D): O {
      of(d)
    }

    /** A snapshot of a sound document restores it from any sound document. */
    ghost predicate Restore(e: Engine<D, O>) {
      forall from, d :: e.Sound(from) && e.Sound(d) ==> e.Replays(from, Of(d), d)
    }
  }

  function AfterBatch<D(!new), O(!new)>(e: Engine<D, O>, snaps: Snapshots<D, O>, s: State<D, O>, ops: seq<O>, seed: nat)
    : State<D, O>
  {
    if ops == [] then s
    else
      match Chain(e, s.document, ops, seed)
      case None => s
      case Some(document) =>
        State(document, s.applied + [Entry(snaps.Of(document), snaps.Of(s.document))], [])
  }

  // ---- The log -------------------------------------------------------------------

  class EditLog<D(!new), O(!new)> {
    const engine: Engine<D, O>
    var applied: seq<Entry<O>>
    var undone: seq<Entry<O>>

    constructor (engine: Engine<D, O>)
      ensures this.engine == engine && applied == [] && undone == []
    {
      this.engine := engine;
      applied := [];
      undone := [];
    }

    ghost function With(document: D): State<D, O>
      reads this
    {
      State(document, applied, undone)
    }

    method Apply(document: D, operation: O, seed: nat) returns (ok: bool, result: D)
      modifies this
      ensures With(result) == AfterApply(engine, old(With(document)), operation, seed)
      ensures ok == engine.Apply(document, operation, seed).Done?
    {
      match engine.Apply(document, operation, seed)
      case Refused =>
        return false, document;
      case Done(changed, completed, inverse) =>
        applied := applied + [Entry(completed, inverse)];
        undone := [];
        return true, changed;
    }

    method Undo(document: D, seed: nat) returns (ok: bool, result: D)
      modifies this
      ensures With(result) == AfterUndo(engine, old(With(document)), seed)
      ensures ok <==> |applied| < old(|applied|)
    {
      if |applied| == 0 {
        return false, document;
      }
      var last := applied[|applied| - 1];
      match engine.Apply(document, last.inverse, seed)
      case Refused =>
        return false, document;
      case Done(changed, _, _) =>
        undone := undone + [last];
        applied := applied[..|applied| - 1];
        return true, changed;
    }

    method Redo(document: D, seed: nat) returns (ok: bool, result: D)
      modifies this
      ensures With(result) == AfterRedo(engine, old(With(document)), seed)
      ensures ok <==> |undone| < old(|undone|)
    {
      if |undone| == 0 {
        return false, document;
      }
      var last := undone[|undone| - 1];
      match engine.Apply(document, last.op, seed)
      case Refused =>
        return false, document;
      case Done(changed, _, _) =>
        applied := applied + [last];
        undone := undone[..|undone| - 1];
        return true, changed;
    }

    /** Every operation on a private candidate first; then one entry for the whole change. */
    method ApplyBatch(snaps: Snapshots<D, O>, project: D, operations: seq<O>, seed: nat)
      returns (ok: bool, result: D)
      modifies this
      ensures With(result) == AfterBatch(engine, snaps, old(With(project)), operations, seed)
      ensures ok <==> operations != [] && Chain(engine, project, operations, seed).Some?
    {
      if operations == [] {
        return false, project;
      }
      var candidate := project;
      var i := 0;
      while i < |operations|
        invariant 0 <= i <= |operations|
        invariant applied == old(applied) && undone == old(undone)
        invariant Chain(engine, candidate, operations[i..], seed + i) == Chain(engine, project, operations, seed)
      {
        assert operations[i..][1..] == operations[i + 1..];
        match engine.Apply(candidate, operations[i], seed + i)
        case Refused =>
          return false, project;
        case Done(changed, _, _) =>
          candidate := changed;
        i := i + 1;
      }
      var redo, undo := snaps.Of(candidate), snaps.Of(project);
      applied := applied + [Entry(redo, undo)];
      undone := [];
      return true, candidate;
    }
  }

  // ---- The line of documents behind the two stacks ------------------------------------

  /** The entries in time order: applied ones, then undone ones from the latest undone back. */
  ghost function EntryAt<D, O>(s: State<D, O>, i: nat): Entry<O>
    requires i < |s.applied| + |s.undone|
  {
    if i < |s.applied| then s.applied[i] else s.undone[|s.applied| + |s.undone| - 1 - i]
  }

  ghost predicate Joins<D(!new), O(!new)>(e: Engine<D, O>, entry: Entry<O>, a: D, b: D) {
    e.Replays(a, entry.op, b) && e.Replays(b, entry.inverse, a)
  }

  /** Documents in a row, each joined to the next by an entry, with the current one between the stacks. */
  ghost predicate Linked<D(!new), O(!new)>(e: Engine<D, O>, s: State<D, O>, line: seq<D>) {
    && |line| == |s.applied| + |s.undone| + 1
    && line[|s.applied|] == s.document
    && (forall i :: 0 <= i < |line| ==> e.Sound(line[i]))
    && (forall i :: 0 <= i < |line| - 1 ==> Joins(e, EntryAt(s, i), line[i], line[i + 1]))
  }

  /** A new entry keeps the documents up to the current one and drops the undone ones. */
  lemma Extended<D(!new), O(!new)>(e: Engine<D, O>, s: State<D, O>, line: seq<D>, entry: Entry<O>, document: D)
    requires Linked(e, s, line) && e.Sound(document) && Joins(e, entry, s.document, document)
    ensures Linked(e, State(document, s.applied + [entry], []), line[..|s.applied| + 1] + [document])
  {
  }

  lemma ApplyLinked<D(!new), O(!new)>(e: Engine<D, O>, s: State<D, O>, line: seq<D>, op: O, seed: nat)
    requires e.Exact() && Linked(e, s, line) && e.Apply(s.document, op, seed).Done?
    ensures var t := AfterApply(e, s, op, seed); Linked(e, t, line[..|s.applied| + 1] + [t.document])
  {
  }

  /** Undo always succeeds while something is applied, and steps back along the line. */
  lemma UndoLinked<D(!new), O(!new)>(e: Engine<D, O>, s: State<D, O>, line: seq<D>, seed: nat)
    requires Linked(e, s, line) && s.applied != []
    ensures var t := AfterUndo(e, s, seed);
            Linked(e, t, line) && |t.applied| == |s.applied| - 1 && t.document == line[|s.applied| - 1]
            && t.applied == s.applied[..|s.applied| - 1] && t.undone == s.undone + [s.applied[|s.applied| - 1]]
  {
    var last := |s.applied| - 1;
    assert Joins(e, EntryAt(s, last), line[last], line[last + 1]);
    assert e.Replays(s.document, s.applied[last].inverse, line[last]);
    var r := e.Apply(s.document, s.applied[last].inverse, seed);
    assert r.Done? && r.document == line[last];
    var t := AfterUndo(e, s, seed);
    forall i | 0 <= i < |line| - 1
      ensures EntryAt(t, i) == EntryAt(s, i)
    {
    }
  }

  lemma RedoLinked<D(!new), O(!new)>(e: Engine<D, O>, s: State<D, O>, line: seq<D>, seed: nat)
    requires Linked(e, s, line) && s.undone != []
    ensures var t := AfterRedo(e, s, seed);
            Linked(e, t, line) && |t.applied| == |s.applied| + 1 && t.document == line[|s.applied| + 1]
            && t.applied == s.applied + [s.undone[|s.undone| - 1]] && t.undone == s.undone[..|s.undone| - 1]
  {
    var n, last := |s.applied|, |s.undone| - 1;
    assert Joins(e, EntryAt(s, n), line[n], line[n + 1]);
    assert e.Replays(s.document, s.undone[last].op, line[n + 1]);
    var r := e.Apply(s.document, s.undone[last].op, seed);
    assert r.Done? && r.document == line[n + 1];
    var t := AfterRedo(e, s, seed);
    forall i | 0 <= i < |line| - 1
      ensures EntryAt(t, i) == EntryAt(s, i)
    {
    }
  }

  lemma {:induction false} ChainSound<D(!new), O(!new)>(e: Engine<D, O>, d: D, ops: seq<O>, seed: nat)
    requires e.Exact() && e.Sound(d) && Chain(e, d, ops, seed).Some?
    ensures e.Sound(Chain(e, d, ops, seed).value)
    decreases |ops|
  {
    if ops != [] {
      var r := e.Apply(d, ops[0], seed);
      assert e.ExactAt(d, r);
      ChainSound(e, r.document, ops[1..], seed + 1);
    }
  }

  lemma BatchLinked<D(!new), O(!new)>(e: Engine<D, O>, snaps: Snapshots<D, O>, s: State<D, O>, line: seq<D>,
                                      ops: seq<O>, seed: nat)
    requires e.Exact() && snaps.Restore(e) && Linked(e, s, line)
    requires ops != [] && Chain(e, s.document, ops, seed).Some?
    ensures var t := AfterBatch(e, snaps, s, ops, seed); Linked(e, t, line[..|s.applied| + 1] + [t.document])
  {
    var document := Chain(e, s.document, ops, seed).value;
    ChainSound(e, s.document, ops, seed);
    Extended(e, s, line, Entry(snaps.Of(document), snaps.Of(s.document)), document);
  }

  // ---- Runs ----------------------------------------------------------------------------

  datatype Command<+O> = Apply(op: O) | Undo | Redo | Batch(ops: seq<O>)

  function Step<D(!new), O(!new)>(e: Engine<D, O>, snaps: Snapshots<D, O>, s: State<D, O>, c: Command<O>, seed: nat): State<D, O> {
    match c
    case Apply(op) => AfterApply(e, s, op, seed)
    case Undo => AfterUndo(e, s, seed)
    case Redo => AfterRedo(e, s, seed)
    case Batch(ops) => AfterBatch(e, snaps, s, ops, seed)
  }

  function Run<D(!new), O(!new)>(e: Engine<D, O>, snaps: Snapshots<D, O>, s: State<D, O>, cs: seq<Command<O>>, seed: nat)
    : State<D, O>
    decreases |cs|
  {
    if cs == [] then s else Run(e, snaps, Step(e, snaps, s, cs[0], seed), cs[1..], seed + 1)
  }

  /** A command extends the line at the current document, goes one place along it, or changes nothing. */
  ghost predicate StepsTo<D(!new), O(!new)>(e: Engine<D, O>, s: State<D, O>, line: seq<D>, c: Command<O>, seed: nat,
                                            t: State<D, O>, after: seq<D>)
    requires |s.applied| < |line|
  {
    match c
    case Apply(op) =>
      if e.Apply(s.document, op, seed).Done?
      then Extends(s, t, e.Apply(s.document, op, seed).document) && after == line[..|s.applied| + 1] + [t.document]
      else t == s
    case Undo => if s.applied != [] then after == line && |t.applied| == |s.applied| - 1 else t == s
    case Redo => if s.undone != [] then after == line && |t.applied| == |s.applied| + 1 else t == s
    case Batch(ops) =>
      if ops != [] && Chain(e, s.document, ops, seed).Some?
      then Extends(s, t, Chain(e, s.document, ops, seed).value) && after == line[..|s.applied| + 1] + [t.document]
      else t == s
  }

  lemma StepLinked<D(!new), O(!new)>(e: Engine<D, O>, snaps: Snapshots<D, O>, s: State<D, O>, line: seq<D>,
                                     c: Command<O>, seed: nat) returns (after: seq<D>)
    requires e.Exact() && snaps.Restore(e) && Linked(e, s, line)
    ensures Linked(e, Step(e, snaps, s, c, seed), after) && after[0] == line[0]
    ensures StepsTo(e, s, line, c, seed, Step(e, snaps, s, c, seed), after)
  {
    after := line;
    match c
    case Apply(op) =>
      if e.Apply(s.document, op, seed).Done? {
        ApplyLinked(e, s, line, op, seed);
        after := line[..|s.applied| + 1] + [AfterApply(e, s, op, seed).document];
      }
    case Undo =>
      if s.applied != [] {
        UndoLinked(e, s, line, seed);
      }
    case Redo =>
      if s.undone != [] {
        RedoLinked(e, s, line, seed);
      }
    case Batch(ops) =>
      if ops != [] && Chain(e, s.document, ops, seed).Some? {
        BatchLinked(e, snaps, s, line, ops, seed);
        after := line[..|s.applied| + 1] + [AfterBatch(e, snaps, s, ops, seed).document];
      }
  }

  /** One more entry, a new document and nothing left to redo. */
  ghost predicate Extends<D, O>(s: State<D, O>, t: State<D, O>, document: D) {
    t.document == document && |t.applied| == |s.applied| + 1 && t.undone == []
  }

  ghost function Applies<O>(ops: seq<O>): seq<Command<O>> {
    if ops == [] then [] else [Command.Apply(ops[0])] + Applies(ops[1..])
  }

  lemma {:induction false} AppliedAtMost<D(!new), O(!new)>(e: Engine<D, O>, snaps: Snapshots<D, O>, s: State<D, O>,
                                                           ops: seq<O>, seed: nat)
    ensures |Run(e, snaps, s, Applies(ops), seed).applied| <= |s.applied| + |ops|
    decreases |ops|
  {
    if ops != [] {
      assert Applies(ops)[1..] == Applies(ops[1..]);
      AppliedAtMost(e, snaps, AfterApply(e, s, ops[0], seed), ops[1..], seed + 1);
    }
  }

  /** A batch is accepted exactly when its operations are, applied one by one, and leads to the same document. */
  lemma {:induction false} BatchIsApplies<D(!new), O(!new)>(e: Engine<D, O>, snaps: Snapshots<D, O>, s: State<D, O>,
                                                            ops: seq<O>, seed: nat)
    ensures var t, document := Run(e, snaps, s, Applies(ops), seed), Chain(e, s.document, ops, seed);
            (document.Some? <==> |t.applied| == |s.applied| + |ops|) && (document.Some? ==> document.value == t.document)
    decreases |ops|
  {
    if ops != [] {
      assert Applies(ops)[1..] == Applies(ops[1..]);
      var n := AfterApply(e, s, ops[0], seed);
      AppliedAtMost(e, snaps, n, ops[1..], seed + 1);
      if e.Apply(s.document, ops[0], seed).Done? {
        BatchIsApplies(e, snaps, n, ops[1..], seed + 1);
      }
    }
  }

  /** Whatever is called in whatever order, the two stacks stay linked by a line that starts where the run did. */
  lemma {:induction false} RunLinked<D(!new), O(!new)>(e: Engine<D, O>, snaps: Snapshots<D, O>, s: State<D, O>,
                                     line: seq<D>, cs: seq<Command<O>>, seed: nat) returns (after: seq<D>)
    requires e.Exact() && snaps.Restore(e) && Linked(e, s, line)
    ensures Linked(e, Run(e, snaps, s, cs, seed), after) && after[0] == line[0]
    decreases |cs|
  {
    after := line;
    if cs != [] {
      var next := StepLinked(e, snaps, s, line, cs[0], seed);
      after := RunLinked(e, snaps, Step(e, snaps, s, cs[0], seed), next, cs[1..], seed + 1);
    }
  }

  function Undos<D(!new), O(!new)>(e: Engine<D, O>, s: State<D, O>, k: nat, seed: nat): State<D, O>
    decreases k
  {
    if k == 0 then s else Undos(e, AfterUndo(e, s, seed), k - 1, seed + 1)
  }

  function Redos<D(!new), O(!new)>(e: Engine<D, O>, s: State<D, O>, k: nat, seed: nat): State<D, O>
    decreases k
  {
    if k == 0 then s else Redos(e, AfterRedo(e, s, seed), k - 1, seed + 1)
  }

  lemma {:induction false} UndosBack<D(!new), O(!new)>(e: Engine<D, O>, s: State<D, O>, line: seq<D>, k: nat, seed: nat)
    requires Linked(e, s, line) && k <= |s.applied|
    ensures var t := Undos(e, s, k, seed);
            Linked(e, t, line) && |t.applied| == |s.applied| - k && t.document == line[|s.applied| - k]
    decreases k
  {
    if k > 0 {
      UndoLinked(e, s, line, seed);
      UndosBack(e, AfterUndo(e, s, seed), line, k - 1, seed + 1);
    }
  }

  lemma RedosSplit<D(!new), O(!new)>(e: Engine<D, O>, s: State<D, O>, k: nat, seed: nat)
    ensures Redos(e, s, k + 1, seed) == AfterRedo(e, Redos(e, s, k, seed), seed + k)
    decreases k
  {
    if k > 0 {
      RedosSplit(e, AfterRedo(e, s, seed), k - 1, seed + 1);
    }
  }

  /** Redo right after undo gives back the document and both stacks exactly. */
  lemma RedoAfterUndo<D(!new), O(!new)>(e: Engine<D, O>, s: State<D, O>, line: seq<D>, seed: nat, again: nat)
    requires Linked(e, s, line) && s.applied != []
    ensures AfterRedo(e, AfterUndo(e, s, seed), again) == s
  {
    UndoLinked(e, s, line, seed);
    var t := AfterUndo(e, s, seed);
    RedoLinked(e, t, line, again);
    var last := s.applied[|s.applied| - 1];
    assert s.applied[..|s.applied| - 1] + [last] == s.applied;
    assert (s.undone + [last])[..|s.undone|] == s.undone;
  }

  /** k undos and then k redos restore the document and both stacks. */
  lemma {:induction false} UndosThenRedos<D(!new), O(!new)>(e: Engine<D, O>, s: State<D, O>, line: seq<D>, k: nat,
                                          seed: nat, again: nat)
    requires Linked(e, s, line) && k <= |s.applied|
    ensures Redos(e, Undos(e, s, k, seed), k, again) == s
    decreases k
  {
    if k > 0 {
      UndoLinked(e, s, line, seed);
      var t := AfterUndo(e, s, seed);
      UndosThenRedos(e, t, line, k - 1, seed + 1, again);
      RedosSplit(e, Undos(e, t, k - 1, seed + 1), k - 1, again);
      RedoAfterUndo(e, s, line, seed, again + k - 1);
    }
  }

  // ---- The theorems --------------------------------------------------------------------

  ghost function Fresh<D, O>(d: D): State<D, O> {
    State(d, [], [])
  }

  /**
   After any run on a new log: undoing everything gives back the first
   document, k undos and k redos give back the current document and stacks,
   and both always succeed.
   */
  lemma AnyRunUndoes<D(!new), O(!new)>(e: Engine<D, O>, snaps: Snapshots<D, O>, d: D, cs: seq<Command<O>>, seed: nat,
                                       k: nat, back: nat, again: nat)
    requires e.Exact() && snaps.Restore(e) && e.Sound(d)
    ensures var s := Run(e, snaps, Fresh(d), cs, seed);
            Undos(e, s, |s.applied|, back).document == d && Undos(e, s, |s.applied|, back).applied == [] &&
            (k <= |s.applied| ==> Redos(e, Undos(e, s, k, back), k, again) == s)
  {
    var s := Run(e, snaps, Fresh(d), cs, seed);
    assert Linked(e, Fresh(d), [d]);
    var line := RunLinked(e, snaps, Fresh(d), [d], cs, seed);
    UndosBack(e, s, line, |s.applied|, back);
    if k <= |s.applied| {
      UndosThenRedos(e, s, line, k, back, again);
    }
  }

  /** Replaying operations in order. */
  ghost predicate ReplaysAll<D(!new), O(!new)>(e: Engine<D, O>, from: D, entries: seq<Entry<O>>, to: D)
    decreases |entries|
  {
    if entries == [] then from == to
    else exists mid :: e.Replays(from, entries[0].op, mid) && ReplaysAll(e, mid, entries[1..], to)
  }

  lemma {:induction false} LineReplays<D(!new), O(!new)>(e: Engine<D, O>, s: State<D, O>, line: seq<D>, i: nat)
    requires Linked(e, s, line) && i <= |s.applied|
    ensures ReplaysAll(e, line[i], s.applied[i..], s.document)
    decreases |s.applied| - i
  {
    if i < |s.applied| {
      LineReplays(e, s, line, i + 1);
      assert s.applied[i..][1..] == s.applied[i + 1..];
      assert Joins(e, EntryAt(s, i), line[i], line[i + 1]);
      assert e.Replays(line[i], s.applied[i..][0].op, line[i + 1]);
    }
  }

  /** After any run the current document is what replaying the applied stack on the first one gives. */
  lemma AnyRunReplays<D(!new), O(!new)>(e: Engine<D, O>, snaps: Snapshots<D, O>, d: D, cs: seq<Command<O>>, seed: nat)
    requires e.Exact() && snaps.Restore(e) && e.Sound(d)
    ensures var s := Run(e, snaps, Fresh(d), cs, seed); ReplaysAll(e, d, s.applied, s.document)
  {
    var s := Run(e, snaps, Fresh(d), cs, seed);
    assert Linked(e, Fresh(d), [d]);
    var line := RunLinked(e, snaps, Fresh(d), [d], cs, seed);
    LineReplays(e, s, line, 0);
    assert s.applied[0..] == s.applied;
  }

  /** A batch, however long, is one step: one undo gives back the document it started from. */
  lemma BatchUndoes<D(!new), O(!new)>(e: Engine<D, O>, snaps: Snapshots<D, O>, s: State<D, O>, line: seq<D>,
                                      ops: seq<O>, seed: nat, back: nat)
    requires e.Exact() && snaps.Restore(e) && Linked(e, s, line)
    requires ops != [] && Chain(e, s.document, ops, seed).Some?
    ensures var t := AfterUndo(e, AfterBatch(e, snaps, s, ops, seed), back);
            t.document == s.document && t.applied == s.applied && |t.undone| == 1
  {
    BatchLinked(e, snaps, s, line, ops, seed);
    var b := AfterBatch(e, snaps, s, ops, seed);
    UndoLinked(e, b, line[..|s.applied| + 1] + [b.document], back);
  }
}
