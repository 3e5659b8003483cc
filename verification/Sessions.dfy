/** Any run of commits, recoveries and power cuts on one disk. */
module Sessions {
  import opened Names
  import opened Storage
  import opened Plan
  import opened Recovery
  import opened Phases
  import opened Transaction

  datatype Event = Save(artifacts: seq<CommitArtifact>, nonce: string) | Recover

  datatype Outcome = Succeeded | Failed | Crashed

  /** What an event leaves of some files. */
  ghost function After(now: Files, e: Event, keep: bool): Files {
    if keep && e.Save? then Applied(now, e.artifacts) else now
  }

  /** The user's files after the kept commits, each taken whole, in order. */
  ghost function Replayed(v: Files, events: seq<Event>, kept: seq<bool>): Files
    requires |events| == |kept|
  {
    if events == [] then v
    else
      var k := |events| - 1;
      After(Replayed(v, events[..k], kept[..k]), events[k], kept[k])
  }

  lemma ReplayedOneMore(v: Files, events: seq<Event>, kept: seq<bool>, i: nat, keep: bool)
    requires i < |events| && |kept| == i
    ensures Replayed(v, events[..i + 1], kept + [keep]) == After(Replayed(v, events[..i], kept), events[i], keep)
  {
    var es, ks := events[..i + 1], kept + [keep];
    assert es[..i] == events[..i] && ks[..i] == kept;
  }

  /** The names that may exist once these nonces have been used. */
  ghost function Allowed(used: iset<string>): iset<Path> {
    iset p: Path | IsUser(p) || p == MARKER || NonceOf(p) in used
  }

  ghost predicate FreshNonces(events: seq<Event>, used: iset<string>) {
    && (forall i :: 0 <= i < |events| && events[i].Save? ==>
          events[i].nonce !in used && GoodPlan(events[i].artifacts, events[i].nonce))
    && (forall i, j :: 0 <= i < j < |events| && events[i].Save? && events[j].Save? ==> events[i].nonce != events[j].nonce)
  }

  ghost function UsedBy(events: seq<Event>, used: iset<string>, i: nat): iset<string>
    requires i <= |events|
  {
    iset n: string | n in used || exists k :: 0 <= k < i && events[k].Save? && events[k].nonce == n
  }

  lemma RoomForNonce(s: Files, events: seq<Event>, used: iset<string>, i: nat)
    requires i < |events| && events[i].Save? && FreshNonces(events, used)
    requires Within(s, Allowed(UsedBy(events, used, i)))
    ensures Room(s, events[i].artifacts, events[i].nonce, Allowed(UsedBy(events, used, i + 1)))
    ensures Within(s, Allowed(UsedBy(events, used, i + 1)))
  {
    var a, nonce := events[i].artifacts, events[i].nonce;
    NamedApart(a, nonce);
    OwnNames(MARKER, nonce);
    assert nonce in UsedBy(events, used, i + 1);
    assert nonce !in UsedBy(events, used, i);
    forall j | 0 <= j < |a| ensures a[j].backup !in s {
      assert NonceOf(a[j].backup) == nonce;
    }
    MoreNames(s, events, used, i);
  }

  lemma MoreNames(s: Files, events: seq<Event>, used: iset<string>, i: nat)
    requires i < |events| && Within(s, Allowed(UsedBy(events, used, i)))
    ensures Within(s, Allowed(UsedBy(events, used, i + 1)))
  {
  }

  lemma {:induction false} AppliedOnlyUser(v: Files, a: seq<CommitArtifact>)
    requires OnlyUser(v) && forall i :: 0 <= i < |a| ==> IsUser(a[i].path)
    ensures OnlyUser(Applied(v, a))
  {
    if a != [] {
      AppliedOnlyUser(v, a[..|a| - 1]);
    }
  }

  /** What a user is promised of each event. */
  ghost predicate Honest(events: seq<Event>, outcomes: seq<Outcome>, kept: seq<bool>) {
    && |outcomes| == |kept| <= |events|
    && forall i :: 0 <= i < |kept| && events[i].Save? ==>
         && (outcomes[i] == Succeeded ==> kept[i])
         && (outcomes[i] == Failed ==> !kept[i])
  }

  lemma HonestOneMore(events: seq<Event>, outcomes: seq<Outcome>, kept: seq<bool>, outcome: Outcome, keep: bool)
    requires Honest(events, outcomes, kept) && |kept| < |events|
    requires events[|kept|].Save? ==> (outcome == Succeeded ==> keep) && (outcome == Failed ==> !keep)
    ensures Honest(events, outcomes + [outcome], kept + [keep])
  {
  }

  // ---- What can go wrong with an event --------------------------------------------

  /**
   What was at risk on the disk when the event began, how many primitives and
   how many removals failed in it, and what came of that: created files that
   recovery could not remove, and a rollback that had lost its marker.
   */
  datatype Incident = Incident(risk: set<Path>, faults: nat, refusals: nat, stuck: set<Path>, exposed: bool)
  {
    predicate Clean() {
      stuck == {} && !exposed
    }
  }

  /** Nothing goes wrong by itself: a stuck file was at risk and took a refusal, an exposed rollback two faults in one commit. */
  ghost predicate Accountable(e: Event, i: Incident) {
    && i.stuck <= i.risk && |i.stuck| <= i.refusals
    && |i.stuck| + (if i.exposed then 2 else 0) <= i.faults
    && (e.Recover? ==> !i.exposed)
  }

  /** No removal refused while a created file was at risk, and no more than one fault in a commit. */
  ghost predicate Tame(e: Event, i: Incident) {
    (i.refusals == 0 || i.risk == {}) && (e.Save? ==> i.faults <= 1)
  }

  /** One commit, cut short at any moment or not. */
  method RunSave(d: Disk, artifacts: seq<CommitArtifact>, nonce: string, ghost v: Files, ghost names: iset<Path>)
    returns (outcome: Outcome, ghost keep: bool, clean: bool, ghost incident: Incident)
    requires d.Valid() && GoodPlan(artifacts, nonce) && Room(d.files, artifacts, nonce, names)
    requires Shows(d.files, v) && OnlyUser(v) && Within(d.files, names)
    modifies d
    ensures d.Valid() && Recorded(old(d.files), old(d.faults), old(d.refusals), d.faults, d.refusals, incident)
    ensures clean == incident.Clean()
    ensures Accountable(Save(artifacts, nonce), incident)
    ensures clean ==> Within(d.files, names) && Shows(d.files, if keep then Applied(v, artifacts) else v)
    ensures clean ==> (outcome == Succeeded ==> keep) && (outcome == Failed ==> !keep)
    ensures clean && outcome == Crashed && MARKER in d.files ==> !keep
    ensures outcome == Failed ==> incident.faults > 0
    ensures incident.risk == {} && incident.faults <= 1 && outcome != Crashed ==> AtRisk(d.files) == {}
  {
    ghost var w, risk, faults, refusals := Applied(v, artifacts), AtRisk(d.files), d.faults, d.refusals;
    d.Watch(Standing(v, names) + iset s: Files | Plain(s, w, names));
    var ok, stuck, exposed := CommitArtifacts(d, artifacts, nonce, v, names);
    clean := stuck == {} && !exposed;
    incident := Incident(risk, d.faults - faults, d.refusals - refusals, stuck, exposed);
    outcome := if ok then Succeeded else Failed;
    keep := ok;
    if * {
      d.PowerCut();
      outcome := Crashed;
      keep := !Shows(d.files, v);
    }
  }

  /** The incident gives the risk at the start of an event and counts what failed in it. */
  ghost predicate Recorded(before: Files, faults0: nat, refusals0: nat, faults: nat, refusals: nat, i: Incident) {
    i.risk == AtRisk(before) && faults == faults0 + i.faults && refusals == refusals0 + i.refusals
  }

  /** One recovery, cut short at any moment or not. */
  method RunRecovery(d: Disk, ghost v: Files, ghost names: iset<Path>)
    returns (outcome: Outcome, clean: bool, ghost incident: Incident)
    requires d.Valid() && Shows(d.files, v) && Within(d.files, names) && UserNames(names)
    modifies d
    ensures d.Valid() && Recorded(old(d.files), old(d.faults), old(d.refusals), d.faults, d.refusals, incident)
    ensures clean == incident.Clean()
    ensures Accountable(Recover, incident)
    ensures clean ==> Within(d.files, names) && Shows(d.files, v)
    ensures clean && outcome == Succeeded ==> MARKER !in d.files
    ensures outcome == Failed ==> incident.faults > 0
    ensures outcome != Crashed ==> AtRisk(d.files) <= incident.risk
  {
    ghost var risk, faults, refusals := AtRisk(d.files), d.faults, d.refusals;
    d.Watch(Standing(v, names));
    var ok, stuck := RecoverTransaction(d, v, names);
    clean := stuck == {};
    incident := Incident(risk, d.faults - faults, d.refusals - refusals, stuck, false);
    outcome := if ok then Succeeded else Failed;
    if * {
      d.PowerCut();
      outcome := Crashed;
    }
  }

  /** One event of a session. */
  method RunEvent(d: Disk, events: seq<Event>, i: nat, ghost now: Files, ghost used: iset<string>)
    returns (outcome: Outcome, ghost keep: bool, clean: bool, ghost incident: Incident)
    requires i < |events| && FreshNonces(events, used)
    requires d.Valid() && Shows(d.files, now) && OnlyUser(now) && Within(d.files, Allowed(UsedBy(events, used, i)))
    modifies d
    ensures d.Valid() && Recorded(old(d.files), old(d.faults), old(d.refusals), d.faults, d.refusals, incident)
    ensures clean == incident.Clean()
    ensures Accountable(events[i], incident)
    ensures clean ==> Within(d.files, Allowed(UsedBy(events, used, i + 1)))
    ensures clean ==> Shows(d.files, After(now, events[i], keep)) && OnlyUser(After(now, events[i], keep))
    ensures clean && events[i].Save? ==> (outcome == Succeeded ==> keep) && (outcome == Failed ==> !keep)
    ensures clean && events[i].Recover? && outcome == Succeeded ==> MARKER !in d.files
    ensures outcome == Failed ==> incident.faults > 0
    ensures incident.risk == {} && incident.faults <= 1 && outcome != Crashed ==> AtRisk(d.files) == {}
  {
    keep := false;
    match events[i]
    case Save(artifacts, nonce) =>
      RoomForNonce(d.files, events, used, i);
      AppliedOnlyUser(now, artifacts);
      outcome, keep, clean, incident := RunSave(d, artifacts, nonce, now, Allowed(UsedBy(events, used, i + 1)));
    case Recover =>
      outcome, clean, incident := RunRecovery(d, now, Allowed(UsedBy(events, used, i)));
      if clean {
        MoreNames(d.files, events, used, i);
      }
  }

  // ---- Any run ----------------------------------------------------------------------

  ghost predicate CleanSoFar(incidents: seq<Incident>) {
    forall i :: 0 <= i < |incidents| ==> incidents[i].Clean()
  }

  /** Every event has happened and none of them left a hazard behind. */
  ghost predicate AllClean(events: seq<Event>, incidents: seq<Incident>) {
    |incidents| == |events| && CleanSoFar(incidents)
  }

  ghost predicate AllTame(events: seq<Event>, incidents: seq<Incident>) {
    |incidents| <= |events| && forall i :: 0 <= i < |incidents| ==> Tame(events[i], incidents[i])
  }

  ghost predicate AllAccountable(events: seq<Event>, outcomes: seq<Outcome>, incidents: seq<Incident>) {
    && |outcomes| == |incidents| <= |events|
    && (forall i :: 0 <= i < |incidents| ==> Accountable(events[i], incidents[i]))
    && (forall i :: 0 <= i < |incidents| && outcomes[i] == Failed ==> incidents[i].faults > 0)
  }

  /** The power stays on, and no event suffers more than one fault. */
  ghost predicate OneFaultEach(outcomes: seq<Outcome>, incidents: seq<Incident>) {
    |outcomes| == |incidents| && forall i :: 0 <= i < |incidents| ==> outcomes[i] != Crashed && incidents[i].faults <= 1
  }

  ghost predicate FaultFree(incidents: seq<Incident>) {
    forall i :: 0 <= i < |incidents| ==> incidents[i].faults == 0
  }

  /** One more incident; if it leaves a hazard, none of the three conditions that rule hazards out holds. */
  lemma NextIncident(events: seq<Event>, outcomes: seq<Outcome>, incidents: seq<Incident>, outcome: Outcome,
                     incident: Incident, safe: bool)
    requires AllAccountable(events, outcomes, incidents) && CleanSoFar(incidents) && |incidents| < |events|
    requires Accountable(events[|incidents|], incident) && (outcome == Failed ==> incident.faults > 0)
    requires safe && OneFaultEach(outcomes, incidents) ==> incident.risk == {}
    ensures var os, all := outcomes + [outcome], incidents + [incident];
            && AllAccountable(events, os, all)
            && (incident.Clean() ==> CleanSoFar(all))
            && (!incident.Clean() ==> !AllTame(events, all) && !(safe && OneFaultEach(os, all)) && incident.faults > 0)
            && (OneFaultEach(os, all) ==> OneFaultEach(outcomes, incidents) && outcome != Crashed && incident.faults <= 1)
            && (FaultFree(incidents) && incident.faults == 0 ==> FaultFree(all))
  {
    var os, all := outcomes + [outcome], incidents + [incident];
    var n := |incidents|;
    assert os[n] == outcome && all[n] == incident;
    assert forall i :: 0 <= i < n ==> os[i] == outcomes[i] && all[i] == incidents[i];
  }

  lemma FaultFreeSucceeds(events: seq<Event>, outcomes: seq<Outcome>, incidents: seq<Incident>)
    requires AllAccountable(events, outcomes, incidents) && FaultFree(incidents)
    ensures Failed !in outcomes
  {
  }

  /** After i events: what they were promised has held, and the disk stands for the kept commits. */
  ghost predicate Stands(s: Files, events: seq<Event>, outcomes: seq<Outcome>, kept: seq<bool>, v: Files, now: Files,
                         used: iset<string>, i: nat)
  {
    && |kept| == i <= |events| && Honest(events, outcomes, kept)
    && now == Replayed(v, events[..i], kept) && Shows(s, now) && OnlyUser(now)
    && Within(s, Allowed(UsedBy(events, used, i)))
    && (i > 0 && events[i - 1].Recover? && outcomes[i - 1] == Succeeded ==> MARKER !in s)
  }

  lemma StandsOn(s: Files, t: Files, events: seq<Event>, outcomes: seq<Outcome>, kept: seq<bool>, v: Files, now: Files,
                 used: iset<string>, i: nat, outcome: Outcome, keep: bool)
    requires i < |events| && Stands(s, events, outcomes, kept, v, now, used, i)
    requires Shows(t, After(now, events[i], keep)) && OnlyUser(After(now, events[i], keep))
    requires Within(t, Allowed(UsedBy(events, used, i + 1)))
    requires events[i].Save? ==> (outcome == Succeeded ==> keep) && (outcome == Failed ==> !keep)
    requires events[i].Recover? && outcome == Succeeded ==> MARKER !in t
    ensures Stands(t, events, outcomes + [outcome], kept + [keep], v, After(now, events[i], keep), used, i + 1)
  {
    ReplayedOneMore(v, events, kept, i, keep);
    HonestOneMore(events, outcomes, kept, outcome, keep);
  }

  lemma StandsAtEnd(s: Files, events: seq<Event>, outcomes: seq<Outcome>, kept: seq<bool>, v: Files, now: Files,
                    used: iset<string>)
    requires Stands(s, events, outcomes, kept, v, now, used, |events|)
    ensures |kept| == |events| && Honest(events, outcomes, kept) && Shows(s, Replayed(v, events, kept))
    ensures events != [] && events[|events| - 1].Recover? && outcomes[|events| - 1] == Succeeded ==>
              UserFiles(s, Replayed(v, events, kept))
  {
    assert events[..|events|] == events;
  }

  /**
   Any sequence of commits and recoveries from one root, each succeeding,
   failing or cut short anywhere, until one of them leaves a hazard behind. If
   none does, the disk stands for the starting files with a subset of the
   commits applied whole and in order: every one that succeeded, none that
   failed. When the last event is a finished recovery those files are plainly
   there. No hazard is left when commits suffer one fault each at most and no
   removal is refused while a created file is at risk; nor when the power stays
   on and every event suffers one fault at most, whatever fails in it; and
   without any fault no event fails either.
   */
  method Run(d: Disk, events: seq<Event>, ghost v: Files, ghost used: iset<string>)
    returns (outcomes: seq<Outcome>, ghost kept: seq<bool>, ghost incidents: seq<Incident>)
    requires d.Valid() && Shows(d.files, v) && OnlyUser(v) && Within(d.files, Allowed(used)) && FreshNonces(events, used)
    modifies d
    ensures d.Valid() && AllAccountable(events, outcomes, incidents)
    ensures AllTame(events, incidents) ==> AllClean(events, incidents)
    ensures AtRisk(old(d.files)) == {} && OneFaultEach(outcomes, incidents) ==> AllClean(events, incidents)
    ensures d.faults == old(d.faults) ==> AllClean(events, incidents) && Failed !in outcomes
    ensures AllClean(events, incidents) ==> |kept| == |events| && Honest(events, outcomes, kept)
    ensures AllClean(events, incidents) ==> Shows(d.files, Replayed(v, events, kept))
    ensures AllClean(events, incidents) && events != [] && events[|events| - 1].Recover? &&
            outcomes[|events| - 1] == Succeeded ==>
              UserFiles(d.files, Replayed(v, events, kept))
  {
    outcomes, kept, incidents := [], [], [];
    var i := 0;
    ghost var now, safe := v, AtRisk(d.files) == {};
    assert events[..0] == [];
    while i < |events|
      invariant 0 <= i <= |events| && |incidents| == i
      invariant d.Valid() && AllAccountable(events, outcomes, incidents) && CleanSoFar(incidents)
      invariant d.faults >= old(d.faults) && (d.faults == old(d.faults) ==> FaultFree(incidents))
      invariant safe && OneFaultEach(outcomes, incidents) ==> AtRisk(d.files) == {}
      invariant Stands(d.files, events, outcomes, kept, v, now, used, i)
    {
      ghost var keep, incident, before := false, Incident({}, 0, 0, {}, false), d.files;
      var outcome, clean;
      outcome, keep, clean, incident := RunEvent(d, events, i, now, used);
      NextIncident(events, outcomes, incidents, outcome, incident, safe);
      if clean {
        StandsOn(before, d.files, events, outcomes, kept, v, now, used, i, outcome, keep);
      }
      outcomes, incidents, kept := outcomes + [outcome], incidents + [incident], kept + [keep];
      if !clean {
        return;
      }
      now := After(now, events[i], keep);
      i := i + 1;
    }
    StandsAtEnd(d.files, events, outcomes, kept, v, now, used);
    if FaultFree(incidents) {
      FaultFreeSucceeds(events, outcomes, incidents);
    }
  }
}
