/** The migration as a protocol: one process at a time walking, dying, resuming and rolling
    back over a journal, while Coolify stops, restarts and prunes behind its back. */
module Protocol {
  import opened Journal
  import opened Migration
  import opened Restarts
  import opened StateMachine
  import opened Wrappers

  // ── the world ──────────────────────────────────────────────────────────────

  datatype Volume = Volume(name: string)

  /** `src` and `copied` are the volumes that still hold the data, on the source and on the
      target. A volume that neither a container (`Use`) nor a pin (`Pin`) references may be
      pruned at any moment. `unsettled`: Coolify has a stop or a restart of the source queued. */
  datatype World = World(src: set<Volume>, srcUse: set<Volume>, srcPin: set<Volume>, unsettled: bool,
                         copied: set<Volume>, tgtUse: set<Volume>, tgtPin: set<Volume>)

  /** What one migration is about: the data, the resources that hold it, and the policy. */
  datatype Config = Config(data: set<Volume>, sources: set<string>, policy: FinalizePolicy)

  datatype Phase =
    | Idle
    | Walking(at: nat)
    | Inside(at: nat, stage: nat)
    | Judging(explicit: bool)
    | Looked(explicit: bool)
    | Cleared(explicit: bool)
    | Undoing(plan: seq<Step>)

  /** `entered`: the state a run went into and no run has come out of. `unpinned`: the unpin
      command has released what a finished migration kept. `accepted`: the restarts Coolify took
      since the last stop request, in order. `pending`: one it took that is not recorded yet. */
  datatype Sys = Sys(js: seq<Entry>, w: World, phase: Phase, entered: Option<State>, unpinned: bool,
                     accepted: seq<string>, pending: Option<string>)

  ghost predicate Initial(c: Config, s: Sys) {
    && s.js == [] && s.phase.Idle? && s.entered.None? && !s.unpinned && s.accepted == [] && s.pending.None?
    && c.data <= s.w.src && c.data <= s.w.srcUse
    && !s.w.unsettled && s.w.copied == {} && s.w.tgtPin == {}
  }

  const LAST: nat := 12

  // ── walking the states ─────────────────────────────────────────────────────

  ghost predicate Begins(s: Sys, t: Sys) {
    s.phase.Idle? && !IsFinished(s.js)
    && t == s.(js := s.js + [Entry(Started, Some(Init), map[])], phase := Walking(0))
  }

  ghost predicate Skips(s: Sys, t: Sys) {
    && s.phase.Walking? && s.phase.at < LAST && ORDER[s.phase.at] in CompletedStates(s.js)
    && t == s.(phase := Walking(s.phase.at + 1))
  }

  ghost predicate Enters(s: Sys, t: Sys) {
    && s.phase.Walking? && s.phase.at < LAST && ORDER[s.phase.at] !in CompletedStates(s.js)
    && t == s.(js := s.js + [Entry(StepStarted, Some(ORDER[s.phase.at]), map[])],
               phase := Inside(s.phase.at, 0), entered := Some(ORDER[s.phase.at]))
  }

  ghost predicate Finishes(s: Sys, t: Sys) {
    && s.phase.Walking? && s.phase.at == LAST
    && t == s.(js := s.js + [Entry(Finished, None, map[])], phase := Idle)
  }

  /** A fact a step records about itself, other than the two that only QUIESCE and FINALIZE do. */
  ghost predicate Notes(s: Sys, t: Sys, detail: Detail) {
    && s.phase.Inside? && s.phase.at < LAST
    && StopRequested !in detail && PolicyKey !in detail
    && t == s.(js := s.js + [Entry(StepStarted, Some(ORDER[s.phase.at]), detail)])
  }

  ghost predicate Completes(c: Config, s: Sys, t: Sys, detail: Detail) {
    && s.phase.Inside? && s.phase.at < LAST
    && StopRequested !in detail && (PolicyKey in detail ==> s.phase.at == 11 && detail[PolicyKey] == PolicyIs(c.policy))
    && (s.phase.at == 4 ==> s.phase.stage == 3)
    && (s.phase.at == 6 ==> s.phase.stage == 1 || c.data == {})
    && (s.phase.at == 7 ==> c.data <= s.w.copied)
    && (s.phase.at == 11 ==> s.phase.stage == 1)
    && t == s.(js := s.js + [Entry(StepCompleted, Some(ORDER[s.phase.at]), detail)],
               phase := Walking(s.phase.at + 1), entered := None)
  }

  ghost predicate Blocks(s: Sys, t: Sys) {
    && s.phase.Inside? && s.phase.at < LAST
    && t == s.(js := s.js + [Entry(Blocked, Some(ORDER[s.phase.at]), map[])], phase := Idle, entered := None)
  }

  ghost predicate Fails(s: Sys, t: Sys) {
    && s.phase.Inside? && s.phase.at < LAST
    && t == s.(js := s.js + [Entry(StepFailed, Some(ORDER[s.phase.at]), map[])], phase := Judging(false), entered := None)
  }

  /** The process dies; the journal stays as it is, whatever was about to be recorded. */
  ghost predicate Crashes(s: Sys, t: Sys) {
    t == s.(phase := Idle, pending := None)
  }

  // ── inside the steps that touch volumes ────────────────────────────────────

  /** QUIESCE pins what the source mounts, records that it will stop it, and asks. */
  ghost predicate QuiesceActs(s: Sys, t: Sys) {
    s.phase.Inside? && s.phase.at == 4 &&
    match s.phase.stage
    case 0 => t == s.(w := s.w.(srcPin := s.w.srcPin + s.w.src * s.w.srcUse), phase := Inside(4, 1))
    case 1 => t == s.(js := s.js + [Entry(StepStarted, Some(Quiesce), map[StopRequested := Flag(true)])],
                      phase := Inside(4, 2), accepted := [])
    case 2 => t == s.(w := s.w.(unsettled := true), phase := Inside(4, 3))
    case _ => false
  }

  /** COPY pins the target's volumes, those that are there for certain, and fills what it pinned. */
  ghost predicate CopyActs(c: Config, s: Sys, t: Sys) {
    s.phase.Inside? && s.phase.at == 6 &&
    match s.phase.stage
    case 0 =>
      && s.w.tgtPin + c.data * s.w.copied <= t.w.tgtPin <= s.w.tgtPin + c.data
      && t == s.(w := s.w.(tgtPin := t.w.tgtPin), phase := Inside(6, 1))
    case 1 => s.w.copied <= t.w.copied <= s.w.copied + c.data * s.w.tgtPin && t == s.(w := s.w.(copied := t.w.copied))
    case _ => false
  }

  /** FINALIZE records its policy first. It unpins the target's volumes only when running
      containers mount them, the source's whatever happens; DELETE deletes the source. */
  ghost predicate FinalizeActs(c: Config, s: Sys, t: Sys) {
    s.phase.Inside? && s.phase.at == 11 &&
    match s.phase.stage
    case 0 =>
      t == s.(js := s.js + [Entry(StepStarted, Some(Finalize), map[PolicyKey := PolicyIs(c.policy)])], phase := Inside(11, 1))
    case 1 =>
      && (t.w.tgtPin == s.w.tgtPin || (s.w.tgtPin <= s.w.tgtUse && t.w.tgtPin == {}))
      && (c.policy.Delete? || (t.w.src == s.w.src && t.w.srcUse == s.w.srcUse))
      && t.w.src <= s.w.src
      && t == s.(w := s.w.(src := t.w.src, srcUse := t.w.srcUse, srcPin := t.w.srcPin, tgtPin := t.w.tgtPin))
    case _ => false
  }

  // ── rolling back ───────────────────────────────────────────────────────────

  ghost predicate AsksRollback(s: Sys, t: Sys) {
    s.phase.Idle? && t == s.(phase := Judging(true))
  }

  ghost predicate Refuses(s: Sys, t: Sys) {
    && t == s.(js := s.js + [Entry(RefusedRollback, None, map[])], phase := Idle)
    && ((s.phase.Judging? && (RollbackRefused(Details(s.js)) || SourceCopyUnproven(Details(s.js)))) || s.phase.Looked?)
  }

  ghost predicate Passes(s: Sys, t: Sys) {
    && s.phase.Judging? && !RollbackRefused(Details(s.js)) && !SourceCopyUnproven(Details(s.js))
    && t == s.(phase := Cleared(s.phase.explicit))
  }

  /** The guard finds every copied volume on the source ... */
  ghost predicate Looks(c: Config, s: Sys, t: Sys) {
    && s.phase.Judging? && !RollbackRefused(Details(s.js)) && SourceCopyUnproven(Details(s.js))
    && c.data <= s.w.src
    && t == s.(phase := Looked(s.phase.explicit))
  }

  /** ... and then pins those that are still there. */
  ghost predicate Repins(c: Config, s: Sys, t: Sys) {
    && s.phase.Looked?
    && t == s.(w := s.w.(srcPin := s.w.srcPin + c.data * s.w.src), phase := Cleared(s.phase.explicit))
  }

  ghost predicate Plans(s: Sys, t: Sys) {
    && s.phase.Cleared?
    && var plan := MigrationPlan(OwedFrom(s.js, s.phase.explicit));
       if plan == [] then t == s.(js := s.js + [Entry(RolledBack, None, map[])], phase := Idle)
       else t == s.(js := s.js + [Entry(RollbackStarted, None, map[])], phase := Undoing(plan))
  }

  ghost predicate AllRestarted(c: Config, js: seq<Entry>) {
    c.sources <= RestartedSinceStop(js)
  }

  /** `_restart_succeeded`: the latest outcome of RESTART_SOURCE since the last rollback began. */
  function RestartSucceeded(js: seq<Entry>): bool {
    if js == [] then false
    else
      var last := js[|js| - 1];
      if last.event.RollbackStarted? then false
      else if && last.event.RollbackStepped?
              && CompensationKey in last.detail && last.detail[CompensationKey] == Action(RestartSource) && Ok in last.detail
      then last.detail[Ok] == Flag(true)
      else RestartSucceeded(js[..|js| - 1])
  }

  /** Coolify takes the restart of a source that the journal does not name as restarted ... */
  ghost predicate RestartTaken(c: Config, s: Sys, t: Sys) {
    s.pending.None? && exists r :: r in c.sources - RestartedSinceStop(s.js) && t == Taken(s, r)
  }

  function Taken(s: Sys, r: string): Sys {
    s.(w := s.w.(unsettled := true), accepted := s.accepted + [r], pending := Some(r))
  }

  /** ... which is then recorded, ... */
  ghost predicate RestartNoted(s: Sys, t: Sys) {
    s.pending.Some? && t == s.(js := s.js + [RestartNote(s.pending.value)], pending := None)
  }

  /** ... or taken for a failure, because the answer was lost. */
  ghost predicate RestartLost(s: Sys, t: Sys) {
    s.pending.Some? && t == s.(pending := None)
  }

  /** What one compensation may do to the world, whole or in part. */
  ghost predicate UndoActs(c: Config, s: Sys, t: Sys) {
    s.phase.Undoing? && s.phase.plan != [] &&
    match s.phase.plan[0].compensation
    case StopTarget =>
      t == s.(w := s.w.(tgtUse := t.w.tgtUse))
    case DropTargetVolumes =>
      t.w.tgtPin <= s.w.tgtPin && t.w.copied <= s.w.copied && t == s.(w := s.w.(tgtPin := t.w.tgtPin, copied := t.w.copied))
    case DeleteTargetResource =>
      && t.w.tgtPin <= s.w.tgtPin && t.w.copied <= s.w.copied
      && t == s.(w := s.w.(tgtUse := t.w.tgtUse, tgtPin := t.w.tgtPin, copied := t.w.copied))
    case RestartSource => RestartTaken(c, s, t) || RestartNoted(s, t) || RestartLost(s, t)
    case ReleaseSourcePins =>
      && s.w.srcPin <= s.w.srcUse
      && (SourceWasStopped(CompletedStates(s.js), Details(s.js)) ==> RestartSucceeded(s.js))
      && t == s.(w := s.w.(srcPin := {}, unsettled := false))
    case _ => t == s
  }

  function OutcomeNote(step: Step, ok: bool): Entry {
    Entry(RollbackStepped, Some(step.becauseOf), map[CompensationKey := Action(step.compensation), Ok := Flag(ok)])
  }

  /** A restart is recorded as done only when every source was restarted since the stop. */
  ghost predicate UndoRecords(c: Config, s: Sys, t: Sys, ok: bool) {
    && s.phase.Undoing? && s.phase.plan != [] && s.pending.None?
    && (ok && s.phase.plan[0].compensation.RestartSource? ==> AllRestarted(c, s.js))
    && t == s.(js := s.js + [OutcomeNote(s.phase.plan[0], ok)], phase := Undoing(s.phase.plan[1..]))
  }

  ghost predicate UndoEnds(s: Sys, t: Sys) {
    && s.phase.Undoing? && s.phase.plan == []
    && t == s.(js := s.js + [Entry(RolledBack, None, map[])], phase := Idle)
  }

  /** The unpin command: only of a finished migration, each side only when running
      containers kept every pinned volume mounted while any queued stop could land. */
  ghost predicate Unpins(s: Sys, t: Sys) {
    && s.phase.Idle? && IsFinished(s.js)
    && (t.w.tgtPin == s.w.tgtPin || (s.w.tgtPin <= s.w.tgtUse && t.w.tgtPin == {}))
    && ((t.w.srcPin == s.w.srcPin && t.w.unsettled == s.w.unsettled)
        || (s.w.srcPin <= s.w.srcUse && t.w.srcPin == {} && !t.w.unsettled))
    && t == s.(w := s.w.(srcPin := t.w.srcPin, unsettled := t.w.unsettled, tgtPin := t.w.tgtPin), unpinned := true)
  }

  // ── Coolify ────────────────────────────────────────────────────────────────

  ghost predicate PrunesSource(s: Sys, t: Sys) {
    && s.w.src * (s.w.srcUse + s.w.srcPin) <= t.w.src <= s.w.src
    && t == s.(w := s.w.(src := t.w.src))
  }

  ghost predicate PrunesTarget(s: Sys, t: Sys) {
    && s.w.copied * (s.w.tgtUse + s.w.tgtPin) <= t.w.copied <= s.w.copied
    && t == s.(w := s.w.(copied := t.w.copied))
  }

  /** A queued stop or restart lands, or undoes what an earlier one did. */
  ghost predicate SourceMoves(s: Sys, t: Sys) {
    s.w.unsettled && t == s.(w := s.w.(srcUse := t.w.srcUse))
  }

  /** The target's containers come and go while its volumes are pinned; once serving
      without pins, they keep what they mount. */
  ghost predicate TargetMoves(s: Sys, t: Sys) {
    && (s.w.copied <= s.w.tgtPin || s.w.tgtUse <= t.w.tgtUse)
    && t == s.(w := s.w.(tgtUse := t.w.tgtUse))
  }

  // ── all of it ──────────────────────────────────────────────────────────────

  ghost predicate RunNext(c: Config, s: Sys, t: Sys) {
    || Begins(s, t) || Skips(s, t) || Enters(s, t) || Finishes(s, t)
    || (exists detail :: Notes(s, t, detail)) || (exists detail :: Completes(c, s, t, detail))
    || Blocks(s, t) || Fails(s, t) || Crashes(s, t)
    || QuiesceActs(s, t) || CopyActs(c, s, t) || FinalizeActs(c, s, t)
  }

  ghost predicate RollbackNext(c: Config, s: Sys, t: Sys) {
    || AsksRollback(s, t) || Refuses(s, t) || Passes(s, t) || Looks(c, s, t) || Repins(c, s, t) || Plans(s, t)
    || UndoActs(c, s, t) || (exists ok :: UndoRecords(c, s, t, ok)) || UndoEnds(s, t) || Unpins(s, t)
  }

  ghost predicate WorldNext(s: Sys, t: Sys) {
    PrunesSource(s, t) || PrunesTarget(s, t) || SourceMoves(s, t) || TargetMoves(s, t)
  }

  ghost predicate Next(c: Config, s: Sys, t: Sys) {
    RunNext(c, s, t) || RollbackNext(c, s, t) || WorldNext(s, t)
  }

  ghost predicate NextAt(c: Config, trace: seq<Sys>, i: int) {
    0 <= i < |trace| - 1 && Next(c, trace[i], trace[i + 1])
  }

  ghost predicate Run(c: Config, trace: seq<Sys>) {
    && trace != [] && Initial(c, trace[0])
    && forall i :: 0 <= i < |trace| - 1 ==> NextAt(c, trace, i)
  }

  predicate RollbackBegan(js: seq<Entry>) {
    exists i :: 0 <= i < |js| && js[i].event.RollbackStarted?
  }

  /** A rollback has begun since the last run did. */
  function RollbackSince(js: seq<Entry>): bool {
    if js == [] then false
    else if js[|js| - 1].event.RollbackStarted? then true
    else if js[|js| - 1].event.Started? then false
    else RollbackSince(js[..|js| - 1])
  }

  // What a run must not do. Each of these can be checked before the step is taken.

  /** What the completed states claim of the target still holds: a whole copy is protected, and
      a verified one is there. */
  ghost predicate TargetSound(c: Config, completed: seq<State>, w: World) {
    && (Copy in completed && c.data <= w.copied ==> w.copied <= w.tgtPin + w.tgtUse)
    && (Verify in completed ==> c.data <= w.copied)
  }

  /** The source runs, nothing queued can stop it, and FINALIZE will not delete it. */
  ghost predicate SourceSettled(c: Config, w: World) {
    !c.policy.Delete? && !w.unsettled && c.data <= w.src && c.data <= w.srcUse
  }

  /** A run is resumed after a rollback only if FINALIZE has nothing left to do, or the target
      is as the journal says, or the source needs no protection. */
  ghost predicate SoundResume(c: Config, s: Sys, t: Sys) {
    s.phase.Idle? && t.phase.Walking? && RollbackSince(s.js) ==>
      Finalize in CompletedStates(s.js) || TargetSound(c, CompletedStates(s.js), s.w) || SourceSettled(c, s.w)
  }

  /** No data is pruned on the source between the guard's look and its pin. */
  ghost predicate NoPruneDuringLook(c: Config, s: Sys, t: Sys) {
    s.phase.Looked? ==> c.data * s.w.src <= t.w.src
  }

  /** The restart of a rollback finds the source's volumes pinned, or makes the guard pin them, or
      has nothing to restart. */
  ghost predicate Protected(c: Config, s: Sys) {
    || SourceCopyUnproven(Details(s.js)) || RollbackRefused(Details(s.js))
    || !SourceWasStopped(CompletedStates(s.js), Details(s.js))
    || c.sources <= RestartedSinceStop(s.js)
    || c.data <= s.w.srcPin
  }

  /** After an unpin, a rollback is asked for only where it is protected. */
  ghost predicate ProtectedRollback(c: Config, s: Sys, t: Sys) {
    s.phase.Idle? && t.phase.Judging? && s.unpinned ==> Protected(c, s)
  }

  /** Every restart that Coolify took is recorded: no answer is lost, and no process dies
      between the answer and the record. */
  ghost predicate NoLostRestart(s: Sys, t: Sys) {
    s.pending.Some? && t.pending.None? ==> t.js == s.js + [RestartNote(s.pending.value)]
  }

  /** Nothing is resumed once any rollback has begun. */
  ghost predicate NoResumeAfterRollback(s: Sys, t: Sys) {
    s.phase.Idle? && t.phase.Walking? ==> !RollbackBegan(s.js)
  }

  ghost predicate Disciplined(c: Config, s: Sys, t: Sys) {
    SoundResume(c, s, t) && NoPruneDuringLook(c, s, t) && ProtectedRollback(c, s, t)
  }

  ghost predicate DisciplinedRun(c: Config, trace: seq<Sys>) {
    Run(c, trace) && forall i :: 0 <= i < |trace| - 1 ==> DisciplinedAt(c, trace, i)
  }

  ghost predicate DisciplinedAt(c: Config, trace: seq<Sys>, i: int) {
    0 <= i < |trace| - 1 && Disciplined(c, trace[i], trace[i + 1])
  }
}
