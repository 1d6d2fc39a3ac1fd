/** What holds in every state a migration can reach. */
module ProtocolSafety {
  import opened Journal
  import opened Migration
  import opened Protocol
  import opened Restarts
  import opened StateMachine
  import opened Wrappers

  // ── what the journal says, at a glance ─────────────────────────────────────

  datatype Facts = Facts(completed: seq<State>, inFlight: Option<State>, policy: Option<Value>, stop: bool,
                         began: bool, restarted: set<string>, restartOk: bool, finished: bool, undone: bool)

  function FactsOf(js: seq<Entry>): Facts {
    Facts(CompletedStates(js), InFlightState(js), Mark(Details(js), Finalize, PolicyKey), StopWasRequested(Details(js)),
          RollbackBegan(js), RestartedSinceStop(js), RestartSucceeded(js), IsFinished(js), RollbackSince(js))
  }

  /** How one more record changes them. */
  function Told(f: Facts, e: Entry): Facts {
    Facts(
      if e.event.StepCompleted? && e.state.Some? then f.completed + [e.state.value] else f.completed,
      if e.event.StepStarted? && e.state.Some? then e.state
      else if Ends(e.event) && e.state == f.inFlight then None
      else f.inFlight,
      if Records(e, Finalize, PolicyKey) then Some(e.detail[PolicyKey]) else f.policy,
      if Records(e, Quiesce, StopRequested) then e.detail[StopRequested] == Flag(true) else f.stop,
      f.began || e.event.RollbackStarted?,
      if StopsSource(e) then {} else if RestartOf(e).Some? then f.restarted + {RestartOf(e).value} else f.restarted,
      if e.event.RollbackStarted? then false
      else if e.event.RollbackStepped? && CompensationKey in e.detail && e.detail[CompensationKey] == Action(RestartSource)
              && Ok in e.detail
      then e.detail[Ok] == Flag(true)
      else f.restartOk,
      e.event.Finished? || e.event.RolledBack?,
      e.event.RollbackStarted? || (!e.event.Started? && f.undone))
  }

  lemma {:induction false} BeganSnoc(js: seq<Entry>, e: Entry)
    ensures RollbackBegan(js + [e]) <==> RollbackBegan(js) || e.event.RollbackStarted?
  {
    var more := js + [e];
    if RollbackBegan(js) {
      var i :| 0 <= i < |js| && js[i].event.RollbackStarted?;
      assert more[i].event.RollbackStarted?;
    }
    if e.event.RollbackStarted? {
      assert more[|js|].event.RollbackStarted?;
    }
  }

  lemma {:induction false} FactsSnoc(js: seq<Entry>, e: Entry)
    ensures FactsOf(js + [e]) == Told(FactsOf(js), e)
  {
    var more := js + [e];
    assert more[..|more| - 1] == js;
    BeganSnoc(js, e);
    MarkSnoc(more, Finalize, PolicyKey);
    MarkSnoc(more, Quiesce, StopRequested);
  }

  // ── the invariants ─────────────────────────────────────────────────────────

  predicate Begun(f: Facts) {
    f.policy.Some?
  }

  predicate Unproven(f: Facts) {
    f.policy in {Some(PolicyIs(Keep)), Some(PolicyIs(Rename))}
  }

  predicate Stopped(f: Facts) {
    Quiesce in f.completed || f.stop
  }

  /** The states are completed in order, each once, and the process is where they say. */
  ghost predicate InOrder(f: Facts, s: Sys) {
    var k := |f.completed|;
    && k <= LAST && f.completed == ORDER[..k]
    && (s.phase.Walking? ==> s.phase.at <= k)
    && (s.phase.Inside? ==> s.phase.at == k < LAST)
    && f.inFlight == s.entered
    && (s.phase.Inside? ==> s.entered == Some(ORDER[k]))
    && (s.entered.Some? ==> k < LAST && s.entered == Some(ORDER[k]))
  }

  ghost predicate Marked(c: Config, f: Facts, s: Sys) {
    && (Begun(f) ==> f.policy == Some(PolicyIs(c.policy)) && 8 <= |f.completed|)
    && (s.phase.Inside? && s.phase.at == 11 && s.phase.stage > 0 ==> Begun(f))
    && (s.phase.Inside? && s.phase.at == 4 && s.phase.stage > 1 ==> f.stop)
    && (Quiesce in f.completed ==> f.stop)
    && (f.stop ==> 4 <= |f.completed|)
    && (|f.completed| == LAST ==> Begun(f))
  }

  /** The source's data is there, and something keeps it: a pin, once a stop may land. */
  ghost predicate SourceKept(c: Config, w: World) {
    && c.data <= w.src && c.data <= w.srcPin + w.srcUse
    && (w.unsettled ==> c.data <= w.srcPin)
  }

  /** A whole copy is protected from COPY on, and there once it was verified. */
  ghost predicate TargetKept(c: Config, f: Facts, s: Sys) {
    && ((s.phase.Inside? && s.phase.at == 6 && s.phase.stage > 0) || (7 <= |f.completed| && c.data <= s.w.copied) ==>
          s.w.copied <= s.w.tgtPin + s.w.tgtUse)
    && (8 <= |f.completed| ==> c.data <= s.w.copied)
  }

  /** Or, in a run resumed after a rollback, the source does without it to the end. */
  ghost predicate TargetOrSource(c: Config, f: Facts, s: Sys) {
    || TargetKept(c, f, s)
    || (f.began && 7 <= |f.completed| && SourceSettled(c, s.w))
    || (f.began && |f.completed| == LAST && SourceKept(c, s.w))
  }

  ghost predicate Running(c: Config, f: Facts, s: Sys) {
    !f.undone ==>
      && (!Begun(f) ==> SourceKept(c, s.w))
      && TargetOrSource(c, f, s)
      && (s.phase.Inside? && s.phase.at == 4 && s.phase.stage > 0 ==> c.data <= s.w.srcPin)
      && !s.phase.Undoing?
  }

  ghost predicate RollingBack(c: Config, f: Facts, s: Sys) {
    f.undone ==>
      && f.began && SourceKept(c, s.w)
      && f.policy != Some(PolicyIs(Delete))
      && !s.phase.Walking? && !s.phase.Inside?
      && (f.restartOk ==> c.sources <= f.restarted)
  }

  /** A restart finds the source's volumes pinned, or nothing to restart. */
  ghost predicate Pinned(c: Config, f: Facts, w: World) {
    c.data <= w.srcPin || c.sources <= f.restarted || !Stopped(f)
  }

  /** Only an unpin leaves it otherwise, and then nothing goes on before a guard has pinned. */
  ghost predicate PinnedUntilUnpinned(c: Config, f: Facts, s: Sys) {
    (!Begun(f) || f.undone) ==>
      || Pinned(c, f, s.w)
      || (s.unpinned && s.phase.Idle? && f.finished)
      || (s.unpinned && Begun(f) && (s.phase.Idle? || s.phase.Judging? || s.phase.Looked?))
  }

  ghost predicate Guarded(c: Config, f: Facts, s: Sys) {
    && s.w.copied <= c.data
    && (s.phase.Looked? ==> Unproven(f) && c.data <= s.w.src)
    && (s.phase.Cleared? ==> f.policy != Some(PolicyIs(Delete)) && (Unproven(f) ==> c.data <= s.w.src * s.w.srcPin))
    && (s.phase.Undoing? ==> (exists i :: 0 <= i < |s.phase.plan| && s.phase.plan[i].compensation.RestartSource?) ==> Stopped(f))
  }

  ghost predicate InvOf(c: Config, f: Facts, s: Sys) {
    && InOrder(f, s) && Marked(c, f, s) && Running(c, f, s) && RollingBack(c, f, s) && PinnedUntilUnpinned(c, f, s)
    && Guarded(c, f, s)
  }

  ghost predicate Inv(c: Config, s: Sys) {
    InvOf(c, FactsOf(s.js), s)
  }

  lemma {:induction false} InvInit(c: Config, s: Sys)
    requires Initial(c, s)
    ensures Inv(c, s)
  {
    assert FactsOf([]) == Facts([], None, None, false, false, {}, false, false, false);
  }

  // ── every step keeps them ──────────────────────────────────────────────────

  ghost predicate Extends(a: seq<Entry>, b: seq<Entry>) {
    a == b || (|b| == |a| + 1 && b[..|a|] == a)
  }

  /** The facts of the next state, from those of this one and the record written, if any. */
  ghost predicate Follows(s: Sys, t: Sys, f: Facts, g: Facts) {
    if t.js == s.js then g == f else |s.js| < |t.js| && t.js == s.js + [t.js[|s.js|]] && g == Told(f, t.js[|s.js|])
  }

  lemma {:induction false} FactsFollow(s: Sys, t: Sys)
    requires Extends(s.js, t.js)
    ensures Follows(s, t, FactsOf(s.js), FactsOf(t.js))
  {
    if t.js != s.js {
      assert t.js == s.js + [t.js[|s.js|]];
      FactsSnoc(s.js, t.js[|s.js|]);
    }
  }

  lemma {:induction false} RunWritesOne(c: Config, s: Sys, t: Sys)
    requires RunNext(c, s, t) || WorldNext(s, t)
    ensures Extends(s.js, t.js)
  {
  }

  lemma {:induction false} RollbackWritesOne(c: Config, s: Sys, t: Sys)
    requires RollbackNext(c, s, t)
    ensures Extends(s.js, t.js)
  {
  }

  lemma {:induction false} WritesOne(c: Config, s: Sys, t: Sys)
    requires Next(c, s, t)
    ensures Extends(s.js, t.js)
  {
    if RollbackNext(c, s, t) {
      RollbackWritesOne(c, s, t);
    } else {
      RunWritesOne(c, s, t);
    }
  }

  lemma {:induction false} WalkKeeps(c: Config, s: Sys, t: Sys, f: Facts, g: Facts)
    requires InvOf(c, f, s) && f == FactsOf(s.js) && Follows(s, t, f, g) && Disciplined(c, s, t)
    requires Begins(s, t) || Skips(s, t) || Enters(s, t) || Finishes(s, t)
    ensures InvOf(c, g, t)
  {
    if s.phase.Walking? && s.phase.at == |f.completed| < LAST {
      NotYet(|f.completed|);
    }
    if Begins(s, t) {
      BeginKeeps(c, s, t, f, g);
    }
  }

  lemma {:induction false} BeginKeeps(c: Config, s: Sys, t: Sys, f: Facts, g: Facts)
    requires InvOf(c, f, s) && f == FactsOf(s.js) && Follows(s, t, f, g) && SoundResume(c, s, t) && Begins(s, t)
    ensures InvOf(c, g, t)
  {
    var k := |f.completed|;
    if k < LAST {
      NotBefore(k, 11);
    }
    if 7 <= k {
      assert f.completed[6] == Copy;
    }
    if 8 <= k {
      assert f.completed[7] == Verify;
    }
  }

  lemma {:induction false} NotBefore(k: nat, i: nat)
    requires k <= i <= LAST
    ensures ORDER[i] !in ORDER[..k]
  {
  }

  lemma {:induction false} NotYet(k: nat)
    requires k < LAST
    ensures ORDER[k] !in ORDER[..k]
  {
  }

  lemma {:induction false} NoteKeeps(c: Config, s: Sys, t: Sys, f: Facts, g: Facts, detail: Detail)
    requires InvOf(c, f, s) && Follows(s, t, f, g) && Notes(s, t, detail)
    ensures InvOf(c, g, t)
  {
  }

  lemma {:induction false} CompleteKeeps(c: Config, s: Sys, t: Sys, f: Facts, g: Facts, detail: Detail)
    requires InvOf(c, f, s) && Follows(s, t, f, g) && Completes(c, s, t, detail)
    ensures InvOf(c, g, t)
  {
    assert ORDER[..s.phase.at] + [ORDER[s.phase.at]] == ORDER[..s.phase.at + 1];
  }

  lemma {:induction false} EndKeeps(c: Config, s: Sys, t: Sys, f: Facts, g: Facts)
    requires InvOf(c, f, s) && Follows(s, t, f, g)
    requires Blocks(s, t) || Fails(s, t) || Crashes(s, t)
    ensures InvOf(c, g, t)
  {
  }

  lemma {:induction false} ActKeeps(c: Config, s: Sys, t: Sys, f: Facts, g: Facts)
    requires InvOf(c, f, s) && Follows(s, t, f, g)
    requires QuiesceActs(s, t) || CopyActs(c, s, t) || FinalizeActs(c, s, t)
    ensures InvOf(c, g, t)
  {
  }

  lemma {:induction false} GuardKeeps(c: Config, s: Sys, t: Sys, f: Facts, g: Facts)
    requires InvOf(c, f, s) && f == FactsOf(s.js) && Follows(s, t, f, g) && Disciplined(c, s, t)
    requires AsksRollback(s, t) || Refuses(s, t) || Passes(s, t) || Looks(c, s, t) || Repins(c, s, t)
    ensures InvOf(c, g, t)
  {
    if AsksRollback(s, t) {
      AskKeeps(c, s, t, f);
    } else if Passes(s, t) {
      PassKeeps(c, s, t, f);
    } else {
      LookKeeps(c, s, t, f, g);
    }
  }

  lemma {:induction false} PassKeeps(c: Config, s: Sys, t: Sys, f: Facts)
    requires InvOf(c, f, s) && f == FactsOf(s.js) && Passes(s, t)
    ensures InvOf(c, f, t)
  {
    assert c.policy.Keep? || c.policy.Rename? || c.policy.Delete?;
    assert !Begun(f);
  }

  lemma {:induction false} LookKeeps(c: Config, s: Sys, t: Sys, f: Facts, g: Facts)
    requires InvOf(c, f, s) && f == FactsOf(s.js) && Follows(s, t, f, g) && NoPruneDuringLook(c, s, t)
    requires Refuses(s, t) || Looks(c, s, t) || Repins(c, s, t)
    ensures InvOf(c, g, t)
  {
  }

  lemma {:induction false} AskKeeps(c: Config, s: Sys, t: Sys, f: Facts)
    requires InvOf(c, f, s) && f == FactsOf(s.js) && AsksRollback(s, t) && ProtectedRollback(c, s, t)
    ensures InvOf(c, f, t)
  {
    if s.unpinned && !Pinned(c, f, s.w) {
      assert SourceCopyUnproven(Details(s.js)) || RollbackRefused(Details(s.js));
    }
  }

  lemma {:induction false} TimesCounts(plan: seq<Step>, comp: Compensation, i: nat)
    requires i < |plan| && plan[i].compensation == comp
    ensures Times(plan, comp) > 0
  {
    if i > 0 {
      TimesCounts(plan[1..], comp, i - 1);
    }
  }

  lemma {:induction false} RestartMeansStopped(js: seq<Entry>, explicit: bool, i: nat)
    requires var plan := MigrationPlan(OwedFrom(js, explicit));
             i < |plan| && plan[i].compensation.RestartSource?
    ensures Stopped(FactsOf(js))
  {
    RestartIsPlannedOnce(js, explicit);
    TimesCounts(MigrationPlan(OwedFrom(js, explicit)), RestartSource, i);
  }

  lemma {:induction false} PlanKeeps(c: Config, s: Sys, t: Sys, f: Facts, g: Facts)
    requires InvOf(c, f, s) && f == FactsOf(s.js) && Follows(s, t, f, g) && Plans(s, t)
    ensures InvOf(c, g, t)
  {
    if t.phase.Undoing? {
      forall i | 0 <= i < |t.phase.plan| && t.phase.plan[i].compensation.RestartSource? ensures Stopped(f) {
        RestartMeansStopped(s.js, s.phase.explicit, i);
      }
      PlanStarted(c, s, t, f, g);
    }
  }

  lemma {:induction false} PlanStarted(c: Config, s: Sys, t: Sys, f: Facts, g: Facts)
    requires InvOf(c, f, s) && g == Told(f, Entry(RollbackStarted, None, map[]))
    requires s.phase.Cleared? && t.phase.Undoing? && t == s.(js := t.js, phase := t.phase)
    requires (exists i :: 0 <= i < |t.phase.plan| && t.phase.plan[i].compensation.RestartSource?) ==> Stopped(f)
    ensures InvOf(c, g, t)
  {
    if Begun(f) {
      assert c.policy.Keep? || c.policy.Rename?;
      assert Unproven(f);
      assert c.data <= s.w.src && c.data <= s.w.srcPin;
    }
  }

  lemma {:induction false} RestartKeeps(c: Config, s: Sys, t: Sys, f: Facts, g: Facts)
    requires InvOf(c, f, s) && f == FactsOf(s.js) && Follows(s, t, f, g)
    requires UndoActs(c, s, t) && s.phase.plan[0].compensation.RestartSource?
    ensures InvOf(c, g, t)
  {
  }

  lemma {:induction false} UndoKeeps(c: Config, s: Sys, t: Sys, f: Facts, g: Facts)
    requires InvOf(c, f, s) && f == FactsOf(s.js) && Follows(s, t, f, g)
    requires UndoActs(c, s, t) || UndoEnds(s, t)
    ensures InvOf(c, g, t)
  {
    if UndoEnds(s, t) {
    } else if s.phase.plan[0].compensation.RestartSource? {
      RestartKeeps(c, s, t, f, g);
    } else {
      OtherKeeps(c, s, t, f, g);
    }
  }

  lemma {:induction false} OtherKeeps(c: Config, s: Sys, t: Sys, f: Facts, g: Facts)
    requires InvOf(c, f, s) && f == FactsOf(s.js) && Follows(s, t, f, g)
    requires UndoActs(c, s, t) && !s.phase.plan[0].compensation.RestartSource?
    ensures InvOf(c, g, t)
  {
  }

  lemma {:induction false} RecordKeeps(c: Config, s: Sys, t: Sys, f: Facts, g: Facts, ok: bool)
    requires InvOf(c, f, s) && f == FactsOf(s.js) && Follows(s, t, f, g) && UndoRecords(c, s, t, ok)
    ensures InvOf(c, g, t)
  {
  }

  lemma {:induction false} UnpinKeeps(c: Config, s: Sys, t: Sys, f: Facts)
    requires InvOf(c, f, s) && f == FactsOf(s.js) && Unpins(s, t)
    ensures InvOf(c, f, t)
  {
  }

  lemma {:induction false} WorldKeeps(c: Config, s: Sys, t: Sys, f: Facts)
    requires InvOf(c, f, s) && Disciplined(c, s, t) && WorldNext(s, t)
    ensures InvOf(c, f, t)
  {
  }

  lemma {:induction false} RunStepKeeps(c: Config, s: Sys, t: Sys, f: Facts, g: Facts)
    requires InvOf(c, f, s) && f == FactsOf(s.js) && Follows(s, t, f, g) && RunNext(c, s, t) && Disciplined(c, s, t)
    ensures InvOf(c, g, t)
  {
    if Begins(s, t) || Skips(s, t) || Enters(s, t) || Finishes(s, t) {
      WalkKeeps(c, s, t, f, g);
    } else if detail :| Notes(s, t, detail) {
      NoteKeeps(c, s, t, f, g, detail);
    } else if detail :| Completes(c, s, t, detail) {
      CompleteKeeps(c, s, t, f, g, detail);
    } else if Blocks(s, t) || Fails(s, t) || Crashes(s, t) {
      EndKeeps(c, s, t, f, g);
    } else {
      ActKeeps(c, s, t, f, g);
    }
  }

  lemma {:induction false} RollbackStepKeeps(c: Config, s: Sys, t: Sys, f: Facts, g: Facts)
    requires InvOf(c, f, s) && f == FactsOf(s.js) && Follows(s, t, f, g) && RollbackNext(c, s, t) && !Unpins(s, t) && Disciplined(c, s, t)
    ensures InvOf(c, g, t)
  {
    if AsksRollback(s, t) || Refuses(s, t) || Passes(s, t) || Looks(c, s, t) || Repins(c, s, t) {
      GuardKeeps(c, s, t, f, g);
    } else if Plans(s, t) {
      PlanKeeps(c, s, t, f, g);
    } else if ok :| UndoRecords(c, s, t, ok) {
      RecordKeeps(c, s, t, f, g, ok);
    } else {
      UndoKeeps(c, s, t, f, g);
    }
  }

  lemma {:induction false} StepKeeps(c: Config, s: Sys, t: Sys)
    requires Inv(c, s) && Next(c, s, t) && Disciplined(c, s, t)
    ensures Inv(c, t)
  {
    WritesOne(c, s, t);
    FactsFollow(s, t);
    FollowingKeeps(c, s, t, FactsOf(s.js), FactsOf(t.js));
  }

  lemma {:induction false} FollowingKeeps(c: Config, s: Sys, t: Sys, f: Facts, g: Facts)
    requires InvOf(c, f, s) && f == FactsOf(s.js) && Follows(s, t, f, g) && Next(c, s, t) && Disciplined(c, s, t)
    ensures InvOf(c, g, t)
  {
    if RunNext(c, s, t) {
      RunStepKeeps(c, s, t, f, g);
    } else if WorldNext(s, t) {
      WorldKeeps(c, s, t, f);
    } else if Unpins(s, t) {
      UnpinKeeps(c, s, t, f);
    } else {
      RollbackStepKeeps(c, s, t, f, g);
    }
  }

  lemma {:induction false} InvAlways(c: Config, trace: seq<Sys>, i: nat)
    requires DisciplinedRun(c, trace) && i < |trace|
    ensures Inv(c, trace[i])
  {
    if i == 0 {
      InvInit(c, trace[0]);
    } else {
      InvAlways(c, trace, i - 1);
      assert NextAt(c, trace, i - 1) && DisciplinedAt(c, trace, i - 1);
      StepKeeps(c, trace[i - 1], trace[i]);
    }
  }

  // ── what that means ────────────────────────────────────────────────────────

  /** FINALIZE has recorded its policy: from here on it may touch the source. */
  ghost predicate FinalizeBegan(js: seq<Entry>) {
    Mark(Details(js), Finalize, PolicyKey).Some?
  }

  /** Until FINALIZE begins, and again once a rollback has, the source holds its data; in between
      the verified copy on the target does. Only in a run resumed after a rollback, with FINALIZE
      begun, may it be either of them. */
  ghost predicate DataIsSafe(c: Config, s: Sys) {
    if FinalizeBegan(s.js) && !RollbackSince(s.js) then
      || (Verify in CompletedStates(s.js) && c.data <= s.w.copied)
      || (RollbackBegan(s.js) && c.data <= s.w.src)
    else c.data <= s.w.src
  }

  /** No compensation runs - none can stop the target, drop its volumes or delete it - after
      FINALIZE(delete) began, or while the source lacks any of its data. */
  ghost predicate UndoneOnlySafely(c: Config, s: Sys) {
    s.phase.Undoing? ==> c.data <= s.w.src && !RollbackRefused(Details(s.js))
  }

  /** In every state of every run - any mix of crashes, blocks, failures, resumes, rollbacks
      cut short and repeated, stops landing late, prunes at any moment - the data is safe. */
  lemma {:induction false} DataIsAlwaysSafe(c: Config, trace: seq<Sys>, i: nat)
    requires DisciplinedRun(c, trace) && i < |trace|
    ensures DataIsSafe(c, trace[i])
    ensures UndoneOnlySafely(c, trace[i])
  {
    InvAlways(c, trace, i);
    var f := FactsOf(trace[i].js);
    if Begun(f) {
      assert ORDER[..|f.completed|][7] == Verify;
    }
  }

  // ── order, in every run whatever ───────────────────────────────────────────

  lemma {:induction false} OrderCompletes(c: Config, s: Sys, t: Sys, f: Facts, g: Facts, detail: Detail)
    requires InOrder(f, s) && Follows(s, t, f, g) && Completes(c, s, t, detail)
    ensures InOrder(g, t)
  {
    assert ORDER[..s.phase.at] + [ORDER[s.phase.at]] == ORDER[..s.phase.at + 1];
  }

  lemma {:induction false} OrderWalks(c: Config, s: Sys, t: Sys, f: Facts, g: Facts)
    requires InOrder(f, s) && Follows(s, t, f, g) && CompletedStates(s.js) == f.completed
    requires Begins(s, t) || Skips(s, t) || Enters(s, t) || Finishes(s, t) || Blocks(s, t) || Fails(s, t)
    ensures InOrder(g, t)
  {
    if Skips(s, t) && s.phase.at == |f.completed| {
      NotYet(|f.completed|);
    }
  }

  lemma {:induction false} OrderActs(c: Config, s: Sys, t: Sys, f: Facts, g: Facts)
    requires InOrder(f, s) && Follows(s, t, f, g)
    requires Crashes(s, t) || QuiesceActs(s, t) || CopyActs(c, s, t) || FinalizeActs(c, s, t) || exists detail :: Notes(s, t, detail)
    ensures InOrder(g, t)
  {
  }

  lemma {:induction false} OrderUndoes(c: Config, s: Sys, t: Sys, f: Facts, g: Facts)
    requires InOrder(f, s) && Follows(s, t, f, g)
    requires UndoActs(c, s, t) || UndoEnds(s, t) || Unpins(s, t) || exists ok :: UndoRecords(c, s, t, ok)
    ensures InOrder(g, t)
  {
  }

  lemma {:induction false} OrderRollsBack(c: Config, s: Sys, t: Sys, f: Facts, g: Facts)
    requires InOrder(f, s) && Follows(s, t, f, g) && RollbackNext(c, s, t)
    ensures InOrder(g, t)
  {
    if UndoActs(c, s, t) || UndoEnds(s, t) || Unpins(s, t) || exists ok :: UndoRecords(c, s, t, ok) {
      OrderUndoes(c, s, t, f, g);
    } else if Plans(s, t) {
      assert g.completed == f.completed && g.inFlight == f.inFlight;
    }
  }

  lemma {:induction false} OrderSteps(c: Config, s: Sys, t: Sys, f: Facts, g: Facts)
    requires InOrder(f, s) && Follows(s, t, f, g) && CompletedStates(s.js) == f.completed && Next(c, s, t)
    ensures InOrder(g, t)
  {
    if RollbackNext(c, s, t) {
      OrderRollsBack(c, s, t, f, g);
    } else if RunNext(c, s, t) {
      if detail :| Completes(c, s, t, detail) {
        OrderCompletes(c, s, t, f, g, detail);
      } else if Begins(s, t) || Skips(s, t) || Enters(s, t) || Finishes(s, t) || Blocks(s, t) || Fails(s, t) {
        OrderWalks(c, s, t, f, g);
      } else {
        OrderActs(c, s, t, f, g);
      }
    }
  }

  lemma {:induction false} InOrderStep(c: Config, s: Sys, t: Sys)
    requires InOrder(FactsOf(s.js), s) && Next(c, s, t)
    ensures InOrder(FactsOf(t.js), t)
  {
    WritesOne(c, s, t);
    FactsFollow(s, t);
    OrderSteps(c, s, t, FactsOf(s.js), FactsOf(t.js));
  }

  lemma {:induction false} InOrderAt(c: Config, trace: seq<Sys>, i: nat)
    requires Run(c, trace) && i + 1 < |trace| && InOrder(FactsOf(trace[i].js), trace[i])
    ensures InOrder(FactsOf(trace[i + 1].js), trace[i + 1])
  {
    assert NextAt(c, trace, i);
    InOrderStep(c, trace[i], trace[i + 1]);
  }

  lemma {:induction false} InOrderAlways(c: Config, trace: seq<Sys>, i: nat)
    requires Run(c, trace) && i < |trace|
    ensures InOrder(FactsOf(trace[i].js), trace[i])
  {
    if i == 0 {
      assert FactsOf([]) == Facts([], None, None, false, false, {}, false, false, false);
    } else {
      InOrderAlways(c, trace, i - 1);
      InOrderAt(c, trace, i - 1);
    }
  }

  /** The completed states are always the first so many of the order, each once; and the
      state in flight is the one a run went into and no run has come out of. */
  lemma {:induction false} CompletedIsAPrefix(c: Config, trace: seq<Sys>, i: nat)
    requires Run(c, trace) && i < |trace|
    ensures InOrder(FactsOf(trace[i].js), trace[i])
    ensures CompletedStates(trace[i].js) <= ORDER && InFlightState(trace[i].js) == trace[i].entered
  {
    InOrderAlways(c, trace, i);
  }

  // ── what is marked, in every run whatever ──────────────────────────────────

  lemma {:induction false} MarkedWalks(c: Config, s: Sys, t: Sys, f: Facts, g: Facts)
    requires InOrder(f, s) && Marked(c, f, s) && Follows(s, t, f, g)
    requires Begins(s, t) || Skips(s, t) || Enters(s, t) || Finishes(s, t) || Blocks(s, t) || Fails(s, t) || Crashes(s, t)
    ensures Marked(c, g, t)
  {
  }

  lemma {:induction false} MarkedActs(c: Config, s: Sys, t: Sys, f: Facts, g: Facts)
    requires InOrder(f, s) && Marked(c, f, s) && Follows(s, t, f, g)
    requires QuiesceActs(s, t) || CopyActs(c, s, t) || FinalizeActs(c, s, t) || exists detail :: Notes(s, t, detail)
    ensures Marked(c, g, t)
  {
  }

  lemma {:induction false} MarkedCompletes(c: Config, s: Sys, t: Sys, f: Facts, g: Facts, detail: Detail)
    requires InOrder(f, s) && Marked(c, f, s) && Follows(s, t, f, g) && Completes(c, s, t, detail)
    ensures Marked(c, g, t)
  {
  }

  lemma {:induction false} MarkedUndoes(c: Config, s: Sys, t: Sys, f: Facts, g: Facts)
    requires Marked(c, f, s) && Follows(s, t, f, g)
    requires UndoActs(c, s, t) || UndoEnds(s, t) || Unpins(s, t) || exists ok :: UndoRecords(c, s, t, ok)
    ensures Marked(c, g, t)
  {
  }

  lemma {:induction false} MarkedGuards(c: Config, s: Sys, t: Sys, f: Facts, g: Facts)
    requires Marked(c, f, s) && Follows(s, t, f, g)
    requires AsksRollback(s, t) || Refuses(s, t) || Passes(s, t) || Looks(c, s, t) || Repins(c, s, t) || Plans(s, t)
    ensures Marked(c, g, t)
  {
  }

  lemma {:induction false} MarkedSteps(c: Config, s: Sys, t: Sys, f: Facts, g: Facts)
    requires InOrder(f, s) && Marked(c, f, s) && Follows(s, t, f, g) && Next(c, s, t)
    ensures Marked(c, g, t)
  {
    if WorldNext(s, t) {
    } else if RollbackNext(c, s, t) {
      if UndoActs(c, s, t) || UndoEnds(s, t) || Unpins(s, t) || exists ok :: UndoRecords(c, s, t, ok) {
        MarkedUndoes(c, s, t, f, g);
      } else {
        MarkedGuards(c, s, t, f, g);
      }
    } else if detail :| Completes(c, s, t, detail) {
      MarkedCompletes(c, s, t, f, g, detail);
    } else if QuiesceActs(s, t) || CopyActs(c, s, t) || FinalizeActs(c, s, t) || exists detail :: Notes(s, t, detail) {
      MarkedActs(c, s, t, f, g);
    } else {
      MarkedWalks(c, s, t, f, g);
    }
  }

  lemma {:induction false} MarkedStep(c: Config, s: Sys, t: Sys)
    requires InOrder(FactsOf(s.js), s) && Marked(c, FactsOf(s.js), s) && Next(c, s, t)
    ensures Marked(c, FactsOf(t.js), t)
  {
    WritesOne(c, s, t);
    FactsFollow(s, t);
    MarkedSteps(c, s, t, FactsOf(s.js), FactsOf(t.js));
  }

  lemma {:induction false} MarkedAt(c: Config, trace: seq<Sys>, i: nat)
    requires Run(c, trace) && i + 1 < |trace| && Marked(c, FactsOf(trace[i].js), trace[i])
    ensures Marked(c, FactsOf(trace[i + 1].js), trace[i + 1])
  {
    InOrderAlways(c, trace, i);
    assert NextAt(c, trace, i);
    MarkedStep(c, trace[i], trace[i + 1]);
  }

  /** In every run FINALIZE records its policy after the copy was verified, before it acts, and
      never another one; QUIESCE records its stop before it asks for it. */
  lemma {:induction false} MarkedAlways(c: Config, trace: seq<Sys>, i: nat)
    requires Run(c, trace) && i < |trace|
    ensures Marked(c, FactsOf(trace[i].js), trace[i])
  {
    if i == 0 {
      assert FactsOf([]) == Facts([], None, None, false, false, {}, false, false, false);
    } else {
      MarkedAlways(c, trace, i - 1);
      MarkedAt(c, trace, i - 1);
    }
  }

  /** Once a rollback has begun no state is entered any more, and before it none is undone. */
  ghost predicate Stops(f: Facts, s: Sys) {
    if f.began then !s.phase.Walking? && !s.phase.Inside? else !s.phase.Undoing?
  }

  lemma {:induction false} StopsWalks(c: Config, s: Sys, t: Sys, f: Facts, g: Facts)
    requires Stops(f, s) && Follows(s, t, f, g) && NoResumeAfterRollback(s, t) && f == FactsOf(s.js)
    requires Begins(s, t) || Skips(s, t) || Enters(s, t) || Finishes(s, t) || Blocks(s, t) || Fails(s, t) || Crashes(s, t)
    ensures Stops(g, t)
  {
  }

  lemma {:induction false} StopsActs(c: Config, s: Sys, t: Sys, f: Facts, g: Facts)
    requires Stops(f, s) && Follows(s, t, f, g)
    requires QuiesceActs(s, t) || CopyActs(c, s, t) || FinalizeActs(c, s, t)
             || (exists detail :: Notes(s, t, detail)) || exists detail :: Completes(c, s, t, detail)
    ensures Stops(g, t)
  {
  }

  lemma {:induction false} StopsUndoes(c: Config, s: Sys, t: Sys, f: Facts, g: Facts)
    requires Stops(f, s) && Follows(s, t, f, g)
    requires UndoActs(c, s, t) || UndoEnds(s, t) || Unpins(s, t) || exists ok :: UndoRecords(c, s, t, ok)
    ensures Stops(g, t)
  {
  }

  lemma {:induction false} StopsGuards(c: Config, s: Sys, t: Sys, f: Facts, g: Facts)
    requires Stops(f, s) && Follows(s, t, f, g)
    requires AsksRollback(s, t) || Refuses(s, t) || Passes(s, t) || Looks(c, s, t) || Repins(c, s, t) || Plans(s, t)
    ensures Stops(g, t)
  {
  }

  lemma {:induction false} StopsSteps(c: Config, s: Sys, t: Sys, f: Facts, g: Facts)
    requires Stops(f, s) && Follows(s, t, f, g) && Next(c, s, t) && NoResumeAfterRollback(s, t) && f == FactsOf(s.js)
    ensures Stops(g, t)
  {
    if WorldNext(s, t) {
    } else if RollbackNext(c, s, t) {
      if UndoActs(c, s, t) || UndoEnds(s, t) || Unpins(s, t) || exists ok :: UndoRecords(c, s, t, ok) {
        StopsUndoes(c, s, t, f, g);
      } else {
        StopsGuards(c, s, t, f, g);
      }
    } else if || Begins(s, t) || Skips(s, t) || Enters(s, t) || Finishes(s, t) || Blocks(s, t) || Fails(s, t)
              || Crashes(s, t) {
      StopsWalks(c, s, t, f, g);
    } else {
      StopsActs(c, s, t, f, g);
    }
  }

  /** A restart is pending only while it is being recorded, of a source not yet named. */
  ghost predicate PendingFits(c: Config, s: Sys) {
    s.pending.Some? ==>
      && s.phase.Undoing? && s.phase.plan != [] && s.phase.plan[0].compensation.RestartSource?
      && s.pending.value in c.sources - RestartedSinceStop(s.js)
  }

  lemma {:induction false} PendingRuns(c: Config, s: Sys, t: Sys)
    requires PendingFits(c, s) && (RunNext(c, s, t) || WorldNext(s, t))
    ensures PendingFits(c, t)
  {
  }

  lemma {:induction false} PendingSteps(c: Config, s: Sys, t: Sys)
    requires PendingFits(c, s) && Next(c, s, t)
    ensures PendingFits(c, t)
  {
    if RollbackNext(c, s, t) {
    } else {
      PendingRuns(c, s, t);
    }
  }

  lemma {:induction false} PendingAlways(c: Config, trace: seq<Sys>, i: nat)
    requires Run(c, trace) && i < |trace|
    ensures PendingFits(c, trace[i])
  {
    if i > 0 {
      PendingAlways(c, trace, i - 1);
      assert NextAt(c, trace, i - 1);
      PendingSteps(c, trace[i - 1], trace[i]);
    }
  }

  /** The only record of a restart is the one made right after it. */
  lemma {:induction false} OnceUndoes(c: Config, s: Sys, t: Sys)
    requires OncePerStop(s.js) && PendingFits(c, s) && (UndoActs(c, s, t) || exists ok :: UndoRecords(c, s, t, ok))
    ensures OncePerStop(t.js)
  {
    if t.js != s.js {
      StillOnce(s.js, t.js[|s.js|]);
    }
  }

  lemma {:induction false} OnceOtherwise(s: Sys, t: Sys)
    requires OncePerStop(s.js) && Extends(s.js, t.js)
    requires t.js != s.js ==> !t.js[|s.js|].event.RollbackStepped?
    ensures OncePerStop(t.js)
  {
    if t.js != s.js {
      assert t.js == s.js + [t.js[|s.js|]];
      StillOnce(s.js, t.js[|s.js|]);
    }
  }

  lemma {:induction false} OnceSteps(c: Config, s: Sys, t: Sys)
    requires OncePerStop(s.js) && PendingFits(c, s) && Next(c, s, t)
    ensures OncePerStop(t.js)
  {
    WritesOne(c, s, t);
    if UndoActs(c, s, t) || exists ok :: UndoRecords(c, s, t, ok) {
      OnceUndoes(c, s, t);
    } else if RollbackNext(c, s, t) {
      OtherRollback(c, s, t);
      OnceOtherwise(s, t);
    } else {
      OtherRun(c, s, t);
      OnceOtherwise(s, t);
    }
  }

  lemma {:induction false} OtherRollback(c: Config, s: Sys, t: Sys)
    requires RollbackNext(c, s, t) && !UndoActs(c, s, t) && !exists ok :: UndoRecords(c, s, t, ok)
    ensures Extends(s.js, t.js) && (t.js != s.js ==> !t.js[|s.js|].event.RollbackStepped?)
  {
  }

  lemma {:induction false} OtherRun(c: Config, s: Sys, t: Sys)
    requires RunNext(c, s, t) || WorldNext(s, t)
    ensures Extends(s.js, t.js) && (t.js != s.js ==> !t.js[|s.js|].event.RollbackStepped?)
  {
  }

  /** Over any run, no source is recorded as restarted twice without a stop in between. */
  lemma {:induction false} NotedOncePerStop(c: Config, trace: seq<Sys>, i: nat)
    requires Run(c, trace) && i < |trace|
    ensures OncePerStop(trace[i].js)
  {
    if i > 0 {
      NotedOncePerStop(c, trace, i - 1);
      PendingAlways(c, trace, i - 1);
      assert NextAt(c, trace, i - 1);
      OnceSteps(c, trace[i - 1], trace[i]);
    }
  }

  // ── the restarts themselves ────────────────────────────────────────────────

  /** What Coolify took since the last stop request is what the journal says, and the one
      restart that is about to be recorded. */
  ghost predicate Accounted(s: Sys) {
    && Distinct(s.accepted)
    && (forall r :: r in s.accepted <==> r in RestartedSinceStop(s.js) || s.pending == Some(r))
    && (s.pending.Some? ==> s.pending.value !in RestartedSinceStop(s.js))
  }

  /** A record that neither asks for a stop nor tells of a restart. */
  predicate Unrelated(e: Entry) {
    !StopsSource(e) && RestartOf(e).None?
  }

  lemma {:induction false} UnrelatedTells(js: seq<Entry>, e: Entry)
    requires Unrelated(e)
    ensures RestartedSinceStop(js + [e]) == RestartedSinceStop(js)
  {
    assert (js + [e])[..|js|] == js;
  }

  /** A step that leaves the restarts alone. */
  ghost predicate Aside(s: Sys, t: Sys) {
    && t.accepted == s.accepted && t.pending == s.pending
    && (t.js == s.js || (|t.js| == |s.js| + 1 && t.js[..|s.js|] == s.js && Unrelated(t.js[|s.js|])))
  }

  lemma {:induction false} AsideKeeps(s: Sys, t: Sys)
    requires Accounted(s) && Aside(s, t)
    ensures Accounted(t)
  {
    if t.js != s.js {
      assert t.js == s.js + [t.js[|s.js|]];
      UnrelatedTells(s.js, t.js[|s.js|]);
    }
  }

  lemma {:induction false} ActsAside(c: Config, s: Sys, t: Sys)
    requires (QuiesceActs(s, t) && s.phase.stage != 1) || CopyActs(c, s, t) || FinalizeActs(c, s, t)
    ensures Aside(s, t)
  {
  }

  lemma {:induction false} WalksAside(c: Config, s: Sys, t: Sys)
    requires Begins(s, t) || Skips(s, t) || Enters(s, t) || Finishes(s, t) || Blocks(s, t) || Fails(s, t)
    ensures Aside(s, t)
  {
  }

  lemma {:induction false} RunIsAside(c: Config, s: Sys, t: Sys)
    requires RunNext(c, s, t) && !Crashes(s, t) && !(QuiesceActs(s, t) && s.phase.stage == 1)
    ensures Aside(s, t)
  {
    if QuiesceActs(s, t) || CopyActs(c, s, t) || FinalizeActs(c, s, t) {
      ActsAside(c, s, t);
    } else if Begins(s, t) || Skips(s, t) || Enters(s, t) || Finishes(s, t) || Blocks(s, t) || Fails(s, t) {
      WalksAside(c, s, t);
    }
  }

  lemma {:induction false} UndoIsAside(c: Config, s: Sys, t: Sys)
    requires UndoActs(c, s, t) && !s.phase.plan[0].compensation.RestartSource?
    ensures Aside(s, t)
  {
  }

  lemma {:induction false} OutcomeIsUnrelated(step: Step, ok: bool)
    ensures Unrelated(OutcomeNote(step, ok))
  {
  }

  lemma {:induction false} RecordIsAside(c: Config, s: Sys, t: Sys, ok: bool)
    requires UndoRecords(c, s, t, ok)
    ensures Aside(s, t)
  {
    OutcomeIsUnrelated(s.phase.plan[0], ok);
  }

  lemma {:induction false} RollbackIsAside(c: Config, s: Sys, t: Sys)
    requires RollbackNext(c, s, t) && !(s.phase.Undoing? && UndoActs(c, s, t) && s.phase.plan[0].compensation.RestartSource?)
    ensures Aside(s, t)
  {
    if UndoActs(c, s, t) {
      UndoIsAside(c, s, t);
    } else if ok :| UndoRecords(c, s, t, ok) {
      RecordIsAside(c, s, t, ok);
    }
  }

  lemma {:induction false} TakenKeeps(c: Config, s: Sys, t: Sys)
    requires Accounted(s) && RestartTaken(c, s, t)
    ensures Accounted(t)
  {
    var r :| r in c.sources - RestartedSinceStop(s.js) && t == Taken(s, r);
    assert r !in s.accepted;
  }

  lemma {:induction false} NotedKeeps(s: Sys, t: Sys)
    requires Accounted(s) && RestartNoted(s, t)
    ensures Accounted(t)
  {
    RestartedNoted(s.js, s.pending.value);
  }

  lemma {:induction false} StopForgets(js: seq<Entry>)
    ensures RestartedSinceStop(js + [Entry(StepStarted, Some(Quiesce), map[StopRequested := Flag(true)])]) == {}
  {
  }

  lemma {:induction false} AccountedSteps(c: Config, s: Sys, t: Sys)
    requires Accounted(s) && PendingFits(c, s) && Next(c, s, t) && NoLostRestart(s, t)
    ensures Accounted(t)
  {
    if RollbackNext(c, s, t) {
      if s.phase.Undoing? && UndoActs(c, s, t) && s.phase.plan[0].compensation.RestartSource? {
        if RestartTaken(c, s, t) {
          TakenKeeps(c, s, t);
        } else {
          NotedKeeps(s, t);
        }
      } else {
        RollbackIsAside(c, s, t);
        AsideKeeps(s, t);
      }
    } else if RunNext(c, s, t) {
      if QuiesceActs(s, t) && s.phase.stage == 1 {
        StopForgets(s.js);
      } else if Crashes(s, t) {
      } else {
        RunIsAside(c, s, t);
        AsideKeeps(s, t);
      }
    }
  }

  ghost predicate RecordedAt(trace: seq<Sys>, i: int) {
    0 <= i < |trace| - 1 && NoLostRestart(trace[i], trace[i + 1])
  }

  ghost predicate NothingLost(trace: seq<Sys>) {
    forall i :: 0 <= i < |trace| - 1 ==> RecordedAt(trace, i)
  }

  lemma {:induction false} AccountedAt(c: Config, trace: seq<Sys>, i: nat)
    requires Run(c, trace) && NothingLost(trace) && i + 1 < |trace| && Accounted(trace[i])
    ensures Accounted(trace[i + 1])
  {
    PendingAlways(c, trace, i);
    assert NextAt(c, trace, i) && RecordedAt(trace, i);
    AccountedSteps(c, trace[i], trace[i + 1]);
  }

  lemma {:induction false} AccountedAlways(c: Config, trace: seq<Sys>, i: nat)
    requires Run(c, trace) && NothingLost(trace) && i < |trace|
    ensures Accounted(trace[i])
  {
    if i > 0 {
      AccountedAlways(c, trace, i - 1);
      AccountedAt(c, trace, i - 1);
    }
  }

  /** Over any run in which every restart taken gets recorded, Coolify takes at most one
      restart of a source between two stop requests: the journal names them all. */
  lemma {:induction false} RestartedOncePerStop(c: Config, trace: seq<Sys>, i: nat)
    requires Run(c, trace) && NothingLost(trace) && i < |trace|
    ensures Distinct(trace[i].accepted)
    ensures forall r :: r in trace[i].accepted ==> r in RestartedSinceStop(trace[i].js) || trace[i].pending == Some(r)
  {
    AccountedAlways(c, trace, i);
  }
}
