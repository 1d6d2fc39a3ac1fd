/** Runs of the protocol, put together step by step. */
module ProtocolRuns {
  import opened Journal
  import opened Migration
  import opened Protocol
  import opened ProtocolSafety
  import opened Restarts
  import opened StateMachine
  import opened Wrappers

  /** Neither side holds the data. */
  ghost predicate Lost(c: Config, s: Sys) {
    !(c.data <= s.w.src) && !(c.data <= s.w.copied)
  }

  datatype Rule = SoundResumes | WholeLooks | ProtectedRollbacks | RecordedRestarts | NoResumes | NoSuccesses

  /** The rules a run keeps, from one of its steps on. */
  datatype Keeps = Keeps(rules: set<Rule>, from: nat)

  /** No compensation is recorded as done. */
  ghost predicate NoSuccess(s: Sys, t: Sys) {
    |s.js| < |t.js| && t.js[|s.js|].event.RollbackStepped? && Ok in t.js[|s.js|].detail ==>
      t.js[|s.js|].detail[Ok] != Flag(true)
  }

  ghost predicate Allowed(c: Config, h: Keeps, s: Sys, t: Sys) {
    && (SoundResumes in h.rules ==> SoundResume(c, s, t))
    && (WholeLooks in h.rules ==> NoPruneDuringLook(c, s, t))
    && (ProtectedRollbacks in h.rules ==> ProtectedRollback(c, s, t))
    && (RecordedRestarts in h.rules ==> NoLostRestart(s, t))
    && (NoResumes in h.rules ==> NoResumeAfterRollback(s, t))
    && (NoSuccesses in h.rules ==> NoSuccess(s, t))
  }

  ghost predicate Path(c: Config, h: Keeps, trace: seq<Sys>, s: Sys) {
    && Run(c, trace) && trace[|trace| - 1] == s
    && forall i :: h.from <= i < |trace| - 1 ==> AllowedAt(c, h, trace, i)
  }

  ghost predicate AllowedAt(c: Config, h: Keeps, trace: seq<Sys>, i: int) {
    0 <= i < |trace| - 1 && Allowed(c, h, trace[i], trace[i + 1])
  }

  lemma {:induction false} Extend(c: Config, h: Keeps, trace: seq<Sys>, s: Sys, t: Sys) returns (more: seq<Sys>)
    requires Path(c, h, trace, s) && Next(c, s, t) && (Allowed(c, h, s, t) || |trace| <= h.from)
    ensures Path(c, h, more, t) && more == trace + [t]
  {
    more := trace + [t];
    forall i | 0 <= i < |more| - 1 ensures NextAt(c, more, i) && (h.from <= i ==> AllowedAt(c, h, more, i)) {
      if i == |trace| - 1 {
        assert more[i] == s && more[i + 1] == t;
      } else {
        assert NextAt(c, trace, i) && (h.from <= i ==> AllowedAt(c, h, trace, i));
      }
    }
  }

  /** What every run of the protocol keeps, at the end of this one. */
  lemma {:induction false} PathIsPrefix(c: Config, h: Keeps, trace: seq<Sys>, s: Sys)
    requires Path(c, h, trace, s)
    ensures InOrder(FactsOf(s.js), s) && Marked(c, FactsOf(s.js), s) && PendingFits(c, s)
  {
    InOrderAlways(c, trace, |trace| - 1);
    MarkedAlways(c, trace, |trace| - 1);
    PendingAlways(c, trace, |trace| - 1);
  }

  // ── walking on ─────────────────────────────────────────────────────────────

  /** A run begins, or one is resumed. */
  lemma {:induction false} Begin(c: Config, h: Keeps, trace: seq<Sys>, s: Sys) returns (more: seq<Sys>, t: Sys)
    requires Path(c, h, trace, s) && s.phase.Idle? && !IsFinished(s.js) && s.pending.None?
    requires |trace| <= h.from || Allowed(c, h, s, s.(js := s.js + [Entry(Started, Some(Init), map[])], phase := Walking(0)))
    ensures Path(c, h, more, t) && trace <= more && t == s.(js := t.js, phase := Walking(0))
    ensures FactsOf(t.js) == FactsOf(s.js).(finished := false, undone := false)
  {
    var e := Entry(Started, Some(Init), map[]);
    t := s.(js := s.js + [e], phase := Walking(0));
    assert Begins(s, t);
    more := Extend(c, h, trace, s, t);
    FactsSnoc(s.js, e);
  }

  /** Over the states that are completed. */
  lemma {:induction false} SkipTo(c: Config, h: Keeps, trace: seq<Sys>, s: Sys, n: nat) returns (more: seq<Sys>, t: Sys)
    requires Path(c, h, trace, s) && s.phase == Walking(0) && s.pending.None? && n <= |CompletedStates(s.js)| <= LAST
    requires CompletedStates(s.js) <= ORDER
    ensures Path(c, h, more, t) && trace <= more && t == s.(phase := Walking(n))
    decreases n
  {
    more, t := trace, s;
    if n > 0 {
      more, t := SkipTo(c, h, trace, s, n - 1);
      var u := t;
      t := u.(phase := Walking(n));
      assert CompletedStates(s.js)[n - 1] == ORDER[n - 1];
      assert Skips(u, t);
      more := Extend(c, h, more, u, t);
    }
  }

  /** Into the first that is not. */
  lemma {:induction false} Enter(c: Config, h: Keeps, trace: seq<Sys>, s: Sys, i: nat) returns (more: seq<Sys>, t: Sys)
    requires Path(c, h, trace, s) && s.phase == Walking(i) && s.pending.None? && i < LAST && FactsOf(s.js).completed == ORDER[..i]
    ensures Path(c, h, more, t) && trace <= more
    ensures t == s.(js := t.js, phase := Inside(i, 0), entered := Some(ORDER[i]))
    ensures FactsOf(t.js) == FactsOf(s.js).(inFlight := Some(ORDER[i]), finished := false)
  {
    NotYet(i);
    var e := Entry(StepStarted, Some(ORDER[i]), map[]);
    t := s.(js := s.js + [e], phase := Inside(i, 0), entered := Some(ORDER[i]));
    assert Enters(s, t);
    more := Extend(c, h, trace, s, t);
    FactsSnoc(s.js, e);
  }

  ghost predicate MayComplete(c: Config, s: Sys, i: nat) {
    && (i == 4 ==> s.phase == Inside(i, 3)) && (i == 6 ==> s.phase == Inside(i, 1))
    && (i == 7 ==> c.data <= s.w.copied) && (i == 11 ==> s.phase == Inside(i, 1))
  }

  lemma {:induction false} Complete(c: Config, h: Keeps, trace: seq<Sys>, s: Sys, i: nat) returns (more: seq<Sys>, t: Sys)
    requires Path(c, h, trace, s) && i < LAST && s.phase.Inside? && s.phase.at == i && s.pending.None? && MayComplete(c, s, i)
    requires FactsOf(s.js).completed == ORDER[..i] && FactsOf(s.js).inFlight == Some(ORDER[i])
    ensures Path(c, h, more, t) && trace <= more && t == s.(js := t.js, phase := Walking(i + 1), entered := None)
    ensures FactsOf(t.js) == FactsOf(s.js).(completed := ORDER[..i + 1], inFlight := None, finished := false)
  {
    var e := Entry(StepCompleted, Some(ORDER[i]), map[]);
    t := s.(js := s.js + [e], phase := Walking(i + 1), entered := None);
    CompletesPlainly(c, s, t, i);
    more := Extend(c, h, trace, s, t);
    FactsSnoc(s.js, e);
    CompletionTold(FactsOf(s.js), i);
  }

  lemma {:induction false} CompletesPlainly(c: Config, s: Sys, t: Sys, i: nat)
    requires i < LAST && s.phase.Inside? && s.phase.at == i && MayComplete(c, s, i)
    requires t == s.(js := s.js + [Entry(StepCompleted, Some(ORDER[i]), map[])], phase := Walking(i + 1), entered := None)
    ensures Next(c, s, t)
  {
    assert Completes(c, s, t, map[]);
  }

  lemma {:induction false} CompletionTold(f: Facts, i: nat)
    requires i < LAST && f.completed == ORDER[..i] && f.inFlight == Some(ORDER[i])
    ensures Told(f, Entry(StepCompleted, Some(ORDER[i]), map[])) == f.(completed := ORDER[..i + 1], inFlight := None, finished := false)
  {
    assert ORDER[..i] + [ORDER[i]] == ORDER[..i + 1];
  }

  /** What a stretch of states, from one walked to up to another, leaves of the facts. */
  predicate Onwards(f: Facts, g: Facts, i: nat, j: nat)
    requires j <= LAST
  {
    && g == f.(completed := ORDER[..j], inFlight := g.inFlight, finished := g.finished)
    && (if i == j then g == f else g.inFlight == None && !g.finished)
  }

  /** Through states that touch no volume; VERIFY needs the copy. */
  lemma {:induction false} Through(c: Config, h: Keeps, trace: seq<Sys>, s: Sys, i: nat, j: nat) returns (more: seq<Sys>, t: Sys)
    requires Path(c, h, trace, s) && s.phase == Walking(i) && s.pending.None? && i <= j <= LAST && FactsOf(s.js).completed == ORDER[..i]
    requires j <= 4 || (5 <= i && j <= 6) || (7 <= i && j <= 11 && (i == 7 ==> c.data <= s.w.copied))
    ensures Path(c, h, more, t) && trace <= more
    ensures t == s.(js := t.js, phase := Walking(j), entered := t.entered) && (i < j ==> t.entered == None) && (i == j ==> t == s)
    ensures Onwards(FactsOf(s.js), FactsOf(t.js), i, j)
    decreases j - i
  {
    more, t := trace, s;
    if i < j {
      more, t := Enter(c, h, trace, s, i);
      more, t := Complete(c, h, more, t, i);
      more, t := Through(c, h, more, t, i + 1, j);
    }
  }

  /** FINALIZE's first record. */
  lemma {:induction false} NotePolicy(c: Config, h: Keeps, trace: seq<Sys>, s: Sys) returns (more: seq<Sys>, t: Sys)
    requires Path(c, h, trace, s) && s.phase == Inside(11, 0) && s.pending.None?
    ensures Path(c, h, more, t) && trace <= more && t == s.(js := t.js, phase := Inside(11, 1))
    ensures FactsOf(t.js) == FactsOf(s.js).(inFlight := Some(Finalize), policy := Some(PolicyIs(c.policy)), finished := false)
  {
    var e := Entry(StepStarted, Some(Finalize), map[PolicyKey := PolicyIs(c.policy)]);
    t := s.(js := s.js + [e], phase := Inside(11, 1));
    assert FinalizeActs(c, s, t);
    more := Extend(c, h, trace, s, t);
    FactsSnoc(s.js, e);
  }

  /** And its release of the source. */
  lemma {:induction false} LetGo(c: Config, h: Keeps, trace: seq<Sys>, s: Sys) returns (more: seq<Sys>, t: Sys)
    requires Path(c, h, trace, s) && s.phase == Inside(11, 1) && s.pending.None?
    ensures Path(c, h, more, t) && trace <= more && t == s.(w := s.w.(srcPin := {}))
  {
    t := s.(w := s.w.(srcPin := {}));
    assert FinalizeActs(c, s, t);
    more := Extend(c, h, trace, s, t);
  }

  // ── Coolify ────────────────────────────────────────────────────────────────

  lemma {:induction false} StopLands(c: Config, h: Keeps, trace: seq<Sys>, s: Sys) returns (more: seq<Sys>, t: Sys)
    requires Path(c, h, trace, s) && s.w.unsettled && !s.phase.Idle?
    ensures Path(c, h, more, t) && trace <= more && t == s.(w := s.w.(srcUse := {}))
  {
    t := s.(w := s.w.(srcUse := {}));
    assert SourceMoves(s, t);
    more := Extend(c, h, trace, s, t);
  }

  /** Everything that may be pruned on the source is. */
  lemma {:induction false} PruneSource(c: Config, h: Keeps, trace: seq<Sys>, s: Sys) returns (more: seq<Sys>, t: Sys)
    requires Path(c, h, trace, s) && !s.phase.Idle? && (WholeLooks in h.rules && h.from < |trace| ==> !s.phase.Looked?)
    ensures Path(c, h, more, t) && trace <= more && t == s.(w := s.w.(src := s.w.src * (s.w.srcUse + s.w.srcPin)))
  {
    t := s.(w := s.w.(src := s.w.src * (s.w.srcUse + s.w.srcPin)));
    assert PrunesSource(s, t);
    more := Extend(c, h, trace, s, t);
  }

  lemma {:induction false} PruneTarget(c: Config, h: Keeps, trace: seq<Sys>, s: Sys) returns (more: seq<Sys>, t: Sys)
    requires Path(c, h, trace, s) && !s.phase.Idle?
    ensures Path(c, h, more, t) && trace <= more && t == s.(w := s.w.(copied := s.w.copied * (s.w.tgtUse + s.w.tgtPin)))
  {
    t := s.(w := s.w.(copied := s.w.copied * (s.w.tgtUse + s.w.tgtPin)));
    assert PrunesTarget(s, t);
    more := Extend(c, h, trace, s, t);
  }

  // ── to a rollback ──────────────────────────────────────────────────────────

  lemma {:induction false} Fail(c: Config, h: Keeps, trace: seq<Sys>, s: Sys) returns (more: seq<Sys>, t: Sys)
    requires Path(c, h, trace, s) && s.phase.Inside? && s.phase.at < LAST && s.pending.None?
    requires FactsOf(s.js).inFlight == Some(ORDER[s.phase.at])
    ensures Path(c, h, more, t) && trace <= more && t == s.(js := t.js, phase := Judging(false), entered := None)
    ensures FactsOf(t.js) == FactsOf(s.js).(inFlight := None, finished := false)
  {
    var e := Entry(StepFailed, Some(ORDER[s.phase.at]), map[]);
    t := s.(js := s.js + [e], phase := Judging(false), entered := None);
    assert Fails(s, t);
    more := Extend(c, h, trace, s, t);
    FactsSnoc(s.js, e);
  }

  lemma {:induction false} Die(c: Config, h: Keeps, trace: seq<Sys>, s: Sys) returns (more: seq<Sys>, t: Sys)
    requires Path(c, h, trace, s) && !s.phase.Looked? && (RecordedRestarts in h.rules ==> s.pending.None?)
    ensures Path(c, h, more, t) && trace <= more && t == s.(phase := Idle, pending := None)
  {
    t := s.(phase := Idle, pending := None);
    assert Crashes(s, t);
    more := Extend(c, h, trace, s, t);
  }

  lemma {:induction false} Ask(c: Config, h: Keeps, trace: seq<Sys>, s: Sys) returns (more: seq<Sys>, t: Sys)
    requires Path(c, h, trace, s) && s.phase.Idle? && s.pending.None?
    requires s.unpinned && ProtectedRollbacks in h.rules ==> Protected(c, s)
    ensures Path(c, h, more, t) && trace <= more && t == s.(phase := Judging(true))
  {
    t := s.(phase := Judging(true));
    assert AsksRollback(s, t);
    more := Extend(c, h, trace, s, t);
  }

  /** The guard has nothing to ask for. */
  lemma {:induction false} Pass(c: Config, h: Keeps, trace: seq<Sys>, s: Sys) returns (more: seq<Sys>, t: Sys)
    requires Path(c, h, trace, s) && s.phase.Judging? && s.pending.None? && !Begun(FactsOf(s.js))
    ensures Path(c, h, more, t) && trace <= more && t == s.(phase := Cleared(s.phase.explicit))
  {
    t := s.(phase := Cleared(s.phase.explicit));
    assert Passes(s, t);
    more := Extend(c, h, trace, s, t);
  }

  /** The guard looks ... */
  lemma {:induction false} Look(c: Config, h: Keeps, trace: seq<Sys>, s: Sys) returns (more: seq<Sys>, t: Sys)
    requires Path(c, h, trace, s) && s.phase.Judging? && s.pending.None? && c.data <= s.w.src && Unproven(FactsOf(s.js))
    ensures Path(c, h, more, t) && trace <= more && t == s.(phase := Looked(s.phase.explicit))
  {
    t := s.(phase := Looked(s.phase.explicit));
    assert Looks(c, s, t);
    more := Extend(c, h, trace, s, t);
  }

  /** ... and pins. */
  lemma {:induction false} Repin(c: Config, h: Keeps, trace: seq<Sys>, s: Sys) returns (more: seq<Sys>, t: Sys)
    requires Path(c, h, trace, s) && s.phase.Looked? && s.pending.None?
    ensures Path(c, h, more, t) && trace <= more
    ensures t == s.(w := s.w.(srcPin := s.w.srcPin + c.data * s.w.src), phase := Cleared(s.phase.explicit))
  {
    t := s.(w := s.w.(srcPin := s.w.srcPin + c.data * s.w.src), phase := Cleared(s.phase.explicit));
    assert Repins(c, s, t);
    more := Extend(c, h, trace, s, t);
  }

  /** It starts on what is owed. */
  lemma {:induction false} StartUndo(c: Config, h: Keeps, trace: seq<Sys>, s: Sys) returns (more: seq<Sys>, t: Sys)
    requires Path(c, h, trace, s) && s.phase.Cleared? && s.pending.None?
    requires MigrationPlan(OwedFrom(s.js, s.phase.explicit)) != []
    ensures Path(c, h, more, t) && trace <= more
    ensures t == s.(js := t.js, phase := Undoing(MigrationPlan(OwedFrom(s.js, s.phase.explicit))))
    ensures FactsOf(t.js) == Undone(FactsOf(s.js))
  {
    var plan := MigrationPlan(OwedFrom(s.js, s.phase.explicit));
    t := s.(js := s.js + [Entry(RollbackStarted, None, map[])], phase := Undoing(plan));
    PlanStarts(s, plan);
    more := Extend(c, h, trace, s, t);
    FactsSnoc(s.js, Entry(RollbackStarted, None, map[]));
  }

  function Undone(f: Facts): Facts {
    f.(began := true, restartOk := false, finished := false, undone := true)
  }

  lemma {:induction false} PlanStarts(s: Sys, plan: seq<Step>)
    requires s.phase.Cleared? && plan == MigrationPlan(OwedFrom(s.js, s.phase.explicit)) && plan != []
    ensures Plans(s, s.(js := s.js + [Entry(RollbackStarted, None, map[])], phase := Undoing(plan)))
  {
  }

  // ── through a plan ─────────────────────────────────────────────────────────

  /** Compensations that do nothing, or fail, one after the other. */
  lemma {:induction false} PassOver(c: Config, h: Keeps, trace: seq<Sys>, s: Sys, n: nat) returns (more: seq<Sys>, t: Sys)
    requires Path(c, h, trace, s) && s.phase.Undoing? && n <= |s.phase.plan| && s.pending.None? && !FactsOf(s.js).restartOk
    ensures Path(c, h, more, t) && trace <= more && t == s.(js := t.js, phase := Undoing(s.phase.plan[n..]))
    ensures FactsOf(t.js) == FactsOf(s.js).(finished := n == 0 && FactsOf(s.js).finished)
    decreases n
  {
    more, t := trace, s;
    if n > 0 {
      more, t := PassOver(c, h, trace, s, n - 1);
      more, t := PassOne(c, h, more, t);
      assert s.phase.plan[n - 1..][1..] == s.phase.plan[n..];
    }
  }

  lemma {:induction false} PassOne(c: Config, h: Keeps, trace: seq<Sys>, s: Sys) returns (more: seq<Sys>, t: Sys)
    requires Path(c, h, trace, s) && s.phase.Undoing? && s.phase.plan != [] && s.pending.None? && !FactsOf(s.js).restartOk
    ensures Path(c, h, more, t) && trace <= more && t == s.(js := t.js, phase := Undoing(s.phase.plan[1..]))
    ensures FactsOf(t.js) == FactsOf(s.js).(finished := false)
  {
    var e := OutcomeNote(s.phase.plan[0], false);
    t := s.(js := s.js + [e], phase := Undoing(s.phase.plan[1..]));
    assert UndoRecords(c, s, t, false);
    more := Extend(c, h, trace, s, t);
    FactsSnoc(s.js, e);
    NothingTold(FactsOf(s.js), s.phase.plan[0]);
  }

  lemma {:induction false} NothingTold(f: Facts, step: Step)
    requires !f.restartOk
    ensures Told(f, OutcomeNote(step, false)) == f.(finished := false)
  {
  }

  ghost function PlanOf(s: Sys): seq<Step>
    requires s.phase.Cleared?
  {
    MigrationPlan(OwedFrom(s.js, s.phase.explicit))
  }

  /** From a cleared rollback to a step of its plan. */
  lemma {:induction false} UndoTo(c: Config, h: Keeps, trace: seq<Sys>, s: Sys, plan: seq<Step>, n: nat) returns (more: seq<Sys>, t: Sys)
    requires Path(c, h, trace, s) && s.phase.Cleared? && s.pending.None? && plan == PlanOf(s) && n < |plan|
    ensures Path(c, h, more, t) && trace <= more && t == s.(js := t.js, phase := Undoing(plan[n..]))
    ensures FactsOf(t.js) == Undone(FactsOf(s.js))
  {
    var u;
    more, u := StartUndo(c, h, trace, s);
    more, t := PassFirst(c, h, more, u, plan, n);
  }

  lemma {:induction false} PassFirst(c: Config, h: Keeps, trace: seq<Sys>, s: Sys, plan: seq<Step>, n: nat)
    returns (more: seq<Sys>, t: Sys)
    requires Path(c, h, trace, s) && s.phase == Undoing(plan) && n <= |plan| && s.pending.None?
    requires !FactsOf(s.js).restartOk && !FactsOf(s.js).finished
    ensures Path(c, h, more, t) && trace <= more && t == s.(js := t.js, phase := Undoing(plan[n..])) && FactsOf(t.js) == FactsOf(s.js)
  {
    more, t := PassOver(c, h, trace, s, n);
  }

  lemma {:induction false} DropIsPlanned(owed: set<State>)
    requires Copy in owed
    ensures IndexOf(MigrationPlan(owed), DropTargetVolumes) < |MigrationPlan(owed)|
  {
    IndexEarly(owed);
  }

  /** From a cleared rollback, past COPY, to the target's volumes dropped. */
  lemma {:induction false} DropTarget(c: Config, h: Keeps, trace: seq<Sys>, s: Sys) returns (more: seq<Sys>, t: Sys)
    requires Path(c, h, trace, s) && s.pending.None? && s.phase.Cleared? && Copy in FactsOf(s.js).completed
    ensures Path(c, h, more, t) && trace <= more
    ensures t == s.(js := t.js, phase := t.phase, w := s.w.(copied := {}, tgtPin := {})) && t.phase.Undoing?
    ensures FactsOf(t.js) == Undone(FactsOf(s.js))
  {
    assert ORDER[6] == Copy;
    DropIsPlanned(OwedFrom(s.js, s.phase.explicit));
    var plan, u := PlanOf(s), s;
    more, u := UndoTo(c, h, trace, s, plan, IndexOf(plan, DropTargetVolumes));
    more, t := DropHere(c, h, more, u);
  }

  lemma {:induction false} DropHere(c: Config, h: Keeps, trace: seq<Sys>, s: Sys) returns (more: seq<Sys>, t: Sys)
    requires Path(c, h, trace, s) && s.phase.Undoing? && s.phase.plan != [] && s.phase.plan[0].compensation.DropTargetVolumes?
    requires s.pending.None?
    ensures Path(c, h, more, t) && trace <= more && t == s.(w := s.w.(copied := {}, tgtPin := {}))
  {
    t := s.(w := s.w.(copied := {}, tgtPin := {}));
    assert UndoActs(c, s, t);
    more := Extend(c, h, trace, s, t);
  }

  /** After a stop, a plan restarts the source and then deletes the target. */
  lemma {:induction false} RestartIsOwed(js: seq<Entry>, explicit: bool)
    requires CreateTarget in CompletedStates(js) && Stopped(FactsOf(js))
    ensures var plan := MigrationPlan(OwedFrom(js, explicit));
            IndexOf(plan, RestartSource) < IndexOf(plan, DeleteTargetResource) < |plan|
  {
    assert ORDER[3] == CreateTarget && ORDER[4] == Quiesce;
    IndexRest(OwedFrom(js, explicit));
  }

  lemma {:induction false} CreateIsCompleted(f: Facts)
    requires 4 <= |f.completed| <= LAST && f.completed == ORDER[..|f.completed|]
    ensures CreateTarget in f.completed
  {
    assert f.completed[3] == ORDER[3];
  }

  /** From a cleared rollback, after a stop, to the restart. */
  lemma {:induction false} AtRestart(c: Config, h: Keeps, trace: seq<Sys>, s: Sys) returns (more: seq<Sys>, t: Sys)
    requires Path(c, h, trace, s) && s.phase.Cleared? && s.pending.None? && Stopped(FactsOf(s.js))
    ensures Path(c, h, more, t) && trace <= more && t == s.(js := t.js, phase := t.phase) && FactsOf(t.js) == Undone(FactsOf(s.js))
    ensures t.phase.Undoing? && t.phase.plan != [] && t.phase.plan[0].compensation.RestartSource?
    ensures IndexOf(t.phase.plan, DeleteTargetResource) < |t.phase.plan|
  {
    PathIsPrefix(c, h, trace, s);
    StopIsLate(c, FactsOf(s.js), s);
    CreateIsCompleted(FactsOf(s.js));
    RestartIsOwed(s.js, s.phase.explicit);
    more, t := UndoToRestart(c, h, trace, s, PlanOf(s));
  }

  lemma {:induction false} UndoToRestart(c: Config, h: Keeps, trace: seq<Sys>, s: Sys, plan: seq<Step>) returns (more: seq<Sys>, t: Sys)
    requires Path(c, h, trace, s) && s.phase.Cleared? && s.pending.None? && plan == PlanOf(s)
    requires IndexOf(plan, RestartSource) < IndexOf(plan, DeleteTargetResource) < |plan|
    ensures Path(c, h, more, t) && trace <= more && t == s.(js := t.js, phase := t.phase) && FactsOf(t.js) == Undone(FactsOf(s.js))
    ensures t.phase.Undoing? && t.phase.plan != [] && t.phase.plan[0].compensation.RestartSource?
    ensures IndexOf(t.phase.plan, DeleteTargetResource) < |t.phase.plan|
  {
    var i, j := IndexOf(plan, RestartSource), IndexOf(plan, DeleteTargetResource);
    RestFrom(plan, i, j);
    more, t := UndoTo(c, h, trace, s, plan, i);
  }

  lemma {:induction false} RestFrom(plan: seq<Step>, i: nat, j: nat)
    requires i < j < |plan| && plan[i].compensation == RestartSource && plan[j].compensation == DeleteTargetResource
    ensures plan[i..] != [] && plan[i..][0].compensation.RestartSource?
    ensures IndexOf(plan[i..], DeleteTargetResource) < |plan[i..]|
  {
    assert plan[i..][j - i] == plan[j];
  }

  lemma {:induction false} StopIsLate(c: Config, f: Facts, s: Sys)
    requires InOrder(f, s) && Marked(c, f, s) && Stopped(f)
    ensures 4 <= |f.completed| <= LAST
  {
  }

  lemma {:induction false} TakeRestart(c: Config, h: Keeps, trace: seq<Sys>, s: Sys, r: string) returns (more: seq<Sys>, t: Sys)
    requires Path(c, h, trace, s) && s.phase.Undoing? && s.phase.plan != [] && s.phase.plan[0].compensation.RestartSource?
    requires s.pending.None? && r in c.sources - FactsOf(s.js).restarted
    ensures Path(c, h, more, t) && trace <= more && t == Taken(s, r)
  {
    t := Taken(s, r);
    assert r in c.sources - RestartedSinceStop(s.js);
    assert RestartTaken(c, s, t);
    assert UndoActs(c, s, t);
    more := Extend(c, h, trace, s, t);
  }

  lemma {:induction false} NoteRestart(c: Config, h: Keeps, trace: seq<Sys>, s: Sys) returns (more: seq<Sys>, t: Sys)
    requires Path(c, h, trace, s) && s.phase.Undoing? && s.phase.plan != [] && s.phase.plan[0].compensation.RestartSource?
    requires s.pending.Some?
    ensures Path(c, h, more, t) && trace <= more && t == s.(js := t.js, pending := None)
    ensures FactsOf(t.js).restartOk == FactsOf(s.js).restartOk
  {
    var e := RestartNote(s.pending.value);
    t := s.(js := s.js + [e], pending := None);
    assert RestartNoted(s, t);
    assert UndoActs(c, s, t);
    more := Extend(c, h, trace, s, t);
    FactsSnoc(s.js, e);
  }

  /** Past what is left before the delete, and through it. */
  lemma {:induction false} DeleteTarget(c: Config, h: Keeps, trace: seq<Sys>, s: Sys) returns (more: seq<Sys>, t: Sys)
    requires Path(c, h, trace, s) && s.phase.Undoing? && s.pending.None? && !FactsOf(s.js).restartOk
    requires IndexOf(s.phase.plan, DeleteTargetResource) < |s.phase.plan|
    ensures Path(c, h, more, t) && trace <= more && t == s.(js := t.js, phase := t.phase, w := s.w.(copied := {}))
  {
    var u;
    more, u := PassOver(c, h, trace, s, IndexOf(s.phase.plan, DeleteTargetResource));
    t := u.(w := u.w.(copied := {}));
    assert UndoActs(c, u, t);
    more := Extend(c, h, more, u, t);
  }
}
