/** What a run must not do, and must not lose: exactly that. Every step that breaks a rule can be
    followed, without breaking another, to the loss it stands for. */
module ProtocolExact {
  import opened Journal
  import opened Migration
  import opened Protocol
  import opened ProtocolRuns
  import opened ProtocolSafety
  import opened Restarts
  import opened StateMachine
  import opened Wrappers

  /** A continuation of `trace` that is a disciplined run from its step `from` on. */
  ghost predicate Continues(c: Config, trace: seq<Sys>, from: nat, more: seq<Sys>) {
    trace <= more && Run(c, more) && forall i :: from <= i < |more| - 1 ==> DisciplinedAt(c, more, i)
  }

  const DISCIPLINE: set<Rule> := {SoundResumes, WholeLooks, ProtectedRollbacks}

  lemma {:induction false} PathContinues(c: Config, h: Keeps, trace: seq<Sys>, more: seq<Sys>, s: Sys)
    requires Path(c, h, more, s) && trace <= more && DISCIPLINE <= h.rules
    ensures Continues(c, trace, h.from, more)
  {
    forall i | h.from <= i < |more| - 1 ensures DisciplinedAt(c, more, i) {
      assert AllowedAt(c, h, more, i);
    }
  }

  // ── a resume of what a rollback has taken apart ────────────────────────────

  lemma {:induction false} MissesOne(data: set<Volume>, kept: set<Volume>, more: set<Volume>)
    requires !(data <= kept) && more <= kept
    ensures !(data <= more)
  {
  }

  /** Up to FINALIZE, with the copy gone or unprotected and then pruned. */
  lemma {:induction false} UnsoundToFinalize(c: Config, h: Keeps, trace: seq<Sys>, s: Sys, k: nat) returns (more: seq<Sys>, t: Sys)
    requires Path(c, h, trace, s) && s.pending.None? && s.phase == Walking(k) && 7 <= k < LAST && FactsOf(s.js).completed == ORDER[..k]
    requires s.w.copied <= c.data && !TargetSound(c, ORDER[..k], s.w)
    ensures Path(c, h, more, t) && trace <= more && t.phase == Inside(11, 1) && t.pending.None?
    ensures t.w == s.w.(copied := t.w.copied) && !(c.data <= t.w.copied)
  {
    SoundMeans(c, s.w, k);
    more, t := Through(c, h, trace, s, k, 11);
    more, t := Enter(c, h, more, t, 11);
    more, t := NotePolicy(c, h, more, t);
    if c.data <= t.w.copied {
      MissesOne(c.data, t.w.tgtUse + t.w.tgtPin, t.w.copied * (t.w.tgtUse + t.w.tgtPin));
      more, t := PruneTarget(c, h, more, t);
    }
  }

  lemma {:induction false} SoundMeans(c: Config, w: World, k: nat)
    requires 7 <= k < LAST && w.copied <= c.data && !TargetSound(c, ORDER[..k], w)
    ensures !(c.data <= w.copied) || !(c.data <= w.tgtUse + w.tgtPin)
    ensures k == 7 ==> c.data <= w.copied
  {
    if k == 7 {
      NotBefore(7, 7);
      assert ORDER[7] == Verify;
    }
  }

  /** FINALIZE then lets go of the source. */
  lemma {:induction false} FinalizeLoses(c: Config, h: Keeps, trace: seq<Sys>, s: Sys) returns (more: seq<Sys>, t: Sys)
    requires Path(c, h, trace, s) && s.pending.None? && s.phase == Inside(11, 1) && !(c.data <= s.w.copied)
    requires !SourceSettled(c, s.w) && c.data != {}
    ensures Path(c, h, more, t) && trace <= more && Lost(c, t)
  {
    if c.policy.Delete? {
      t := s.(w := s.w.(src := {}));
      assert FinalizeActs(c, s, t);
      more := Extend(c, h, trace, s, t);
    } else if !(c.data <= s.w.src) {
      more, t := trace, s;
    } else {
      more, t := LetGo(c, h, trace, s);
      if t.w.unsettled {
        more, t := StopLands(c, h, more, t);
      }
      MissesOne(c.data, t.w.srcUse, t.w.src * (t.w.srcUse + t.w.srcPin));
      more, t := PruneSource(c, h, more, t);
    }
  }

  lemma {:induction false} UnsoundResumeLoses(c: Config, h: Keeps, trace: seq<Sys>, s: Sys, k: nat) returns (more: seq<Sys>, t: Sys)
    requires Path(c, h, trace, s) && s.pending.None? && s.phase == Walking(0) && k <= LAST && FactsOf(s.js).completed == ORDER[..k]
    requires Finalize !in ORDER[..k] && s.w.copied <= c.data && !TargetSound(c, ORDER[..k], s.w) && !SourceSettled(c, s.w)
    requires c.data != {}
    ensures Path(c, h, more, t) && trace <= more && Lost(c, t)
  {
    UnsoundIsLate(c, s.w, k);
    more, t := SkipTo(c, h, trace, s, k);
    more, t := UnsoundToFinalize(c, h, more, t, k);
    more, t := FinalizeLoses(c, h, more, t);
  }

  lemma {:induction false} UnsoundIsLate(c: Config, w: World, k: nat)
    requires k <= LAST && Finalize !in ORDER[..k] && !TargetSound(c, ORDER[..k], w)
    ensures 7 <= k < LAST
  {
    AllCompleted();
    if k < 7 {
      EarlyIsSound(c, w, k);
    }
  }

  lemma {:induction false} AllCompleted()
    ensures Finalize in ORDER[..LAST]
  {
    assert ORDER[..LAST][11] == Finalize;
  }

  lemma {:induction false} EarlyIsSound(c: Config, w: World, k: nat)
    requires k < 7
    ensures TargetSound(c, ORDER[..k], w)
  {
    assert ORDER[6] == Copy && ORDER[7] == Verify;
    NotBefore(k, 6);
    NotBefore(k, 7);
  }

  // ── a prune between the guard's look and its pin ───────────────────────────

  lemma {:induction false} DroppedLookLoses(c: Config, h: Keeps, trace: seq<Sys>, s: Sys) returns (more: seq<Sys>, t: Sys)
    requires Path(c, h, trace, s) && s.pending.None? && s.phase.Looked? && Copy in FactsOf(s.js).completed
    requires !(c.data <= s.w.src)
    ensures Path(c, h, more, t) && trace <= more && Lost(c, t)
  {
    more, t := Repin(c, h, trace, s);
    more, t := DropTarget(c, h, more, t);
  }

  // ── a rollback of unprotected volumes ──────────────────────────────────────

  lemma {:induction false} UnprotectedLoses(c: Config, h: Keeps, trace: seq<Sys>, s: Sys) returns (more: seq<Sys>, t: Sys)
    requires Path(c, h, trace, s) && s.pending.None? && s.phase.Judging? && !Begun(FactsOf(s.js))
    requires !Pinned(c, FactsOf(s.js), s.w)
    ensures Path(c, h, more, t) && trace <= more && Lost(c, t)
  {
    var r :| r in c.sources && r !in FactsOf(s.js).restarted;
    more, t := Pass(c, h, trace, s);
    more, t := AtRestart(c, h, more, t);
    more, t := RestartAndStop(c, h, more, t, r);
    more, t := DeleteTarget(c, h, more, t);
  }

  lemma {:induction false} RestartAndStop(c: Config, h: Keeps, trace: seq<Sys>, s: Sys, r: string) returns (more: seq<Sys>, t: Sys)
    requires Path(c, h, trace, s) && s.phase.Undoing? && s.phase.plan != [] && s.phase.plan[0].compensation.RestartSource?
    requires s.pending.None? && r in c.sources - FactsOf(s.js).restarted && !(c.data <= s.w.srcPin)
    ensures Path(c, h, more, t) && trace <= more && t == s.(js := t.js, w := t.w, accepted := t.accepted) && !(c.data <= t.w.src)
    ensures FactsOf(t.js).restartOk == FactsOf(s.js).restartOk
  {
    more, t := TakeRestart(c, h, trace, s, r);
    more, t := StopLands(c, h, more, t);
    MissesOne(c.data, t.w.srcPin, t.w.src * (t.w.srcUse + t.w.srcPin));
    more, t := PruneSource(c, h, more, t);
    more, t := NoteRestart(c, h, more, t);
  }

  // ── exactly these ──────────────────────────────────────────────────────────

  /** Some continuation, disciplined from step `from` on, ends with the data on neither side. */
  ghost predicate CanLose(c: Config, trace: seq<Sys>, from: nat) {
    exists more :: Continues(c, trace, from, more) && Lost(c, more[|more| - 1])
  }

  lemma {:induction false} LosesOn(c: Config, h: Keeps, trace: seq<Sys>, more: seq<Sys>, s: Sys)
    requires Path(c, h, more, s) && trace <= more && DISCIPLINE <= h.rules && Lost(c, s)
    ensures CanLose(c, trace, h.from)
  {
    PathContinues(c, h, trace, more, s);
  }

  /** The run so far, and one step of any kind. */
  lemma {:induction false} OneMore(c: Config, trace: seq<Sys>, t: Sys) returns (h: Keeps, more: seq<Sys>)
    requires Run(c, trace) && Next(c, trace[|trace| - 1], t)
    ensures h == Keeps(DISCIPLINE, |trace|) && more == trace + [t] && Path(c, h, more, t)
  {
    h := Keeps(DISCIPLINE, |trace|);
    more := Extend(c, h, trace, trace[|trace| - 1], t);
  }

  lemma {:induction false} UnsoundStepLoses(c: Config, trace: seq<Sys>, s: Sys, t: Sys)
    requires DisciplinedRun(c, trace) && s == trace[|trace| - 1] && Next(c, s, t) && c.data != {}
    requires !SoundResume(c, s, t)
    ensures CanLose(c, trace + [t], |trace|)
  {
    InvAlways(c, trace, |trace| - 1);
    var h, more := OneMore(c, trace, t);
    PathIsPrefix(c, h, more, t);
    ResumeChangesNothing(c, s, t);
    var longer, u := UnsoundResumeLoses(c, h, more, t, |FactsOf(s.js).completed|);
    LosesOn(c, h, trace + [t], longer, u);
  }

  lemma {:induction false} ResumeChangesNothing(c: Config, s: Sys, t: Sys)
    requires Inv(c, s) && PendingFits(c, t) && Next(c, s, t) && !SoundResume(c, s, t)
    ensures t.phase == Walking(0) && t.w == s.w && t.pending.None? && s.w.copied <= c.data
    ensures var k := |FactsOf(s.js).completed|;
            && k <= LAST && FactsOf(t.js).completed == FactsOf(s.js).completed == ORDER[..k] && Finalize !in ORDER[..k]
            && !TargetSound(c, ORDER[..k], s.w) && !SourceSettled(c, s.w)
  {
    IsBegin(c, s, t);
    FactsSnoc(s.js, Entry(Started, Some(Init), map[]));
  }

  lemma {:induction false} IsBegin(c: Config, s: Sys, t: Sys)
    requires Next(c, s, t) && s.phase.Idle? && t.phase.Walking?
    ensures Begins(s, t)
  {
  }

  lemma {:induction false} DroppedStepLoses(c: Config, trace: seq<Sys>, s: Sys, t: Sys)
    requires DisciplinedRun(c, trace) && s == trace[|trace| - 1] && Next(c, s, t)
    requires !NoPruneDuringLook(c, s, t)
    ensures CanLose(c, trace + [t], |trace|)
  {
    InvAlways(c, trace, |trace| - 1);
    var h, more := OneMore(c, trace, t);
    PathIsPrefix(c, h, more, t);
    DropMeans(c, s, t);
    var longer, u := DroppedLookLoses(c, h, more, t);
    LosesOn(c, h, trace + [t], longer, u);
  }

  lemma {:induction false} DropMeans(c: Config, s: Sys, t: Sys)
    requires Inv(c, s) && PendingFits(c, t) && Next(c, s, t) && !NoPruneDuringLook(c, s, t)
    ensures t.phase.Looked? && t.pending.None? && t.js == s.js && !(c.data <= t.w.src) && Copy in FactsOf(s.js).completed
  {
    OnlyPrunes(c, s, t);
    assert FactsOf(s.js).completed[6] == ORDER[6];
  }

  lemma {:induction false} OnlyPrunes(c: Config, s: Sys, t: Sys)
    requires Next(c, s, t) && s.phase.Looked? && !NoPruneDuringLook(c, s, t)
    ensures PrunesSource(s, t)
  {
  }

  lemma {:induction false} UnprotectedStepLoses(c: Config, trace: seq<Sys>, s: Sys, t: Sys)
    requires DisciplinedRun(c, trace) && s == trace[|trace| - 1] && Next(c, s, t)
    requires !ProtectedRollback(c, s, t)
    ensures CanLose(c, trace + [t], |trace|)
  {
    InvAlways(c, trace, |trace| - 1);
    var h, more := OneMore(c, trace, t);
    PathIsPrefix(c, h, more, t);
    AskMeans(c, s, t);
    var longer, u := UnprotectedLoses(c, h, more, t);
    LosesOn(c, h, trace + [t], longer, u);
  }

  lemma {:induction false} AskMeans(c: Config, s: Sys, t: Sys)
    requires Inv(c, s) && PendingFits(c, t) && Next(c, s, t) && !ProtectedRollback(c, s, t)
    ensures t.phase.Judging? && t.pending.None? && t.js == s.js && t.w == s.w
    ensures !Begun(FactsOf(s.js)) && !Pinned(c, FactsOf(s.js), s.w)
  {
    assert AsksRollback(s, t);
    assert c.policy.Keep? || c.policy.Rename? || c.policy.Delete?;
  }

  lemma {:induction false} DisciplineLosesNothing(c: Config, trace: seq<Sys>, s: Sys, t: Sys, more: seq<Sys>)
    requires DisciplinedRun(c, trace) && s == trace[|trace| - 1] && Disciplined(c, s, t)
    requires Continues(c, trace + [t], |trace|, more)
    ensures !Lost(c, more[|more| - 1])
  {
    forall i | 0 <= i < |more| - 1 ensures DisciplinedAt(c, more, i) {
      if i < |trace| - 1 {
        assert DisciplinedAt(c, trace, i);
        assert more[i] == (trace + [t])[i] && more[i + 1] == (trace + [t])[i + 1];
      } else if i == |trace| - 1 {
        assert more[i] == (trace + [t])[i] && more[i + 1] == (trace + [t])[i + 1];
      }
    }
    DataIsAlwaysSafe(c, more, |more| - 1);
  }

  /** Which runs these are: a first state, and every step that the protocol allows and the
      discipline does not rule out. */
  lemma {:induction false} DisciplinedRunGrows(c: Config, trace: seq<Sys>, t: Sys)
    requires DisciplinedRun(c, trace) || (|trace| == 1 && Initial(c, trace[0]))
    requires Next(c, trace[|trace| - 1], t) && Disciplined(c, trace[|trace| - 1], t)
    ensures DisciplinedRun(c, trace + [t])
  {
    var more := trace + [t];
    forall i | 0 <= i < |more| - 1 ensures NextAt(c, more, i) && DisciplinedAt(c, more, i) {
      if i == |trace| - 1 {
        assert more[i] == trace[i] && more[i + 1] == t;
      } else {
        assert NextAt(c, trace, i) && DisciplinedAt(c, trace, i);
      }
    }
  }

  /** The discipline is exact: after a disciplined run, a step that the protocol allows breaks it if
      and only if the data can be lost from there, with every later step disciplined. */
  lemma {:induction false} DisciplineIsExact(c: Config, trace: seq<Sys>, t: Sys)
    requires DisciplinedRun(c, trace) && Next(c, trace[|trace| - 1], t)
    ensures Disciplined(c, trace[|trace| - 1], t) || c.data == {} <==> !CanLose(c, trace + [t], |trace|)
  {
    var s := trace[|trace| - 1];
    if Disciplined(c, s, t) {
      forall more | Continues(c, trace + [t], |trace|, more) ensures !Lost(c, more[|more| - 1]) {
        DisciplineLosesNothing(c, trace, s, t, more);
      }
    } else if c.data != {} {
      if !SoundResume(c, s, t) {
        UnsoundStepLoses(c, trace, s, t);
      } else if !NoPruneDuringLook(c, s, t) {
        DroppedStepLoses(c, trace, s, t);
      } else {
        UnprotectedStepLoses(c, trace, s, t);
      }
    }
  }

  // ── the record of a restart ────────────────────────────────────────────────

  /** Some continuation, disciplined and with every later restart recorded, restarts a source
      a second time after one stop. */
  ghost predicate CanRestartTwice(c: Config, trace: seq<Sys>, from: nat) {
    exists more: seq<Sys> :: Continues(c, trace, from, more) && RecordedFrom(more, from) && !Distinct(more[|more| - 1].accepted)
  }

  ghost predicate RecordedFrom(trace: seq<Sys>, from: nat) {
    forall i :: from <= i < |trace| - 1 ==> RecordedAt(trace, i)
  }

  lemma {:induction false} TwiceOn(c: Config, h: Keeps, trace: seq<Sys>, more: seq<Sys>, s: Sys)
    requires Path(c, h, more, s) && trace <= more && DISCIPLINE + {RecordedRestarts} <= h.rules && !Distinct(s.accepted)
    ensures CanRestartTwice(c, trace, h.from)
  {
    PathContinues(c, h, trace, more, s);
    forall i | h.from <= i < |more| - 1 ensures RecordedAt(more, i) {
      assert AllowedAt(c, h, more, i);
    }
  }

  lemma {:induction false} LossMeans(c: Config, s: Sys, t: Sys)
    requires PendingFits(c, s) && Next(c, s, t) && !NoLostRestart(s, t)
    ensures t == s.(pending := None) || t == s.(phase := Idle, pending := None)
  {
    if RollbackNext(c, s, t) {
    } else {
      assert Crashes(s, t);
    }
  }

  /** What an undo that comes to a restart leaves to the next one. */
  lemma {:induction false} UndoneAgain(c: Config, f: Facts, s: Sys)
    requires InvOf(c, f, s) && s.phase.Undoing? && s.phase.plan != [] && s.phase.plan[0].compensation.RestartSource?
    ensures Stopped(f) && Pinned(c, f, s.w) && c.data <= s.w.src && (Begun(f) ==> Unproven(f))
  {
    assert c.policy.Keep? || c.policy.Rename? || c.policy.Delete?;
  }

  /** A rollback that the guard clears, at once or once it has pinned. */
  lemma {:induction false} Clear(c: Config, h: Keeps, trace: seq<Sys>, s: Sys) returns (more: seq<Sys>, t: Sys)
    requires Path(c, h, trace, s) && s.phase.Judging? && s.pending.None?
    requires c.data <= s.w.src && (Begun(FactsOf(s.js)) ==> Unproven(FactsOf(s.js)))
    ensures Path(c, h, more, t) && trace <= more && t.phase.Cleared? && t == s.(phase := t.phase, w := t.w)
  {
    if Begun(FactsOf(s.js)) {
      more, t := Look(c, h, trace, s);
      more, t := Repin(c, h, more, t);
    } else {
      more, t := Pass(c, h, trace, s);
    }
  }

  lemma {:induction false} AskAgain(c: Config, h: Keeps, trace: seq<Sys>, s: Sys) returns (more: seq<Sys>, t: Sys)
    requires Path(c, h, trace, s) && s.phase.Idle? && s.pending.None?
    requires Stopped(FactsOf(s.js)) && Pinned(c, FactsOf(s.js), s.w) && c.data <= s.w.src
    requires Begun(FactsOf(s.js)) ==> Unproven(FactsOf(s.js))
    ensures Path(c, h, more, t) && trace <= more && t.pending.None? && t.accepted == s.accepted
    ensures t.phase.Undoing? && t.phase.plan != [] && t.phase.plan[0].compensation.RestartSource?
    ensures FactsOf(t.js).restarted == FactsOf(s.js).restarted
  {
    more, t := Ask(c, h, trace, s);
    more, t := Clear(c, h, more, t);
    more, t := AtRestart(c, h, more, t);
  }

  lemma {:induction false} LostRestartComesTwice(c: Config, trace: seq<Sys>, s: Sys, t: Sys)
    requires DisciplinedRun(c, trace) && NothingLost(trace) && s == trace[|trace| - 1] && Next(c, s, t) && !NoLostRestart(s, t)
    ensures CanRestartTwice(c, trace + [t], |trace|)
  {
    InvAlways(c, trace, |trace| - 1);
    PendingAlways(c, trace, |trace| - 1);
    AccountedAlways(c, trace, |trace| - 1);
    LossMeans(c, s, t);
    UndoneAgain(c, FactsOf(s.js), s);
    var r, h := s.pending.value, Keeps(DISCIPLINE + {RecordedRestarts}, |trace|);
    var more := Extend(c, h, trace, s, t);
    var u := t;
    if t.phase.Idle? {
      more, u := AskAgain(c, h, more, t);
    }
    more, u := TakeRestart(c, h, more, u, r);
    TwiceIn(s.accepted, r);
    TwiceOn(c, h, trace + [t], more, u);
  }

  lemma {:induction false} TwiceIn(accepted: seq<string>, r: string)
    requires r in accepted
    ensures !Distinct(accepted + [r])
  {
    var i :| 0 <= i < |accepted| && accepted[i] == r;
    assert (accepted + [r])[i] == (accepted + [r])[|accepted|];
  }

  /** The rule on records is exact: after a disciplined run that recorded every restart, a step
      loses one if and only if some source can, from there, be restarted twice for one stop. */
  lemma {:induction false} RecordingIsExact(c: Config, trace: seq<Sys>, t: Sys)
    requires DisciplinedRun(c, trace) && NothingLost(trace)
    requires Next(c, trace[|trace| - 1], t)
    ensures NoLostRestart(trace[|trace| - 1], t) <==> !CanRestartTwice(c, trace + [t], |trace|)
  {
    var s := trace[|trace| - 1];
    if NoLostRestart(s, t) {
      forall more: seq<Sys> | Continues(c, trace + [t], |trace|, more) && RecordedFrom(more, |trace|) ensures Distinct(more[|more| - 1].accepted) {
        RecordedRestartsOnce(c, trace, s, t, more);
      }
    } else {
      LostRestartComesTwice(c, trace, s, t);
    }
  }

  lemma {:induction false} RecordedRestartsOnce(c: Config, trace: seq<Sys>, s: Sys, t: Sys, more: seq<Sys>)
    requires NothingLost(trace) && trace != [] && s == trace[|trace| - 1] && NoLostRestart(s, t)
    requires Continues(c, trace + [t], |trace|, more) && RecordedFrom(more, |trace|)
    ensures Distinct(more[|more| - 1].accepted)
  {
    forall i | 0 <= i < |more| - 1 ensures RecordedAt(more, i) {
      if i < |trace| - 1 {
        assert RecordedAt(trace, i);
        assert more[i] == (trace + [t])[i] && more[i + 1] == (trace + [t])[i + 1];
      } else if i == |trace| - 1 {
        assert more[i] == (trace + [t])[i] && more[i + 1] == (trace + [t])[i + 1];
      }
    }
    RestartedOncePerStop(c, more, |more| - 1);
  }
}
