/** Runs that break one rule, and what is lost: the steps the rules forbid can be reached. */
module ProtocolGaps {
  import opened Journal
  import opened Migration
  import opened Protocol
  import opened ProtocolExact
  import opened ProtocolRuns
  import opened ProtocolSafety
  import opened Restarts
  import opened StateMachine
  import opened Wrappers

  const V: Volume := Volume("data")

  function Case(policy: FinalizePolicy): Config {
    Config({V}, {"source"}, policy)
  }

  /** Every rule but those named, from the start. */
  function AllBut(broken: set<Rule>): Keeps {
    Keeps({SoundResumes, WholeLooks, ProtectedRollbacks, RecordedRestarts, NoResumes, NoSuccesses} - broken, 0)
  }

  // ── up to FINALIZE ─────────────────────────────────────────────────────────

  /** Nothing was unpinned, and no restart was taken. */
  predicate Quiet(s: Sys) {
    !s.unpinned && s.accepted == [] && s.pending.None?
  }

  const START: World := World({V}, {V}, {}, false, {}, {}, {})

  const UNTOLD: Facts := Facts([], None, None, false, false, {}, false, false, false)

  lemma {:induction false} Start(c: Config, h: Keeps) returns (trace: seq<Sys>, t: Sys)
    requires c.data == {V}
    ensures Path(c, h, trace, t) && t.phase == Walking(0) && Quiet(t) && t.w == START
    ensures FactsOf(t.js) == UNTOLD
  {
    var s := Sys([], START, Idle, None, false, [], None);
    NothingSaid();
    trace, t := Begin(c, h, [s], s);
  }

  lemma {:induction false} NothingSaid()
    ensures FactsOf([]) == UNTOLD
  {
  }

  /** QUIESCE up to its stop request. */
  lemma {:induction false} StopAsked(c: Config, h: Keeps) returns (trace: seq<Sys>, t: Sys)
    requires c.data == {V}
    ensures Path(c, h, trace, t) && t.phase == Inside(4, 3) && Quiet(t)
    ensures t.w == START.(srcPin := {V}, unsettled := true)
    ensures FactsOf(t.js) == UNTOLD.(completed := ORDER[..4], inFlight := Some(Quiesce), stop := true)
  {
    trace, t := Start(c, h);
    assert ORDER[..0] == [];
    trace, t := Through(c, h, trace, t, 0, 4);
    trace, t := Enter(c, h, trace, t, 4);
    trace, t := AskToStop(c, h, trace, t);
  }

  lemma {:induction false} AskToStop(c: Config, h: Keeps, trace: seq<Sys>, s: Sys) returns (more: seq<Sys>, t: Sys)
    requires Path(c, h, trace, s) && s.phase == Inside(4, 0) && Quiet(s) && s.w == START
    requires FactsOf(s.js) == UNTOLD.(completed := ORDER[..4], inFlight := Some(Quiesce))
    ensures Path(c, h, more, t) && t.phase == Inside(4, 3) && Quiet(t)
    ensures t.w == START.(srcPin := {V}, unsettled := true)
    ensures FactsOf(t.js) == UNTOLD.(completed := ORDER[..4], inFlight := Some(Quiesce), stop := true)
  {
    var u := s.(w := s.w.(srcPin := s.w.srcPin + s.w.src * s.w.srcUse), phase := Inside(4, 1));
    assert QuiesceActs(s, u);
    more := Extend(c, h, trace, s, u);
    var e := Entry(StepStarted, Some(Quiesce), map[StopRequested := Flag(true)]);
    var v := u.(js := u.js + [e], phase := Inside(4, 2));
    assert QuiesceActs(u, v);
    more := Extend(c, h, more, u, v);
    FactsSnoc(s.js, e);
    t := v.(w := v.w.(unsettled := true), phase := Inside(4, 3));
    assert QuiesceActs(v, t);
    more := Extend(c, h, more, v, t);
  }

  const MOVED: World := World({V}, {}, {V}, true, {V}, {V}, {V})

  const WALKED: Facts := UNTOLD.(completed := ORDER[..11], inFlight := Some(Finalize), stop := true)

  /** Stopped, copied, verified and started: everything up to FINALIZE. */
  lemma {:induction false} ReadyToFinalize(c: Config, h: Keeps) returns (trace: seq<Sys>, t: Sys)
    requires c.data == {V}
    ensures Path(c, h, trace, t) && t.phase == Inside(11, 0) && Quiet(t) && t.w == MOVED && FactsOf(t.js) == WALKED
  {
    trace, t := StoppedAndMoved(c, h);
    trace, t := Through(c, h, trace, t, 5, 6);
    trace, t := Copied(c, h, trace, t);
    trace, t := Through(c, h, trace, t, 7, 11);
    trace, t := Enter(c, h, trace, t, 11);
  }

  /** And its first record. */
  lemma {:induction false} Migrated(c: Config, h: Keeps) returns (trace: seq<Sys>, t: Sys)
    requires c.data == {V}
    ensures Path(c, h, trace, t) && t.phase == Inside(11, 1) && Quiet(t) && t.w == MOVED
    ensures FactsOf(t.js) == WALKED.(policy := Some(PolicyIs(c.policy)))
  {
    trace, t := ReadyToFinalize(c, h);
    trace, t := NotePolicy(c, h, trace, t);
  }

  lemma {:induction false} StoppedAndMoved(c: Config, h: Keeps) returns (trace: seq<Sys>, t: Sys)
    requires c.data == {V}
    ensures Path(c, h, trace, t) && t.phase == Walking(5) && Quiet(t) && t.w == World({V}, {}, {V}, true, {}, {}, {})
    ensures FactsOf(t.js) == UNTOLD.(completed := ORDER[..5], stop := true)
  {
    trace, t := StopAsked(c, h);
    trace, t := StopLands(c, h, trace, t);
    trace, t := Complete(c, h, trace, t, 4);
  }

  lemma {:induction false} Copied(c: Config, h: Keeps, trace: seq<Sys>, s: Sys) returns (more: seq<Sys>, t: Sys)
    requires Path(c, h, trace, s) && s.phase == Walking(6) && Quiet(s) && s.w == World({V}, {}, {V}, true, {}, {}, {}) && c.data == {V}
    requires FactsOf(s.js) == UNTOLD.(completed := ORDER[..6], stop := true)
    ensures Path(c, h, more, t) && t.phase == Walking(7) && Quiet(t) && t.w == MOVED
    ensures FactsOf(t.js) == UNTOLD.(completed := ORDER[..7], stop := true)
  {
    more, t := Enter(c, h, trace, s, 6);
    more, t := Fill(c, h, more, t);
    more, t := Complete(c, h, more, t, 6);
  }

  lemma {:induction false} Fill(c: Config, h: Keeps, trace: seq<Sys>, s: Sys) returns (more: seq<Sys>, t: Sys)
    requires Path(c, h, trace, s) && s.phase == Inside(6, 0) && s.pending.None? && c.data == {V}
    requires s.w == World({V}, {}, {V}, true, {}, {}, {})
    ensures Path(c, h, more, t) && t == s.(w := MOVED, phase := Inside(6, 1))
  {
    var u := s.(w := s.w.(tgtPin := {V}), phase := Inside(6, 1));
    assert CopyActs(c, s, u);
    more := Extend(c, h, trace, s, u);
    var v := u.(w := u.w.(copied := {V}));
    assert CopyActs(c, u, v);
    more := Extend(c, h, more, u, v);
    t := v.(w := v.w.(tgtUse := {V}));
    assert TargetMoves(v, t);
    more := Extend(c, h, more, v, t);
  }

  // ── the look and the pin are not one ───────────────────────────────────────

  /** A finished KEEP: the target serves, and nothing keeps the source's volumes. */
  lemma {:induction false} Kept(h: Keeps) returns (trace: seq<Sys>, t: Sys)
    ensures Path(Case(Keep), h, trace, t) && t.phase.Idle? && Quiet(t) && t.w == MOVED.(srcPin := {}, tgtPin := {})
    ensures FactsOf(t.js) == WALKED.(completed := ORDER[..12], inFlight := None, policy := Some(PolicyIs(Keep)), finished := true)
  {
    var c := Case(Keep);
    var s: Sys;
    trace, s := Migrated(c, h);
    t := s.(w := s.w.(srcPin := {}, tgtPin := {}));
    assert FinalizeActs(c, s, t);
    trace := Extend(c, h, trace, s, t);
    trace, s := Complete(c, h, trace, t, 11);
    var e := Entry(Finished, None, map[]);
    t := s.(js := s.js + [e], phase := Idle);
    assert Finishes(s, t);
    trace := Extend(c, h, trace, s, t);
    FactsSnoc(s.js, e);
  }

  /** A prune between the guard's look and its pin loses the data: the pin skips a volume that
      is gone without a word, the rollback goes on and drops the only copy. */
  lemma {:induction false} PruneDuringLookLosesData() returns (trace: seq<Sys>, t: Sys)
    ensures Path(Case(Keep), AllBut({WholeLooks}), trace, t) && Lost(Case(Keep), t)
  {
    var c, h := Case(Keep), AllBut({WholeLooks});
    trace, t := Kept(h);
    trace, t := Ask(c, h, trace, t);
    trace, t := Look(c, h, trace, t);
    trace, t := PruneSource(c, h, trace, t);
    assert V in c.data && ORDER[..12][6] == Copy;
    trace, t := DroppedLookLoses(c, h, trace, t);
  }

  // ── resuming a rollback that was cut short ─────────────────────────────────

  /** A failed RENAME whose rollback dropped the target's volumes and died. */
  lemma {:induction false} CutShort(h: Keeps) returns (trace: seq<Sys>, t: Sys)
    ensures Path(Case(Rename), h, trace, t) && t.phase.Idle? && Quiet(t) && t.w == MOVED.(copied := {}, tgtPin := {})
    ensures FactsOf(t.js).completed == ORDER[..11] && FactsOf(t.js).undone && !FactsOf(t.js).finished
  {
    var c := Case(Rename);
    trace, t := Migrated(c, h);
    trace, t := Fail(c, h, trace, t);
    trace, t := Look(c, h, trace, t);
    trace, t := Repin(c, h, trace, t);
    assert ORDER[..11][6] == Copy;
    trace, t := DropTarget(c, h, trace, t);
    trace, t := Die(c, h, trace, t);
  }

  /** Nothing refuses to resume it; FINALIZE then lets go of the source, whose data is the last. */
  lemma {:induction false} ResumeAfterRollbackLosesData() returns (trace: seq<Sys>, t: Sys)
    ensures Path(Case(Rename), AllBut({SoundResumes, NoResumes}), trace, t) && Lost(Case(Rename), t)
  {
    var c, h := Case(Rename), AllBut({SoundResumes, NoResumes});
    trace, t := CutShort(h);
    trace, t := Begin(c, h, trace, t);
    NotBefore(11, 11);
    assert V in c.data && ORDER[..11][7] == Verify && ORDER[11] == Finalize;
    trace, t := UnsoundResumeLoses(c, h, trace, t, 11);
  }

  // ── rolling back after an unpin ────────────────────────────────────────────

  /** QUIESCE fails with its stop requested, and Coolify declines the restart in its rollback. */
  lemma {:induction false} RestartRefused(h: Keeps) returns (trace: seq<Sys>, t: Sys)
    ensures Path(Case(Keep), h, trace, t) && t.phase.Idle? && Quiet(t)
    ensures t.w == START.(srcPin := {V}, unsettled := true)
    ensures FactsOf(t.js) == UNTOLD.(completed := ORDER[..4], stop := true, began := true, undone := true, finished := true)
  {
    var c := Case(Keep);
    trace, t := StopAsked(c, h);
    trace, t := Fail(c, h, trace, t);
    trace, t := Pass(c, h, trace, t);
    trace, t := AtRestart(c, h, trace, t);
    trace, t := PassOver(c, h, trace, t, |t.phase.plan|);
    var s, e := t, Entry(RolledBack, None, map[]);
    t := s.(js := s.js + [e], phase := Idle);
    assert UndoEnds(s, t);
    trace := Extend(c, h, trace, s, t);
    FactsSnoc(s.js, e);
  }

  /** The source came up after all, so the pins may go; another rollback then restarts it. */
  lemma {:induction false} RollbackAfterUnpinLosesData() returns (trace: seq<Sys>, t: Sys)
    ensures Path(Case(Keep), AllBut({ProtectedRollbacks}), trace, t) && Lost(Case(Keep), t)
  {
    var c, h := Case(Keep), AllBut({ProtectedRollbacks});
    var s: Sys;
    trace, s := RestartRefused(h);
    t := s.(w := s.w.(srcPin := {}, unsettled := false), unpinned := true);
    assert Unpins(s, t);
    trace := Extend(c, h, trace, s, t);
    trace, t := Ask(c, h, trace, t);
    assert V in c.data && "source" in c.sources;
    trace, t := UnprotectedLoses(c, h, trace, t);
  }

  // ── a restart that is taken and not recorded ───────────────────────────────

  /** The process dies between Coolify's answer and its record. Nothing tells the next rollback,
      which restarts the source a second time: under all other rules, and with the data safe, one
      stop is followed by two restarts. */
  lemma {:induction false} CrashBeforeNoteRestartsTwice() returns (trace: seq<Sys>, t: Sys)
    ensures Path(Case(Keep), AllBut({RecordedRestarts}), trace, t) && t.accepted == ["source", "source"]
  {
    var c, h := Case(Keep), AllBut({RecordedRestarts});
    trace, t := StopAsked(c, h);
    trace, t := Fail(c, h, trace, t);
    trace, t := Pass(c, h, trace, t);
    trace, t := AtRestart(c, h, trace, t);
    trace, t := TakeRestart(c, h, trace, t, "source");
    trace, t := Die(c, h, trace, t);
    trace, t := AskAgain(c, h, trace, t);
    trace, t := TakeRestart(c, h, trace, t, "source");
  }

  // ── runs for the hand-over of hosts ────────────────────────────────────────

  /** A migration that would delete its source fails before FINALIZE's first record, and its
      rollback comes to delete the target. */
  lemma {:induction false} AtDelete(h: Keeps) returns (trace: seq<Sys>, t: Sys)
    ensures Path(Case(Delete), h, trace, t) && Quiet(t)
    ensures t.phase.Undoing? && t.phase.plan != [] && t.phase.plan[0].compensation.DeleteTargetResource?
    ensures FactsOf(t.js).completed == ORDER[..11] && !FactsOf(t.js).finished
  {
    var c := Case(Delete);
    trace, t := ReadyToFinalize(c, h);
    trace, t := Fail(c, h, trace, t);
    trace, t := Pass(c, h, trace, t);
    trace, t := AtRestart(c, h, trace, t);
    trace, t := PassOver(c, h, trace, t, IndexOf(t.phase.plan, DeleteTargetResource));
  }

  /** It dies there, and is resumed up to FINALIZE. */
  lemma {:induction false} DieAndResume(c: Config, h: Keeps, trace: seq<Sys>, s: Sys) returns (more: seq<Sys>, t: Sys)
    requires Path(c, h, trace, s) && h.rules !! {SoundResumes, NoResumes} && s.pending.None? && !s.phase.Looked?
    requires !FactsOf(s.js).finished && FactsOf(s.js).completed == ORDER[..11]
    ensures Path(c, h, more, t) && trace <= more && t.phase == Inside(11, 1)
  {
    more, t := Die(c, h, trace, s);
    more, t := Begin(c, h, more, t);
    more, t := SkipTo(c, h, more, t, 11);
    more, t := Enter(c, h, more, t, 11);
    more, t := NotePolicy(c, h, more, t);
  }
}
