/** Handing custom hosts from a source to its target and back, inside the phases of a migration:
    some live resource holds each of them at every instant. */
module Handover {
  import opened Journal
  import opened Migration
  import opened Protocol
  import opened ProtocolSafety
  import opened Restarts
  import opened StateMachine
  import opened Wrappers

  /** One resource: the custom hosts its restore body names, what its source and its target
      hold, whether FINALIZE has just read the target to hold what the source would let go of,
      and whether an undo has just read the source to hold all of them. */
  datatype Hold = Hold(custom: set<string>, src: set<string>, tgt: Option<set<string>>, checked: bool, cleared: bool)

  /** The migration and the hosts of its resources. */
  datatype Stage = Stage(sys: Sys, holds: seq<Hold>)

  function TargetHosts(h: Hold): set<string> {
    if h.tgt.None? then {} else h.tgt.value
  }

  /** Every custom host is held by the source or by its target. */
  predicate Held(h: Hold) {
    h.custom <= h.src + TargetHosts(h)
  }

  predicate Fresh(h: Hold) {
    h.custom <= h.src && h.tgt.None? && !h.checked && !h.cleared
  }

  // ── what the tool does to one resource ─────────────────────────────────────

  /** CREATE makes the target, whatever it then holds. */
  ghost predicate Creates(h: Hold, g: Hold) {
    h.tgt.None? && g.tgt.Some? && g == h.(tgt := g.tgt)
  }

  /** It claims: the request names every custom host, and is taken or not. */
  ghost predicate Claims(h: Hold, g: Hold) {
    && h.tgt.Some? && g.tgt.Some? && g == h.(tgt := g.tgt)
    && (h.custom <= g.tgt.value || g.tgt == h.tgt)
  }

  /** FINALIZE reads both: the target holds every custom host the source would let go of. */
  ghost predicate Checks(h: Hold, g: Hold) {
    h.tgt.Some? && h.custom * h.src <= h.tgt.value && g == h.(checked := true)
  }

  /** Then the source lets go - or the request fails, or it is lost and lands all the same. */
  ghost predicate Releases(h: Hold, g: Hold) {
    h.checked && (g.src == h.src || g.src == h.src - h.custom) && g == h.(src := g.src, checked := false)
  }

  /** DELETE deletes the source without a look at the target. */
  ghost predicate DeletesSource(h: Hold, g: Hold) {
    g == h.(src := {})
  }

  /** A rollback gives the source its hosts back, if the request is taken. */
  ghost predicate Restores(h: Hold, g: Hold) {
    (g.src == h.src || g.src == h.src + h.custom) && g == h.(src := g.src)
  }

  /** An undo reads the source: it holds every custom host. */
  ghost predicate Reads(h: Hold, g: Hold) {
    h.tgt.Some? && h.custom <= h.src && g == h.(cleared := true)
  }

  /** Then it deletes the target, if the request is taken. */
  ghost predicate Deletes(h: Hold, g: Hold) {
    h.tgt.Some? && h.cleared && (g.tgt.None? || g.tgt == h.tgt) && g == h.(tgt := g.tgt, cleared := false)
  }

  predicate AtCreate(s: Sys) {
    s.phase.Inside? && s.phase.at == 3
  }

  /** FINALIZE, past the record of its policy. */
  predicate AtFinalize(s: Sys) {
    s.phase.Inside? && s.phase.at == 11 && s.phase.stage == 1
  }

  predicate AtUndo(s: Sys, comp: Compensation) {
    s.phase.Undoing? && s.phase.plan != [] && s.phase.plan[0].compensation == comp
  }

  /** Which of them each phase does. An unfinished CREATE undoes itself, targets first. */
  ghost predicate Handles(c: Config, s: Sys, h: Hold, g: Hold) {
    || (AtCreate(s) && (Creates(h, g) || Claims(h, g) || Reads(h, g) || Deletes(h, g) || Restores(h, g)))
    || (AtFinalize(s) && if c.policy.Delete? then DeletesSource(h, g) else Checks(h, g) || Releases(h, g))
    || (AtUndo(s, RestoreSourceFqdn) && Restores(h, g))
    || (AtUndo(s, DeleteTargetResource) && (Reads(h, g) || Deletes(h, g)))
  }

  /** Somebody else, at any time: hosts come and go on either side. */
  ghost predicate Meddles(h: Hold, g: Hold) {
    (h.tgt.Some? <==> g.tgt.Some?) && g == h.(src := g.src, tgt := g.tgt)
  }

  // ── a migration and its hosts ──────────────────────────────────────────────

  function Forgotten(h: Hold): Hold {
    h.(checked := false, cleared := false)
  }

  /** What was read is acted on within the same phase, or forgotten. */
  ghost predicate Carried(a: Stage, b: Stage) {
    && |b.holds| == |a.holds|
    && forall i :: 0 <= i < |a.holds| ==>
         b.holds[i] == if b.sys.phase == a.sys.phase then a.holds[i] else Forgotten(a.holds[i])
  }

  ghost predicate AllClaimed(holds: seq<Hold>) {
    forall i :: 0 <= i < |holds| ==> holds[i].custom <= TargetHosts(holds[i])
  }

  ghost predicate AllBack(holds: seq<Hold>) {
    forall i :: 0 <= i < |holds| ==> holds[i].custom <= holds[i].src
  }

  ghost predicate AllGone(holds: seq<Hold>) {
    forall i :: 0 <= i < |holds| ==> holds[i].tgt.None?
  }

  /** A step of the migration. CREATE completes only with every claim read back; the undo of
      the domains and of the targets are recorded as done only when nothing is left of them. */
  ghost predicate Moves(c: Config, a: Stage, b: Stage) {
    && Next(c, a.sys, b.sys) && Carried(a, b)
    && (AtCreate(a.sys) && b.sys.phase == Walking(4) ==> AllClaimed(a.holds))
    && (AtUndo(a.sys, RestoreSourceFqdn) && UndoRecords(c, a.sys, b.sys, true) ==> AllBack(a.holds))
    && (AtUndo(a.sys, DeleteTargetResource) && UndoRecords(c, a.sys, b.sys, true) ==> AllGone(a.holds))
  }

  ghost predicate One(a: Stage, b: Stage, i: nat) {
    i < |a.holds| == |b.holds| && b == a.(holds := a.holds[i := b.holds[i]])
  }

  ghost predicate Handled(c: Config, a: Stage, b: Stage, i: nat) {
    One(a, b, i) && Handles(c, a.sys, a.holds[i], b.holds[i])
  }

  ghost predicate Meddled(a: Stage, b: Stage, i: nat) {
    One(a, b, i) && Meddles(a.holds[i], b.holds[i])
  }

  // What must not happen.

  /** Others take a host from its last holder, ... */
  ghost predicate LastHolderKeeps(h: Hold, g: Hold) {
    h.custom * (h.src + TargetHosts(h)) <= g.src + TargetHosts(g)
  }

  /** ... or from the target between FINALIZE's check and the release, ... */
  ghost predicate CheckedKeeps(h: Hold, g: Hold) {
    h.checked ==> h.custom * TargetHosts(h) <= TargetHosts(g)
  }

  /** ... or from the source between an undo's read and the delete, ... */
  ghost predicate ReadKeeps(h: Hold, g: Hold) {
    h.cleared ==> h.custom * h.src <= g.src
  }

  /** ... or, when FINALIZE will delete the source, from a target that CREATE is done with. */
  ghost predicate OnlyTargetKeeps(c: Config, s: Sys, h: Hold, g: Hold) {
    Committed(c, s) ==> h.custom * TargetHosts(h) <= TargetHosts(g)
  }

  ghost predicate Committed(c: Config, s: Sys) {
    c.policy.Delete? && CreateTarget in CompletedStates(s.js) && !RollbackBegan(s.js)
  }

  /** Which of these a run keeps to, and whether a migration that deletes its source is never
      resumed after a rollback. */
  datatype Rules = Rules(noResume: bool, lastHolder: bool, betweenCheck: bool, betweenRead: bool, onlyTarget: bool)

  const ALL: Rules := Rules(true, true, true, true, true)

  ghost predicate Obeys(c: Config, r: Rules, s: Sys, h: Hold, g: Hold) {
    && (r.lastHolder ==> LastHolderKeeps(h, g))
    && (r.betweenCheck ==> CheckedKeeps(h, g))
    && (r.betweenRead ==> ReadKeeps(h, g))
    && (r.onlyTarget ==> OnlyTargetKeeps(c, s, h, g))
  }

  ghost predicate RuledNext(c: Config, r: Rules, a: Stage, b: Stage) {
    || (Moves(c, a, b) && (r.noResume && c.policy.Delete? ==> NoResumeAfterRollback(a.sys, b.sys)))
    || (exists i: nat :: Handled(c, a, b, i))
    || exists i: nat :: Meddled(a, b, i) && Obeys(c, r, a.sys, a.holds[i], b.holds[i])
  }

  ghost predicate Outset(c: Config, a: Stage) {
    Initial(c, a.sys) && forall i :: 0 <= i < |a.holds| ==> Fresh(a.holds[i])
  }

  ghost predicate RuledRun(c: Config, r: Rules, run: seq<Stage>) {
    run != [] && Outset(c, run[0]) && forall k :: 0 <= k < |run| - 1 ==> RuledAt(c, r, run, k)
  }

  ghost predicate RuledAt(c: Config, r: Rules, run: seq<Stage>, k: int) {
    0 <= k < |run| - 1 && RuledNext(c, r, run[k], run[k + 1])
  }

  // ── every host is held ─────────────────────────────────────────────────────

  ghost predicate Placed(c: Config, s: Sys) {
    var f := FactsOf(s.js);
    InOrder(f, s) && Marked(c, f, s) && (c.policy.Delete? ==> Stops(f, s))
  }

  ghost predicate Sound(c: Config, s: Sys, h: Hold) {
    && Held(h)
    && (h.checked ==> AtFinalize(s) && !c.policy.Delete? && h.tgt.Some? && h.custom * h.src <= h.tgt.value)
    && (h.cleared ==> (AtCreate(s) || AtUndo(s, DeleteTargetResource)) && h.custom <= h.src)
    && (Committed(c, s) ==> h.custom <= TargetHosts(h))
  }

  ghost predicate AllSound(c: Config, a: Stage) {
    Placed(c, a.sys) && forall i :: 0 <= i < |a.holds| ==> Sound(c, a.sys, a.holds[i])
  }

  lemma {:induction false} PlacedInit(c: Config, s: Sys)
    requires Initial(c, s)
    ensures Placed(c, s) && !Committed(c, s)
  {
    assert FactsOf([]) == Facts([], None, None, false, false, {}, false, false, false);
  }

  lemma {:induction false} PlacedSteps(c: Config, s: Sys, t: Sys)
    requires Placed(c, s) && Next(c, s, t) && (c.policy.Delete? ==> NoResumeAfterRollback(s, t))
    ensures Placed(c, t)
  {
    WritesOne(c, s, t);
    FactsFollow(s, t);
    OrderSteps(c, s, t, FactsOf(s.js), FactsOf(t.js));
    MarkedSteps(c, s, t, FactsOf(s.js), FactsOf(t.js));
    if c.policy.Delete? {
      StopsSteps(c, s, t, FactsOf(s.js), FactsOf(t.js));
    }
  }

  /** CREATE is completed when a fourth state is. */
  lemma {:induction false} CreatedAtFour(f: Facts, s: Sys)
    requires InOrder(f, s)
    ensures CreateTarget in f.completed <==> 4 <= |f.completed|
  {
    if 4 <= |f.completed| {
      assert ORDER[..|f.completed|][3] == CreateTarget;
    }
  }

  /** Only the step out of CREATE makes it completed, and a rollback never ends. */
  lemma {:induction false} CommitsAtCreate(c: Config, s: Sys, t: Sys)
    requires Placed(c, s) && Placed(c, t) && Next(c, s, t) && Committed(c, t) && !Committed(c, s)
    ensures AtCreate(s) && t.phase == Walking(4)
  {
    var f, g := FactsOf(s.js), FactsOf(t.js);
    CreatedAtFour(f, s);
    CreatedAtFour(g, t);
    WritesOne(c, s, t);
    FactsFollow(s, t);
    CompletesOne(c, s, t, f, g);
  }

  lemma {:induction false} CompletesOne(c: Config, s: Sys, t: Sys, f: Facts, g: Facts)
    requires InOrder(f, s) && Follows(s, t, f, g) && Next(c, s, t)
    ensures f.began ==> g.began
    ensures |g.completed| > |f.completed| ==> s.phase.Inside? && s.phase.at == |f.completed| && t.phase == Walking(s.phase.at + 1)
    ensures |f.completed| <= |g.completed| <= |f.completed| + 1
  {
    if t.js != s.js && t.js[|s.js|].event.StepCompleted? {
      OnlyCompletes(c, s, t);
    }
  }

  lemma {:induction false} OnlyCompletes(c: Config, s: Sys, t: Sys)
    requires Next(c, s, t) && |t.js| > |s.js| && t.js[|s.js|].event.StepCompleted?
    ensures exists detail :: Completes(c, s, t, detail)
  {
    if RollbackNext(c, s, t) {
    }
  }

  lemma {:induction false} MoveSound(c: Config, a: Stage, b: Stage, i: nat)
    requires AllSound(c, a) && Moves(c, a, b) && Placed(c, b.sys) && i < |a.holds|
    ensures i < |b.holds| && Sound(c, b.sys, b.holds[i])
  {
    var h := a.holds[i];
    assert Sound(c, a.sys, h);
    if Committed(c, b.sys) && !Committed(c, a.sys) {
      CommitsAtCreate(c, a.sys, b.sys);
    }
  }

  lemma {:induction false} HandleSound(c: Config, s: Sys, h: Hold, g: Hold)
    requires Placed(c, s) && Sound(c, s, h) && Handles(c, s, h, g)
    ensures Sound(c, s, g)
  {
    var f := FactsOf(s.js);
    CreatedAtFour(f, s);
    if AtCreate(s) {
      CreateSound(c, s, h, g);
    } else if AtFinalize(s) {
      FinalizeSound(c, s, h, g);
    }
  }

  lemma {:induction false} CreateSound(c: Config, s: Sys, h: Hold, g: Hold)
    requires Sound(c, s, h) && AtCreate(s) && !Committed(c, s)
    requires Creates(h, g) || Claims(h, g) || Reads(h, g) || Deletes(h, g) || Restores(h, g)
    ensures Sound(c, s, g)
  {
  }

  lemma {:induction false} FinalizeSound(c: Config, s: Sys, h: Hold, g: Hold)
    requires Placed(c, s) && Sound(c, s, h) && AtFinalize(s)
    requires if c.policy.Delete? then DeletesSource(h, g) else Checks(h, g) || Releases(h, g)
    ensures Sound(c, s, g)
  {
    CreatedAtFour(FactsOf(s.js), s);
    if c.policy.Delete? {
      assert Committed(c, s);
    }
  }

  lemma {:induction false} MeddleSound(c: Config, s: Sys, h: Hold, g: Hold)
    requires Sound(c, s, h) && Meddles(h, g) && Obeys(c, ALL, s, h, g)
    ensures Sound(c, s, g)
  {
  }

  lemma {:induction false} OneSound(c: Config, a: Stage, b: Stage, i: nat)
    requires AllSound(c, a) && One(a, b, i) && Sound(c, a.sys, b.holds[i])
    ensures AllSound(c, b)
  {
    forall j | 0 <= j < |b.holds| ensures Sound(c, b.sys, b.holds[j]) {
      if j != i { assert b.holds[j] == a.holds[j]; }
    }
  }

  lemma {:induction false} StepSound(c: Config, a: Stage, b: Stage)
    requires AllSound(c, a) && RuledNext(c, ALL, a, b)
    ensures AllSound(c, b)
  {
    if i: nat :| Handled(c, a, b, i) {
      HandleSound(c, a.sys, a.holds[i], b.holds[i]);
      OneSound(c, a, b, i);
    } else if i: nat :| Meddled(a, b, i) && Obeys(c, ALL, a.sys, a.holds[i], b.holds[i]) {
      MeddleSound(c, a.sys, a.holds[i], b.holds[i]);
      OneSound(c, a, b, i);
    } else {
      PlacedSteps(c, a.sys, b.sys);
      forall i | 0 <= i < |b.holds| ensures Sound(c, b.sys, b.holds[i]) {
        MoveSound(c, a, b, i);
      }
    }
  }

  lemma {:induction false} SoundAt(c: Config, run: seq<Stage>, k: nat)
    requires RuledRun(c, ALL, run) && k + 1 < |run| && AllSound(c, run[k])
    ensures AllSound(c, run[k + 1])
  {
    assert RuledAt(c, ALL, run, k);
    StepSound(c, run[k], run[k + 1]);
  }

  lemma {:induction false} SoundAlways(c: Config, run: seq<Stage>, k: nat)
    requires RuledRun(c, ALL, run) && k < |run|
    ensures AllSound(c, run[k])
  {
    if k == 0 {
      PlacedInit(c, run[0].sys);
    } else {
      SoundAlways(c, run, k - 1);
      SoundAt(c, run, k - 1);
    }
  }

  /** At every instant of every run - crashes, claims and releases that fail or land late, an
      unfinished CREATE that undoes itself, rollbacks cut short and repeated, under any policy -
      each custom host of each source is held by it or its target. */
  lemma {:induction false} AlwaysHeld(c: Config, run: seq<Stage>, k: nat, i: nat)
    requires RuledRun(c, ALL, run) && k < |run| && i < |run[k].holds|
    ensures Held(run[k].holds[i])
  {
    SoundAlways(c, run, k);
  }

  /** From a sound state, exactly the changes that the rules forbid lose a host: at once, which for
      a sound hold says little more than the rule, or at the tool's next act - the release or the
      delete of the target that it is about to make, and the delete of the source as if it came
      next, though a host lost before FINALIZE may be back by then. */
  lemma {:induction false} RulesAreExact(c: Config, s: Sys, h: Hold, g: Hold)
    requires Sound(c, s, h) && Meddles(h, g)
    ensures Held(g) <==> LastHolderKeeps(h, g)
    ensures h.checked ==> (Held(g.(src := g.src - g.custom, checked := false)) <==> CheckedKeeps(h, g))
    ensures h.cleared ==> (Held(g.(tgt := None, cleared := false)) <==> ReadKeeps(h, g))
    ensures Committed(c, s) ==> (Held(g.(src := {})) <==> OnlyTargetKeeps(c, s, h, g))
  {
    assert h.custom * (h.src + TargetHosts(h)) == h.custom;
    assert h.checked ==> h.custom * TargetHosts(h) == h.custom;
    assert h.cleared ==> h.custom * h.src == h.custom;
    assert Committed(c, s) ==> h.custom * TargetHosts(h) == h.custom;
  }

  // ── before FINALIZE, and on the way back ───────────────────────────────────

  /** Since the rollback began, how the last attempt at one compensation went. */
  function OutcomeOf(js: seq<Entry>, comp: Compensation): Option<bool> {
    if js == [] then None
    else
      var last := js[|js| - 1];
      if last.event.RollbackStarted? then None
      else if && last.event.RollbackStepped? && CompensationKey in last.detail && last.detail[CompensationKey] == Action(comp)
              && Ok in last.detail && last.detail[Ok].Flag?
      then Some(last.detail[Ok].on)
      else OutcomeOf(js[..|js| - 1], comp)
  }

  function OutcomeTold(told: Option<bool>, e: Entry, comp: Compensation): Option<bool> {
    if e.event.RollbackStarted? then None
    else if && e.event.RollbackStepped? && CompensationKey in e.detail && e.detail[CompensationKey] == Action(comp)
            && Ok in e.detail && e.detail[Ok].Flag?
    then Some(e.detail[Ok].on)
    else told
  }

  lemma {:induction false} OutcomeSnoc(js: seq<Entry>, e: Entry, comp: Compensation)
    ensures OutcomeOf(js + [e], comp) == OutcomeTold(OutcomeOf(js, comp), e, comp)
  {
    assert (js + [e])[..|js|] == js;
  }

  /** Once FINALIZE has begun, a rollback restores the domains before it deletes a target. */
  ghost predicate RestoresFirst(s: Sys) {
    s.phase.Undoing? && FinalizeBegan(s.js) ==>
      OutcomeOf(s.js, RestoreSourceFqdn).Some?
      || IndexOf(s.phase.plan, RestoreSourceFqdn) < IndexOf(s.phase.plan, DeleteTargetResource)
  }

  /** A record that is no policy tells none. */
  lemma {:induction false} PolicyUntold(js: seq<Entry>, e: Entry)
    requires PolicyKey !in e.detail
    ensures FinalizeBegan(js + [e]) <==> FinalizeBegan(js)
  {
    MarkSnoc(js + [e], Finalize, PolicyKey);
    assert (js + [e])[..|js|] == js;
  }

  lemma {:induction false} PlanRestoresFirst(js: seq<Entry>, explicit: bool)
    requires CreateTarget in CompletedStates(js) && Quiesce in CompletedStates(js)
    ensures var plan := MigrationPlan(OwedFrom(js, explicit));
            IndexOf(plan, RestoreSourceFqdn) < IndexOf(plan, DeleteTargetResource)
  {
    var owed := OwedFrom(js, explicit);
    assert CreateTarget in owed && Quiesce in owed by {
      assert ORDER[3] == CreateTarget && ORDER[4] == Quiesce;
    }
    PlanOrderOf(owed);
  }

  lemma {:induction false} BothCompleted(c: Config, s: Sys)
    requires InOrder(FactsOf(s.js), s) && Marked(c, FactsOf(s.js), s) && FinalizeBegan(s.js)
    ensures CreateTarget in CompletedStates(s.js) && Quiesce in CompletedStates(s.js)
  {
    var states := CompletedStates(s.js);
    assert states == ORDER[..|states|] && 8 <= |states|;
    assert states[3] == ORDER[3] && states[4] == ORDER[4];
  }

  lemma {:induction false} PlansRestoreFirst(c: Config, s: Sys, t: Sys)
    requires InOrder(FactsOf(s.js), s) && Marked(c, FactsOf(s.js), s) && Plans(s, t)
    ensures RestoresFirst(t)
  {
    if t.phase.Undoing? {
      PolicyUntold(s.js, Entry(RollbackStarted, None, map[]));
      if FinalizeBegan(s.js) {
        BothCompleted(c, s);
        PlanRestoresFirst(s.js, s.phase.explicit);
      }
    }
  }

  lemma {:induction false} RecordsRestoreFirst(c: Config, s: Sys, t: Sys, ok: bool)
    requires RestoresFirst(s) && UndoRecords(c, s, t, ok)
    ensures RestoresFirst(t)
  {
    var step := s.phase.plan[0];
    var e := OutcomeNote(step, ok);
    OutcomeSnoc(s.js, e, RestoreSourceFqdn);
    PolicyUntold(s.js, e);
  }

  lemma {:induction false} OthersRestoreFirst(c: Config, s: Sys, t: Sys)
    requires RestoresFirst(s) && Next(c, s, t) && !Plans(s, t) && !exists ok :: UndoRecords(c, s, t, ok)
    requires t.phase.Undoing?
    ensures RestoresFirst(t)
  {
    UndoingStays(c, s, t);
    if t.js != s.js {
      var e := t.js[|s.js|];
      OutcomeSnoc(s.js, e, RestoreSourceFqdn);
      PolicyUntold(s.js, e);
    }
  }

  lemma {:induction false} NoRunUndoes(c: Config, s: Sys, t: Sys)
    requires (RunNext(c, s, t) || WorldNext(s, t)) && t.phase.Undoing?
    ensures s.phase == t.phase && t.js == s.js
  {
  }

  lemma {:induction false} ActsStay(c: Config, s: Sys, t: Sys)
    requires UndoActs(c, s, t)
    ensures s.phase == t.phase
    ensures t.js == s.js || (s.pending.Some? && t.js == s.js + [RestartNote(s.pending.value)])
  {
  }

  /** An undo goes on with the same plan, and records at most a restart. */
  lemma {:induction false} UndoingStays(c: Config, s: Sys, t: Sys)
    requires Next(c, s, t) && !Plans(s, t) && t.phase.Undoing? && !exists ok :: UndoRecords(c, s, t, ok)
    ensures s.phase == t.phase
    ensures t.js == s.js || (s.pending.Some? && t.js == s.js + [RestartNote(s.pending.value)])
  {
    if UndoActs(c, s, t) {
      ActsStay(c, s, t);
    } else if RunNext(c, s, t) || WorldNext(s, t) {
      NoRunUndoes(c, s, t);
    }
  }

  lemma {:induction false} RestoresFirstAt(c: Config, trace: seq<Sys>, i: nat)
    requires Run(c, trace) && i + 1 < |trace| && RestoresFirst(trace[i])
    ensures RestoresFirst(trace[i + 1])
  {
    InOrderAlways(c, trace, i);
    MarkedAlways(c, trace, i);
    assert NextAt(c, trace, i);
    RestoresFirstStep(c, trace[i], trace[i + 1]);
  }

  lemma {:induction false} RestoresFirstAlways(c: Config, trace: seq<Sys>, i: nat)
    requires Run(c, trace) && i < |trace|
    ensures RestoresFirst(trace[i])
  {
    if i > 0 {
      RestoresFirstAlways(c, trace, i - 1);
      RestoresFirstAt(c, trace, i - 1);
    }
  }

  lemma {:induction false} RestoresFirstStep(c: Config, s: Sys, t: Sys)
    requires RestoresFirst(s) && Next(c, s, t) && InOrder(FactsOf(s.js), s) && Marked(c, FactsOf(s.js), s)
    ensures RestoresFirst(t)
  {
    if Plans(s, t) {
      PlansRestoreFirst(c, s, t);
    } else if ok :| UndoRecords(c, s, t, ok) {
      RecordsRestoreFirst(c, s, t, ok);
    } else if t.phase.Undoing? {
      OthersRestoreFirst(c, s, t);
    }
  }

  /** In every run: when a rollback comes to delete the targets and FINALIZE had begun, it has
      tried to give every source its hosts back before. */
  lemma {:induction false} RestoredBeforeDeleted(c: Config, trace: seq<Sys>, i: nat)
    requires Run(c, trace) && i < |trace|
    requires AtUndo(trace[i], DeleteTargetResource) && FinalizeBegan(trace[i].js)
    ensures OutcomeOf(trace[i].js, RestoreSourceFqdn).Some?
  {
    RestoresFirstAlways(c, trace, i);
  }

  /** Others leave the sources alone before FINALIZE begins, and while a rollback runs. */
  ghost predicate LeavesSource(s: Sys, h: Hold, g: Hold) {
    !FinalizeBegan(s.js) || s.phase.Undoing? ==> h.custom * h.src <= g.src
  }

  ghost predicate KindNext(c: Config, a: Stage, b: Stage) {
    || Moves(c, a, b)
    || (exists i: nat :: Handled(c, a, b, i))
    || exists i: nat :: Meddled(a, b, i) && LeavesSource(a.sys, a.holds[i], b.holds[i])
  }

  ghost predicate KindRun(c: Config, run: seq<Stage>) {
    run != [] && Outset(c, run[0]) && forall k :: 0 <= k < |run| - 1 ==> KindAt(c, run, k)
  }

  ghost predicate KindAt(c: Config, run: seq<Stage>, k: int) {
    0 <= k < |run| - 1 && KindNext(c, run[k], run[k + 1])
  }

  /** Which runs these are: the migration may take any step and the tool any act, and anyone else may
      change what both sides hold, but for taking a custom host off a source that FINALIZE has not
      come to or a rollback has. */
  lemma {:induction false} KindRunGrows(c: Config, run: seq<Stage>, b: Stage, i: nat)
    requires KindRun(c, run) || (|run| == 1 && Outset(c, run[0]))
    requires var a := run[|run| - 1];
             || Moves(c, a, b) || Handled(c, a, b, i)
             || (&& b.sys == a.sys && i < |a.holds| && |b.holds| == |a.holds| && b.holds == a.holds[i := b.holds[i]]
                 && var h, g := a.holds[i], b.holds[i];
                    && g.custom == h.custom && g.checked == h.checked && g.cleared == h.cleared && (g.tgt.Some? <==> h.tgt.Some?)
                    && (!FinalizeBegan(a.sys.js) || a.sys.phase.Undoing? ==> h.custom * h.src <= g.src))
    ensures KindRun(c, run + [b])
  {
    var more := run + [b];
    forall k | 0 <= k < |more| - 1 ensures KindAt(c, more, k) {
      if k == |run| - 1 {
        assert more[k] == run[k] && more[k + 1] == b;
        if !Moves(c, run[k], b) && !Handled(c, run[k], b, i) {
          assert Meddled(run[k], b, i) && LeavesSource(run[k].sys, run[k].holds[i], b.holds[i]);
        }
      } else {
        assert KindAt(c, run, k);
      }
    }
  }

  ghost predicate Ordered(c: Config, s: Sys) {
    InOrder(FactsOf(s.js), s) && Marked(c, FactsOf(s.js), s)
  }

  /** The source has not let go yet; or it has its hosts back; and the target is gone. */
  ghost predicate GivenBack(s: Sys, h: Hold) {
    && (!FinalizeBegan(s.js) ==> h.custom <= h.src)
    && (s.phase.Undoing? && OutcomeOf(s.js, RestoreSourceFqdn) == Some(true) ==> h.custom <= h.src)
    && (s.phase.Undoing? && OutcomeOf(s.js, DeleteTargetResource) == Some(true) ==> h.tgt.None?)
  }

  ghost predicate AllGivenBack(c: Config, a: Stage) {
    Ordered(c, a.sys) && forall i :: 0 <= i < |a.holds| ==> GivenBack(a.sys, a.holds[i])
  }

  lemma {:induction false} OrderedSteps(c: Config, s: Sys, t: Sys)
    requires Ordered(c, s) && Next(c, s, t)
    ensures Ordered(c, t) && (FinalizeBegan(s.js) ==> FinalizeBegan(t.js))
  {
    WritesOne(c, s, t);
    FactsFollow(s, t);
    OrderSteps(c, s, t, FactsOf(s.js), FactsOf(t.js));
    MarkedSteps(c, s, t, FactsOf(s.js), FactsOf(t.js));
  }

  lemma {:induction false} HandleGivesBack(c: Config, s: Sys, h: Hold, g: Hold)
    requires Ordered(c, s) && GivenBack(s, h) && Handles(c, s, h, g)
    ensures GivenBack(s, g)
  {
  }

  /** What an undo records of itself agrees with the hosts. */
  lemma {:induction false} RecordGivesBack(c: Config, a: Stage, b: Stage, ok: bool, i: nat)
    requires AllGivenBack(c, a) && Moves(c, a, b) && UndoRecords(c, a.sys, b.sys, ok) && i < |a.holds|
    requires FinalizeBegan(a.sys.js) ==> FinalizeBegan(b.sys.js)
    ensures i < |b.holds| && GivenBack(b.sys, b.holds[i])
  {
    var e := OutcomeNote(a.sys.phase.plan[0], ok);
    OutcomeSnoc(a.sys.js, e, RestoreSourceFqdn);
    OutcomeSnoc(a.sys.js, e, DeleteTargetResource);
    assert GivenBack(a.sys, a.holds[i]);
  }

  lemma {:induction false} PlanGivesBack(c: Config, a: Stage, b: Stage, i: nat)
    requires AllGivenBack(c, a) && Moves(c, a, b) && Plans(a.sys, b.sys) && i < |a.holds|
    requires FinalizeBegan(a.sys.js) ==> FinalizeBegan(b.sys.js)
    ensures i < |b.holds| && GivenBack(b.sys, b.holds[i])
  {
    assert GivenBack(a.sys, a.holds[i]);
    if b.sys.phase.Undoing? {
      OutcomeSnoc(a.sys.js, Entry(RollbackStarted, None, map[]), RestoreSourceFqdn);
      OutcomeSnoc(a.sys.js, Entry(RollbackStarted, None, map[]), DeleteTargetResource);
    }
  }

  lemma {:induction false} OtherGivesBack(c: Config, a: Stage, b: Stage, i: nat)
    requires AllGivenBack(c, a) && Moves(c, a, b) && i < |a.holds|
    requires !Plans(a.sys, b.sys) && !exists ok :: UndoRecords(c, a.sys, b.sys, ok)
    requires FinalizeBegan(a.sys.js) ==> FinalizeBegan(b.sys.js)
    ensures i < |b.holds| && GivenBack(b.sys, b.holds[i])
  {
    assert GivenBack(a.sys, a.holds[i]);
    if b.sys.phase.Undoing? {
      UndoingStays(c, a.sys, b.sys);
      if a.sys.pending.Some? {
        OutcomeSnoc(a.sys.js, RestartNote(a.sys.pending.value), RestoreSourceFqdn);
        OutcomeSnoc(a.sys.js, RestartNote(a.sys.pending.value), DeleteTargetResource);
      }
    }
  }

  lemma {:induction false} MoveGivesBack(c: Config, a: Stage, b: Stage)
    requires AllGivenBack(c, a) && Moves(c, a, b)
    ensures AllGivenBack(c, b)
  {
    OrderedSteps(c, a.sys, b.sys);
    forall i | 0 <= i < |b.holds| ensures GivenBack(b.sys, b.holds[i]) {
      if Plans(a.sys, b.sys) {
        PlanGivesBack(c, a, b, i);
      } else if ok :| UndoRecords(c, a.sys, b.sys, ok) {
        RecordGivesBack(c, a, b, ok, i);
      } else {
        OtherGivesBack(c, a, b, i);
      }
    }
  }

  lemma {:induction false} OneGivesBack(c: Config, a: Stage, b: Stage, i: nat)
    requires AllGivenBack(c, a) && One(a, b, i) && GivenBack(a.sys, b.holds[i])
    ensures AllGivenBack(c, b)
  {
    forall j | 0 <= j < |b.holds| ensures GivenBack(b.sys, b.holds[j]) {
      if j != i { assert b.holds[j] == a.holds[j]; }
    }
  }

  lemma {:induction false} StepGivesBack(c: Config, a: Stage, b: Stage)
    requires AllGivenBack(c, a) && KindNext(c, a, b)
    ensures AllGivenBack(c, b)
  {
    if i: nat :| Handled(c, a, b, i) {
      HandleGivesBack(c, a.sys, a.holds[i], b.holds[i]);
      OneGivesBack(c, a, b, i);
    } else if i: nat :| Meddled(a, b, i) && LeavesSource(a.sys, a.holds[i], b.holds[i]) {
      OneGivesBack(c, a, b, i);
    } else {
      MoveGivesBack(c, a, b);
    }
  }

  lemma {:induction false} GivenBackAt(c: Config, run: seq<Stage>, k: nat)
    requires KindRun(c, run) && k + 1 < |run| && AllGivenBack(c, run[k])
    ensures AllGivenBack(c, run[k + 1])
  {
    assert KindAt(c, run, k);
    StepGivesBack(c, run[k], run[k + 1]);
  }

  lemma {:induction false} GivenBackAlways(c: Config, run: seq<Stage>, k: nat)
    requires KindRun(c, run) && k < |run|
    ensures AllGivenBack(c, run[k])
  {
    if k == 0 {
      assert FactsOf([]) == Facts([], None, None, false, false, {}, false, false, false);
    } else {
      GivenBackAlways(c, run, k - 1);
      GivenBackAt(c, run, k - 1);
    }
  }

  /** The source is never let go of before FINALIZE begins: claims happen only inside CREATE,
      releases only inside FINALIZE. And once a rollback has recorded the restore of the domains
      and the deletion of the targets as done, every source holds its hosts and no target is
      left - whatever was released, in however many attempts. */
  lemma {:induction false} SourceHoldsItsHosts(c: Config, run: seq<Stage>, k: nat, i: nat)
    requires KindRun(c, run) && k < |run| && i < |run[k].holds|
    ensures var s, h := run[k].sys, run[k].holds[i];
            && (!FinalizeBegan(s.js) ==> h.custom <= h.src)
            && (s.phase.Undoing? && OutcomeOf(s.js, RestoreSourceFqdn) == Some(true) ==> h.custom <= h.src)
            && (s.phase.Undoing? && OutcomeOf(s.js, DeleteTargetResource) == Some(true) ==> h.tgt.None?)
  {
    GivenBackAlways(c, run, k);
    assert GivenBack(run[k].sys, run[k].holds[i]);
  }

  // ── the loops ──────────────────────────────────────────────────────────────

  /** Coolify's answer to a request: taken, taken without the answer arriving, or declined. */
  datatype Answer = Taken | Lost | Declined

  /** The plan's resources in one team. Everything it does is a step of a run. */
  class Team {
    const c: Config
    var holds: seq<Hold>
    ghost var run: seq<Stage>

    ghost predicate Valid()
      reads this
    {
      RuledRun(c, ALL, run) && run[|run| - 1].holds == holds && forall i :: 0 <= i < |holds| ==> Forgotten(holds[i]) == holds[i]
    }

    ghost function Now(): Sys
      requires run != []
      reads this
    {
      run[|run| - 1].sys
    }

    constructor (c: Config, holds: seq<Hold>, ghost run: seq<Stage>)
      requires RuledRun(c, ALL, run) && run[|run| - 1].holds == holds
      requires forall i :: 0 <= i < |holds| ==> Forgotten(holds[i]) == holds[i]
      ensures Valid() && this.c == c && this.holds == holds && this.run == run
    {
      this.c, this.holds, this.run := c, holds, run;
    }

    /** Two acts on one resource, the second on what the first has read. */
    method Act(i: nat, ghost read: Hold, h: Hold)
      requires Valid() && i < |holds| && Forgotten(h) == h
      requires Handles(c, Now(), holds[i], read) && Handles(c, Now(), read, h)
      modifies this
      ensures Valid() && Now() == old(Now()) && old(run) <= run && holds == old(holds)[i := h]
    {
      ghost var a := run[|run| - 1];
      ghost var b := Stage(a.sys, holds[i := read]);
      ghost var d := Stage(a.sys, holds[i := h]);
      assert holds[i := h] == holds[i := read][i := h];
      assert Handled(c, a, b, i) && Handled(c, b, d, i);
      RunOn(c, ALL, run, b);
      RunOn(c, ALL, run + [b], d);
      holds := holds[i := h];
      run := run + [b] + [d];
    }

    /** FINALIZE's last act: a source is released exactly if its target was read to hold what it
        would give up, and the request was taken. */
    method ReleaseSourceDomains(readable: seq<bool>, answers: seq<Answer>) returns (released: set<nat>)
      requires Valid() && |readable| == |answers| == |holds| && AtFinalize(Now()) && !c.policy.Delete?
      modifies this
      ensures Valid() && Now() == old(Now()) && old(run) <= run && |holds| == |old(holds)|
      ensures released == set i | 0 <= i < |holds| && answers[i].Taken? && readable[i]
                                  && old(holds)[i].tgt.Some? && old(holds)[i].custom * old(holds)[i].src <= old(holds)[i].tgt.value
      ensures forall i :: 0 <= i < |holds| ==>
                var h := old(holds)[i];
                holds[i] == if h.tgt.Some? && readable[i] && h.custom * h.src <= h.tgt.value && !answers[i].Declined?
                            then h.(src := h.src - h.custom) else h
    {
      released := {};
      for i := 0 to |holds|
        invariant Valid() && Now() == old(Now()) && old(run) <= run && |holds| == |old(holds)|
        invariant released == set k | 0 <= k < i && answers[k].Taken? && readable[k]
                                      && old(holds)[k].tgt.Some? && old(holds)[k].custom * old(holds)[k].src <= old(holds)[k].tgt.value
        invariant forall k :: i <= k < |holds| ==> holds[k] == old(holds)[k]
        invariant forall k :: 0 <= k < i ==>
                    var h := old(holds)[k];
                    holds[k] == if h.tgt.Some? && readable[k] && h.custom * h.src <= h.tgt.value && !answers[k].Declined?
                                then h.(src := h.src - h.custom) else h
      {
        var h := holds[i];
        if h.tgt.Some? && readable[i] && h.custom * h.src <= h.tgt.value {
          Act(i, h.(checked := true), if answers[i].Declined? then h else h.(src := h.src - h.custom));
          if answers[i].Taken? {
            released := released + {i};
          }
        }
      }
    }

    /** RESTORE_SOURCE_FQDN: every source is tried. One is named if it could not be read, or
        lacked hosts and was not known to take them. */
    method RestoreSourceDomains(readable: seq<bool>, answers: seq<Answer>) returns (failures: set<nat>)
      requires Valid() && |readable| == |answers| == |holds| && (AtCreate(Now()) || AtUndo(Now(), RestoreSourceFqdn))
      modifies this
      ensures Valid() && Now() == old(Now()) && old(run) <= run && |holds| == |old(holds)|
      ensures failures == set i | 0 <= i < |holds| &&
                          (!readable[i] || (!(old(holds)[i].custom <= old(holds)[i].src) && !answers[i].Taken?))
      ensures forall i :: 0 <= i < |holds| ==>
                var h := old(holds)[i];
                holds[i] == if readable[i] && !(h.custom <= h.src) && !answers[i].Declined? then h.(src := h.src + h.custom) else h
      ensures forall i :: 0 <= i < |holds| && i !in failures ==> holds[i].custom <= holds[i].src
    {
      failures := {};
      for i := 0 to |holds|
        invariant Valid() && Now() == old(Now()) && old(run) <= run && |holds| == |old(holds)|
        invariant failures == set k | 0 <= k < i &&
                              (!readable[k] || (!(old(holds)[k].custom <= old(holds)[k].src) && !answers[k].Taken?))
        invariant forall k :: i <= k < |holds| ==> holds[k] == old(holds)[k]
        invariant forall k :: 0 <= k < i ==>
                    var h := old(holds)[k];
                    holds[k] == if readable[k] && !(h.custom <= h.src) && !answers[k].Declined? then h.(src := h.src + h.custom) else h
      {
        var h := holds[i];
        if readable[i] {
          Act(i, h, if h.custom <= h.src || answers[i].Declined? then h else h.(src := h.src + h.custom));
        }
        if !readable[i] || (!(h.custom <= h.src) && !answers[i].Taken?) {
          failures := failures + {i};
        }
      }
    }

    /** DELETE_TARGET_RESOURCE: a target goes if its source names no custom host, which needs no
        reading, or was read to hold every one; a source that cannot be read holds none. What
        remains, or may remain, is named. */
    method UndoCreateTarget(readable: seq<bool>, answers: seq<Answer>) returns (kept: set<nat>, failures: set<nat>)
      requires Valid() && |readable| == |answers| == |holds| && (AtCreate(Now()) || AtUndo(Now(), DeleteTargetResource))
      modifies this
      ensures Valid() && Now() == old(Now()) && old(run) <= run && |holds| == |old(holds)|
      ensures kept == set i | 0 <= i < |holds| && old(holds)[i].tgt.Some? && old(holds)[i].custom != {}
                              && !(readable[i] && old(holds)[i].custom <= old(holds)[i].src)
      ensures failures == set i | 0 <= i < |holds| && old(holds)[i].tgt.Some? && !answers[i].Taken?
                                  && (old(holds)[i].custom == {} || (readable[i] && old(holds)[i].custom <= old(holds)[i].src))
      ensures forall i :: 0 <= i < |holds| ==>
                var h := old(holds)[i];
                holds[i] == if h.tgt.Some? && (h.custom == {} || (readable[i] && h.custom <= h.src)) && !answers[i].Declined?
                            then h.(tgt := None) else h
      ensures forall i :: 0 <= i < |holds| && holds[i].tgt.Some? ==> i in kept || i in failures
    {
      kept, failures := {}, {};
      for i := 0 to |holds|
        invariant Valid() && Now() == old(Now()) && old(run) <= run && |holds| == |old(holds)|
        invariant kept == set k | 0 <= k < i && old(holds)[k].tgt.Some? && old(holds)[k].custom != {}
                                  && !(readable[k] && old(holds)[k].custom <= old(holds)[k].src)
        invariant failures == set k | 0 <= k < i && old(holds)[k].tgt.Some? && !answers[k].Taken?
                                      && (old(holds)[k].custom == {} || (readable[k] && old(holds)[k].custom <= old(holds)[k].src))
        invariant forall k :: i <= k < |holds| ==> holds[k] == old(holds)[k]
        invariant forall k :: 0 <= k < i ==>
                    var h := old(holds)[k];
                    holds[k] == if h.tgt.Some? && (h.custom == {} || (readable[k] && h.custom <= h.src)) && !answers[k].Declined?
                                then h.(tgt := None) else h
      {
        var h := holds[i];
        if h.tgt.Some? {
          if h.custom != {} && !(readable[i] && h.custom <= h.src) {
            kept := kept + {i};
          } else {
            Act(i, h.(cleared := true), if answers[i].Declined? then h else h.(tgt := None));
            if !answers[i].Taken? {
              failures := failures + {i};
            }
          }
        }
      }
    }

    /** An unfinished CREATE undoes itself: targets first, each on a read of its source, and
        then the domains. Without a reported problem no target is left and every source holds
        its hosts. */
    method UndoPartialCreate(readable: seq<bool>, deletes: seq<Answer>, again: seq<bool>, restores: seq<Answer>)
      returns (problems: set<nat>)
      requires Valid() && |readable| == |deletes| == |again| == |restores| == |holds| && AtCreate(Now())
      modifies this
      ensures Valid() && Now() == old(Now()) && old(run) <= run && |holds| == |old(holds)|
      ensures forall i :: 0 <= i < |holds| ==>
                var h := old(holds)[i];
                && holds[i].custom == h.custom
                && holds[i].tgt == (if h.tgt.Some? && (h.custom == {} || (readable[i] && h.custom <= h.src)) && !deletes[i].Declined?
                                    then None else h.tgt)
                && holds[i].src == if again[i] && !(h.custom <= h.src) && !restores[i].Declined? then h.src + h.custom else h.src
      ensures problems == set i | 0 <= i < |holds| &&
                            (|| (old(holds)[i].tgt.Some? && !deletes[i].Taken?)
                             || (old(holds)[i].tgt.Some? && old(holds)[i].custom != {}
                                 && !(readable[i] && old(holds)[i].custom <= old(holds)[i].src))
                             || !again[i] || (!(old(holds)[i].custom <= old(holds)[i].src) && !restores[i].Taken?))
      ensures problems == {} ==> AllGone(holds) && AllBack(holds)
    {
      ghost var was := holds;
      var kept, undeleted := UndoCreateTarget(readable, deletes);
      ghost var between := holds;
      assert forall i :: 0 <= i < |was| ==> between[i].src == was[i].src && between[i].custom == was[i].custom;
      assert forall i :: 0 <= i < |was| && between[i].tgt.Some? ==> i in kept || i in undeleted;
      var failures := RestoreSourceDomains(again, restores);
      problems := failures + kept + undeleted;
    }
  }

  lemma {:induction false} RunOn(c: Config, r: Rules, run: seq<Stage>, b: Stage)
    requires RuledRun(c, r, run) && RuledNext(c, r, run[|run| - 1], b)
    ensures RuledRun(c, r, run + [b])
  {
    var more := run + [b];
    forall k | 0 <= k < |more| - 1 ensures RuledAt(c, r, more, k) {
      if k == |run| - 1 {
        assert more[k] == run[k] && more[k + 1] == b;
      } else {
        assert RuledAt(c, r, run, k);
      }
    }
  }
}
