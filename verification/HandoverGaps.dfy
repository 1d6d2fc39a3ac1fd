/** Runs in which a host is lost: each rule of the hand-over is needed. */
module HandoverGaps {
  import opened Handover
  import opened Journal
  import opened Migration
  import opened Protocol
  import opened ProtocolGaps
  import opened ProtocolRuns
  import opened ProtocolSafety
  import opened StateMachine
  import opened Wrappers

  const SHOP: set<string> := {"shop"}
  const FRESH: Hold := Hold(SHOP, SHOP, None, false, false)
  const MADE: Hold := Hold(SHOP, SHOP, Some({}), false, false)
  const CLAIMED: Hold := Hold(SHOP, SHOP, Some(SHOP), false, false)

  /** What the protocol runs used here keep to: nothing is resumed after a rollback. */
  const STRICT: Keeps := AllBut({})

  ghost predicate Reaches(c: Config, r: Rules, run: seq<Stage>, s: Sys, h: Hold) {
    RuledRun(c, r, run) && run[|run| - 1] == Stage(s, [h])
  }

  lemma {:induction false} ExtendRun(c: Config, r: Rules, run: seq<Stage>, b: Stage) returns (more: seq<Stage>)
    requires RuledRun(c, r, run) && RuledNext(c, r, run[|run| - 1], b)
    ensures RuledRun(c, r, more) && more[|more| - 1] == b
  {
    RunOn(c, r, run, b);
    more := run + [b];
  }

  // ── from a run of the migration to one of its hosts ────────────────────────

  /** A step that leaves this resource's hosts alone, and may. */
  ghost predicate Liftable(c: Config, r: Rules, s: Sys, t: Sys, h: Hold) {
    && Next(c, s, t) && NoSuccess(s, t)
    && (r.noResume ==> NoResumeAfterRollback(s, t))
    && (AtCreate(s) && t.phase == Walking(4) ==> h.custom <= TargetHosts(h))
    && !h.checked && !h.cleared
  }

  /** Something moves elsewhere, in the same phase: what was read is not forgotten. */
  lemma {:induction false} MomentPasses(c: Config, r: Rules, run: seq<Stage>, s: Sys, h: Hold) returns (more: seq<Stage>)
    requires Reaches(c, r, run, s, h) && AtFinalize(s)
    ensures Reaches(c, r, more, s, h)
  {
    assert TargetMoves(s, s);
    assert Moves(c, Stage(s, [h]), Stage(s, [h]));
    more := ExtendRun(c, r, run, Stage(s, [h]));
  }

  lemma {:induction false} NotRecordedDone(c: Config, s: Sys, t: Sys)
    requires NoSuccess(s, t)
    ensures !UndoRecords(c, s, t, true)
  {
  }

  lemma {:induction false} LiftStep(c: Config, r: Rules, run: seq<Stage>, s: Sys, t: Sys, h: Hold) returns (more: seq<Stage>)
    requires Reaches(c, r, run, s, h) && Liftable(c, r, s, t, h)
    ensures Reaches(c, r, more, t, h)
  {
    NotRecordedDone(c, s, t);
    assert Forgotten(h) == h;
    assert Moves(c, Stage(s, [h]), Stage(t, [h]));
    more := ExtendRun(c, r, run, Stage(t, [h]));
  }

  ghost predicate LiftableAt(c: Config, r: Rules, trace: seq<Sys>, k: int, h: Hold) {
    0 <= k < |trace| - 1 && Liftable(c, r, trace[k], trace[k + 1], h)
  }

  ghost predicate AllLiftable(c: Config, r: Rules, trace: seq<Sys>, i: nat, j: nat, h: Hold) {
    i <= j < |trace| && forall k :: i <= k < j ==> LiftableAt(c, r, trace, k, h)
  }

  lemma {:induction false} LiftAt(c: Config, r: Rules, run: seq<Stage>, trace: seq<Sys>, k: nat, h: Hold) returns (more: seq<Stage>)
    requires k + 1 < |trace| && LiftableAt(c, r, trace, k, h) && Reaches(c, r, run, trace[k], h)
    ensures Reaches(c, r, more, trace[k + 1], h)
  {
    more := LiftStep(c, r, run, trace[k], trace[k + 1], h);
  }

  lemma {:induction false} LiftFrom(c: Config, r: Rules, run: seq<Stage>, trace: seq<Sys>, i: nat, j: nat, h: Hold) returns (more: seq<Stage>)
    requires AllLiftable(c, r, trace, i, j, h) && Reaches(c, r, run, trace[i], h)
    ensures Reaches(c, r, more, trace[j], h)
    decreases j - i
  {
    more := run;
    if i < j {
      more := LiftFrom(c, r, run, trace, i, j - 1, h);
      more := LiftAt(c, r, more, trace, j - 1, h);
    }
  }

  /** The tool's act on the one resource. */
  lemma {:induction false} Do(c: Config, r: Rules, run: seq<Stage>, s: Sys, h: Hold, g: Hold) returns (more: seq<Stage>)
    requires Reaches(c, r, run, s, h) && Handles(c, s, h, g)
    ensures Reaches(c, r, more, s, g)
  {
    var a, b := Stage(s, [h]), Stage(s, [g]);
    assert b.holds == a.holds[0 := g];
    assert Handled(c, a, b, 0);
    more := ExtendRun(c, r, run, b);
  }

  /** Somebody else's. */
  lemma {:induction false} Take(c: Config, r: Rules, run: seq<Stage>, s: Sys, h: Hold, g: Hold) returns (more: seq<Stage>)
    requires Reaches(c, r, run, s, h) && Meddles(h, g) && Obeys(c, r, s, h, g)
    ensures Reaches(c, r, more, s, g)
  {
    var a, b := Stage(s, [h]), Stage(s, [g]);
    assert b.holds == a.holds[0 := g];
    assert Meddled(a, b, 0) && Obeys(c, r, a.sys, a.holds[0], b.holds[0]);
    more := ExtendRun(c, r, run, b);
  }

  /** Each step completes the state it is inside of, or none. */
  lemma {:induction false} CompletesMore(c: Config, trace: seq<Sys>, j: nat)
    requires Run(c, trace) && 0 < j < |trace|
    ensures var before, after := |CompletedStates(trace[j - 1].js)|, |CompletedStates(trace[j].js)|;
            before == after || (after == before + 1 && trace[j - 1].phase.Inside? && trace[j - 1].phase.at == before)
  {
    CompletedIsAPrefix(c, trace, j - 1);
    assert NextAt(c, trace, j - 1);
    WritesOne(c, trace[j - 1], trace[j]);
    FactsFollow(trace[j - 1], trace[j]);
    CompletesOne(c, trace[j - 1], trace[j], FactsOf(trace[j - 1].js), FactsOf(trace[j].js));
  }

  /** Without CREATE entered, it is not completed. */
  lemma {:induction false} NotCreated(c: Config, trace: seq<Sys>, j: nat)
    requires Run(c, trace) && j < |trace| && forall k :: 0 <= k < j ==> !AtCreate(trace[k])
    ensures |CompletedStates(trace[j].js)| <= 3
  {
    if j > 0 {
      NotCreated(c, trace, j - 1);
      CompletesMore(c, trace, j);
    }
  }

  lemma {:induction false} FirstOf(trace: seq<Sys>, j: nat) returns (m: nat)
    requires j < |trace| && AtCreate(trace[j])
    ensures m <= j && AtCreate(trace[m]) && forall k :: 0 <= k < m ==> !AtCreate(trace[k])
  {
    m := 0;
    while !AtCreate(trace[m])
      invariant m <= j && forall k :: 0 <= k < m ==> !AtCreate(trace[k])
      decreases j - m
    {
      m := m + 1;
    }
  }

  lemma {:induction false} FirstCreate(c: Config, trace: seq<Sys>, j: nat) returns (m: nat)
    requires Run(c, trace) && j < |trace| && 4 <= |CompletedStates(trace[j].js)|
    ensures m < j && AtCreate(trace[m]) && forall k :: 0 <= k < m ==> !AtCreate(trace[k])
  {
    if forall k :: 0 <= k < j ==> !AtCreate(trace[k]) {
      NotCreated(c, trace, j);
    }
    var k :| 0 <= k < j && AtCreate(trace[k]);
    m := FirstOf(trace, k);
  }

  lemma {:induction false} StrictSteps(c: Config, r: Rules, trace: seq<Sys>, s: Sys, i: nat, j: nat, h: Hold)
    requires Path(c, STRICT, trace, s) && i <= j < |trace| && !h.checked && !h.cleared
    requires h.custom <= TargetHosts(h) || forall k :: i <= k < j ==> !AtCreate(trace[k])
    ensures AllLiftable(c, r, trace, i, j, h)
  {
    forall k | i <= k < j ensures LiftableAt(c, r, trace, k, h) {
      assert NextAt(c, trace, k) && AllowedAt(c, STRICT, trace, k);
    }
  }

  /** CREATE has just made the target, which claimed. */
  lemma {:induction false} Created(c: Config, r: Rules, trace: seq<Sys>, s: Sys, m: nat) returns (run: seq<Stage>)
    requires Path(c, STRICT, trace, s) && m < |trace| && AtCreate(trace[m]) && forall k :: 0 <= k < m ==> !AtCreate(trace[k])
    ensures Reaches(c, r, run, trace[m], CLAIMED)
  {
    run := [Stage(trace[0], [FRESH])];
    StrictSteps(c, r, trace, s, 0, m, FRESH);
    run := LiftFrom(c, r, run, trace, 0, m, FRESH);
    run := Do(c, r, run, trace[m], FRESH, MADE);
    run := Do(c, r, run, trace[m], MADE, CLAIMED);
  }

  /** Any run past CREATE, with its host claimed there and left alone since. */
  lemma {:induction false} Lifted(c: Config, r: Rules, trace: seq<Sys>, s: Sys) returns (run: seq<Stage>)
    requires Path(c, STRICT, trace, s) && 4 <= |CompletedStates(s.js)|
    ensures Reaches(c, r, run, s, CLAIMED)
  {
    var last := |trace| - 1;
    var m := FirstCreate(c, trace, last);
    run := Created(c, r, trace, s, m);
    StrictSteps(c, r, trace, s, m, last, CLAIMED);
    run := LiftFrom(c, r, run, trace, m, last, CLAIMED);
  }

  // ── the runs ───────────────────────────────────────────────────────────────

  ghost predicate LosesHost(c: Config, r: Rules, run: seq<Stage>) {
    RuledRun(c, r, run) && var holds := run[|run| - 1].holds; exists i :: 0 <= i < |holds| && !Held(holds[i])
  }

  lemma {:induction false} Lose(c: Config, r: Rules, run: seq<Stage>, s: Sys, h: Hold)
    requires Reaches(c, r, run, s, h) && !Held(h)
    ensures LosesHost(c, r, run)
  {
    assert run[|run| - 1].holds[0] == h;
  }

  /** Somebody takes the host from its last holder. */
  lemma {:induction false} TakingTheLastLosesHost() returns (run: seq<Stage>)
    ensures LosesHost(Case(Keep), ALL.(lastHolder := false), run)
  {
    var c, r := Case(Keep), ALL.(lastHolder := false);
    var trace, s := Start(c, STRICT);
    StrictSteps(c, r, trace, s, 0, 0, FRESH);
    run := [Stage(trace[0], [FRESH])];
    var g := FRESH.(src := {});
    run := Take(c, r, run, trace[0], FRESH, g);
    assert "shop" in g.custom;
    Lose(c, r, run, trace[0], g);
  }

  /** A drop between FINALIZE's check and its release leaves the host to nobody. */
  lemma {:induction false} DropAfterCheckLosesHost() returns (run: seq<Stage>)
    ensures LosesHost(Case(Keep), ALL.(betweenCheck := false), run)
  {
    var c, r := Case(Keep), ALL.(betweenCheck := false);
    var trace, s := Migrated(c, STRICT);
    run := Lifted(c, r, trace, s);
    var h := CLAIMED.(checked := true);
    run := Do(c, r, run, s, CLAIMED, h);
    run := MomentPasses(c, r, run, s, h);
    var g := h.(tgt := Some({}));
    run := Take(c, r, run, s, h, g);
    var lost := g.(src := g.src - g.custom, checked := false);
    run := Do(c, r, run, s, g, lost);
    assert "shop" in lost.custom;
    Lose(c, r, run, s, lost);
  }

  lemma {:induction false} AtCreation(c: Config, r: Rules) returns (run: seq<Stage>, s: Sys)
    requires c.data == {V}
    ensures AtCreate(s) && Reaches(c, r, run, s, CLAIMED)
  {
    var trace, t := Start(c, STRICT);
    assert ORDER[..0] == [];
    trace, t := Through(c, STRICT, trace, t, 0, 3);
    trace, t := Enter(c, STRICT, trace, t, 3);
    var m := FirstOf(trace, |trace| - 1);
    s := trace[m];
    run := Created(c, r, trace, t, m);
  }

  /** A host that the source loses between the read of an undo and the delete of the target,
      here in the undo of an unfinished CREATE, is left to nobody. */
  lemma {:induction false} DropAfterReadLosesHost() returns (run: seq<Stage>)
    ensures LosesHost(Case(Keep), ALL.(betweenRead := false), run)
  {
    var c, r := Case(Keep), ALL.(betweenRead := false);
    var s: Sys;
    run, s := AtCreation(c, r);
    var h := CLAIMED.(cleared := true);
    run := Do(c, r, run, s, CLAIMED, h);
    var g := h.(src := {});
    run := Take(c, r, run, s, h, g);
    var lost := g.(tgt := None, cleared := false);
    run := Do(c, r, run, s, g, lost);
    assert "shop" in lost.custom;
    Lose(c, r, run, s, lost);
  }

  /** DELETE does not look: a host that the target lost since CREATE goes with the source. */
  lemma {:induction false} DropBeforeDeleteLosesHost() returns (run: seq<Stage>)
    ensures LosesHost(Case(Delete), ALL.(onlyTarget := false), run)
  {
    var c, r := Case(Delete), ALL.(onlyTarget := false);
    var trace, s := Migrated(c, STRICT);
    run := Lifted(c, r, trace, s);
    var g := CLAIMED.(tgt := Some({}));
    run := Take(c, r, run, s, CLAIMED, g);
    var lost := g.(src := {});
    run := Do(c, r, run, s, g, lost);
    assert "shop" in lost.custom;
    Lose(c, r, run, s, lost);
  }

  const LOOSE: Keeps := AllBut({SoundResumes, NoResumes})

  lemma {:induction false} StrictIsLoose(c: Config, trace: seq<Sys>, s: Sys)
    requires Path(c, STRICT, trace, s)
    ensures Path(c, LOOSE, trace, s)
  {
    forall i | 0 <= i < |trace| - 1 ensures AllowedAt(c, LOOSE, trace, i) {
      assert AllowedAt(c, STRICT, trace, i);
    }
  }

  lemma {:induction false} Growing(counts: seq<nat>, i: nat, j: nat)
    requires i <= j < |counts| && forall k :: 0 < k < |counts| ==> counts[k - 1] <= counts[k]
    ensures counts[i] <= counts[j]
    decreases j - i
  {
    if i < j {
      Growing(counts, i, j - 1);
    }
  }

  function Counts(trace: seq<Sys>): seq<nat> {
    seq(|trace|, k requires 0 <= k < |trace| => |CompletedStates(trace[k].js)|)
  }

  lemma {:induction false} CountsGrow(c: Config, trace: seq<Sys>, k: nat)
    requires Run(c, trace) && 0 < k < |trace|
    ensures Counts(trace)[k - 1] <= Counts(trace)[k]
  {
    CompletesMore(c, trace, k);
  }

  /** What is completed stays so. */
  lemma {:induction false} StaysCompleted(c: Config, trace: seq<Sys>, i: nat, j: nat)
    requires Run(c, trace) && i <= j < |trace|
    ensures |CompletedStates(trace[i].js)| <= |CompletedStates(trace[j].js)|
  {
    var counts := Counts(trace);
    forall k | 0 < k < |counts| ensures counts[k - 1] <= counts[k] {
      CountsGrow(c, trace, k);
    }
    Growing(counts, i, j);
  }

  lemma {:induction false} NotAtCreate(c: Config, trace: seq<Sys>, i: nat, k: nat)
    requires Run(c, trace) && i <= k < |trace| && 4 <= |CompletedStates(trace[i].js)|
    ensures !AtCreate(trace[k])
  {
    StaysCompleted(c, trace, i, k);
    CompletedIsAPrefix(c, trace, k);
  }

  /** The rest of such a run, with nothing left to claim. */
  lemma {:induction false} Resumed(c: Config, r: Rules, run: seq<Stage>, trace: seq<Sys>, s: Sys, h: Hold)
    returns (more: seq<Stage>, t: Sys)
    requires Path(c, STRICT, trace, s) && Reaches(c, r, run, s, h) && !r.noResume && !h.checked && !h.cleared
    requires s.pending.None? && s.phase.Undoing? && !FactsOf(s.js).finished && FactsOf(s.js).completed == ORDER[..11]
    ensures Reaches(c, r, more, t, h) && t.phase == Inside(11, 1)
  {
    StrictIsLoose(c, trace, s);
    var longer;
    longer, t := DieAndResume(c, LOOSE, trace, s);
    var i, j := |trace| - 1, |longer| - 1;
    assert longer[i] == trace[i] == s;
    forall k | i <= k < j ensures LiftableAt(c, r, longer, k, h) {
      NotAtCreate(c, longer, i, k);
      assert NextAt(c, longer, k) && AllowedAt(c, LOOSE, longer, k);
    }
    more := LiftFrom(c, r, run, longer, i, j, h);
  }

  /** So does a resume after a rollback that deleted the target: it walks on to the delete. */
  lemma {:induction false} ResumeToDeleteLosesHost() returns (run: seq<Stage>)
    ensures LosesHost(Case(Delete), ALL.(noResume := false), run)
  {
    var c, r := Case(Delete), ALL.(noResume := false);
    var trace, s := AtDelete(STRICT);
    run := Lifted(c, r, trace, s);
    var h := CLAIMED.(cleared := true);
    run := Do(c, r, run, s, CLAIMED, h);
    var gone := h.(tgt := None, cleared := false);
    run := Do(c, r, run, s, h, gone);
    var t;
    run, t := Resumed(c, r, run, trace, s, gone);
    var lost := gone.(src := {});
    run := Do(c, r, run, t, gone, lost);
    assert "shop" in lost.custom;
    Lose(c, r, run, t, lost);
  }
}
