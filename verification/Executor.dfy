/** The executor: walks the states, journals every transition, undoes what is owed. */
module Executor {
  import opened Journal
  import opened Migration
  import opened Protocol
  import opened ProtocolSafety
  import opened Restarts
  import opened StateMachine
  import opened Wrappers

  /** How a step or a compensation ends. Any of them may fail, and the process may die. */
  datatype Fate = Worked | Gated | Failed | Killed

  /** What becomes of the request to restart one source: taken and heard of, taken with the answer
      lost, declined, or taken before the process dies. */
  datatype Reply = Accepted | Unheard | Declined | CutOff

  /** What an undo action meets: the volumes and pins it does not get rid of, the containers it leaves,
      what becomes of each restart, whether the source's containers keep their volumes mounted while
      it looks, and how it ends. */
  datatype Will = Will(left: set<Volume>, pinned: set<Volume>, used: set<Volume>, replies: string -> Reply, steady: bool, end: Fate)

  /** What the guard can do on the source's host. */
  datatype Sight = Sight(readable: bool, pinnable: bool)

  datatype Outcome = Succeeded | BlockedAt(state: State) | RolledBackAs(ok: bool) | Refused | Died

  ghost predicate LastIs(js: seq<Entry>, event: Event) {
    js != [] && js[|js| - 1].event == event
  }

  /** What the journal ends with, for each outcome. */
  ghost predicate Reported(outcome: Outcome, js: seq<Entry>) {
    match outcome
    case Succeeded => LastIs(js, Finished) && Holds(CompletedStates(js), LAST)
    case BlockedAt(state) => LastIs(js, Blocked) && js[|js| - 1].state == Some(state)
    case RolledBackAs(ok) => LastIs(js, RolledBack)
    case Refused => LastIs(js, RefusedRollback)
    case Died => true
  }

  /** The compensations whose outcome the journal records, and how each went. */
  function Attempts(js: seq<Entry>): seq<(Compensation, bool)> {
    if js == [] then [] else Attempts(js[..|js| - 1]) + AttemptOf(js[|js| - 1])
  }

  function AttemptOf(e: Entry): seq<(Compensation, bool)> {
    if && e.event.RollbackStepped? && CompensationKey in e.detail && e.detail[CompensationKey].Action?
       && Ok in e.detail && e.detail[Ok].Flag?
    then [(e.detail[CompensationKey].action, e.detail[Ok].on)]
    else []
  }

  lemma {:induction false} AttemptsSnoc(js: seq<Entry>, e: Entry)
    ensures Attempts(js + [e]) == Attempts(js) + AttemptOf(e)
  {
    assert (js + [e])[..|js|] == js;
  }

  /** Every step of the plan was attempted, in order, and `ok` says whether all worked. */
  ghost predicate Attempted(plan: seq<Step>, before: seq<(Compensation, bool)>, after: seq<(Compensation, bool)>, ok: bool) {
    && before <= after && |after| == |before| + |plan|
    && (forall k :: |before| <= k < |after| ==> after[k].0 == plan[k - |before|].compensation)
    && (ok <==> forall k :: |before| <= k < |after| ==> after[k].1)
  }

  lemma {:induction false} AttemptedMore(plan: seq<Step>, k: nat, before: seq<(Compensation, bool)>, after: seq<(Compensation, bool)>,
                                         ok: bool, worked: bool)
    requires k < |plan| && Attempted(plan[..k], before, after, ok)
    ensures Attempted(plan[..k + 1], before, after + [(plan[k].compensation, worked)], ok && worked)
  {
    var more := after + [(plan[k].compensation, worked)];
    assert more[|after|] == (plan[k].compensation, worked);
    assert forall j :: |before| <= j < |after| ==> more[j] == after[j];
  }

  /** What FINALIZE says it was told to do with the source. */
  ghost predicate ToldTo(js: seq<Entry>, policy: FinalizePolicy) {
    Finalize in Details(js) && PolicyKey in Details(js)[Finalize] && Details(js)[Finalize][PolicyKey] == PolicyIs(policy)
  }

  ghost predicate SameKnown(a: seq<State>, b: seq<State>) {
    forall s :: s in ORDER ==> (s in a <==> s in b)
  }

  /** The first `i` states of the order. */
  ghost predicate Holds(states: seq<State>, i: nat) {
    forall j :: 0 <= j < i && j < LAST ==> ORDER[j] in states
  }

  lemma {:induction false} HoldsMore(a: seq<State>, b: seq<State>, i: nat)
    requires i < LAST && SameKnown(a, b) && Holds(b, i)
    ensures SameKnown(a + [ORDER[i]], b + [ORDER[i]]) && Holds(b + [ORDER[i]], i + 1)
  {
  }

  lemma {:induction false} HoldsThis(a: seq<State>, b: seq<State>, i: nat)
    requires i < LAST && SameKnown(a, b) && Holds(b, i)
    ensures ORDER[i] in a <==> ORDER[i] in b
    ensures ORDER[i] in b ==> Holds(b, i + 1)
  {
    assert ORDER[i] in ORDER;
  }

  /** What the deletion of one of the source's resources leaves: volumes, and those in use. */
  datatype Left = Left(src: set<Volume>, srcUse: set<Volume>)

  class Saga {
    const c: Config
    const resources: seq<string>
    var journal: seq<Entry>
    var completed: seq<State>
    var w: World
    ghost var trace: seq<Sys>
    ghost var now: Sys

    /** Everything that has happened so far is a run of the protocol. */
    ghost predicate Valid()
      reads this
    {
      && Run(c, trace) && trace[|trace| - 1] == now && now.js == journal && now.w == w
      && Distinct(resources) && forall r :: r in resources <==> r in c.sources
    }

    /** No restart is being recorded. */
    ghost predicate Calm()
      reads this
    {
      Valid() && now.pending.None?
    }

    /** Where the process is. */
    ghost predicate At(phase: Phase)
      reads this
    {
      Calm() && now.phase == phase
    }

    constructor (c: Config, resources: seq<string>, w: World)
      requires Distinct(resources) && forall r :: r in resources <==> r in c.sources
      requires Initial(c, Sys([], w, Idle, None, false, [], None))
      ensures At(Idle) && now.entered == None && journal == [] && this.w == w && this.c == c && this.resources == resources
    {
      this.c, this.resources, this.w := c, resources, w;
      journal, completed := [], [];
      now := Sys([], w, Idle, None, false, [], None);
      trace := [Sys([], w, Idle, None, false, [], None)];
    }

    /** One step of the protocol. */
    method Become(js: seq<Entry>, v: World, ghost t: Sys)
      requires Valid() && Next(c, now, t) && t.js == js && t.w == v
      modifies this`journal, this`w, this`trace, this`now
      ensures Valid() && now == t && journal == js && w == v && old(trace) <= trace
    {
      ExtendRun(c, trace, t);
      journal, w := js, v;
      trace, now := trace + [t], t;
    }

    /** One record, on disk before anything else happens. */
    method Append(entry: Entry, ghost phase: Phase, ghost entered: Option<State>)
      requires Calm()
      requires Next(c, now, now.(js := journal + [entry], phase := phase, entered := entered))
      modifies this`journal, this`w, this`trace, this`now
      ensures At(phase) && now.entered == entered && journal == old(journal) + [entry] && w == old(w) && old(trace) <= trace
    {
      Become(journal + [entry], w, now.(js := journal + [entry], phase := phase, entered := entered));
    }

    /** One act on the world, or one turn of the process, that leaves no record. */
    method Act(v: World, ghost phase: Phase)
      requires Calm()
      requires Next(c, now, now.(w := v, phase := phase))
      modifies this`journal, this`w, this`trace, this`now
      ensures At(phase) && now.entered == old(now.entered) && w == v && journal == old(journal) && old(trace) <= trace
    {
      Become(journal, v, now.(w := v, phase := phase));
    }

    /** Whether the process dies here. */
    method Dies() returns (dead: bool)
    {
      dead := *;
    }

    /** Meanwhile, elsewhere: a prune, a queued stop that lands, a container that comes or goes. */
    method Elsewhere()
      requires Calm()
      modifies this`journal, this`w, this`trace, this`now
      ensures At(old(now.phase)) && now.entered == old(now.entered) && old(trace) <= trace && journal == old(journal)
      ensures w.srcPin == old(w.srcPin) && w.tgtPin == old(w.tgtPin) && w.unsettled == old(w.unsettled)
    {
      var src: set<Volume>, srcUse: set<Volume>, copied: set<Volume>, tgtUse: set<Volume> := *, *, *, *;
      if w.src * (w.srcUse + w.srcPin) <= src <= w.src {
        Act(w.(src := src), now.phase);
      }
      if w.unsettled {
        Act(w.(srcUse := srcUse), now.phase);
      }
      if w.copied * (w.tgtUse + w.tgtPin) <= copied <= w.copied {
        Act(w.(copied := copied), now.phase);
      }
      if w.copied <= w.tgtPin || w.tgtUse <= tgtUse {
        Act(w.(tgtUse := tgtUse), now.phase);
      }
    }

    // ── running ────────────────────────────────────────────────────────────

    method Start() returns (outcome: Outcome)
      requires At(Idle)
      requires !IsFinished(journal)
      modifies this
      ensures Valid() && now.phase.Idle? && old(trace) <= trace && old(journal) <= journal
      ensures Reported(outcome, journal)
    {
      Begin();
      var i := 0;
      while i < LAST
        invariant i <= LAST && At(Walking(i)) && old(trace) <= trace && old(journal) <= journal
        invariant Loaded() && Walked(i)
      {
        var fate := Turn(i);
        match fate {
          case Gated => return BlockedAt(ORDER[i]);
          case Failed =>
            var saw: Sight := *;
            outcome := RollBackFrom(false, saw);
            return;
          case Killed => return Died;
          case Worked =>
        }
        i := i + 1;
      }
      outcome := Finish();
    }

    /** One turn of the loop: a completed state is passed over, another is run. */
    method Turn(i: nat) returns (fate: Fate)
      requires i < LAST && At(Walking(i)) && Loaded() && Walked(i)
      modifies this
      ensures Calm() && old(trace) <= trace && old(journal) <= journal
      ensures fate.Worked? ==> now.phase == Walking(i + 1) && Loaded() && Walked(i + 1)
      ensures fate.Gated? ==> now.phase == Idle && Reported(BlockedAt(ORDER[i]), journal)
      ensures fate.Failed? ==> now.phase == Judging(false)
      ensures fate.Killed? ==> now.phase == Idle
    {
      Elsewhere();
      var dies := Dies();
      if dies {
        Die();
        return Killed;
      }
      HoldsThis(completed, CompletedStates(journal), i);
      if ORDER[i] in completed {
        Skip(i);
        fate := Worked;
      } else {
        fate := RunState(i);
      }
    }

    /** `completed` is what the journal says, of the states this version knows. */
    ghost predicate Loaded()
      reads this
    {
      SameKnown(completed, CompletedStates(journal))
    }

    ghost predicate Walked(i: nat)
      reads this
    {
      Holds(CompletedStates(journal), i)
    }

    method Skip(i: nat)
      requires i < LAST && At(Walking(i)) && ORDER[i] in CompletedStates(journal)
      modifies this`journal, this`w, this`trace, this`now
      ensures At(Walking(i + 1)) && old(trace) <= trace && journal == old(journal)
    {
      assert Skips(now, now.(phase := Walking(i + 1)));
      Act(w, Walking(i + 1));
    }

    /** The last record of a run - unless the process dies first. */
    method Finish() returns (outcome: Outcome)
      requires At(Walking(LAST)) && Walked(LAST)
      modifies this`journal, this`w, this`trace, this`now
      ensures Calm() && now.phase.Idle? && old(trace) <= trace && old(journal) <= journal
      ensures Reported(outcome, journal)
    {
      var dies := Dies();
      if dies {
        Die();
        return Died;
      }
      var e := Entry(Finished, None, map[]);
      assert Finishes(now, now.(js := journal + [e], phase := Idle));
      CompletedSnoc(journal, e);
      Append(e, Idle, now.entered);
      outcome := Succeeded;
    }

    /** Takes up the states the journal says are completed. */
    method Begin()
      requires At(Idle)
      requires !IsFinished(journal)
      modifies this
      ensures At(Walking(0)) && old(trace) <= trace && old(journal) <= journal
      ensures Loaded()
    {
      LoadCompleted();
      var e := Entry(Started, Some(Init), map[]);
      assert Begins(now, now.(js := journal + [e], phase := Walking(0)));
      CompletedSnoc(journal, e);
      Append(e, Walking(0), now.entered);
    }

    method LoadCompleted()
      modifies this`completed
      ensures Loaded()
    {
      completed := StatesFromJournal(journal);
      forall s | s in ORDER ensures s in completed <==> s in CompletedStates(journal) {
        KnownIn(CompletedStates(journal), s);
      }
    }

    /** Enters one state, and records how it ended - unless the process dies. */
    method RunState(i: nat) returns (fate: Fate)
      requires i < LAST && At(Walking(i)) && ORDER[i] !in CompletedStates(journal) && Loaded() && Walked(i)
      modifies this
      ensures Calm() && old(trace) <= trace && old(journal) <= journal
      ensures fate.Worked? ==> now.phase == Walking(i + 1) && Loaded() && Walked(i + 1)
      ensures fate.Gated? ==> now.phase == Idle && Reported(BlockedAt(ORDER[i]), journal)
      ensures fate.Failed? ==> now.phase == Judging(false)
      ensures fate.Killed? ==> now.phase == Idle
    {
      Enter(i);
      var detail;
      var end: Fate := *;
      fate, detail := Perform(i, end);
      Leave(i, fate, detail);
    }

    method Enter(i: nat)
      requires i < LAST && At(Walking(i)) && ORDER[i] !in CompletedStates(journal)
      modifies this`journal, this`w, this`trace, this`now
      ensures At(Inside(i, 0)) && now.entered == Some(ORDER[i]) && old(trace) <= trace && old(journal) <= journal
      ensures CompletedStates(journal) == CompletedStates(old(journal))
    {
      var e := Entry(StepStarted, Some(ORDER[i]), map[]);
      assert Enters(now, now.(js := journal + [e], phase := Inside(i, 0), entered := Some(ORDER[i])));
      CompletedSnoc(journal, e);
      Append(e, Inside(i, 0), Some(ORDER[i]));
    }

    method Leave(i: nat, fate: Fate, detail: Detail)
      requires i < LAST && Calm() && now.phase.Inside? && now.phase.at == i
      requires fate.Worked? ==>
                 Completes(c, now, now.(js := journal + [Entry(StepCompleted, Some(ORDER[i]), detail)],
                                        phase := Walking(i + 1), entered := None), detail)
      requires Loaded() && Walked(i)
      modifies this
      ensures Calm() && old(trace) <= trace && old(journal) <= journal
      ensures fate.Worked? ==> now.phase == Walking(i + 1) && Loaded() && Walked(i + 1)
      ensures fate.Gated? ==> now.phase == Idle && Reported(BlockedAt(ORDER[i]), journal)
      ensures fate.Failed? ==> now.phase == Judging(false)
      ensures fate.Killed? ==> now.phase == Idle
    {
      match fate {
        case Gated =>
          assert Blocks(now, now.(js := journal + [Entry(Blocked, Some(ORDER[i]), map[])], phase := Idle, entered := None));
          Append(Entry(Blocked, Some(ORDER[i]), map[]), Idle, None);
        case Failed =>
          assert Fails(now, now.(js := journal + [Entry(StepFailed, Some(ORDER[i]), map[])], phase := Judging(false), entered := None));
          Append(Entry(StepFailed, Some(ORDER[i]), map[]), Judging(false), None);
        case Killed => Die();
        case Worked => Complete(i, detail);
      }
    }

    method Complete(i: nat, detail: Detail)
      requires i < LAST && Calm()
      requires Completes(c, now, now.(js := journal + [Entry(StepCompleted, Some(ORDER[i]), detail)],
                                      phase := Walking(i + 1), entered := None), detail)
      requires Loaded() && Walked(i)
      modifies this
      ensures At(Walking(i + 1)) && old(trace) <= trace && old(journal) <= journal && Loaded() && Walked(i + 1)
    {
      var e := Entry(StepCompleted, Some(ORDER[i]), detail);
      CompletedSnoc(journal, e);
      HoldsMore(completed, CompletedStates(journal), i);
      Append(e, Walking(i + 1), None);
      completed := completed + [ORDER[i]];
    }

    /** One state's work: it may fail, block or be killed anywhere; when it says it is done,
        what its completion stands for is true. VERIFY fails exactly if the copy is not whole; a
        state that touches nothing ends as it will. */
    method Perform(i: nat, end: Fate) returns (fate: Fate, detail: Detail)
      requires i < LAST && At(Inside(i, 0)) && now.entered == Some(ORDER[i])
      modifies this`journal, this`w, this`trace, this`now
      ensures Calm() && now.phase.Inside? && now.phase.at == i && now.entered == Some(ORDER[i])
      ensures fate.Worked? ==>
                Completes(c, now, now.(js := journal + [Entry(StepCompleted, Some(ORDER[i]), detail)],
                                           phase := Walking(i + 1), entered := None), detail)
      ensures fate.Worked? ==> end.Worked? && detail == if i == 11 then map[PolicyKey := PolicyIs(c.policy)] else map[]
      ensures i !in {4, 6, 11} ==> fate == (if i == 7 && !(c.data <= w.copied) then Failed else end) && w == old(w)
      ensures i in {4, 6, 11} ==> fate == end || fate.Killed?
      ensures old(trace) <= trace && old(journal) <= journal && CompletedStates(journal) == CompletedStates(old(journal))
    {
      detail := map[];
      match i {
        case 3 =>
          var found: Detail := *;
          if StopRequested !in found && PolicyKey !in found {
            Note(i, found);
          }
          fate := Worked;
        case 4 => fate := QuiesceSource();
        case 6 =>
          var present: set<Volume>, arrived: set<Volume> := *, *;
          fate := CopyVolumes(present, arrived);
        case 7 => fate := if c.data <= w.copied then Worked else Failed;
        case 11 =>
          var left: string -> Left := *;
          fate := FinalizeSource(left);
          detail := map[PolicyKey := PolicyIs(c.policy)];
        case _ => fate := Worked;
      }
      if fate.Worked? {
        fate := end;
      }
    }

    /** A fact that a step records about itself as soon as it is one. */
    method Note(i: nat, found: Detail)
      requires i < LAST && At(Inside(i, 0)) && now.entered == Some(ORDER[i]) && StopRequested !in found && PolicyKey !in found
      modifies this`journal, this`w, this`trace, this`now
      ensures At(Inside(i, 0)) && now.entered == Some(ORDER[i]) && w == old(w) && old(trace) <= trace
      ensures journal == old(journal) + [Entry(StepStarted, Some(ORDER[i]), found)]
      ensures CompletedStates(journal) == CompletedStates(old(journal))
    {
      var e := Entry(StepStarted, Some(ORDER[i]), found);
      assert Notes(now, now.(js := journal + [e]), found);
      CompletedSnoc(journal, e);
      Append(e, Inside(i, 0), Some(ORDER[i]));
    }

    /** Pins what is mounted, records that it will stop the source, and asks for the stop. */
    method QuiesceSource() returns (fate: Fate)
      requires At(Inside(4, 0)) && now.entered == Some(Quiesce)
      modifies this`journal, this`w, this`trace, this`now
      ensures Calm() && now.phase.Inside? && now.phase.at == 4 && now.entered == Some(Quiesce)
      ensures fate.Worked? || fate.Killed?
      ensures fate.Worked? ==> now.phase == Inside(4, 3)
      ensures old(trace) <= trace && old(journal) <= journal && CompletedStates(journal) == CompletedStates(old(journal))
    {
      PinMounted();
      var dies := Dies();
      if dies { return Killed; }
      MarkStop();
      Elsewhere();
      dies := Dies();
      if dies { return Killed; }
      AskStop();
      dies := Dies();
      fate := if dies then Killed else Worked;
    }

    method PinMounted()
      requires At(Inside(4, 0))
      modifies this`journal, this`w, this`trace, this`now
      ensures At(Inside(4, 1)) && now.entered == old(now.entered) && old(trace) <= trace && journal == old(journal)
    {
      assert QuiesceActs(now, now.(w := w.(srcPin := w.srcPin + w.src * w.srcUse), phase := Inside(4, 1)));
      Act(w.(srcPin := w.srcPin + w.src * w.srcUse), Inside(4, 1));
      Elsewhere();
    }

    method AskStop()
      requires At(Inside(4, 2))
      modifies this`journal, this`w, this`trace, this`now
      ensures At(Inside(4, 3)) && now.entered == old(now.entered) && old(trace) <= trace && journal == old(journal)
    {
      assert QuiesceActs(now, now.(w := w.(unsettled := true), phase := Inside(4, 3)));
      Act(w.(unsettled := true), Inside(4, 3));
      Elsewhere();
    }

    /** The stop marker, before the stop itself: it also ends what was restarted before. */
    method MarkStop()
      requires At(Inside(4, 1)) && now.entered == Some(Quiesce)
      modifies this`journal, this`w, this`trace, this`now
      ensures At(Inside(4, 2)) && now.entered == Some(Quiesce) && w == old(w)
      ensures old(trace) <= trace && old(journal) <= journal && CompletedStates(journal) == CompletedStates(old(journal))
    {
      var marker := Entry(StepStarted, Some(Quiesce), map[StopRequested := Flag(true)]);
      assert QuiesceActs(now, now.(js := journal + [marker], phase := Inside(4, 2), accepted := []));
      CompletedSnoc(journal, marker);
      Become(journal + [marker], w, now.(js := journal + [marker], phase := Inside(4, 2), accepted := []));
    }

    /** Pins the target's volumes, those that are there for certain, and then fills them. */
    method CopyVolumes(present: set<Volume>, arrived: set<Volume>) returns (fate: Fate)
      requires At(Inside(6, 0)) && now.entered == Some(Copy)
      modifies this`journal, this`w, this`trace, this`now
      ensures w.tgtPin == old(w).tgtPin + c.data * (present + old(w).copied)
      ensures fate.Worked? ==>
                exists k :: |old(trace)| <= k < |trace| && c.data * w.tgtPin * arrived <= trace[k].w.copied
      ensures At(Inside(6, 1)) && now.entered == Some(Copy) && old(trace) <= trace && journal == old(journal)
      ensures fate.Worked? || fate.Killed?
    {
      Act(w.(tgtPin := w.tgtPin + c.data * (present + w.copied)), Inside(6, 1));
      Elsewhere();
      var dies := Dies();
      if dies { return Killed; }
      Act(w.(copied := w.copied + c.data * w.tgtPin * arrived), Inside(6, 1));
      ghost var filled := trace;
      Elsewhere();
      assert trace[|filled| - 1] == filled[|filled| - 1];
      dies := Dies();
      fate := if dies then Killed else Worked;
    }

    /** Records the policy, and lets go of what it no longer keeps. */
    method FinalizeSource(left: string -> Left) returns (fate: Fate)
      requires At(Inside(11, 0)) && now.entered == Some(Finalize)
      modifies this`journal, this`w, this`trace, this`now
      ensures At(Inside(11, 1)) && now.entered == Some(Finalize)
      ensures old(trace) <= trace && old(journal) <= journal && CompletedStates(journal) == CompletedStates(old(journal))
      ensures fate.Worked? || fate.Killed?
      ensures fate.Worked? ==> w.srcPin == {} && (w.tgtPin == {} || UnusedSince(|old(trace)|))
      ensures fate.Worked? && c.policy.Delete? ==> forall i :: 0 <= i < |resources| ==> DeletedSince(|old(trace)|, left(resources[i]))
    {
      var note := Entry(StepStarted, Some(Finalize), map[PolicyKey := PolicyIs(c.policy)]);
      assert FinalizeActs(c, now, now.(js := journal + [note], phase := Inside(11, 1)));
      CompletedSnoc(journal, note);
      Append(note, Inside(11, 1), Some(Finalize));
      fate := LetGo(left);
    }

    /** At some moment since, the target's containers did not mount all that is pinned there. */
    ghost predicate UnusedSince(before: nat)
      reads this
    {
      exists k :: before - 1 <= k < |trace| && 0 <= k && !(trace[k].w.tgtPin <= trace[k].w.tgtUse)
    }

    /** At some moment since, no more was left of the source than this. */
    ghost predicate DeletedSince(before: nat, left: Left)
      reads this
    {
      exists k :: before - 1 <= k < |trace| && 0 <= k && trace[k].w.src <= left.src && trace[k].w.srcUse <= left.srcUse
    }

    /** Unpins the target if its containers mount everything, and then the source, which DELETE
        goes on to delete, resource after resource. */
    method LetGo(left: string -> Left) returns (fate: Fate)
      requires At(Inside(11, 1))
      modifies this`journal, this`w, this`trace, this`now
      ensures fate.Worked? ==> w.srcPin == {} && (w.tgtPin == {} || UnusedSince(|old(trace)|))
      ensures fate.Worked? && c.policy.Delete? ==> forall i :: 0 <= i < |resources| ==> DeletedSince(|old(trace)|, left(resources[i]))
      ensures At(Inside(11, 1)) && now.entered == old(now.entered) && old(trace) <= trace && journal == old(journal)
      ensures fate.Worked? || fate.Killed?
    {
      Elsewhere();
      var dies := Dies();
      if dies { return Killed; }
      ghost var looked := trace;
      ReleaseTarget();
      Elsewhere();
      dies := Dies();
      if dies { return Killed; }
      ReleaseSource();
      Elsewhere();
      dies := Dies();
      if dies { return Killed; }
      if c.policy.Delete? {
        DeleteSource(left);
      }
      dies := Dies();
      fate := if dies then Killed else Worked;
      assert trace[|looked| - 1] == looked[|looked| - 1];
    }

    method ReleaseTarget()
      requires At(Inside(11, 1))
      modifies this`journal, this`w, this`trace, this`now
      ensures At(Inside(11, 1)) && now.entered == old(now.entered) && old(trace) <= trace && journal == old(journal)
      ensures w == if old(w).tgtPin <= old(w).tgtUse then old(w).(tgtPin := {}) else old(w)
    {
      if w.tgtPin <= w.tgtUse {
        assert FinalizeActs(c, now, now.(w := w.(tgtPin := {})));
        Act(w.(tgtPin := {}), Inside(11, 1));
      }
    }

    method ReleaseSource()
      requires At(Inside(11, 1))
      modifies this`journal, this`w, this`trace, this`now
      ensures At(Inside(11, 1)) && now.entered == old(now.entered) && old(trace) <= trace && journal == old(journal)
      ensures w == old(w).(srcPin := {})
    {
      assert FinalizeActs(c, now, now.(w := w.(srcPin := {})));
      Act(w.(srcPin := {}), Inside(11, 1));
    }

    method DeleteSource(left: string -> Left)
      requires At(Inside(11, 1)) && c.policy.Delete?
      modifies this`journal, this`w, this`trace, this`now
      ensures w.srcPin == old(w).srcPin && w.tgtPin == old(w).tgtPin
      ensures forall i :: 0 <= i < |resources| ==> DeletedSince(|old(trace)|, left(resources[i]))
      ensures At(Inside(11, 1)) && now.entered == old(now.entered) && old(trace) <= trace && journal == old(journal)
    {
      for i := 0 to |resources|
        invariant w.srcPin == old(w).srcPin && w.tgtPin == old(w).tgtPin
        invariant forall j :: 0 <= j < i ==> DeletedSince(|old(trace)|, left(resources[j]))
        invariant At(Inside(11, 1)) && now.entered == old(now.entered) && old(trace) <= trace && journal == old(journal)
      {
        DeleteOne(left(resources[i]));
      }
    }

    method DeleteOne(left: Left)
      requires At(Inside(11, 1)) && c.policy.Delete?
      modifies this`journal, this`w, this`trace, this`now
      ensures w.srcPin == old(w).srcPin && w.tgtPin == old(w).tgtPin
      ensures DeletedSince(|old(trace)|, left)
      ensures At(Inside(11, 1)) && now.entered == old(now.entered) && old(trace) <= trace && journal == old(journal)
    {
      var v := w.(src := w.src * left.src, srcUse := w.srcUse * left.srcUse);
      assert FinalizeActs(c, now, now.(w := v));
      Act(v, Inside(11, 1));
      ghost var gone := trace;
      Elsewhere();
      assert trace[|gone| - 1] == gone[|gone| - 1] && gone[|gone| - 1].w == v;
    }

    // ── rolling back ───────────────────────────────────────────────────────

    /** The guard could not see all the data on the source at some moment since, or not pin it. */
    ghost predicate LackingSince(before: nat, saw: Sight)
      reads this
    {
      !saw.readable || !saw.pinnable || exists k :: before - 1 <= k < |trace| && 0 <= k && !(c.data <= trace[k].w.src)
    }

    /** The explicit command. */
    method Rollback(saw: Sight) returns (outcome: Outcome)
      requires At(Idle)
      modifies this
      ensures SameKnown(completed, CompletedStates(old(journal)))
      ensures Valid() && now.phase.Idle? && old(trace) <= trace && old(journal) <= journal
      ensures Reported(outcome, journal)
      ensures outcome.RolledBackAs? ==>
                Attempted(MigrationPlan(OwedFrom(old(journal), true)), Attempts(old(journal)), Attempts(journal), outcome.ok)
      ensures outcome.Refused? ==>
                || ToldTo(old(journal), Delete)
                || ((ToldTo(old(journal), Keep) || ToldTo(old(journal), Rename)) && LackingSince(|old(trace)|, saw))
      ensures outcome.RolledBackAs? ==> !ToldTo(old(journal), Delete)
      ensures outcome.RolledBackAs? && (ToldTo(old(journal), Keep) || ToldTo(old(journal), Rename)) ==> saw == Sight(true, true)
    {
      LoadCompleted();
      ghost var before := trace;
      assert before[|before| - 1].w == w;
      Act(w, Judging(true));
      outcome := RollBackFrom(true, saw);
    }

    /** Refuses, or attempts exactly what the journal says is owed. */
    method RollBackFrom(explicit: bool, saw: Sight) returns (outcome: Outcome)
      requires At(Judging(explicit))
      modifies this`journal, this`w, this`trace, this`now
      ensures Calm() && now.phase.Idle? && old(trace) <= trace && old(journal) <= journal
      ensures Reported(outcome, journal)
      ensures outcome.RolledBackAs? ==>
                Attempted(MigrationPlan(OwedFrom(old(journal), explicit)), Attempts(old(journal)), Attempts(journal), outcome.ok)
      ensures outcome.Refused? ==>
                || ToldTo(old(journal), Delete)
                || ((ToldTo(old(journal), Keep) || ToldTo(old(journal), Rename)) && LackingSince(|old(trace)|, saw))
      ensures outcome.RolledBackAs? ==> !ToldTo(old(journal), Delete)
      ensures outcome.RolledBackAs? && (ToldTo(old(journal), Keep) || ToldTo(old(journal), Rename)) ==> saw == Sight(true, true)
    {
      ghost var before := trace;
      assert before[|before| - 1].w == w;
      var fate := Guard(explicit, saw);
      if fate.Killed? {
        Die();
        return Died;
      }
      if !fate.Worked? {
        Append(Entry(RefusedRollback, None, map[]), Idle, now.entered);
        assert trace[|before| - 1] == before[|before| - 1];
        assert !ToldTo(old(journal), Delete) ==> LackingSince(|old(trace)|, saw);
        return Refused;
      }
      outcome := UndoOwed(explicit);
    }

    method UndoOwed(explicit: bool) returns (outcome: Outcome)
      requires At(Cleared(explicit))
      modifies this`journal, this`w, this`trace, this`now
      ensures Calm() && now.phase.Idle? && old(trace) <= trace && old(journal) <= journal
      ensures outcome.RolledBackAs? || outcome.Died?
      ensures Reported(outcome, journal)
      ensures outcome.RolledBackAs? ==>
                Attempted(MigrationPlan(OwedFrom(old(journal), explicit)), Attempts(old(journal)), Attempts(journal), outcome.ok)
    {
      var plan := MakePlan(explicit);
      if plan == [] {
        Announce(plan, RolledBack, Idle);
        outcome := RolledBackAs(true);
      } else {
        Announce(plan, RollbackStarted, Undoing(plan));
        outcome := UndoAll(plan);
      }
    }

    method MakePlan(explicit: bool) returns (plan: seq<Step>)
      requires At(Cleared(explicit))
      ensures plan == MigrationPlan(OwedFrom(now.js, explicit)) && now.js == journal
    {
      plan := PlanRollback(journal, explicit);
    }

    /** Records that a rollback starts, or that there is nothing to undo. */
    method Announce(plan: seq<Step>, event: Event, ghost next: Phase)
      requires Calm() && now.phase.Cleared? && plan == MigrationPlan(OwedFrom(now.js, now.phase.explicit))
      requires if plan == [] then event == RolledBack && next == Idle else event == RollbackStarted && next == Undoing(plan)
      modifies this`journal, this`w, this`trace, this`now
      ensures At(next) && old(trace) <= trace && old(journal) <= journal && LastIs(journal, event)
      ensures Attempts(journal) == Attempts(old(journal))
    {
      var e := Entry(event, None, map[]);
      assert Plans(now, now.(js := now.js + [e], phase := next));
      AttemptsSnoc(journal, e);
      Append(e, next, now.entered);
    }

    /** Every compensation is attempted, whatever became of the ones before it. */
    method UndoAll(plan: seq<Step>) returns (outcome: Outcome)
      requires At(Undoing(plan))
      modifies this`journal, this`w, this`trace, this`now
      ensures Calm() && now.phase.Idle? && old(trace) <= trace && old(journal) <= journal
      ensures outcome.RolledBackAs? || outcome.Died?
      ensures Reported(outcome, journal)
      ensures outcome.RolledBackAs? ==> Attempted(plan, Attempts(old(journal)), Attempts(journal), outcome.ok)
    {
      ghost var before, rest := Attempts(journal), plan;
      var k, allOk := 0, true;
      while k < |plan|
        invariant k <= |plan| && rest == plan[k..]
        invariant At(Undoing(rest)) && old(trace) <= trace && old(journal) <= journal
        invariant Attempted(plan[..k], before, Attempts(journal), allOk)
      {
        var fate := UndoNext(plan, k, before, rest, allOk);
        if fate.Killed? {
          return Died;
        }
        allOk := allOk && fate.Worked?;
        k, rest := k + 1, rest[1..];
      }
      assert rest == [] && plan[..k] == plan;
      outcome := EndUndo(allOk);
    }

    /** The next step of the plan, after the first `k`. */
    method UndoNext(plan: seq<Step>, k: nat, ghost before: seq<(Compensation, bool)>, ghost rest: seq<Step>, ghost ok: bool)
      returns (fate: Fate)
      requires k < |plan| && rest == plan[k..] && At(Undoing(rest)) && Attempted(plan[..k], before, Attempts(journal), ok)
      modifies this`journal, this`w, this`trace, this`now
      ensures Calm() && old(trace) <= trace && old(journal) <= journal
      ensures if fate.Killed? then now.phase.Idle?
              else now.phase == Undoing(rest[1..]) && Attempted(plan[..k + 1], before, Attempts(journal), ok && fate.Worked?)
    {
      ghost var sofar := Attempts(journal);
      fate := UndoOne(plan[k], rest);
      if !fate.Killed? {
        AttemptedMore(plan, k, before, sofar, ok, fate.Worked?);
      }
    }

    /** One step: attempted, and its outcome recorded - unless the process dies. */
    method UndoOne(step: Step, ghost plan: seq<Step>) returns (fate: Fate)
      requires plan != [] && plan[0] == step && At(Undoing(plan))
      modifies this`journal, this`w, this`trace, this`now
      ensures Calm() && old(trace) <= trace && old(journal) <= journal
      ensures if fate.Killed? then now.phase.Idle?
              else now.phase == Undoing(plan[1..])
                   && Attempts(journal) == Attempts(old(journal)) + [(step.compensation, fate.Worked?)]
    {
      Elsewhere();
      var will: Will := *;
      fate := Compensate(step, plan, will);
      if fate.Killed? {
        Die();
      } else {
        Record(step, plan, fate.Worked?);
      }
    }

    /** Whatever was about to be recorded is not. */
    method Die()
      requires Valid()
      modifies this`journal, this`w, this`trace, this`now
      ensures At(Idle) && old(trace) <= trace && journal == old(journal)
    {
      assert Crashes(now, now.(phase := Idle, pending := None));
      Become(journal, w, now.(phase := Idle, pending := None));
    }

    /** The last record of a rollback - unless the process dies first. */
    method EndUndo(ok: bool) returns (outcome: Outcome)
      requires At(Undoing([]))
      modifies this`journal, this`w, this`trace, this`now
      ensures At(Idle) && old(trace) <= trace && old(journal) <= journal
      ensures outcome == Died || (outcome == RolledBackAs(ok) && LastIs(journal, RolledBack))
      ensures Attempts(journal) == Attempts(old(journal))
    {
      var dies := Dies();
      if dies {
        Die();
        return Died;
      }
      var e := Entry(RolledBack, None, map[]);
      assert UndoEnds(now, now.(js := journal + [e], phase := Idle));
      AttemptsSnoc(journal, e);
      Append(e, Idle, now.entered);
      outcome := RolledBackAs(ok);
    }

    method Record(step: Step, ghost plan: seq<Step>, worked: bool)
      requires plan != [] && plan[0] == step && At(Undoing(plan))
      requires worked && step.compensation.RestartSource? ==> AllRestarted(c, journal)
      modifies this`journal, this`w, this`trace, this`now
      ensures At(Undoing(plan[1..])) && old(trace) <= trace && old(journal) <= journal
      ensures Attempts(journal) == Attempts(old(journal)) + [(step.compensation, worked)]
    {
      assert UndoRecords(c, now, now.(js := journal + [OutcomeNote(step, worked)], phase := Undoing(plan[1..])), worked);
      AttemptsSnoc(journal, OutcomeNote(step, worked));
      Append(OutcomeNote(step, worked), Undoing(plan[1..]), now.entered);
    }

    /** Neither an irreversible migration nor a source without its data is rolled back. */
    method Guard(explicit: bool, saw: Sight) returns (fate: Fate)
      requires At(Judging(explicit))
      modifies this`journal, this`w, this`trace, this`now
      ensures Calm() && old(trace) <= trace && journal == old(journal)
      ensures fate.Worked? ==> now.phase == Cleared(explicit) && !ToldTo(journal, Delete)
      ensures fate.Worked? && (ToldTo(journal, Keep) || ToldTo(journal, Rename)) ==>
                saw == Sight(true, true) && c.data <= old(w.src) && c.data * w.src <= w.srcPin
      ensures fate.Gated? ==> Refuses(now, now.(js := journal + [Entry(RefusedRollback, None, map[])], phase := Idle))
      ensures fate.Gated? ==>
                || ToldTo(journal, Delete)
                || ((ToldTo(journal, Keep) || ToldTo(journal, Rename)) && (saw != Sight(true, true) || !(c.data <= old(w).src)))
      ensures !fate.Failed?
    {
      var markers := ReadDetails(journal);
      if RollbackRefused(markers) { return Gated; }
      if !SourceCopyUnproven(markers) {
        Act(w, Cleared(explicit));
        return Worked;
      }
      if !saw.readable || !(c.data <= w.src) { return Gated; }
      Act(w, Looked(explicit));
      Elsewhere();
      var dies := Dies();
      if dies { return Killed; }
      if !saw.pinnable { return Gated; }
      Act(w.(srcPin := w.srcPin + c.data * w.src), Cleared(explicit));
      dies := Dies();
      fate := if dies then Killed else Worked;
    }

    /** One undo action, attempted: whatever it manages, it may still fail or be killed. The last of
        a plan lets go of the source's pins once its containers kept every pinned volume mounted;
        after a stop it does not even look unless the restart was accepted. */
    method Compensate(step: Step, ghost plan: seq<Step>, will: Will) returns (fate: Fate)
      requires plan != [] && plan[0] == step && At(Undoing(plan))
      modifies this`journal, this`w, this`trace, this`now
      ensures Valid() && (!fate.Killed? ==> At(Undoing(plan)))
      ensures old(trace) <= trace && old(journal) <= journal
      ensures Attempts(journal) == Attempts(old(journal))
      ensures !fate.Gated?
      ensures fate.Worked? && step.compensation.RestartSource? ==> AllRestarted(c, journal)
      ensures fate.Worked? ==> will.end.Worked?
      ensures step.compensation != RestartSource ==>
                fate == if will.end.Killed? then Killed else if will.end.Worked? then Worked else Failed
      ensures step.compensation == RestartSource && (forall r :: r in c.sources ==> !will.replies(r).CutOff?) ==>
                fate == if will.end.Killed? then Killed else if will.end.Worked? && AllRestarted(c, journal) then Worked else Failed
      ensures step.compensation.RestartSource? && (forall r :: r in c.sources ==> !will.replies(r).CutOff?) ==>
                RestartedSinceStop(journal) == RestartedSinceStop(old(journal)) + Answered(c.sources, will.replies)
      ensures step.compensation == StopTarget ==> w == old(w).(tgtUse := will.used)
      ensures step.compensation == DropTargetVolumes ==>
                w == old(w).(tgtPin := old(w).tgtPin * will.pinned, copied := old(w).copied * will.left)
      ensures step.compensation == DeleteTargetResource ==>
                w == old(w).(tgtUse := will.used, tgtPin := old(w).tgtPin * will.pinned, copied := old(w).copied * will.left)
      ensures step.compensation == ReleaseSourcePins ==>
                w == if will.steady && old(w).srcPin <= old(w).srcUse
                        && (SourceWasStopped(CompletedStates(old(journal)), Details(old(journal))) ==> RestartSucceeded(old(journal)))
                     then old(w).(srcPin := {}, unsettled := false) else old(w)
      ensures step.compensation in {RevokeEphemeralKey, RestoreSourceName, RestoreSourceFqdn} ==> w == old(w)
      ensures step.compensation != RestartSource ==> journal == old(journal)
    {
      fate := Worked;
      match step.compensation {
        case StopTarget =>
          Act(w.(tgtUse := will.used), Undoing(plan));
        case DropTargetVolumes =>
          Act(w.(tgtPin := w.tgtPin * will.pinned, copied := w.copied * will.left), Undoing(plan));
        case DeleteTargetResource =>
          Act(w.(tgtUse := will.used, tgtPin := w.tgtPin * will.pinned, copied := w.copied * will.left), Undoing(plan));
        case RestartSource =>
          fate := RestartSources(plan, will.replies);
          if fate.Killed? { return; }
        case ReleaseSourcePins =>
          var stopped := IsSourceStopped();
          if will.steady && (!stopped || RestartSucceeded(journal)) && w.srcPin <= w.srcUse {
            Act(w.(srcPin := {}, unsettled := false), Undoing(plan));
          }
        case _ =>
      }
      fate := if will.end.Killed? then Killed else if will.end.Worked? then fate else Failed;
    }

    // ── unpinning ──────────────────────────────────────────────────────────

    /** The unpin command: refused while the migration is unfinished, it writes nothing to the
        journal and lets go of each side whose containers keep every pinned volume mounted. */
    method Unpin(steady: bool) returns (refused: bool)
      requires At(Idle)
      modifies this`journal, this`w, this`trace, this`now
      ensures At(Idle) && old(trace) <= trace && journal == old(journal)
      ensures refused <==> !IsFinished(journal)
      ensures refused ==> w == old(w)
      ensures w.srcPin in {old(w.srcPin), {}} && w.tgtPin in {old(w.tgtPin), {}}
      ensures !refused && steady ==>
                && (w.tgtPin == {} || UnusedSince(|old(trace)|))
                && (w.srcPin == {} || exists k :: |old(trace)| - 1 <= k < |trace| && 0 <= k && !(trace[k].w.srcPin <= trace[k].w.srcUse))
    {
      refused := !IsFinished(journal);
      if !refused {
        Elsewhere();
        ghost var looked := trace;
        UnpinSource(steady);
        Elsewhere();
        ghost var again := trace;
        UnpinTarget(steady);
        assert trace[|looked| - 1] == looked[|looked| - 1] && trace[|again| - 1] == again[|again| - 1];
      }
    }

    /** Once running containers kept every pinned volume mounted, longer than a queued stop takes. */
    method UnpinSource(steady: bool)
      requires At(Idle) && IsFinished(journal)
      modifies this`journal, this`w, this`trace, this`now
      ensures At(Idle) && old(trace) <= trace && journal == old(journal)
      ensures w == if steady && old(w.srcPin) <= old(w.srcUse) then old(w).(srcPin := {}, unsettled := false) else old(w)
    {
      if steady && w.srcPin <= w.srcUse {
        ghost var t := now.(w := w.(srcPin := {}, unsettled := false), unpinned := true);
        assert Unpins(now, t);
        Become(journal, w.(srcPin := {}, unsettled := false), t);
      }
    }

    method UnpinTarget(steady: bool)
      requires At(Idle) && IsFinished(journal)
      modifies this`journal, this`w, this`trace, this`now
      ensures At(Idle) && old(trace) <= trace && journal == old(journal)
      ensures w == if steady && old(w.tgtPin) <= old(w.tgtUse) then old(w).(tgtPin := {}) else old(w)
    {
      if steady && w.tgtPin <= w.tgtUse {
        ghost var t := now.(w := w.(tgtPin := {}), unpinned := true);
        assert Unpins(now, t);
        Become(journal, w.(tgtPin := {}), t);
      }
    }

    method IsSourceStopped() returns (stopped: bool)
      ensures stopped == SourceWasStopped(CompletedStates(journal), Details(journal))
    {
      var states := ReadCompletedStates(journal);
      var markers := ReadDetails(journal);
      stopped := SourceWasStopped(states, markers);
    }

    /** Every source not restarted since the stop, each recorded as soon as Coolify took it. */
    method RestartSources(ghost plan: seq<Step>, replies: string -> Reply) returns (fate: Fate)
      requires plan != [] && plan[0].compensation.RestartSource? && At(Undoing(plan))
      modifies this`journal, this`w, this`trace, this`now
      ensures Valid() && (!fate.Killed? ==> At(Undoing(plan)))
      ensures old(trace) <= trace && old(journal) <= journal
      ensures Attempts(journal) == Attempts(old(journal))
      ensures !fate.Gated?
      ensures fate.Killed? ==> exists r :: r in c.sources && r !in RestartedSinceStop(old(journal)) && replies(r).CutOff?
      ensures !fate.Killed? ==>
                RestartedSinceStop(journal) == RestartedSinceStop(old(journal)) + Answered(c.sources, replies)
      ensures fate.Worked? ==> AllRestarted(c, journal)
      ensures fate.Failed? ==> !AllRestarted(c, journal)
    {
      var already := ReadRestartedSinceStop(journal);
      fate := RestartEach(plan, already, replies);
      AllFirsts(resources);
      assert Firsts(resources, |resources|) == c.sources;
    }

    method RestartEach(ghost plan: seq<Step>, already: set<string>, replies: string -> Reply) returns (fate: Fate)
      requires plan != [] && plan[0].compensation.RestartSource? && At(Undoing(plan)) && already == RestartedSinceStop(journal)
      modifies this`journal, this`w, this`trace, this`now
      ensures Valid() && (!fate.Killed? ==> At(Undoing(plan)))
      ensures old(trace) <= trace && old(journal) <= journal
      ensures Attempts(journal) == Attempts(old(journal))
      ensures fate.Killed? ==> exists r :: r in c.sources && r !in already && replies(r).CutOff?
      ensures !fate.Killed? ==> RestartedSinceStop(journal) == already + Answered(Firsts(resources, |resources|), replies)
      ensures !fate.Killed? ==>
                fate == Verdict(Firsts(resources, |resources|), already, replies)
    {
      fate := Worked;
      for i := 0 to |resources|
        invariant At(Undoing(plan)) && old(trace) <= trace && old(journal) <= journal
        invariant Attempts(journal) == Attempts(old(journal))
        invariant RestartedSinceStop(journal) == already + Answered(Firsts(resources, i), replies)
        invariant fate == Verdict(Firsts(resources, i), already, replies)
      {
        NextVerdict(resources, i, already, replies);
        var one := RestartNext(resources[i], plan, already, replies(resources[i]));
        if one.Killed? {
          return Killed;
        }
        fate := if one.Failed? then Failed else fate;
      }
    }

    method RestartNext(r: string, ghost plan: seq<Step>, already: set<string>, reply: Reply) returns (fate: Fate)
      requires plan != [] && plan[0].compensation.RestartSource? && At(Undoing(plan))
      requires r in c.sources && (r in already || r !in RestartedSinceStop(journal))
      modifies this`journal, this`w, this`trace, this`now
      ensures Valid() && (!fate.Killed? ==> At(Undoing(plan)))
      ensures old(trace) <= trace && old(journal) <= journal
      ensures fate == if r in already then Worked else match reply case Accepted => Worked case CutOff => Killed case _ => Failed
      ensures RestartedSinceStop(journal) == RestartedSinceStop(old(journal)) + if r !in already && reply.Accepted? then {r} else {}
      ensures Attempts(journal) == Attempts(old(journal))
    {
      fate := Worked;
      if r !in already {
        fate := Restart(r, plan, reply);
      }
    }

    /** Coolify takes one restart or declines it, and it is recorded - unless the answer is lost,
        which reads as a failure, or the process dies first. */
    method Restart(r: string, ghost plan: seq<Step>, reply: Reply) returns (fate: Fate)
      requires plan != [] && plan[0].compensation.RestartSource? && At(Undoing(plan))
      requires r in c.sources && r !in RestartedSinceStop(journal)
      modifies this`journal, this`w, this`trace, this`now
      ensures Valid() && (!fate.Killed? ==> At(Undoing(plan)))
      ensures old(trace) <= trace && old(journal) <= journal
      ensures fate == match reply case Accepted => Worked case CutOff => Killed case _ => Failed
      ensures RestartedSinceStop(journal) == RestartedSinceStop(old(journal)) + if reply.Accepted? then {r} else {}
      ensures reply.Declined? ==> now == old(now)
      ensures !reply.Declined? ==> now.accepted == old(now).accepted + [r]
      ensures Attempts(journal) == Attempts(old(journal))
    {
      if reply.Declined? {
        return Failed;
      }
      assert RestartTaken(c, now, Taken(now, r));
      assert UndoActs(c, now, Taken(now, r));
      Become(journal, w.(unsettled := true), Taken(now, r));
      if reply.CutOff? {
        fate := Killed;
      } else if reply.Unheard? {
        assert UndoActs(c, now, now.(pending := None));
        Become(journal, w, now.(pending := None));
        fate := Failed;
      } else {
        NoteRestart(r, plan);
        fate := Worked;
      }
    }

    method NoteRestart(r: string, ghost plan: seq<Step>)
      requires Valid() && now.phase == Undoing(plan) && now.pending == Some(r)
      requires plan != [] && plan[0].compensation.RestartSource?
      modifies this`journal, this`w, this`trace, this`now
      ensures At(Undoing(plan)) && old(trace) <= trace && old(journal) <= journal && now.accepted == old(now).accepted
      ensures RestartedSinceStop(journal) == RestartedSinceStop(old(journal)) + {r}
      ensures Attempts(journal) == Attempts(old(journal))
    {
      AttemptsSnoc(journal, RestartNote(r));
      RestartedNoted(journal, r);
      assert UndoActs(c, now, now.(js := journal + [RestartNote(r)], pending := None));
      Become(journal + [RestartNote(r)], w, now.(js := journal + [RestartNote(r)], pending := None));
    }
  }

  /** Whatever the executor has done, by whatever calls: if no resume was unsound, no data pruned
      between the guard's look and its pin, and no rollback asked for unprotected after an unpin,
      the data is safe. */
  lemma {:induction false} SagaKeepsDataSafe(saga: Saga)
    requires saga.Valid() && DisciplinedRun(saga.c, saga.trace)
    ensures DataIsSafe(saga.c, saga.now) && UndoneOnlySafely(saga.c, saga.now)
    ensures CompletedStates(saga.journal) <= ORDER && OncePerStop(saga.journal)
    ensures NothingLost(saga.trace) ==> Distinct(saga.now.accepted)
  {
    var last := |saga.trace| - 1;
    DataIsAlwaysSafe(saga.c, saga.trace, last);
    CompletedIsAPrefix(saga.c, saga.trace, last);
    NotedOncePerStop(saga.c, saga.trace, last);
    if NothingLost(saga.trace) {
      RestartedOncePerStop(saga.c, saga.trace, last);
    }
  }

  /** The sources whose restart is taken and heard of. */
  function Answered(sources: set<string>, replies: string -> Reply): set<string> {
    set r | r in sources && replies(r) == Accepted
  }

  /** Whether these sources are all restarted. */
  function Verdict(some: set<string>, already: set<string>, replies: string -> Reply): Fate {
    if some <= already + Answered(some, replies) then Worked else Failed
  }

  lemma {:induction false} NextVerdict(resources: seq<string>, i: nat, already: set<string>, replies: string -> Reply)
    requires i < |resources| && Distinct(resources)
    ensures var r := resources[i];
            && already + Answered(Firsts(resources, i + 1), replies)
               == already + Answered(Firsts(resources, i), replies) + (if r !in already && replies(r).Accepted? then {r} else {})
            && Verdict(Firsts(resources, i + 1), already, replies)
               == if r in already || replies(r).Accepted? then Verdict(Firsts(resources, i), already, replies) else Failed
  {
    FirstsSnoc(resources, i);
    AnsweredMore(Firsts(resources, i), resources[i], already, replies);
  }

  lemma {:induction false} AnsweredMore(some: set<string>, r: string, already: set<string>, replies: string -> Reply)
    ensures Answered(some + {r}, replies) == Answered(some, replies) + if replies(r) == Accepted then {r} else {}
    ensures some + {r} <= already + Answered(some + {r}, replies) <==>
            some <= already + Answered(some, replies) && (r in already || replies(r) == Accepted || r in Answered(some, replies))
  {
    assert r in some + {r};
    if some + {r} <= already + Answered(some + {r}, replies) {
      forall q | q in some ensures q in already + Answered(some, replies) {
        assert q in some + {r};
      }
    }
  }

  function Firsts(resources: seq<string>, i: nat): set<string>
    requires i <= |resources|
  {
    set k | 0 <= k < i :: resources[k]
  }

  lemma {:induction false} FirstsSnoc(resources: seq<string>, i: nat)
    requires i < |resources| && Distinct(resources)
    ensures Firsts(resources, i + 1) == Firsts(resources, i) + {resources[i]} && resources[i] !in Firsts(resources, i)
  {
    forall r ensures r in Firsts(resources, i + 1) <==> r in Firsts(resources, i) || r == resources[i] {
    }
  }

  lemma {:induction false} AllFirsts(resources: seq<string>)
    ensures forall r :: r in resources <==> r in Firsts(resources, |resources|)
  {
  }

  lemma {:induction false} CompletedSnoc(js: seq<Entry>, e: Entry)
    ensures CompletedStates(js + [e]) ==
            CompletedStates(js) + if e.event.StepCompleted? && e.state.Some? then [e.state.value] else []
  {
    assert (js + [e])[..|js|] == js;
  }

  lemma {:induction false} ExtendRun(c: Config, trace: seq<Sys>, t: Sys)
    requires Run(c, trace) && Next(c, trace[|trace| - 1], t)
    ensures Run(c, trace + [t])
  {
    var more := trace + [t];
    forall i | 0 <= i < |more| - 1 ensures NextAt(c, more, i) {
      if i < |trace| - 1 {
        assert NextAt(c, trace, i);
      }
    }
  }
}
