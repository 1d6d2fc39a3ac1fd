/** One project migration: its states, its undo actions, and what a rollback of it owes. */
module Migration {
  import opened Wrappers
  import opened StateMachine

  /** A journal written by another version may name a state this one does not have. */
  datatype State =
    | Init | Preflight | Plan | CreateTarget | Quiesce | Discover | Copy | Verify
    | DnsGate | StartTarget | HealthCheck | Finalize | Done | Foreign(name: string)

  datatype Compensation =
    | DeleteTargetResource | DropTargetVolumes | StopTarget | RestartSource | RevokeEphemeralKey
    | RestoreSourceName | RestoreSourceFqdn | ReleaseSourcePins

  datatype FinalizePolicy = Keep | Rename | Delete

  const ORDER: seq<State> :=
    [Init, Preflight, Plan, CreateTarget, Quiesce, Discover, Copy, Verify, DnsGate, StartTarget, HealthCheck, Finalize,
     Done]

  const UNDO: map<State, seq<Compensation>> :=
    map[CreateTarget := [DeleteTargetResource, RestoreSourceFqdn, ReleaseSourcePins],
        Quiesce := [RestartSource],
        Copy := [DropTargetVolumes, RevokeEphemeralKey],
        StartTarget := [StopTarget],
        Finalize := [RestoreSourceName]]

  const DOMAINS_FIRST: (Compensation, Compensation) := (RestoreSourceFqdn, RestartSource)

  // ── what a step records ────────────────────────────────────────────────────

  datatype Key = StopRequested | PolicyKey | UndoIncomplete | Restarted | CompensationKey | Ok | Other(name: string)

  datatype Value = Flag(on: bool) | PolicyIs(policy: FinalizePolicy) | Action(action: Compensation) | Text(text: string)

  type Detail = map<Key, Value>

  /** `detail.get(key)` of one state's merged detail, empty when the state recorded nothing. */
  function Mark(markers: map<State, Detail>, state: State, key: Key): Option<Value> {
    if state in markers && key in markers[state] then Some(markers[state][key]) else None
  }

  predicate StopWasRequested(markers: map<State, Detail>) {
    Mark(markers, Quiesce, StopRequested) == Some(Flag(true))
  }

  predicate SourceWasStopped(completed: seq<State>, markers: map<State, Detail>) {
    Quiesce in completed || StopWasRequested(markers)
  }

  /** No rollback may run at all once FINALIZE(delete) began. */
  predicate RollbackRefused(markers: map<State, Detail>) {
    Mark(markers, Finalize, PolicyKey) == Some(PolicyIs(Delete))
  }

  /** FINALIZE(keep) and FINALIZE(rename) stop protecting the source's volumes. */
  predicate SourceCopyUnproven(markers: map<State, Detail>) {
    Mark(markers, Finalize, PolicyKey) in {Some(PolicyIs(Keep)), Some(PolicyIs(Rename))}
  }

  // ── the states a rollback owes ─────────────────────────────────────────────

  ghost predicate Owes(completed: seq<State>, inFlight: Option<State>, undoIncomplete: seq<State>,
                       markers: map<State, Detail>, state: State)
  {
    || state in completed
    || (state != Quiesce && (inFlight == Some(state) || state in undoIncomplete))
    || (state == Quiesce && StopWasRequested(markers))
  }

  /** Every state with something to undo: what it may have done decides, except for QUIESCE,
      where only a completion or a requested stop counts. */
  method OwedStates(completed: seq<State>, inFlight: Option<State>, undoIncomplete: seq<State>, markers: map<State, Detail>)
    returns (owed: seq<State>)
    ensures Distinct(owed)
    ensures forall s :: s in owed <==> Owes(completed, inFlight, undoIncomplete, markers, s)
  {
    owed := [];
    for i := 0 to |completed|
      invariant Distinct(owed)
      invariant forall s :: s in owed <==> s in completed[..i]
    {
      if completed[i] !in owed {
        owed := owed + [completed[i]];
      }
    }
    if inFlight.Some? && inFlight.value != Quiesce && inFlight.value !in owed {
      owed := owed + [inFlight.value];
    }
    for i := 0 to |undoIncomplete|
      invariant Distinct(owed)
      invariant forall s :: s in owed <==>
                  s in completed || (s != Quiesce && (inFlight == Some(s) || s in undoIncomplete[..i]))
    {
      if undoIncomplete[i] != Quiesce && undoIncomplete[i] !in owed {
        owed := owed + [undoIncomplete[i]];
      }
    }
    if SourceWasStopped(owed, markers) && Quiesce !in owed {
      owed := owed + [Quiesce];
    }
  }

  // ── the plan itself ────────────────────────────────────────────────────────

  type Step = RollbackStep<State, Compensation>

  function When(due: bool, steps: seq<Step>): seq<Step> {
    if due then steps else []
  }

  /** Every plan of a migration: stop the target, drop its volumes, give the source its
      domains back right before it is restarted, delete the target, release the pins. */
  function MigrationPlan(owed: set<State>): seq<Step> {
    Early(owed) + Rest(owed)
  }

  function Rest(owed: set<State>): seq<Step> {
    var domains := RollbackStep(RestoreSourceFqdn, CreateTarget);
    When(CreateTarget in owed && Quiesce in owed, [domains])
    + (When(Quiesce in owed, [RollbackStep(RestartSource, Quiesce)])
       + When(CreateTarget in owed,
              [RollbackStep(DeleteTargetResource, CreateTarget)]
              + When(Quiesce !in owed, [domains])
              + [RollbackStep(ReleaseSourcePins, CreateTarget)]))
  }

  function Early(owed: set<State>): seq<Step> {
    When(Finalize in owed, [RollbackStep(RestoreSourceName, Finalize)])
    + (When(StartTarget in owed, [RollbackStep(StopTarget, StartTarget)])
       + When(Copy in owed, [RollbackStep(DropTargetVolumes, Copy), RollbackStep(RevokeEphemeralKey, Copy)]))
  }

  function Restart(owed: set<State>): seq<Step> {
    When(Quiesce in owed, [RollbackStep(RestartSource, Quiesce)])
  }

  function Late(owed: set<State>): seq<Step> {
    When(CreateTarget in owed,
         [RollbackStep(DeleteTargetResource, CreateTarget), RollbackStep(RestoreSourceFqdn, CreateTarget),
          RollbackStep(ReleaseSourcePins, CreateTarget)])
  }

  // The table of undo actions, seen through the five states that owe any.

  lemma {:induction false} OwedByCreate(owed: set<State>)
    ensures OwedBy(CreateTarget, owed, UNDO) == Late(owed)
  {
  }

  lemma {:induction false} OwedByQuiesce(owed: set<State>)
    ensures OwedBy(Quiesce, owed, UNDO) == Restart(owed)
  {
  }

  lemma {:induction false} OwedByCopy(owed: set<State>)
    ensures OwedBy(Copy, owed, UNDO) ==
            When(Copy in owed, [RollbackStep(DropTargetVolumes, Copy), RollbackStep(RevokeEphemeralKey, Copy)])
  {
  }

  lemma {:induction false} OwedByStart(owed: set<State>)
    ensures OwedBy(StartTarget, owed, UNDO) == When(StartTarget in owed, [RollbackStep(StopTarget, StartTarget)])
  {
  }

  lemma {:induction false} OwedByFinalize(owed: set<State>)
    ensures OwedBy(Finalize, owed, UNDO) == When(Finalize in owed, [RollbackStep(RestoreSourceName, Finalize)])
  {
  }

  /** A stretch of states that owe nothing. */
  lemma {:induction false} IdleStretch(order: seq<State>, owed: set<State>, undo: map<State, seq<Compensation>>, m: nat, n: nat)
    requires m <= n <= |order|
    requires forall k :: m <= k < n ==> order[k] !in undo
    ensures Reversed(order[..n], owed, undo) == Reversed(order[..m], owed, undo)
    decreases n
  {
    if m < n {
      ReversedFront(order, n - 1, owed, undo);
      IdleStretch(order, owed, undo, m, n - 1);
    }
  }

  /** One state that owes something, and the idle ones after it. */
  lemma {:induction false} NextStretch(order: seq<State>, owed: set<State>, undo: map<State, seq<Compensation>>, m: nat, n: nat)
    requires m < n <= |order|
    requires forall k :: m < k < n ==> order[k] !in undo
    ensures Reversed(order[..n], owed, undo) == OwedBy(order[m], owed, undo) + Reversed(order[..m], owed, undo)
  {
    IdleStretch(order, owed, undo, m + 1, n);
    ReversedFront(order, m, owed, undo);
  }

  /** Five stretches of an order of thirteen, each opened by a state that owes something. */
  lemma {:induction false} FiveStretches(order: seq<State>, owed: set<State>, undo: map<State, seq<Compensation>>)
    requires |order| == 13
    requires forall k :: 0 <= k < 13 && k !in {3, 4, 6, 9, 11} ==> order[k] !in undo
    ensures Reversed(order, owed, undo) ==
            OwedBy(order[11], owed, undo) + (OwedBy(order[9], owed, undo) + (OwedBy(order[6], owed, undo)
            + (OwedBy(order[4], owed, undo) + OwedBy(order[3], owed, undo))))
  {
    IdleStretch(order, owed, undo, 0, 3);
    NextStretch(order, owed, undo, 3, 4);
    NextStretch(order, owed, undo, 4, 6);
    NextStretch(order, owed, undo, 6, 9);
    NextStretch(order, owed, undo, 9, 11);
    NextStretch(order, owed, undo, 11, 13);
    assert order[..13] == order && Reversed(order[..0], owed, undo) == [];
    assert OwedBy(order[3], owed, undo) + [] == OwedBy(order[3], owed, undo);
  }

  lemma {:induction false} Grouped<T>(a: seq<T>, b: seq<T>, c: seq<T>, d: seq<T>)
    ensures a + (b + (c + d)) == (a + (b + c)) + d
  {
  }

  lemma {:induction false} IdleStates()
    ensures forall k :: 0 <= k < 13 && k !in {3, 4, 6, 9, 11} ==> ORDER[k] !in UNDO
  {
  }

  lemma {:induction false} BaseOfMigration(owed: set<State>)
    ensures Reversed(ORDER, owed, UNDO) == Early(owed) + (Restart(owed) + Late(owed))
  {
    IdleStates();
    FiveStretches(ORDER, owed, UNDO);
    FiveOwed(owed);
  }

  lemma {:induction false} FiveOwed(owed: set<State>)
    ensures OwedBy(Finalize, owed, UNDO) + (OwedBy(StartTarget, owed, UNDO) + (OwedBy(Copy, owed, UNDO)
            + (OwedBy(Quiesce, owed, UNDO) + OwedBy(CreateTarget, owed, UNDO)))) ==
            Early(owed) + (Restart(owed) + Late(owed))
  {
    OwedByCreate(owed);
    OwedByQuiesce(owed);
    OwedByCopy(owed);
    OwedByStart(owed);
    OwedByFinalize(owed);
    Grouped(OwedBy(Finalize, owed, UNDO), OwedBy(StartTarget, owed, UNDO), OwedBy(Copy, owed, UNDO),
            Restart(owed) + Late(owed));
  }

  lemma {:induction false} DomainsMove(early: seq<Step>)
    requires forall k :: 0 <= k < |early| ==> early[k].compensation !in {RestartSource, RestoreSourceFqdn}
    ensures var restart, delete, domains, pins :=
              RollbackStep(RestartSource, Quiesce), RollbackStep(DeleteTargetResource, CreateTarget),
              RollbackStep(RestoreSourceFqdn, CreateTarget), RollbackStep(ReleaseSourcePins, CreateTarget);
            MoveBefore(early + [restart, delete, domains, pins], DOMAINS_FIRST) ==
            early + [domains, restart, delete, pins]
  {
    var base: seq<Step> := early + [RollbackStep(RestartSource, Quiesce), RollbackStep(DeleteTargetResource, CreateTarget),
                         RollbackStep(RestoreSourceFqdn, CreateTarget), RollbackStep(ReleaseSourcePins, CreateTarget)];
    IndexIs(base, RestartSource, |early|);
    IndexIs(base, RestoreSourceFqdn, |early| + 2);
    var j := |early|;
    assert base[..j] == early && base[j..j + 2] == [base[j], base[j + 1]] && base[j + 3..] == [base[j + 3]];
    assert MoveBefore(base, DOMAINS_FIRST) == base[..j] + [base[j + 2]] + base[j..j + 2] + base[j + 3..];
  }

  lemma {:induction false} NothingMoves(base: seq<Step>)
    requires (forall k :: 0 <= k < |base| ==> base[k].compensation != RestartSource)
             || (forall k :: 0 <= k < |base| ==> base[k].compensation != RestoreSourceFqdn)
    ensures MoveBefore(base, DOMAINS_FIRST) == base
  {
  }

  lemma {:induction false} EarlyIsNeither(owed: set<State>)
    ensures forall k :: 0 <= k < |Early(owed)| ==> Early(owed)[k].compensation !in {RestartSource, RestoreSourceFqdn}
  {
  }

  /** The generic planner, on this machine, gives exactly that plan. */
  lemma {:induction false} PlanIsMigrationPlan(completed: seq<State>, owed: set<State>)
    requires forall s :: s in owed <==> s in completed
    ensures PlanFor(completed, ORDER, UNDO, [DOMAINS_FIRST]) == MigrationPlan(owed)
  {
    var seen := set s | s in completed;
    assert seen == owed;
    BaseOfMigration(owed);
    OneRule(Reversed(ORDER, owed, UNDO), DOMAINS_FIRST);
    RuleApplied(owed);
  }

  lemma {:induction false} RuleApplied(owed: set<State>)
    ensures MoveBefore(Early(owed) + (Restart(owed) + Late(owed)), DOMAINS_FIRST) == MigrationPlan(owed)
  {
    EarlyIsNeither(owed);
    if CreateTarget in owed && Quiesce in owed {
      var restart, delete, domains, pins :=
        RollbackStep(RestartSource, Quiesce), RollbackStep(DeleteTargetResource, CreateTarget),
        RollbackStep(RestoreSourceFqdn, CreateTarget), RollbackStep(ReleaseSourcePins, CreateTarget);
      DomainsMove(Early(owed));
      Moved(owed);
      assert Early(owed) + (Restart(owed) + Late(owed)) == Early(owed) + [restart, delete, domains, pins];
      assert MigrationPlan(owed) == Early(owed) + [domains, restart, delete, pins];
    } else {
      LowIsNot(owed);
      NothingMovesAfter(Early(owed), Restart(owed) + Late(owed));
      NotMoved(owed);
    }
  }

  lemma {:induction false} LowIsNot(owed: set<State>)
    requires CreateTarget !in owed || Quiesce !in owed
    ensures var low := Restart(owed) + Late(owed);
            (forall k :: 0 <= k < |low| ==> low[k].compensation != RestartSource)
            || (forall k :: 0 <= k < |low| ==> low[k].compensation != RestoreSourceFqdn)
  {
  }

  lemma {:induction false} NothingMovesAfter(early: seq<Step>, low: seq<Step>)
    requires forall k :: 0 <= k < |early| ==> early[k].compensation !in {RestartSource, RestoreSourceFqdn}
    requires (forall k :: 0 <= k < |low| ==> low[k].compensation != RestartSource)
             || (forall k :: 0 <= k < |low| ==> low[k].compensation != RestoreSourceFqdn)
    ensures MoveBefore(early + low, DOMAINS_FIRST) == early + low
  {
    NothingMoves(early + low);
  }

  lemma {:induction false} Moved(owed: set<State>)
    requires CreateTarget in owed && Quiesce in owed
    ensures var restart, delete, domains, pins :=
              RollbackStep(RestartSource, Quiesce), RollbackStep(DeleteTargetResource, CreateTarget),
              RollbackStep(RestoreSourceFqdn, CreateTarget), RollbackStep(ReleaseSourcePins, CreateTarget);
            && Early(owed) + (Restart(owed) + Late(owed)) == Early(owed) + [restart, delete, domains, pins]
            && MigrationPlan(owed) == Early(owed) + [domains, restart, delete, pins]
  {
  }

  lemma {:induction false} NotMoved(owed: set<State>)
    requires CreateTarget !in owed || Quiesce !in owed
    ensures Early(owed) + (Restart(owed) + Late(owed)) == MigrationPlan(owed)
  {
  }

  /** How often a plan holds an action. */
  function Times(plan: seq<Step>, comp: Compensation): nat {
    if plan == [] then 0 else (if plan[0].compensation == comp then 1 else 0) + Times(plan[1..], comp)
  }

  lemma {:induction false} TimesConcat(a: seq<Step>, b: seq<Step>, comp: Compensation)
    ensures Times(a + b, comp) == Times(a, comp) + Times(b, comp)
  {
    if a == [] {
      assert a + b == b;
    } else {
      TimesConcat(a[1..], b, comp);
      assert (a + b)[1..] == a[1..] + b;
    }
  }

  lemma {:induction false} TimesAbsent(steps: seq<Step>, comp: Compensation)
    requires forall k :: 0 <= k < |steps| ==> steps[k].compensation != comp
    ensures Times(steps, comp) == 0
  {
    if steps != [] {
      TimesAbsent(steps[1..], comp);
    }
  }

  /** Whatever is owed, the source is restarted once if QUIESCE is owed, and not at all otherwise. */
  lemma {:induction false} RestartsOnce(completed: seq<State>)
    ensures Times(PlanFor(completed, ORDER, UNDO, [DOMAINS_FIRST]), RestartSource) == if Quiesce in completed then 1 else 0
  {
    var owed := set s | s in completed;
    PlanIsMigrationPlan(completed, owed);
    RestartsOnceIn(owed);
  }

  lemma {:induction false} RestartsOnceIn(owed: set<State>)
    ensures Times(MigrationPlan(owed), RestartSource) == if Quiesce in owed then 1 else 0
  {
    EarlyIsNeither(owed);
    TimesAbsent(Early(owed), RestartSource);
    TimesConcat(Early(owed), Rest(owed), RestartSource);
    TimesInRest(owed);
  }

  lemma {:induction false} TimesInRest(owed: set<State>)
    ensures Times(Rest(owed), RestartSource) == if Quiesce in owed then 1 else 0
  {
    var domains := RollbackStep(RestoreSourceFqdn, CreateTarget);
    var a, b := When(CreateTarget in owed && Quiesce in owed, [domains]), When(Quiesce in owed, [RollbackStep(RestartSource, Quiesce)]);
    var c := When(CreateTarget in owed, [RollbackStep(DeleteTargetResource, CreateTarget)] + When(Quiesce !in owed, [domains])
                                        + [RollbackStep(ReleaseSourcePins, CreateTarget)]);
    TimesAbsent(a, RestartSource);
    TimesAbsent(c, RestartSource);
    TimesConcat(a, b + c, RestartSource);
    TimesConcat(b, c, RestartSource);
    assert [RollbackStep(RestartSource, Quiesce)][1..] == [];
  }

  /** What a plan does to the target comes in the order stop, drop, delete; the source's domains
      come back directly before its restart, and that before the delete; its pins go last. */
  lemma {:induction false} PlanOrder(completed: seq<State>)
    ensures var plan := PlanFor(completed, ORDER, UNDO, [DOMAINS_FIRST]);
            && (StartTarget in completed && Copy in completed ==> IndexOf(plan, StopTarget) < IndexOf(plan, DropTargetVolumes) < |plan|)
            && (Copy in completed && CreateTarget in completed ==>
                  IndexOf(plan, DropTargetVolumes) < IndexOf(plan, DeleteTargetResource) < |plan|)
            && (CreateTarget in completed && Quiesce in completed ==>
                  IndexOf(plan, RestoreSourceFqdn) + 1 == IndexOf(plan, RestartSource) < IndexOf(plan, DeleteTargetResource))
            && (CreateTarget in completed ==> plan != [] && plan[|plan| - 1].compensation == ReleaseSourcePins)
  {
    var owed := set s | s in completed;
    PlanIsMigrationPlan(completed, owed);
    PlanOrderOf(owed);
  }

  lemma {:induction false} PlanOrderOf(owed: set<State>)
    ensures var plan := MigrationPlan(owed);
            && (StartTarget in owed && Copy in owed ==> IndexOf(plan, StopTarget) < IndexOf(plan, DropTargetVolumes) < |plan|)
            && (Copy in owed && CreateTarget in owed ==>
                  IndexOf(plan, DropTargetVolumes) < IndexOf(plan, DeleteTargetResource) < |plan|)
            && (CreateTarget in owed && Quiesce in owed ==>
                  IndexOf(plan, RestoreSourceFqdn) + 1 == IndexOf(plan, RestartSource) < IndexOf(plan, DeleteTargetResource))
            && (CreateTarget in owed ==> plan != [] && plan[|plan| - 1].compensation == ReleaseSourcePins)
  {
    IndexEarly(owed);
    IndexRest(owed);
  }

  lemma {:induction false} IndexEarly(owed: set<State>)
    ensures var plan := MigrationPlan(owed);
            && (StartTarget in owed && Copy in owed ==> IndexOf(plan, StopTarget) < IndexOf(plan, DropTargetVolumes))
            && (Copy in owed ==> IndexOf(plan, DropTargetVolumes) < |Early(owed)|)
  {
    var plan := MigrationPlan(owed);
    var n := if Finalize in owed then 1 else 0;
    if StartTarget in owed {
      assert plan[n] == Early(owed)[n];
      IndexIs(plan, StopTarget, n);
      n := n + 1;
    }
    if Copy in owed {
      assert plan[n] == Early(owed)[n];
      IndexIs(plan, DropTargetVolumes, n);
    }
  }

  lemma {:induction false} IndexRest(owed: set<State>)
    ensures var plan := MigrationPlan(owed);
            && (CreateTarget in owed ==> |Early(owed)| <= IndexOf(plan, DeleteTargetResource) < |plan|)
            && (CreateTarget in owed && Quiesce in owed ==>
                  IndexOf(plan, RestoreSourceFqdn) + 1 == IndexOf(plan, RestartSource) < IndexOf(plan, DeleteTargetResource))
            && (CreateTarget in owed ==> plan != [] && plan[|plan| - 1].compensation == ReleaseSourcePins)
  {
    EarlyIsNeither(owed);
    EarlyDeletesNothing(owed);
    if CreateTarget in owed {
      IndexShift(Early(owed), Rest(owed), DeleteTargetResource);
      IndexShift(Early(owed), Rest(owed), RestoreSourceFqdn);
      IndexShift(Early(owed), Rest(owed), RestartSource);
      RestOrder(owed);
    }
  }

  lemma {:induction false} IndexShift(early: seq<Step>, rest: seq<Step>, comp: Compensation)
    requires forall k :: 0 <= k < |early| ==> early[k].compensation != comp
    ensures IndexOf(early + rest, comp) == |early| + IndexOf(rest, comp)
  {
    if early == [] {
      assert early + rest == rest;
    } else {
      IndexShift(early[1..], rest, comp);
      assert (early + rest)[1..] == early[1..] + rest;
    }
  }

  lemma {:induction false} RestOrder(owed: set<State>)
    requires CreateTarget in owed
    ensures IndexOf(Rest(owed), DeleteTargetResource) < |Rest(owed)|
    ensures Quiesce in owed ==> IndexOf(Rest(owed), RestoreSourceFqdn) == 0 && IndexOf(Rest(owed), RestartSource) == 1
    ensures Quiesce in owed ==> IndexOf(Rest(owed), DeleteTargetResource) == 2
    ensures Rest(owed)[|Rest(owed)| - 1].compensation == ReleaseSourcePins
  {
    var restart, delete, domains, pins :=
      RollbackStep(RestartSource, Quiesce), RollbackStep(DeleteTargetResource, CreateTarget),
      RollbackStep(RestoreSourceFqdn, CreateTarget), RollbackStep(ReleaseSourcePins, CreateTarget);
    if Quiesce in owed {
      assert Rest(owed) == [domains, restart, delete, pins];
      IndexIs(Rest(owed), RestartSource, 1);
      IndexIs(Rest(owed), DeleteTargetResource, 2);
    } else {
      assert Rest(owed) == [delete, domains, pins];
    }
  }

  lemma {:induction false} EarlyDeletesNothing(owed: set<State>)
    ensures forall k :: 0 <= k < |Early(owed)| ==> Early(owed)[k].compensation != DeleteTargetResource
  {
  }
}
