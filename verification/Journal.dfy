/** What a migration's journal says: its records, folded into the facts a rollback needs. */
module Journal {
  import opened Migration
  import opened StateMachine
  import opened Wrappers

  datatype Event =
    | Started | StepStarted | StepCompleted | StepFailed | Blocked
    | RollbackStarted | RollbackStepped | RefusedRollback | RolledBack | Finished

  /** One fact. */
  datatype Entry = Entry(event: Event, state: Option<State>, detail: Detail)

  // ── what the folds compute ─────────────────────────────────────────────────

  function CompletedStates(js: seq<Entry>): seq<State> {
    if js == [] then []
    else
      var last := js[|js| - 1];
      CompletedStates(js[..|js| - 1]) + if last.event.StepCompleted? && last.state.Some? then [last.state.value] else []
  }

  predicate Ends(event: Event) {
    event.StepCompleted? || event.StepFailed? || event.Blocked?
  }

  function InFlightState(js: seq<Entry>): Option<State> {
    if js == [] then None
    else
      var last, current := js[|js| - 1], InFlightState(js[..|js| - 1]);
      if last.event.StepStarted? && last.state.Some? then last.state
      else if Ends(last.event) && last.state == current then None
      else current
  }

  /** Python's truth of a value. */
  predicate Truthy(value: Value) {
    match value
    case Flag(on) => on
    case PolicyIs(_) => true
    case Action(_) => true
    case Text(text) => text != ""
  }

  predicate Flags(entry: Entry) {
    entry.state.Some? && UndoIncomplete in entry.detail
  }

  function UndoFlags(js: seq<Entry>): map<State, bool> {
    if js == [] then map[]
    else
      var last, before := js[|js| - 1], UndoFlags(js[..|js| - 1]);
      if Flags(last) then before[last.state.value := Truthy(last.detail[UndoIncomplete])] else before
  }

  function UndoInfo(js: seq<Entry>, state: State): Detail {
    if js == [] then map[]
    else
      var last, before := js[|js| - 1], UndoInfo(js[..|js| - 1], state);
      if last.state == Some(state) && !last.event.RollbackStepped? then before + last.detail else before
  }

  function Details(js: seq<Entry>): map<State, Detail> {
    if js == [] then map[]
    else
      var last, before := js[|js| - 1], Details(js[..|js| - 1]);
      if last.state.Some? && !last.event.RollbackStepped? then
        var was := if last.state.value in before then before[last.state.value] else map[];
        before[last.state.value := was + last.detail]
      else before
  }

  predicate IsFinished(js: seq<Entry>) {
    js != [] && (js[|js| - 1].event.Finished? || js[|js| - 1].event.RolledBack?)
  }

  // ── the folds themselves ───────────────────────────────────────────────────

  method ReadCompletedStates(js: seq<Entry>) returns (states: seq<State>)
    ensures states == CompletedStates(js)
  {
    states := [];
    for i := 0 to |js|
      invariant states == CompletedStates(js[..i])
    {
      assert js[..i + 1][..i] == js[..i];
      if js[i].event.StepCompleted? && js[i].state.Some? {
        states := states + [js[i].state.value];
      }
    }
    assert js[..|js|] == js;
  }

  method ReadInFlightState(js: seq<Entry>) returns (current: Option<State>)
    ensures current == InFlightState(js)
  {
    current := None;
    for i := 0 to |js|
      invariant current == InFlightState(js[..i])
    {
      assert js[..i + 1][..i] == js[..i];
      if js[i].event.StepStarted? && js[i].state.Some? {
        current := js[i].state;
      } else if Ends(js[i].event) && js[i].state == current {
        current := None;
      }
    }
    assert js[..|js|] == js;
  }

  method ReadUndoIncompleteStates(js: seq<Entry>) returns (states: seq<State>)
    ensures forall s :: s in states <==> s in UndoFlags(js) && UndoFlags(js)[s]
  {
    var keys: seq<State>, flags: map<State, bool> := [], map[];
    for i := 0 to |js|
      invariant flags == UndoFlags(js[..i])
      invariant forall s :: s in keys <==> s in flags
    {
      assert js[..i + 1][..i] == js[..i];
      if js[i].state.Some? && UndoIncomplete in js[i].detail {
        if js[i].state.value !in flags {
          keys := keys + [js[i].state.value];
        }
        flags := flags[js[i].state.value := Truthy(js[i].detail[UndoIncomplete])];
      }
    }
    assert js[..|js|] == js;
    states := [];
    for i := 0 to |keys|
      invariant forall s :: s in states <==> s in keys[..i] && flags[s]
    {
      if flags[keys[i]] {
        states := states + [keys[i]];
      }
    }
    assert keys[..|keys|] == keys;
  }

  method ReadUndoInfo(js: seq<Entry>, state: State) returns (merged: Detail)
    ensures merged == UndoInfo(js, state)
  {
    merged := map[];
    for i := 0 to |js|
      invariant merged == UndoInfo(js[..i], state)
    {
      assert js[..i + 1][..i] == js[..i];
      if js[i].state == Some(state) && !js[i].event.RollbackStepped? {
        merged := merged + js[i].detail;
      }
    }
    assert js[..|js|] == js;
  }

  method ReadDetails(js: seq<Entry>) returns (merged: map<State, Detail>)
    ensures merged == Details(js)
  {
    merged := map[];
    for i := 0 to |js|
      invariant merged == Details(js[..i])
    {
      assert js[..i + 1][..i] == js[..i];
      if js[i].state.Some? && !js[i].event.RollbackStepped? {
        var was := if js[i].state.value in merged then merged[js[i].state.value] else map[];
        merged := merged[js[i].state.value := was + js[i].detail];
      }
    }
    assert js[..|js|] == js;
  }

  // ── what they mean ─────────────────────────────────────────────────────────

  /** The one-pass merge agrees with the per-state one, for every state. */
  lemma {:induction false} DetailsAgree(js: seq<Entry>, state: State)
    ensures (if state in Details(js) then Details(js)[state] else map[]) == UndoInfo(js, state)
    ensures state in Details(js) <==>
            exists i :: 0 <= i < |js| && js[i].state == Some(state) && !js[i].event.RollbackStepped?
    decreases |js|
  {
    if js != [] {
      var front := js[..|js| - 1];
      DetailsAgree(front, state);
      if state in Details(front) {
        var i :| 0 <= i < |front| && front[i].state == Some(state) && !front[i].event.RollbackStepped?;
        assert js[i] == front[i];
      }
      if exists i :: 0 <= i < |js| && js[i].state == Some(state) && !js[i].event.RollbackStepped? {
        var i :| 0 <= i < |js| && js[i].state == Some(state) && !js[i].event.RollbackStepped?;
        assert i < |front| ==> front[i] == js[i];
      }
    }
  }

  /** A fact recorded about a step: by a record of its state, other than the rollback's own. */
  predicate Records(entry: Entry, state: State, key: Key) {
    entry.state == Some(state) && !entry.event.RollbackStepped? && key in entry.detail
  }

  lemma {:induction false} MarkSnoc(js: seq<Entry>, state: State, key: Key)
    requires js != []
    ensures var last, before := js[|js| - 1], Mark(Details(js[..|js| - 1]), state, key);
            Mark(Details(js), state, key) == if Records(last, state, key) then Some(last.detail[key]) else before
  {
    DetailsAgree(js, state);
    DetailsAgree(js[..|js| - 1], state);
  }

  /** A marker is what its latest record says. */
  lemma {:induction false} MarkIsLatest(js: seq<Entry>, state: State, key: Key) returns (at: nat)
    ensures Mark(Details(js), state, key).None? ==> forall i :: 0 <= i < |js| ==> !Records(js[i], state, key)
    ensures Mark(Details(js), state, key).Some? ==>
              && at < |js| && Records(js[at], state, key)
              && Mark(Details(js), state, key) == Some(js[at].detail[key])
              && forall i :: at < i < |js| ==> !Records(js[i], state, key)
    decreases |js|
  {
    at := 0;
    if js != [] {
      MarkSnoc(js, state, key);
      if Records(js[|js| - 1], state, key) {
        at := |js| - 1;
      } else {
        at := MarkIsLatest(js[..|js| - 1], state, key);
      }
    }
  }

  /** An undo is unfinished exactly when the latest record that says anything of it says so. */
  lemma {:induction false} UndoFlagIsLatest(js: seq<Entry>, state: State) returns (at: nat)
    ensures state !in UndoFlags(js) ==> forall i :: 0 <= i < |js| ==> !(Flags(js[i]) && js[i].state == Some(state))
    ensures state in UndoFlags(js) ==>
              && at < |js| && Flags(js[at]) && js[at].state == Some(state)
              && (UndoFlags(js)[state] <==> js[at].detail[UndoIncomplete] !in {Flag(false), Text("")})
              && forall i :: at < i < |js| ==> !(Flags(js[i]) && js[i].state == Some(state))
    decreases |js|
  {
    at := 0;
    if js != [] {
      var last := js[|js| - 1];
      if Flags(last) && last.state == Some(state) {
        at := |js| - 1;
      } else {
        at := UndoFlagIsLatest(js[..|js| - 1], state);
      }
    }
  }

  /** A state is completed exactly when some record says its step was. */
  lemma {:induction false} CompletedMeans(js: seq<Entry>, state: State)
    ensures state in CompletedStates(js) <==>
            exists i :: 0 <= i < |js| && js[i].event.StepCompleted? && js[i].state == Some(state)
    decreases |js|
  {
    if js != [] {
      var front := js[..|js| - 1];
      CompletedMeans(front, state);
      if state in CompletedStates(front) {
        var i :| 0 <= i < |front| && front[i].event.StepCompleted? && front[i].state == Some(state);
        assert js[i] == front[i];
      }
      if exists i :: 0 <= i < |js| && js[i].event.StepCompleted? && js[i].state == Some(state) {
        var i :| 0 <= i < |js| && js[i].event.StepCompleted? && js[i].state == Some(state);
        assert i < |front| ==> front[i] == js[i];
      }
    }
  }

  /** A state is in flight exactly when its start is the last start, and nothing ended it since. */
  ghost predicate DiedInside(js: seq<Entry>, state: State, at: nat) {
    && at < |js| && js[at].event.StepStarted? && js[at].state == Some(state)
    && (forall i :: at < i < |js| ==> !(js[i].event.StepStarted? && js[i].state.Some?))
    && (forall i :: at < i < |js| ==> !(Ends(js[i].event) && js[i].state == Some(state)))
  }

  lemma {:induction false} InFlightMeansInside(js: seq<Entry>, state: State)
    ensures InFlightState(js) == Some(state) <==> exists at: nat :: DiedInside(js, state, at)
    decreases |js|
  {
    if js != [] {
      var front, last := js[..|js| - 1], js[|js| - 1];
      InFlightMeansInside(front, state);
      if InFlightState(js) == Some(state) {
        if last.event.StepStarted? && last.state.Some? {
          assert DiedInside(js, state, |js| - 1);
        } else {
          var at: nat :| DiedInside(front, state, at);
          forall i | at < i < |js| ensures !(js[i].event.StepStarted? && js[i].state.Some?)
                                           && !(Ends(js[i].event) && js[i].state == Some(state)) {
            assert i < |front| ==> front[i] == js[i];
          }
          assert DiedInside(js, state, at);
        }
      }
      if exists at: nat :: DiedInside(js, state, at) {
        var at: nat :| DiedInside(js, state, at);
        if at < |front| {
          forall i | at < i < |front| ensures front[i] == js[i] {
          }
          assert DiedInside(front, state, at);
        }
      }
    }
  }

  // ── the plans made from a journal ──────────────────────────────────────────

  /** Completed states this version knows. */
  function Known(states: seq<State>): seq<State> {
    if states == [] then []
    else Known(states[..|states| - 1]) + if states[|states| - 1] in ORDER then [states[|states| - 1]] else []
  }

  /** What a rollback of this journal owes: the automatic one goes by the completed states,
      the explicit command also by the state in flight and the unfinished undos. */
  ghost predicate OwesFrom(js: seq<Entry>, explicit: bool, state: State) {
    var inFlight := if explicit then InFlightState(js) else None;
    var flags := if explicit then UndoFlags(js) else map[];
    state in ORDER &&
    (state in CompletedStates(js)
     || (state != Quiesce && (inFlight == Some(state) || (state in flags && flags[state])))
     || (state == Quiesce && StopWasRequested(Details(js))))
  }

  lemma {:induction false} KnownIn(states: seq<State>, state: State)
    ensures state in Known(states) <==> state in states && state in ORDER
    decreases |states|
  {
    if states != [] {
      KnownIn(states[..|states| - 1], state);
      assert states == states[..|states| - 1] + [states[|states| - 1]];
    }
  }

  /** `_states_from_journal`: unknown names are skipped. */
  method StatesFromJournal(js: seq<Entry>) returns (known: seq<State>)
    ensures known == Known(CompletedStates(js))
  {
    var states := ReadCompletedStates(js);
    known := [];
    for i := 0 to |states|
      invariant known == Known(states[..i])
    {
      assert states[..i + 1][..i] == states[..i];
      if states[i] in ORDER {
        known := known + [states[i]];
      }
    }
    assert states[..|states|] == states;
  }

  ghost function OwedFrom(js: seq<Entry>, explicit: bool): (owed: set<State>)
    ensures forall s :: s in owed <==> OwesFrom(js, explicit, s)
  {
    set s | s in ORDER && OwesFrom(js, explicit, s)
  }

  /** The whole planning of a rollback, from the journal to its steps. */
  method PlanRollback(js: seq<Entry>, explicit: bool) returns (plan: seq<Step>)
    ensures plan == MigrationPlan(OwedFrom(js, explicit))
  {
    var completed := StatesFromJournal(js);
    var inFlight: Option<State>, incomplete := None, [];
    if explicit {
      inFlight := ReadInFlightState(js);
      if inFlight.Some? && inFlight.value !in ORDER {
        inFlight := None;
      }
      var flagged := ReadUndoIncompleteStates(js);
      for i := 0 to |flagged|
        invariant forall s :: s in incomplete <==> s in flagged[..i] && s in ORDER
      {
        if flagged[i] in ORDER {
          incomplete := incomplete + [flagged[i]];
        }
      }
      assert flagged[..|flagged|] == flagged;
    }
    var markers := ReadDetails(js);
    var states := OwedStates(completed, inFlight, incomplete, markers);
    forall s ensures s in states <==> OwesFrom(js, explicit, s) {
      KnownIn(CompletedStates(js), s);
    }
    plan := RollbackPlanFor(states, ORDER, UNDO, [DOMAINS_FIRST]);
    PlanIsMigrationPlan(states, OwedFrom(js, explicit));
  }

  /** For every journal, the automatic and the explicit plan restart the source exactly once
      if it may have been stopped - QUIESCE completed or its stop request was recorded - and
      never otherwise, even with QUIESCE in flight or its undo unfinished. */
  lemma {:induction false} RestartIsPlannedOnce(js: seq<Entry>, explicit: bool)
    ensures Times(MigrationPlan(OwedFrom(js, explicit)), RestartSource) ==
            var marks := Details(js);
            if || Quiesce in CompletedStates(js)
               || (Quiesce in marks && StopRequested in marks[Quiesce] && marks[Quiesce][StopRequested] == Flag(true))
            then 1 else 0
  {
    assert ORDER[4] == Quiesce;
    RestartsOnceIn(OwedFrom(js, explicit));
  }
}
