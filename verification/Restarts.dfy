/** Restarting what a migration stopped: once per stop, however often a rollback is repeated. */
module Restarts {
  import opened Journal
  import opened Migration
  import opened StateMachine
  import opened Wrappers

  predicate StopsSource(entry: Entry) {
    && entry.event.StepStarted? && entry.state == Some(Quiesce)
    && StopRequested in entry.detail && entry.detail[StopRequested] == Flag(true)
  }

  /** The source this record says was restarted, if it says so. */
  function RestartOf(entry: Entry): Option<string> {
    if && entry.event.RollbackStepped?
       && CompensationKey in entry.detail && entry.detail[CompensationKey] == Action(RestartSource)
       && Restarted in entry.detail && entry.detail[Restarted].Text?
    then Some(entry.detail[Restarted].text)
    else None
  }

  function RestartNote(uuid: string): Entry {
    Entry(RollbackStepped, Some(Quiesce), map[CompensationKey := Action(RestartSource), Restarted := Text(uuid)])
  }

  function RestartedSinceStop(js: seq<Entry>): set<string> {
    if js == [] then {}
    else
      var last, before := js[|js| - 1], RestartedSinceStop(js[..|js| - 1]);
      if StopsSource(last) then {}
      else if RestartOf(last).Some? then before + {RestartOf(last).value}
      else before
  }

  method ReadRestartedSinceStop(js: seq<Entry>) returns (restarted: set<string>)
    ensures restarted == RestartedSinceStop(js)
  {
    restarted := {};
    for i := 0 to |js|
      invariant restarted == RestartedSinceStop(js[..i])
    {
      assert js[..i + 1][..i] == js[..i];
      if StopsSource(js[i]) {
        restarted := {};
      } else if RestartOf(js[i]).Some? {
        restarted := restarted + {RestartOf(js[i]).value};
      }
    }
    assert js[..|js|] == js;
  }

  // ── what the fold means ────────────────────────────────────────────────────

  ghost predicate RestartedAt(js: seq<Entry>, uuid: string, at: nat) {
    && at < |js| && RestartOf(js[at]) == Some(uuid)
    && forall k :: at < k < |js| ==> !StopsSource(js[k])
  }

  lemma {:induction false} RestartedWhen(js: seq<Entry>, uuid: string)
    ensures uuid in RestartedSinceStop(js) <==> exists at: nat :: RestartedAt(js, uuid, at)
    decreases |js|
  {
    if js != [] {
      var front, last := js[..|js| - 1], js[|js| - 1];
      RestartedWhen(front, uuid);
      if uuid in RestartedSinceStop(js) {
        if RestartOf(last) == Some(uuid) {
          assert RestartedAt(js, uuid, |js| - 1);
        } else {
          var at: nat :| RestartedAt(front, uuid, at);
          assert RestartedAt(js, uuid, at) by {
            forall k | at < k < |js| ensures !StopsSource(js[k]) { assert k < |front| ==> front[k] == js[k]; }
          }
        }
      }
      if exists at: nat :: RestartedAt(js, uuid, at) {
        var at: nat :| RestartedAt(js, uuid, at);
        if at < |front| {
          forall k | at < k < |front| ensures !StopsSource(front[k]) { assert js[k] == front[k]; }
          assert RestartedAt(front, uuid, at);
        }
      }
    }
  }

  /** A source counts as restarted exactly when a record of its restart stands after the last
      stop request. */
  lemma {:induction false} RestartedMeans(js: seq<Entry>, uuid: string)
    ensures uuid in RestartedSinceStop(js) <==>
              exists at: nat :: at < |js| &&
                (var e := js[at];
                 && e.event == RollbackStepped
                 && CompensationKey in e.detail && e.detail[CompensationKey] == Action(RestartSource)
                 && Restarted in e.detail && e.detail[Restarted] == Text(uuid)
                 && forall k :: at < k < |js| ==>
                      !(&& js[k].event == StepStarted && js[k].state == Some(Quiesce)
                        && StopRequested in js[k].detail && js[k].detail[StopRequested] == Flag(true)))
  {
    RestartedWhen(js, uuid);
    if at: nat :| RestartedAt(js, uuid, at) {
      assert js[at].event == RollbackStepped;
    }
    if at: nat :| at < |js| && RestartOf(js[at]) == Some(uuid) && forall k :: at < k < |js| ==> !StopsSource(js[k]) {
      assert RestartedAt(js, uuid, at);
    }
  }

  /** Between two restarts of one source there is a stop request. */
  ghost predicate OncePerStop(js: seq<Entry>) {
    forall i, j :: 0 <= i < j < |js| && RestartOf(js[i]).Some? && RestartOf(js[i]) == RestartOf(js[j]) ==>
      StopBetween(js, i, j)
  }

  ghost predicate StopBetween(js: seq<Entry>, i: nat, j: nat)
    requires j <= |js|
  {
    exists k :: i < k < j && StopsSource(js[k])
  }

  lemma {:induction false} StillOnce(js: seq<Entry>, entry: Entry)
    requires OncePerStop(js)
    requires RestartOf(entry).Some? ==> RestartOf(entry).value !in RestartedSinceStop(js)
    ensures OncePerStop(js + [entry])
  {
    var more := js + [entry];
    forall i, j | 0 <= i < j < |more| && RestartOf(more[i]).Some? && RestartOf(more[i]) == RestartOf(more[j])
      ensures StopBetween(more, i, j)
    {
      if j < |js| {
        assert StopBetween(js, i, j);
        var k :| i < k < j && StopsSource(js[k]);
        assert StopsSource(more[k]);
      } else {
        RestartedWhen(js, RestartOf(entry).value);
        assert !RestartedAt(js, RestartOf(entry).value, i);
        var k :| i < k < |js| && StopsSource(js[k]);
        assert StopsSource(more[k]);
      }
    }
  }

  // ── the compensation ───────────────────────────────────────────────────────

  /** RESTART_SOURCE. `answers` says of each resource whether Coolify accepts its restart. */
  method UndoQuiesce(js: seq<Entry>, resources: seq<string>, answers: seq<bool>)
    returns (after: seq<Entry>, failures: seq<string>, accepted: set<string>)
    requires |answers| == |resources| && Distinct(resources)
    ensures js <= after
    ensures OncePerStop(js) ==> OncePerStop(after)
    ensures accepted == set i | 0 <= i < |resources| && answers[i] && resources[i] !in RestartedSinceStop(js) :: resources[i]
    ensures RestartedSinceStop(after) == RestartedSinceStop(js) + accepted
    ensures forall r :: r in failures <==>
              exists i :: 0 <= i < |resources| && resources[i] == r && !answers[i] && r !in RestartedSinceStop(js)
    ensures failures == [] ==> forall r :: r in resources ==> r in RestartedSinceStop(after)
  {
    var already := ReadRestartedSinceStop(js);
    after, failures, accepted := js, [], {};
    for i := 0 to |resources|
      invariant js <= after
      invariant OncePerStop(js) ==> OncePerStop(after)
      invariant accepted == set k | 0 <= k < i && answers[k] && resources[k] !in already :: resources[k]
      invariant RestartedSinceStop(after) == already + accepted
      invariant forall r :: r in failures <==> exists k :: 0 <= k < i && resources[k] == r && !answers[k] && r !in already
      invariant failures == [] ==> forall k :: 0 <= k < i ==> resources[k] in already + accepted
    {
      var r := resources[i];
      ghost var failed := failures;
      if r !in already {
        if answers[i] {
          assert r !in accepted;
          if OncePerStop(js) {
            StillOnce(after, RestartNote(r));
          }
          RestartedNoted(after, r);
          after := after + [RestartNote(r)];
          accepted := accepted + {r};
        } else {
          failures := failures + [r];
        }
      }
      FailuresSnoc(resources, answers, already, i, failed);
    }
  }

  lemma {:induction false} RestartedNoted(js: seq<Entry>, uuid: string)
    ensures RestartedSinceStop(js + [RestartNote(uuid)]) == RestartedSinceStop(js) + {uuid}
  {
    assert (js + [RestartNote(uuid)])[..|js|] == js;
  }

  lemma {:induction false} FailuresSnoc(resources: seq<string>, answers: seq<bool>, already: set<string>, i: nat, failed: seq<string>)
    requires i < |resources| == |answers|
    requires forall r :: r in failed <==> exists k :: 0 <= k < i && resources[k] == r && !answers[k] && r !in already
    ensures var more := if resources[i] !in already && !answers[i] then failed + [resources[i]] else failed;
            forall r :: r in more <==> exists k :: 0 <= k < i + 1 && resources[k] == r && !answers[k] && r !in already
  {
  }
}
