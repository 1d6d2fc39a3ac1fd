/** Copying schedules through a client that retries, onto a server that may commit a row and
    still answer with an error: create, then count. */
module Schedules {
  import opened Wrappers

  datatype Row = Row(uuid: nat, owner: string, body: string)

  /** What becomes of one attempt: an answer, a timeout or a broken connection - and, whatever
      the client hears, the row may have been saved. */
  datatype Fate = Answer(status: nat, saved: bool) | Timeout(saved: bool) | Broken(saved: bool)

  datatype CallError = TimedOut | Unreachable | Status(status: nat)

  datatype CopyError = CreateFailed(error: CallError) | Miscounted(mismatches: map<nat, (nat, nat)>)

  const RETRY_STATUS: set<nat> := {429, 502, 503, 504}
  const THROTTLED: set<nat> := {429}

  predicate Succeeds(fate: Fate) {
    fate.Answer? && fate.status < 400
  }

  predicate Saves(fate: Fate) {
    Succeeds(fate) || fate.saved
  }

  function Own(rows: seq<Row>, owner: string): seq<Row> {
    if rows == [] then []
    else Own(rows[..|rows| - 1], owner) + if rows[|rows| - 1].owner == owner then [rows[|rows| - 1]] else []
  }

  lemma {:induction false} OwnSnoc(rows: seq<Row>, row: Row, owner: string)
    ensures Own(rows + [row], owner) == Own(rows, owner) + if row.owner == owner then [row] else []
  {
    assert (rows + [row])[..|rows|] == rows;
  }

  function Uuids(rows: seq<Row>): seq<nat> {
    seq(|rows|, i requires 0 <= i < |rows| => rows[i].uuid)
  }

  /** Where the number created and the number present differ. */
  function CopyCountMismatches(sent: seq<nat>, found: seq<nat>): map<nat, (nat, nat)> {
    map n | n in multiset(sent) + multiset(found) && multiset(sent)[n] != multiset(found)[n]
      :: (multiset(sent)[n], multiset(found)[n])
  }

  lemma {:induction false} NoMismatchMeansSame(sent: seq<nat>, found: seq<nat>)
    ensures CopyCountMismatches(sent, found) == map[] <==> multiset(sent) == multiset(found)
  {
    if multiset(sent) != multiset(found) {
      var n :| multiset(sent)[n] != multiset(found)[n];
      assert n in CopyCountMismatches(sent, found);
    }
  }

  /** A row for each body, in their order, and no other. */
  ghost predicate OnePerBody(rows: seq<Row>, bodies: seq<string>) {
    |rows| == |bodies| && forall i :: 0 <= i < |bodies| ==> rows[i].body == bodies[i]
  }

  /** Every one of these requests was answered with a status that is retried. */
  ghost predicate Retried(fates: nat -> Fate, from: nat, to: nat, retryOn: set<nat>) {
    forall k :: from <= k < to ==> fates(k).Answer? && fates(k).status in retryOn
  }

  ghost predicate NoneSaved(fates: nat -> Fate, from: nat, to: nat) {
    forall k :: from <= k < to ==> !Saves(fates(k))
  }

  /** More rows of one body after the ones that were there. */
  ghost predicate Grown(before: seq<Row>, after: seq<Row>, body: string) {
    before <= after && forall i :: |before| <= i < |after| ==> after[i].body == body
  }

  ghost predicate EndsWith(before: seq<Row>, after: seq<Row>, uuid: nat) {
    |before| < |after| && after[|after| - 1].uuid == uuid
  }

  /** What the caller hears is what became of the last attempt. */
  ghost predicate Told(last: Fate, r: Result<nat, CallError>) {
    match last
    case Timeout(_) => r == Failure(TimedOut)
    case Broken(_) => r == Failure(Unreachable)
    case Answer(status, _) => if status >= 400 then r == Failure(Status(status)) else r.Success?
  }

  /** A server's rows; `fates` decides each request it is sent, in turn. */
  class Server {
    const fates: nat -> Fate
    var rows: seq<Row>
    var calls: nat
    var next: nat

    constructor (fates: nat -> Fate, rows: seq<Row>, next: nat)
      ensures this.fates == fates && this.rows == rows && this.next == next && calls == 0
    {
      this.fates, this.rows, this.next, calls := fates, rows, next, 0;
    }

    /** One attempt to create a row. */
    method Post(owner: string, body: string) returns (fate: Fate, uuid: nat)
      modifies this
      ensures calls == old(calls) + 1 && fate == fates(old(calls))
      ensures if fate.saved || (fate.Answer? && fate.status < 400) then rows == old(rows) + [Row(old(next), owner, body)] && next == old(next) + 1
              else rows == old(rows) && next == old(next)
      ensures uuid == old(next)
    {
      fate, uuid := fates(calls), next;
      calls := calls + 1;
      if Saves(fate) {
        rows, next := rows + [Row(next, owner, body)], next + 1;
      }
    }

    /** One attempt, and what it does to the owner's rows. */
    method Attempt(owner: string, body: string) returns (fate: Fate, uuid: nat)
      modifies this
      ensures calls == old(calls) + 1 && fate == fates(old(calls))
      ensures Own(rows, owner) == old(Own(rows, owner)) + if Saves(fate) then [Row(uuid, owner, body)] else []
    {
      ghost var before := rows;
      fate, uuid := Post(owner, body);
      OwnSnoc(before, Row(uuid, owner, body), owner);
    }

    /** The client's request loop for a POST. A timeout is never retried: the row may be there. */
    method Create(owner: string, body: string, retryOn: set<nat>, maxRetries: nat) returns (r: Result<nat, CallError>)
      modifies this
      ensures old(calls) < calls <= old(calls) + maxRetries + 1
      ensures Retried(fates, old(calls), calls - 1, retryOn)
      ensures Grown(old(Own(rows, owner)), Own(rows, owner), body)
      ensures r.Success? ==> EndsWith(old(Own(rows, owner)), Own(rows, owner), r.value)
      ensures Told(fates(calls - 1), r)
      ensures fates(calls - 1).Answer? && fates(calls - 1).status in retryOn ==> calls == old(calls) + maxRetries + 1
      ensures NoneSaved(fates, old(calls), calls - 1) ==> |Own(rows, owner)| <= |old(Own(rows, owner))| + 1
    {
      var attempt := 0;
      while true
        invariant attempt <= maxRetries && calls == old(calls) + attempt
        invariant Grown(old(Own(rows, owner)), Own(rows, owner), body)
        invariant Retried(fates, old(calls), calls, retryOn)
        invariant NoneSaved(fates, old(calls), calls) ==> Own(rows, owner) == old(Own(rows, owner))
        decreases maxRetries - attempt
      {
        attempt := attempt + 1;
        var fate, uuid := Attempt(owner, body);
        match fate {
          case Timeout(_) => return Failure(TimedOut);
          case Broken(_) => return Failure(Unreachable);
          case Answer(status, _) =>
            if status in retryOn && attempt <= maxRetries {
              continue;
            }
            if status >= 400 {
              return Failure(Status(status));
            }
            return Success(uuid);
        }
      }
    }

    /** Recreates every schedule, then counts this owner's rows against the uuids returned. */
    method CopySchedules(owner: string, bodies: seq<string>, retryOn: set<nat>, maxRetries: nat)
      returns (r: Result<nat, CopyError>, created: seq<nat>)
      modifies this
      ensures old(Own(rows, owner)) == [] && r.Success? ==> r.value == |bodies| && OnePerBody(Own(rows, owner), bodies)
      ensures old(Own(rows, owner)) == [] && r.Failure? && r.error.Miscounted? ==> |Own(rows, owner)| > |bodies|
      ensures old(Own(rows, owner)) == [] && NoDoubles(retryOn) ==> r.Failure? ==> r.error.CreateFailed?
      ensures calls <= old(calls) + |bodies| * (maxRetries + 1)
      ensures r.Success? ==> r.value == |bodies| && multiset(created) == multiset(Uuids(Own(rows, owner)))
      ensures r.Failure? && r.error.CreateFailed? ==> calls > old(calls) && Told(fates(calls - 1), Failure(r.error.error))
      ensures r.Failure? && r.error.CreateFailed? && r.error.error.Status? && r.error.error.status in retryOn ==>
                calls >= old(calls) + maxRetries + 1
    {
      created := [];
      ghost var wasFresh := Own(rows, owner) == [];
      ghost var start := calls;
      for i := 0 to |bodies|
        invariant |created| == i
        invariant wasFresh ==> MatchesSoFar(Own(rows, owner), created, bodies)
        invariant wasFresh && NoDoubles(retryOn) ==> |Own(rows, owner)| <= i
        invariant start <= calls <= start + i * (maxRetries + 1)
      {
        ghost var before, at := Own(rows, owner), calls;
        var one := Create(owner, bodies[i], retryOn, maxRetries);
        if NoDoubles(retryOn) {
          assert NoneSaved(fates, at, calls - 1);
        }
        Multiples(i, |bodies|, maxRetries + 1);
        if one.Failure? {
          return Failure(CreateFailed(one.error)), created;
        }
        if wasFresh {
          MatchesMore(before, Own(rows, owner), created, bodies, one.value);
        }
        created := created + [one.value];
      }
      var present := Own(rows, owner);
      var mismatches := CopyCountMismatches(created, Uuids(present));
      if wasFresh {
        CountsAgree(present, created, bodies);
      }
      NoMismatchMeansSame(created, Uuids(present));
      if mismatches != map[] {
        return Failure(Miscounted(mismatches)), created;
      }
      r := Success(|bodies|);
    }

    /** A scheduled task's create is retried like every other request. */
    method CopyScheduledTasks(owner: string, bodies: seq<string>, maxRetries: nat) returns (r: Result<nat, CopyError>)
      modifies this
      ensures old(Own(rows, owner)) == [] && r.Success? ==> OnePerBody(Own(rows, owner), bodies)
      ensures old(Own(rows, owner)) == [] && r.Failure? && r.error.Miscounted? ==> |Own(rows, owner)| > |bodies|
      ensures r.Failure? && r.error.CreateFailed? && r.error.error.Status? && r.error.error.status in {429, 502, 503, 504} ==>
                calls >= old(calls) + maxRetries + 1
    {
      var created;
      r, created := CopySchedules(owner, bodies, RETRY_STATUS, maxRetries);
    }

    /** A backup schedule's only when the throttle refused it before it ran. */
    method CopyBackupSchedules(owner: string, bodies: seq<string>, maxRetries: nat) returns (r: Result<nat, CopyError>)
      modifies this
      ensures old(Own(rows, owner)) == [] && r.Success? ==> OnePerBody(Own(rows, owner), bodies)
      ensures old(Own(rows, owner)) == [] && (forall k :: fates(k).Answer? && fates(k).status == 429 ==> !fates(k).saved) ==>
                r.Failure? ==> r.error.CreateFailed?
      ensures r.Failure? && r.error == CreateFailed(Status(429)) ==> calls >= old(calls) + maxRetries + 1
    {
      var created;
      r, created := CopySchedules(owner, bodies, THROTTLED, maxRetries);
    }

    /** Nothing that is retried has been saved: so when only the throttle's refusal is. */
    ghost predicate NoDoubles(retryOn: set<nat>) {
      forall k :: fates(k).Answer? && fates(k).status in retryOn ==> !Saves(fates(k))
    }
  }

  /** At least a row for each body so far; and if there are no more, they are those rows. */
  ghost predicate MatchesSoFar(rows: seq<Row>, created: seq<nat>, bodies: seq<string>) {
    && |created| <= |bodies| && |created| <= |rows|
    && (|rows| == |created| ==> forall i :: 0 <= i < |created| ==> rows[i].uuid == created[i] && rows[i].body == bodies[i])
  }

  lemma {:induction false} MatchesMore(before: seq<Row>, after: seq<Row>, created: seq<nat>, bodies: seq<string>, uuid: nat)
    requires MatchesSoFar(before, created, bodies) && |created| < |bodies|
    requires Grown(before, after, bodies[|created|]) && EndsWith(before, after, uuid)
    ensures MatchesSoFar(after, created + [uuid], bodies)
  {
    if |after| == |created| + 1 {
      forall i | 0 <= i < |created| ensures after[i] == before[i] {
      }
    }
  }

  /** Equal counts leave no room for a second row of any body. */
  lemma {:induction false} CountsAgree(rows: seq<Row>, created: seq<nat>, bodies: seq<string>)
    requires MatchesSoFar(rows, created, bodies) && |created| == |bodies|
    ensures CopyCountMismatches(created, Uuids(rows)) == map[] ==> OnePerBody(rows, bodies)
    ensures CopyCountMismatches(created, Uuids(rows)) != map[] ==> |rows| > |bodies|
  {
    NoMismatchMeansSame(created, Uuids(rows));
    if |rows| == |created| {
      assert created == Uuids(rows);
    } else {
      assert |multiset(created)| == |created| && |multiset(Uuids(rows))| == |rows|;
    }
  }

  lemma {:induction false} Multiples(i: nat, n: nat, step: nat)
    requires i < n
    ensures i * step + step == (i + 1) * step <= n * step
  {
    assert (n - i - 1) * step >= 0;
    assert n * step == (i + 1) * step + (n - i - 1) * step;
  }
}
