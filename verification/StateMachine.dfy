/** The order of a migration's states, and which undo actions a rollback plans from them. */
module StateMachine {
  import opened Wrappers

  // ── one plan, for any state machine ────────────────────────────────────────

  /** An undo action, with the state that makes it necessary. */
  datatype RollbackStep<S, C> = RollbackStep(compensation: C, becauseOf: S)

  function StepsOf<S, C>(state: S, comps: seq<C>): seq<RollbackStep<S, C>> {
    seq(|comps|, i requires 0 <= i < |comps| => RollbackStep(comps[i], state))
  }

  function OwedBy<S(==), C>(state: S, seen: set<S>, undo: map<S, seq<C>>): seq<RollbackStep<S, C>> {
    if state in seen && state in undo then StepsOf(state, undo[state]) else []
  }

  /** Everything owed, the last state first. */
  function Reversed<S(==), C>(order: seq<S>, seen: set<S>, undo: map<S, seq<C>>): seq<RollbackStep<S, C>> {
    if order == [] then []
    else OwedBy(order[|order| - 1], seen, undo) + Reversed(order[..|order| - 1], seen, undo)
  }

  /** Where an action is first planned; the length of the plan when it is not. */
  function IndexOf<S, C(==)>(steps: seq<RollbackStep<S, C>>, comp: C): (i: nat)
    ensures i <= |steps|
    ensures i < |steps| ==> steps[i].compensation == comp
    ensures forall k :: 0 <= k < i ==> steps[k].compensation != comp
  {
    if steps == [] || steps[0].compensation == comp then 0 else 1 + IndexOf(steps[1..], comp)
  }

  /** One precedence rule: `rule.0` moves to directly before `rule.1` if it comes later. */
  function MoveBefore<S, C(==)>(steps: seq<RollbackStep<S, C>>, rule: (C, C)): seq<RollbackStep<S, C>> {
    var i, j := IndexOf(steps, rule.0), IndexOf(steps, rule.1);
    if j < i < |steps| then steps[..j] + [steps[i]] + steps[j..i] + steps[i + 1..] else steps
  }

  function ApplyRules<S, C(==)>(steps: seq<RollbackStep<S, C>>, rules: seq<(C, C)>): seq<RollbackStep<S, C>>
    decreases |rules|
  {
    if rules == [] then steps
    else MoveBefore(ApplyRules(steps, rules[..|rules| - 1]), rules[|rules| - 1])
  }

  function PlanFor<S(==), C(==)>(completed: seq<S>, order: seq<S>, undo: map<S, seq<C>>, rules: seq<(C, C)>)
    : seq<RollbackStep<S, C>>
  {
    var seen := set s | s in completed;
    ApplyRules(Reversed(order, seen, undo), rules)
  }

  method RollbackPlanFor<S(==), C(==)>(completed: seq<S>, order: seq<S>, undo: map<S, seq<C>>, rules: seq<(C, C)>)
    returns (steps: seq<RollbackStep<S, C>>)
    ensures steps == PlanFor(completed, order, undo, rules)
  {
    ghost var seen := set s | s in completed;
    steps := OwedSteps(completed, order, undo, seen);
    steps := ReorderSteps(steps, rules);
  }

  /** The walk over the states, last to first. */
  method OwedSteps<S(==), C>(completed: seq<S>, order: seq<S>, undo: map<S, seq<C>>, ghost seen: set<S>)
    returns (steps: seq<RollbackStep<S, C>>)
    requires forall s :: s in seen <==> s in completed
    ensures steps == Reversed(order, seen, undo)
  {
    steps := [];
    var n := |order|;
    assert order[..n] == order;
    while n > 0
      invariant n <= |order|
      invariant Reversed(order, seen, undo) == steps + Reversed(order[..n], seen, undo)
    {
      n := n - 1;
      OwedNext(steps, order, n, seen, undo);
      if order[n] in completed && order[n] in undo {
        steps := AppendSteps(steps, order[n], undo[order[n]]);
      } else {
        assert steps + [] == steps;
      }
    }
    assert steps + Reversed(order[..0], seen, undo) == steps;
  }

  lemma {:induction false} OwedNext<S, C>(steps: seq<RollbackStep<S, C>>, order: seq<S>, n: nat, seen: set<S>, undo: map<S, seq<C>>)
    requires n < |order|
    ensures steps + Reversed(order[..n + 1], seen, undo) == (steps + OwedBy(order[n], seen, undo)) + Reversed(order[..n], seen, undo)
  {
    ReversedFront(order, n, seen, undo);
    var owed, rest := OwedBy(order[n], seen, undo), Reversed(order[..n], seen, undo);
    assert steps + (owed + rest) == (steps + owed) + rest;
  }

  lemma {:induction false} ReversedFront<S, C>(order: seq<S>, n: nat, seen: set<S>, undo: map<S, seq<C>>)
    requires n < |order|
    ensures Reversed(order[..n + 1], seen, undo) == OwedBy(order[n], seen, undo) + Reversed(order[..n], seen, undo)
  {
    assert order[..n + 1][..n] == order[..n];
  }

  method AppendSteps<S, C>(steps: seq<RollbackStep<S, C>>, state: S, comps: seq<C>) returns (more: seq<RollbackStep<S, C>>)
    ensures more == steps + StepsOf(state, comps)
  {
    more := steps;
    var k := 0;
    while k < |comps|
      invariant 0 <= k <= |comps|
      invariant more == steps + StepsOf(state, comps)[..k]
    {
      more := more + [RollbackStep(comps[k], state)];
      k := k + 1;
    }
    assert StepsOf(state, comps)[..k] == StepsOf(state, comps);
  }

  /** One rule, in place of the list: out of one position and into another. */
  method MoveStep<S, C(==)>(base: seq<RollbackStep<S, C>>, rule: (C, C)) returns (steps: seq<RollbackStep<S, C>>)
    ensures steps == MoveBefore(base, rule)
  {
    steps := base;
    var i, j := IndexOf(steps, rule.0), IndexOf(steps, rule.1);
    if i < |steps| && j < |steps| && i > j {
      var moved := steps[i];
      steps := steps[..i] + steps[i + 1..];
      steps := steps[..j] + [moved] + steps[j..];
    }
  }

  method ReorderSteps<S, C(==)>(base: seq<RollbackStep<S, C>>, rules: seq<(C, C)>) returns (steps: seq<RollbackStep<S, C>>)
    ensures steps == ApplyRules(base, rules)
  {
    steps := base;
    var r := 0;
    while r < |rules|
      invariant 0 <= r <= |rules|
      invariant steps == ApplyRules(base, rules[..r])
    {
      assert rules[..r + 1][..r] == rules[..r];
      steps := MoveStep(steps, rules[r]);
      r := r + 1;
    }
    assert rules[..r] == rules;
  }

  // ── what a plan holds ──────────────────────────────────────────────────────

  function Position<S(==)>(order: seq<S>, state: S): (i: nat)
    ensures i <= |order| && (i < |order| ==> order[i] == state)
    ensures forall k :: 0 <= k < i ==> order[k] != state
    ensures state in order ==> i < |order|
  {
    if order == [] || order[0] == state then 0 else 1 + Position(order[1..], state)
  }

  ghost predicate Distinct<T(!new)>(s: seq<T>) {
    forall i, j :: 0 <= i < j < |s| ==> s[i] != s[j]
  }

  /** Later states come first, and one state's actions in their own order. */
  ghost predicate Precedes<S(!new), C(!new)>(a: RollbackStep<S, C>, b: RollbackStep<S, C>, order: seq<S>, undo: map<S, seq<C>>) {
    || Position(order, b.becauseOf) < Position(order, a.becauseOf)
    || (a.becauseOf == b.becauseOf && b.becauseOf in undo && InTurn(undo[b.becauseOf], a.compensation, b.compensation))
  }

  ghost predicate InTurn<C(!new)>(comps: seq<C>, a: C, b: C) {
    exists x, y :: 0 <= x < y < |comps| && comps[x] == a && comps[y] == b
  }

  ghost predicate InReverseOrder<S(!new), C(!new)>(steps: seq<RollbackStep<S, C>>, order: seq<S>, undo: map<S, seq<C>>) {
    forall p, q :: 0 <= p < q < |steps| ==> Precedes(steps[p], steps[q], order, undo)
  }

  lemma {:induction false} ReversedOwes<S(!new), C(!new)>(order: seq<S>, seen: set<S>, undo: map<S, seq<C>>, step: RollbackStep<S, C>)
    ensures step in Reversed(order, seen, undo) <==>
            && step.becauseOf in order && step.becauseOf in seen && step.becauseOf in undo
            && step.compensation in undo[step.becauseOf]
    decreases |order|
  {
    if order != [] {
      var front, last := order[..|order| - 1], order[|order| - 1];
      ReversedOwes(front, seen, undo, step);
      assert order == front + [last];
      if step.becauseOf == last && last in seen && last in undo && step.compensation in undo[last] {
        var k :| 0 <= k < |undo[last]| && undo[last][k] == step.compensation;
        assert StepsOf(last, undo[last])[k] == step;
      }
    }
  }

  lemma {:induction false} ReversedIsOrdered<S(!new), C(!new)>(order: seq<S>, seen: set<S>, undo: map<S, seq<C>>)
    requires Distinct(order)
    ensures InReverseOrder(Reversed(order, seen, undo), order, undo)
    decreases |order|
  {
    if order != [] {
      var front, last := order[..|order| - 1], order[|order| - 1];
      assert order == front + [last];
      ReversedIsOrdered(front, seen, undo);
      OwedThenEarlier(front, last, seen, undo);
    }
  }

  /** The last state's steps, then those of the states before it. */
  lemma {:induction false} OwedThenEarlier<S(!new), C(!new)>(front: seq<S>, last: S, seen: set<S>, undo: map<S, seq<C>>)
    requires Distinct(front + [last]) && InReverseOrder(Reversed(front, seen, undo), front, undo)
    ensures InReverseOrder(OwedBy(last, seen, undo) + Reversed(front, seen, undo), front + [last], undo)
  {
    var head, tail, order := OwedBy(last, seen, undo), Reversed(front, seen, undo), front + [last];
    forall p, q | 0 <= p < q < |head| ensures Precedes(head[p], head[q], order, undo) {
      OwnTurn(last, seen, undo, order, p, q);
    }
    forall p, q | 0 <= p < q < |tail| ensures Precedes(tail[p], tail[q], order, undo) {
      EarlierTurn(front, last, seen, undo, p, q);
    }
    forall p, q | 0 <= p < |head| && 0 <= q < |tail| ensures Precedes(head[p], tail[q], order, undo) {
      AcrossTurn(front, last, seen, undo, p, q);
    }
    JoinedInOrder(head, tail, order, undo);
  }

  lemma {:induction false} JoinedInOrder<S(!new), C(!new)>(head: seq<RollbackStep<S, C>>, tail: seq<RollbackStep<S, C>>, order: seq<S>,
                                                           undo: map<S, seq<C>>)
    requires InReverseOrder(head, order, undo) && InReverseOrder(tail, order, undo)
    requires forall p, q :: 0 <= p < |head| && 0 <= q < |tail| ==> Precedes(head[p], tail[q], order, undo)
    ensures InReverseOrder(head + tail, order, undo)
  {
  }

  lemma {:induction false} AcrossTurn<S(!new), C(!new)>(front: seq<S>, last: S, seen: set<S>, undo: map<S, seq<C>>, p: nat, q: nat)
    requires Distinct(front + [last])
    requires p < |OwedBy(last, seen, undo)| && q < |Reversed(front, seen, undo)|
    ensures Precedes(OwedBy(last, seen, undo)[p], Reversed(front, seen, undo)[q], front + [last], undo)
  {
    LaterOwed(front, last, seen, undo, Reversed(front, seen, undo)[q]);
    assert OwedBy(last, seen, undo)[p].becauseOf == last;
  }

  lemma {:induction false} EarlierTurn<S(!new), C(!new)>(front: seq<S>, last: S, seen: set<S>, undo: map<S, seq<C>>, p: nat, q: nat)
    requires Distinct(front + [last]) && InReverseOrder(Reversed(front, seen, undo), front, undo)
    requires p < q < |Reversed(front, seen, undo)|
    ensures Precedes(Reversed(front, seen, undo)[p], Reversed(front, seen, undo)[q], front + [last], undo)
  {
    var tail := Reversed(front, seen, undo);
    LaterOwed(front, last, seen, undo, tail[p]);
    LaterOwed(front, last, seen, undo, tail[q]);
    EarlierKeep(tail[p], tail[q], front, last, undo);
  }

  lemma {:induction false} EarlierKeep<S(!new), C(!new)>(a: RollbackStep<S, C>, b: RollbackStep<S, C>, front: seq<S>, last: S,
                                                         undo: map<S, seq<C>>)
    requires Precedes(a, b, front, undo)
    requires Position(front + [last], a.becauseOf) == Position(front, a.becauseOf)
    requires Position(front + [last], b.becauseOf) == Position(front, b.becauseOf)
    ensures Precedes(a, b, front + [last], undo)
  {
  }

  lemma {:induction false} OwnTurn<S(!new), C(!new)>(state: S, seen: set<S>, undo: map<S, seq<C>>, order: seq<S>, p: nat, q: nat)
    requires p < q < |OwedBy(state, seen, undo)|
    ensures Precedes(OwedBy(state, seen, undo)[p], OwedBy(state, seen, undo)[q], order, undo)
  {
    assert undo[state][p] == OwedBy(state, seen, undo)[p].compensation;
    assert undo[state][q] == OwedBy(state, seen, undo)[q].compensation;
  }

  lemma {:induction false} LaterOwed<S(!new), C(!new)>(front: seq<S>, last: S, seen: set<S>, undo: map<S, seq<C>>, step: RollbackStep<S, C>)
    requires Distinct(front + [last]) && step in Reversed(front, seen, undo)
    ensures Position(front + [last], step.becauseOf) == Position(front, step.becauseOf) < Position(front + [last], last)
  {
    ReversedOwes(front, seen, undo, step);
    PositionFront(front, last, step.becauseOf);
  }

  lemma {:induction false} PositionFront<S(!new)>(front: seq<S>, last: S, state: S)
    requires state in front && Distinct(front + [last])
    ensures Position(front + [last], state) == Position(front, state) < Position(front + [last], last) == |front|
  {
    var order := front + [last];
    var p := Position(front, state);
    assert order[p] == state;
    assert order[|front|] == last;
    assert Position(order, state) == p;
  }

  /** The plan without the steps of one action. */
  function Others<S, C(==)>(steps: seq<RollbackStep<S, C>>, comp: C): seq<RollbackStep<S, C>> {
    if steps == [] then []
    else (if steps[0].compensation == comp then [] else [steps[0]]) + Others(steps[1..], comp)
  }

  lemma {:induction false} OthersHead<S, C>(step: RollbackStep<S, C>, rest: seq<RollbackStep<S, C>>, comp: C)
    ensures Others([step] + rest, comp) == (if step.compensation == comp then [] else [step]) + Others(rest, comp)
  {
    assert ([step] + rest)[1..] == rest;
  }

  lemma {:induction false} OthersConcat<S, C>(a: seq<RollbackStep<S, C>>, b: seq<RollbackStep<S, C>>, comp: C)
    ensures Others(a + b, comp) == Others(a, comp) + Others(b, comp)
  {
    if a == [] {
      assert a + b == b;
      assert Others(a, comp) == [];
    } else {
      OthersConcat(a[1..], b, comp);
      assert a + b == [a[0]] + (a[1..] + b) && a == [a[0]] + a[1..];
      OthersHead(a[0], a[1..] + b, comp);
      OthersHead(a[0], a[1..], comp);
      Associated(if a[0].compensation == comp then [] else [a[0]], Others(a[1..], comp), Others(b, comp));
    }
  }

  lemma {:induction false} IndexIs<S, C>(steps: seq<RollbackStep<S, C>>, comp: C, i: nat)
    requires i < |steps| && steps[i].compensation == comp
    requires forall k :: 0 <= k < i ==> steps[k].compensation != comp
    ensures IndexOf(steps, comp) == i
  {
  }

  /** Moving one step forward keeps the others as they are. */
  lemma {:induction false} ShiftKeepsOthers<S, C>(a: seq<RollbackStep<S, C>>, b: seq<RollbackStep<S, C>>,
                                                  f: RollbackStep<S, C>, c: seq<RollbackStep<S, C>>)
    ensures Others(a + ([f] + (b + c)), f.compensation) == Others(a + (b + ([f] + c)), f.compensation)
  {
    var comp := f.compensation;
    OthersConcat(a, [f] + (b + c), comp);
    OthersHead(f, b + c, comp);
    OthersConcat(b, c, comp);
    OthersConcat(a, b + ([f] + c), comp);
    OthersConcat(b, [f] + c, comp);
    OthersHead(f, c, comp);
  }

  lemma {:induction false} ShiftKeepsAll<T>(a: seq<T>, b: seq<T>, f: T, c: seq<T>)
    ensures multiset(a + ([f] + (b + c))) == multiset(a + (b + ([f] + c)))
  {
  }

  /** One rule: the same steps, the rest in the same order, and `first` before `then` -
      directly before it unless it was before it already, when nothing moves at all. */
  lemma {:induction false} MoveBeforeMoves<S, C>(steps: seq<RollbackStep<S, C>>, rule: (C, C))
    requires rule.0 != rule.1
    ensures var moved := MoveBefore(steps, rule);
            && multiset(moved) == multiset(steps)
            && Others(moved, rule.0) == Others(steps, rule.0)
            && (IndexOf(steps, rule.1) < IndexOf(steps, rule.0) < |steps| ==>
                  IndexOf(moved, rule.0) + 1 == IndexOf(moved, rule.1) < |moved|)
            && (!(IndexOf(steps, rule.1) < IndexOf(steps, rule.0) < |steps|) ==> moved == steps)
  {
    var i, j := IndexOf(steps, rule.0), IndexOf(steps, rule.1);
    if j < i < |steps| {
      var a, b, c := steps[..j], steps[j..i], steps[i + 1..];
      MoveBeforeSplits(steps, rule, a, b, c);
      ShiftKeepsOthers(a, b, steps[i], c);
      ShiftKeepsAll(a, b, steps[i], c);
      DirectlyBefore(a, b, steps[i], c, rule);
    }
  }

  lemma {:induction false} MoveBeforeSplits<S, C>(steps: seq<RollbackStep<S, C>>, rule: (C, C),
      a: seq<RollbackStep<S, C>>, b: seq<RollbackStep<S, C>>, c: seq<RollbackStep<S, C>>)
    requires var i, j := IndexOf(steps, rule.0), IndexOf(steps, rule.1);
             j < i < |steps| && a == steps[..j] && b == steps[j..i] && c == steps[i + 1..]
    ensures var i := IndexOf(steps, rule.0);
            MoveBefore(steps, rule) == a + ([steps[i]] + (b + c)) && steps == a + (b + ([steps[i]] + c))
  {
    var i := IndexOf(steps, rule.0);
    assert a + [steps[i]] + b + c == a + ([steps[i]] + (b + c));
  }

  lemma {:induction false} DirectlyBefore<S, C>(a: seq<RollbackStep<S, C>>, b: seq<RollbackStep<S, C>>,
                                                f: RollbackStep<S, C>, c: seq<RollbackStep<S, C>>, rule: (C, C))
    requires f.compensation == rule.0 != rule.1
    requires b != [] && b[0].compensation == rule.1
    requires forall k :: 0 <= k < |a| ==> a[k].compensation != rule.0 && a[k].compensation != rule.1
    ensures var moved := a + ([f] + (b + c));
            IndexOf(moved, rule.0) == |a| && IndexOf(moved, rule.1) == |a| + 1
  {
    var moved := a + ([f] + (b + c));
    assert moved[|a|] == f && moved[|a| + 1] == b[0];
    IndexIs(moved, rule.0, |a|);
    IndexIs(moved, rule.1, |a| + 1);
  }

  lemma {:induction false} OrderedIsDistinct<S(!new), C(!new)>(steps: seq<RollbackStep<S, C>>, order: seq<S>, undo: map<S, seq<C>>)
    requires InReverseOrder(steps, order, undo)
    requires forall s :: s in undo ==> Distinct(undo[s])
    ensures Distinct(steps)
  {
    forall p, q | 0 <= p < q < |steps| ensures steps[p] != steps[q] {
      assert Precedes(steps[p], steps[q], order, undo);
    }
  }

  /** Exactly the steps some completed state owes. */
  ghost predicate HoldsOwed<S(!new), C(!new)>(plan: seq<RollbackStep<S, C>>, completed: seq<S>, order: seq<S>, undo: map<S, seq<C>>) {
    forall step :: step in plan <==>
      && step.becauseOf in order && step.becauseOf in completed && step.becauseOf in undo
      && step.compensation in undo[step.becauseOf]
  }

  /** All but `first` in reverse state order; `first` before `then`, and directly before it
      unless reverse order alone has it there. */
  ghost predicate OrderedBut<S(!new), C(!new)>(plan: seq<RollbackStep<S, C>>, order: seq<S>, undo: map<S, seq<C>>, rule: (C, C)) {
    && InReverseOrder(Others(plan, rule.0), order, undo)
    && (IndexOf(plan, rule.0) < |plan| && IndexOf(plan, rule.1) < |plan| ==> IndexOf(plan, rule.0) < IndexOf(plan, rule.1))
    && (InReverseOrder(plan, order, undo) || IndexOf(plan, rule.0) + 1 == IndexOf(plan, rule.1) < |plan|)
  }

  /** A plan under one precedence rule, for any machine and any completed list: exactly the
      owed actions, each once and with its own state; all but `first` in reverse state
      order; and `first` directly before `then` if it would have come later. */
  lemma {:induction false} PlanIsOwed<S(!new), C(!new)>(completed: seq<S>, order: seq<S>, undo: map<S, seq<C>>, rule: (C, C))
    requires Distinct(order) && rule.0 != rule.1
    requires forall s :: s in undo ==> Distinct(undo[s])
    ensures var plan := PlanFor(completed, order, undo, [rule]);
            && HoldsOwed(plan, completed, order, undo)
            && (forall step :: multiset(plan)[step] <= 1)
            && OrderedBut(plan, order, undo, rule)
  {
    var seen := set s | s in completed;
    var base := Reversed(order, seen, undo);
    OneRule(base, rule);
    ReversedIsOrdered(order, seen, undo);
    BaseIsOwed(completed, order, seen, undo);
    MovedIsOwed(base, completed, order, undo, rule);
  }

  lemma {:induction false} BaseIsOwed<S(!new), C(!new)>(completed: seq<S>, order: seq<S>, seen: set<S>, undo: map<S, seq<C>>)
    requires forall s :: s in seen <==> s in completed
    ensures HoldsOwed(Reversed(order, seen, undo), completed, order, undo)
  {
    forall step ensures step in Reversed(order, seen, undo) <==>
                        step.becauseOf in order && step.becauseOf in completed && step.becauseOf in undo
                        && step.compensation in undo[step.becauseOf] {
      ReversedOwes(order, seen, undo, step);
    }
  }

  /** The rule keeps all of it. */
  lemma {:induction false} MovedIsOwed<S(!new), C(!new)>(base: seq<RollbackStep<S, C>>, completed: seq<S>, order: seq<S>,
                                                         undo: map<S, seq<C>>, rule: (C, C))
    requires rule.0 != rule.1 && forall s :: s in undo ==> Distinct(undo[s])
    requires HoldsOwed(base, completed, order, undo) && InReverseOrder(base, order, undo)
    ensures var plan := MoveBefore(base, rule);
            && HoldsOwed(plan, completed, order, undo)
            && (forall step :: multiset(plan)[step] <= 1)
            && OrderedBut(plan, order, undo, rule)
  {
    OrderedIsDistinct(base, order, undo);
    DistinctCounts(base);
    MoveBeforeMoves(base, rule);
    SameOwed(base, MoveBefore(base, rule), completed, order, undo);
    MovedIsOrdered(base, order, undo, rule);
  }

  lemma {:induction false} SameOwed<S(!new), C(!new)>(a: seq<RollbackStep<S, C>>, b: seq<RollbackStep<S, C>>,
                                                      completed: seq<S>, order: seq<S>, undo: map<S, seq<C>>)
    requires multiset(a) == multiset(b) && HoldsOwed(a, completed, order, undo)
    ensures HoldsOwed(b, completed, order, undo)
  {
    SameSteps(a, b);
  }

  lemma {:induction false} MovedIsOrdered<S(!new), C(!new)>(base: seq<RollbackStep<S, C>>, order: seq<S>,
                                                            undo: map<S, seq<C>>, rule: (C, C))
    requires rule.0 != rule.1 && InReverseOrder(base, order, undo)
    ensures OrderedBut(MoveBefore(base, rule), order, undo, rule)
  {
    MoveBeforeMoves(base, rule);
    OthersOrdered(base, rule.0, order, undo);
  }

  lemma {:induction false} SameSteps<T>(a: seq<T>, b: seq<T>)
    requires multiset(a) == multiset(b)
    ensures forall x :: x in a <==> x in b
  {
    assert forall x :: x in a <==> x in multiset(a);
    assert forall x :: x in b <==> x in multiset(b);
  }

  lemma {:induction false} OneRule<S, C>(steps: seq<RollbackStep<S, C>>, rule: (C, C))
    ensures ApplyRules(steps, [rule]) == MoveBefore(steps, rule)
  {
    assert [rule][..0] == [];
    assert ApplyRules(steps, [rule][..0]) == steps;
  }

  lemma {:induction false} DistinctCounts<T(!new)>(s: seq<T>)
    requires Distinct(s)
    ensures forall x :: multiset(s)[x] <= 1
  {
    if s != [] {
      var front, last := s[..|s| - 1], s[|s| - 1];
      assert s == front + [last];
      assert last !in front;
      DistinctCounts(front);
    }
  }

  lemma {:induction false} OthersIn<S(!new), C>(steps: seq<RollbackStep<S, C>>, comp: C, step: RollbackStep<S, C>)
    requires step in Others(steps, comp)
    ensures step in steps
  {
    if step !in Others(steps[1..], comp) {
    } else {
      OthersIn(steps[1..], comp, step);
    }
  }

  lemma {:induction false} OthersOrdered<S(!new), C(!new)>(steps: seq<RollbackStep<S, C>>, comp: C, order: seq<S>, undo: map<S, seq<C>>)
    requires InReverseOrder(steps, order, undo)
    ensures InReverseOrder(Others(steps, comp), order, undo)
  {
    if steps != [] {
      var tail, rest := steps[1..], Others(steps[1..], comp);
      forall p, q | 0 <= p < q < |tail| ensures Precedes(tail[p], tail[q], order, undo) {
        assert Precedes(steps[p + 1], steps[q + 1], order, undo);
      }
      OthersOrdered(tail, comp, order, undo);
      var all := Others(steps, comp);
      forall p, q | 0 <= p < q < |all| ensures Precedes(all[p], all[q], order, undo) {
        if |all| == |rest| {
          assert Precedes(rest[p], rest[q], order, undo);
        } else if p > 0 {
          assert Precedes(rest[p - 1], rest[q - 1], order, undo);
        } else {
          OthersIn(tail, comp, rest[q - 1]);
          var k :| 0 <= k < |tail| && tail[k] == rest[q - 1];
          assert Precedes(steps[0], steps[k + 1], order, undo);
        }
      }
    }
  }
}
