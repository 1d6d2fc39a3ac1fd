/** Pins: containers that never run, and keep Coolify's cleanup off idle volumes. */
module Pins {
  import opened Wrappers

  datatype Side = Source | Target

  /** One pin, and the volumes it holds. An idle pin holds volumes nothing mounted before. */
  datatype Pin = Pin(name: string, volumes: set<string>, idle: bool)

  /** A container as the daemon lists it: `pinOf` is set when it wears our pin's labels. */
  datatype Container = Container(state: ContainerState, pinOf: Option<(string, Side)>, mounts: set<string>)

  datatype ContainerState = Running | Created | Exited | Dead | Gone | Paused | Restarting

  predicate IsStopped(c: Container) {
    c.state in {Created, Exited, Dead, Gone}
  }

  /** One of ours by its labels, and of this migration and side if asked; it must not be running. */
  predicate IsPin(c: Container, migration: Option<string>, side: Option<Side>) {
    && c.pinOf.Some? && IsStopped(c)
    && (migration.Some? ==> c.pinOf.value.0 == migration.value)
    && (side.Some? ==> c.pinOf.value.1 == side.value)
  }

  /** Only a running container that is no pin keeps a volume referenced for good. */
  predicate IsReference(c: Container) {
    c.state.Running? && !IsPin(c, None, None)
  }

  predicate Referenced(containers: seq<Container>, volume: string) {
    exists i :: 0 <= i < |containers| && volume in containers[i].mounts && IsReference(containers[i])
  }

  function Unreferenced(containers: seq<Container>, volumes: set<string>): set<string> {
    set v | v in volumes && !Referenced(containers, v)
  }

  /** The pins of one side of one migration, among all containers of a host. */
  method OurPins(containers: seq<Container>, migration: string, side: Side) returns (ours: seq<Container>)
    ensures forall c :: c in ours <==>
              c in containers && c.pinOf == Some((migration, side)) && c.state in {Created, Exited, Dead, Gone}
  {
    ours := [];
    for i := 0 to |containers|
      invariant forall c :: c in ours <==>
                  c in containers[..i] && c.pinOf == Some((migration, side)) && c.state in {Created, Exited, Dead, Gone}
    {
      if IsPin(containers[i], Some(migration), Some(side)) {
        ours := ours + [containers[i]];
      }
    }
    assert containers[..|containers|] == containers;
  }

  /** Some running container mounts the volume. */
  ghost predicate InUse(containers: seq<Container>, volume: string) {
    exists c :: c in containers && c.state == Running && volume in c.mounts
  }

  /** A running container is never a pin, whatever its labels, and no other keeps a volume. */
  lemma {:induction false} ReferencedIsInUse(containers: seq<Container>, volume: string)
    ensures Referenced(containers, volume) <==> InUse(containers, volume)
  {
    if c :| c in containers && c.state == Running && volume in c.mounts {
      var i :| 0 <= i < |containers| && containers[i] == c;
      assert IsReference(containers[i]);
    }
  }

  ghost predicate AllInUse(containers: seq<Container>, volumes: set<string>) {
    forall v :: v in volumes ==> InUse(containers, v)
  }

  lemma {:induction false} UnreferencedIsUnused(containers: seq<Container>, volumes: set<string>)
    ensures forall v :: v in Unreferenced(containers, volumes) <==> v in volumes && !InUse(containers, v)
    ensures Unreferenced(containers, volumes) == {} <==> AllInUse(containers, volumes)
  {
    forall v ensures v in Unreferenced(containers, volumes) <==> v in volumes && !InUse(containers, v) {
      ReferencedIsInUse(containers, v);
    }
  }

  // ── what a release waits for ───────────────────────────────────────────────

  function Covered(pins: seq<Pin>): set<string> {
    set i, v | 0 <= i < |pins| && v in pins[i].volumes :: v
  }

  function Names(pins: seq<Pin>): seq<string> {
    seq(|pins|, i requires 0 <= i < |pins| => pins[i].name)
  }

  /** Every pinned volume but the anonymous ones and those of idle pins. */
  function Awaited(pins: seq<Pin>, anonymous: string -> bool): set<string> {
    set i, v | 0 <= i < |pins| && !pins[i].idle && v in pins[i].volumes && !anonymous(v) :: v
  }

  /** Held by a pin of something that was mounted, and with a name of its own. */
  ghost predicate Expected(pins: seq<Pin>, anonymous: string -> bool, volume: string) {
    exists p :: p in pins && !p.idle && volume in p.volumes && !anonymous(volume)
  }

  lemma {:induction false} AwaitedIsExpected(pins: seq<Pin>, anonymous: string -> bool, volume: string)
    ensures volume in Awaited(pins, anonymous) <==> Expected(pins, anonymous, volume)
  {
    if p :| p in pins && !p.idle && volume in p.volumes && !anonymous(volume) {
      var i :| 0 <= i < |pins| && pins[i] == p;
      assert volume in pins[i].volumes;
    }
  }

  function Waiting(pins: seq<Pin>): seq<Pin> {
    if pins == [] then []
    else Waiting(pins[..|pins| - 1]) + if pins[|pins| - 1].idle then [] else [pins[|pins| - 1]]
  }

  // ── the loop ───────────────────────────────────────────────────────────────

  datatype Release = Release(released: seq<string>, kept: seq<string>, unmounted: set<string>)

  /** The time of the `k`-th look. */
  function At(k: nat, interval: real): (t: real)
    requires interval > 0.0
    ensures t >= 0.0
  {
    k as real * interval
  }

  lemma {:induction false} NextLook(k: nat, interval: real)
    requires interval > 0.0
    ensures At(k + 1, interval) == At(k, interval) + interval
  {
    assert (k + 1) as real == k as real + 1.0;
  }

  /** More looks than any release takes. */
  lemma {:induction false} EnoughLooks(limit: real, interval: real) returns (n: nat)
    requires limit >= 0.0 && interval > 0.0
    ensures At(n, interval) >= limit
  {
    var q := limit / interval;
    n := q.Floor + 1;
    assert n as real >= q;
    assert n as real * interval >= q * interval;
    assert q * interval == limit;
  }

  /** Every look in a window that long, ending with look `last`, found them all mounted by
      running containers. */
  ghost predicate Watched(looks: nat -> seq<Container>, need: set<string>, last: nat, settle: real, interval: real)
    requires interval > 0.0
  {
    exists from: nat :: WatchedFrom(looks, need, from, last, settle, interval)
  }

  ghost predicate WatchedFrom(looks: nat -> seq<Container>, need: set<string>, from: nat, last: nat, settle: real, interval: real)
    requires interval > 0.0
  {
    && from <= last && At(last, interval) - At(from, interval) >= settle
    && forall k :: from <= k <= last ==> AllInUse(looks(k), need)
  }

  /** Keeps looking until the expected volumes have stayed mounted across `settle`, or have not
      been seen mounted by `timeout`. `looks` is whatever the daemon answers, look by look.

      A pin that is not idle is released at the first look that ends a window of at least
      `settle` seconds in which every look found each expected volume mounted by a running
      container - or at once, if none is expected. Otherwise it is kept, at the first look past
      the timeout that misses one, and exactly the expected volumes that no running container
      mounts are named. It ends in bounded time whatever the daemon answers. */
  method ReleaseWhenReferenced(held: seq<Pin>, anonymous: string -> bool, looks: nat -> seq<Container>,
                               timeout: real, settle: real, interval: real)
    returns (release: Release, waited: real, last: nat, ghost need: set<string>)
    requires interval > 0.0 && timeout >= 0.0 && settle >= 0.0
    ensures forall v :: v in need <==> Expected(held, anonymous, v)
    ensures forall n :: n in release.released <==> exists p :: p in held && p.name == n && (p.idle || release.kept == [])
    ensures release.kept != [] ==> forall n :: n in release.kept <==> exists p :: p in held && p.name == n && !p.idle
    ensures waited == At(last, interval) < timeout + settle + 2.0 * interval
    ensures need == {} ==> release.kept == [] && waited == 0.0
    ensures need != {} && release.kept == [] ==> Watched(looks, need, last, settle, interval)
    ensures forall k :: 0 <= k < last ==> !Watched(looks, need, k, settle, interval)
    ensures release.kept != [] ==>
              && (forall v :: v in release.unmounted <==> v in need && !InUse(looks(last), v))
              && release.unmounted != {} && waited >= timeout
    ensures forall k :: 0 <= k < last ==> At(k, interval) < timeout || AllInUse(looks(k), need)
  {
    var idle, waiting := Idle(held), Waiting(held);
    Sorted(held);
    NamesIn(idle);
    NamesIn(waiting);
    need := Awaited(held, anonymous);
    forall v ensures v in need <==> Expected(held, anonymous, v) { AwaitedIsExpected(held, anonymous, v); }
    if waiting == [] {
      NothingExpected(held, anonymous);
      return Release(Names(idle), [], {}), 0.0, 0, {};
    }
    var settled, missing;
    settled, missing, waited, last := AwaitMounts(Awaited(held, anonymous), looks, timeout, settle, interval);
    assert waiting[0].name == Names(waiting)[0];
    release := if settled then Release(Names(idle) + Names(waiting), [], {}) else Release(Names(idle), Names(waiting), missing);
  }

  lemma {:induction false} NothingExpected(held: seq<Pin>, anonymous: string -> bool)
    requires forall p :: p in held ==> p.idle
    ensures forall v :: !Expected(held, anonymous, v)
  {
  }

  method AwaitMounts(need: set<string>, looks: nat -> seq<Container>, timeout: real, settle: real, interval: real)
    returns (settled: bool, missing: set<string>, waited: real, last: nat)
    requires interval > 0.0 && timeout >= 0.0 && settle >= 0.0
    ensures waited == At(last, interval) < timeout + settle + 2.0 * interval
    ensures need == {} ==> settled && waited == 0.0
    ensures need != {} && settled ==> Watched(looks, need, last, settle, interval)
    ensures forall k :: 0 <= k < last ==> !Watched(looks, need, k, settle, interval)
    ensures !settled ==>
              (forall v :: v in missing <==> v in need && !InUse(looks(last), v)) && missing != {} && waited >= timeout
    ensures forall k :: 0 <= k < last ==> At(k, interval) < timeout || AllInUse(looks(k), need)
  {
    waited, last := 0.0, 0;
    var steadySince: Option<real> := None;
    ghost var from: nat := 0;
    ghost var most := EnoughLooks(timeout + settle + 2.0 * interval, interval);
    while true
      invariant waited == At(last, interval) < timeout + settle + 2.0 * interval
      invariant last <= most && (need == {} ==> last == 0)
      invariant steadySince.None? ==> waited < timeout + interval
      invariant steadySince.None? && last > 0 ==> !AllInUse(looks(last - 1), need)
      invariant steadySince.Some? ==> Steady(looks, need, steadySince.value, from, last, timeout, settle, interval)
      invariant forall k :: 0 <= k < last ==> !Watched(looks, need, k, settle, interval)
      invariant forall k :: 0 <= k < last ==> At(k, interval) < timeout || AllInUse(looks(k), need)
      decreases most - last
    {
      missing := Unreferenced(looks(last), need);
      UnreferencedIsUnused(looks(last), need);
      if missing != {} {
        steadySince := None;
      } else if steadySince.None? {
        steadySince := Some(waited);
        from := last;
      }
      if steadySince.Some? && (need == {} || waited - steadySince.value >= settle) {
        assert need != {} ==> WatchedFrom(looks, need, from, last, settle, interval);
        settled := true;
        return;
      }
      if steadySince.None? && waited >= timeout {
        settled := false;
        return;
      }
      NotYetWatched(looks, need, steadySince.Some?, from, last, settle, interval);
      NextLook(last, interval);
      BeforeTheMost(last, most, interval, timeout + settle + 2.0 * interval);
      waited := waited + interval;
      last := last + 1;
    }
  }

  /** Mounted in every look since the `from`-th, which came in time, and not in the one before;
      and not yet long enough. */
  ghost predicate Steady(looks: nat -> seq<Container>, need: set<string>, since: real, from: nat, next: nat,
                         timeout: real, settle: real, interval: real)
    requires interval > 0.0
  {
    && from < next && since == At(from, interval) < timeout + interval
    && (forall k :: from <= k < next ==> AllInUse(looks(k), need))
    && (from > 0 ==> !AllInUse(looks(from - 1), need))
    && At(next, interval) - since < settle + interval
  }

  /** No window ends with this look: it misses a volume, or the last one that did is too near. */
  lemma {:induction false} NotYetWatched(looks: nat -> seq<Container>, need: set<string>, steady: bool, from: nat, last: nat,
                                         settle: real, interval: real)
    requires interval > 0.0
    requires if steady
             then from <= last && (from > 0 ==> !AllInUse(looks(from - 1), need)) && At(last, interval) - At(from, interval) < settle
             else !AllInUse(looks(last), need)
    ensures !Watched(looks, need, last, settle, interval)
  {
    forall start: nat ensures !WatchedFrom(looks, need, start, last, settle, interval) {
      if steady && from <= start {
        Later(from, start, interval);
      }
    }
  }

  lemma {:induction false} Later(j: nat, k: nat, interval: real)
    requires interval > 0.0 && j <= k
    ensures At(j, interval) <= At(k, interval)
  {
    assert (k - j) as real * interval >= 0.0;
    assert k as real * interval == j as real * interval + (k - j) as real * interval;
  }

  lemma {:induction false} BeforeTheMost(last: nat, most: nat, interval: real, limit: real)
    requires interval > 0.0 && At(most, interval) >= limit && last <= most
    requires At(last, interval) + interval < limit
    ensures last + 1 <= most
  {
    NextLook(last, interval);
  }

  function Idle(pins: seq<Pin>): seq<Pin> {
    if pins == [] then []
    else Idle(pins[..|pins| - 1]) + if pins[|pins| - 1].idle then [pins[|pins| - 1]] else []
  }

  /** Each pin is on the list it belongs to, and on no other. */
  lemma {:induction false} Sorted(pins: seq<Pin>)
    ensures forall p :: p in Waiting(pins) <==> p in pins && !p.idle
    ensures forall p :: p in Idle(pins) <==> p in pins && p.idle
  {
    if pins != [] {
      Sorted(pins[..|pins| - 1]);
      assert pins == pins[..|pins| - 1] + [pins[|pins| - 1]];
    }
  }

  lemma {:induction false} NamesIn(pins: seq<Pin>)
    ensures forall n :: n in Names(pins) <==> exists p :: p in pins && p.name == n
  {
    forall n ensures n in Names(pins) <==> exists p :: p in pins && p.name == n {
      if p :| p in pins && p.name == n {
        var i :| 0 <= i < |pins| && pins[i] == p;
        assert Names(pins)[i] == n;
      }
    }
  }

  // ── making pins ────────────────────────────────────────────────────────────

  /** What ensuring a pin promises: nothing taken away, and every volume that exists held. */
  ghost predicate Protects(before: seq<Pin>, after: seq<Pin>, volumes: set<string>, idle: set<string>, present: set<string>) {
    && before <= after
    && (volumes + idle) * present <= Covered(after)
    && Covered(after) <= Covered(before) + (volumes + idle) * present
    && (forall i :: |before| <= i < |after| ==> after[i].volumes != {} && after[i].volumes !! Covered(before))
    && (forall i :: |before| <= i < |after| ==> if after[i].idle then after[i].volumes !! volumes else after[i].volumes <= volumes)
  }

  /** One migration's pins on one server, and the volumes there. */
  class Host {
    var pins: seq<Pin>
    var present: set<string>

    constructor (pins: seq<Pin>, present: set<string>)
      ensures this.pins == pins && this.present == present
    {
      this.pins, this.present := pins, present;
    }

    /** Additive: at no moment is a volume less protected. A volume that does not exist is
        skipped - mounting it would create it. A volume mounted and idle is not idle. */
    method Ensure(volumes: set<string>, idle: set<string>, name: set<string> -> string) returns (names: seq<string>)
      modifies this`pins
      ensures Protects(old(pins), pins, volumes, idle, present)
      ensures |pins| <= |old(pins)| + 2 && forall i :: |old(pins)| <= i < |pins| ==> pins[i].name == name(pins[i].volumes)
      ensures |names| == (if volumes + idle == {} then 0 else |pins|) && forall i :: 0 <= i < |names| ==> names[i] == pins[i].name
      ensures (volumes + idle) * present <= Covered(old(pins)) ==> pins == old(pins)
    {
      var wanted := volumes + idle;
      if wanted == {} {
        return [];
      }
      var todo := wanted * present - Covered(pins);
      var mounted, unmounted := todo * volumes, todo - volumes;
      var more := NewPins(mounted, unmounted, name);
      NewPinsCover(mounted, unmounted, name);
      CoveredMore(pins, more);
      assert mounted + unmounted == todo;
      pins := pins + more;
      names := Names(pins);
    }

    /** Removes the named pins, or all of them; a volume is never removed with one. */
    method Remove(only: Option<set<string>>) returns (removed: seq<string>)
      modifies this`pins
      ensures forall p :: p in pins <==> p in old(pins) && only.Some? && p.name !in only.value
      ensures forall n :: n in removed <==> exists i :: 0 <= i < |old(pins)| && old(pins)[i].name == n && (only.None? || n in only.value)
    {
      var left: seq<Pin> := [];
      removed := [];
      for i := 0 to |pins|
        invariant pins == old(pins)
        invariant forall p :: p in left <==> p in pins[..i] && only.Some? && p.name !in only.value
        invariant forall n :: n in removed <==> exists k :: 0 <= k < i && pins[k].name == n && (only.None? || n in only.value)
      {
        if only.None? || pins[i].name in only.value {
          removed := removed + [pins[i].name];
        } else {
          left := left + [pins[i]];
        }
      }
      pins := left;
    }
  }

  lemma {:induction false} CoveredMore(pins: seq<Pin>, more: seq<Pin>)
    ensures Covered(pins + more) == Covered(pins) + Covered(more)
  {
    var all := pins + more;
    forall v ensures v in Covered(all) <==> v in Covered(pins) || v in Covered(more) {
      if v in Covered(pins) {
        var i :| 0 <= i < |pins| && v in pins[i].volumes;
        assert all[i] == pins[i];
      }
      if v in Covered(more) {
        var i :| 0 <= i < |more| && v in more[i].volumes;
        assert all[|pins| + i] == more[i];
      }
    }
  }

  /** One pin of each kind, if it has anything to hold. */
  function NewPins(mounted: set<string>, idle: set<string>, name: set<string> -> string): seq<Pin> {
    (if mounted != {} then [Pin(name(mounted), mounted, false)] else [])
    + (if idle != {} then [Pin(name(idle), idle, true)] else [])
  }

  lemma {:induction false} NewPinsCover(mounted: set<string>, idle: set<string>, name: set<string> -> string)
    ensures Covered(NewPins(mounted, idle, name)) == mounted + idle
    ensures forall i :: 0 <= i < |NewPins(mounted, idle, name)| ==>
              var p := NewPins(mounted, idle, name)[i];
              p.volumes != {} && p.volumes == (if p.idle then idle else mounted) && p.name == name(p.volumes)
  {
    var more := NewPins(mounted, idle, name);
    forall v ensures v in Covered(more) <==> v in mounted || v in idle {
      if v in mounted {
        assert v in more[0].volumes;
      }
      if v in idle {
        assert v in more[|more| - 1].volumes;
      }
    }
  }

  /** Ensuring twice is ensuring once. */
  lemma {:induction false} ProtectedOnce(before: seq<Pin>, after: seq<Pin>, again: seq<Pin>, volumes: set<string>,
                                         idle: set<string>, present: set<string>)
    requires Protects(before, after, volumes, idle, present) && Protects(after, again, volumes, idle, present)
    ensures again == after
  {
    if |after| < |again| {
      VolumesCovered(again, |after|);
    }
    assert again[..|after|] == after;
  }

  lemma {:induction false} VolumesCovered(pins: seq<Pin>, i: nat)
    requires i < |pins|
    ensures pins[i].volumes <= Covered(pins)
  {
  }
}
