/** What a resource's data is: what its containers mount, what Coolify declares, and what is
    left on the daemon, reconciled into one manifest. */
module Manifest {
  import opened Wrappers

  datatype MountKind = Tmpfs | Bind | VolumeMount | OtherKind

  /** One mount of a container; a mount without a name has "". */
  datatype Mount = Mount(kind: MountKind, name: string, source: string, destination: string)

  datatype Storage = Storage(persistent: bool, name: string, mountPath: string, placeholder: bool)

  datatype DaemonVolume = DaemonVolume(name: string, managed: bool)

  datatype Decision = Migrate | Skip | Refuse

  datatype Origin = FromInspect | FromStorage

  datatype Item = Item(decision: Decision, kind: MountKind, name: string, source: string, mountPath: string, origin: Origin)

  datatype Warning =
    | MirroredFile(path: string)
    | StaleRow(name: string, path: string)
    | NotMigrated(path: string)
    | OrphanVolume(name: string)
    | NothingInspected

  /** What Docker and Coolify mean by a path or a name. */
  datatype Rules = Rules(passthrough: set<string>, isConfigDir: string -> bool, isAnonymous: string -> bool)

  function Classify(m: Mount, r: Rules): Decision {
    match m.kind
    case Tmpfs => Skip
    case Bind => if m.source in r.passthrough || r.isConfigDir(m.source) then Skip else Migrate
    case VolumeMount => if m.name == "" || r.isAnonymous(m.name) then Refuse else Migrate
    case OtherKind => Skip
  }

  function ItemOf(m: Mount, r: Rules): Item {
    Item(Classify(m, r), m.kind, m.name, m.source, m.destination, FromInspect)
  }

  /** The same bytes seen again: one volume by its name, one migrated bind by its source. */
  predicate SamePayload(item: Item, m: Mount, r: Rules) {
    && item.kind == m.kind && item.decision == Classify(m, r)
    && if m.kind.VolumeMount? then item.name == m.name else item.source == m.source
  }

  predicate OnlyVolumesNamed(mounts: seq<Mount>) {
    forall i :: 0 <= i < |mounts| && mounts[i].name != "" ==> mounts[i].kind.VolumeMount?
  }

  /** No volume and no bind source is copied twice. */
  predicate CopiedOnce(items: seq<Item>) {
    forall i, j :: 0 <= i < j < |items| && items[i].decision.Migrate? && items[j].decision.Migrate? ==>
      && (items[i].name != "" ==> items[i].name != items[j].name)
      && (items[i].kind.Bind? && items[j].kind.Bind? ==> items[i].source != items[j].source)
  }

  predicate Migrates(items: seq<Item>, name: string) {
    exists i :: 0 <= i < |items| && items[i].decision.Migrate? && items[i].name == name
  }

  predicate Shown(items: seq<Item>, m: Mount, r: Rules) {
    exists i :: 0 <= i < |items| && SamePayload(items[i], m, r)
  }

  /** Every item is a mount, or a declared volume that exists. */
  ghost predicate Justified(item: Item, mounts: seq<Mount>, storages: seq<Storage>, volumes: seq<DaemonVolume>, r: Rules) {
    || IsSighting(item, mounts, r)
    || (exists s, v :: s in storages && v in volumes && s.persistent && s.name != "" && s.name == v.name
                       && item == Declared(s))
  }

  // ── docker inspect: the truth ──────────────────────────────────────────────

  ghost predicate FromMounts(items: seq<Item>, mounts: seq<Mount>, r: Rules) {
    forall i :: 0 <= i < |items| ==> IsSighting(items[i], mounts, r)
  }

  ghost predicate IsSighting(item: Item, mounts: seq<Mount>, r: Rules) {
    exists m :: m in mounts && item == ItemOf(m, r)
  }

  /** What the mounts seen so far gave. */
  ghost predicate Inspected(items: seq<Item>, mounts: seq<Mount>, r: Rules) {
    && FromMounts(items, mounts, r)
    && (forall i :: 0 <= i < |mounts| && !Classify(mounts[i], r).Skip? ==> Shown(items, mounts[i], r))
    && (OnlyVolumesNamed(mounts) ==> CopiedOnce(items))
  }

  // What the items say of the mounts, spelled out.

  /** Data of the host: neither supplied by every host nor made anew by a deploy. */
  ghost predicate HostData(m: Mount, r: Rules) {
    m.kind == Bind && m.source !in r.passthrough && !r.isConfigDir(m.source)
  }

  ghost predicate NamedVolume(m: Mount, r: Rules) {
    m.kind == VolumeMount && m.name != "" && !r.isAnonymous(m.name)
  }

  ghost predicate HasItem(items: seq<Item>, decision: Decision, kind: MountKind, name: string, source: string) {
    exists item :: item in items && item.decision == decision && item.kind == kind
                   && (if kind == Bind then item.source == source else item.name == name)
  }

  /** Host data and named volumes are migrated, anonymous volumes refused ... */
  ghost predicate Complete(items: seq<Item>, mounts: seq<Mount>, r: Rules) {
    && (forall m :: m in mounts && HostData(m, r) ==> HasItem(items, Migrate, Bind, "", m.source))
    && (forall m :: m in mounts && NamedVolume(m, r) ==> HasItem(items, Migrate, VolumeMount, m.name, ""))
    && (forall m :: m in mounts && m.kind == VolumeMount && !NamedVolume(m, r) ==> HasItem(items, Refuse, VolumeMount, m.name, ""))
  }

  /** ... and nothing else: what the daemon showed of an item is a mount with that payload, at that
      path, and decided that way. */
  ghost predicate Sighted(item: Item, m: Mount, r: Rules) {
    && item.kind == m.kind && item.name == m.name && item.source == m.source && item.mountPath == m.destination
    && item.decision == if HostData(m, r) || NamedVolume(m, r) then Migrate else if m.kind == VolumeMount then Refuse else Skip
  }

  ghost predicate OnlySighted(items: seq<Item>, mounts: seq<Mount>, r: Rules) {
    forall item :: item in items && item.origin == FromInspect ==> exists m :: m in mounts && Sighted(item, m, r)
  }

  lemma {:induction false} ShownIsComplete(items: seq<Item>, mounts: seq<Mount>, r: Rules)
    requires AllShown(items, mounts, r)
    ensures Complete(items, mounts, r)
  {
    forall m | m in mounts && !Classify(m, r).Skip?
      ensures exists item :: item in items && item.decision == Classify(m, r) && item.kind == m.kind
                             && (if m.kind == VolumeMount then item.name == m.name else item.source == m.source)
    {
      var i :| 0 <= i < |mounts| && mounts[i] == m;
      assert Shown(items, mounts[i], r);
      var k :| 0 <= k < |items| && SamePayload(items[k], m, r);
      assert items[k] in items;
    }
  }

  lemma {:induction false} SightingsAreSighted(items: seq<Item>, mounts: seq<Mount>, r: Rules)
    requires forall item :: item in items && item.origin == FromInspect ==> IsSighting(item, mounts, r)
    ensures OnlySighted(items, mounts, r)
  {
    forall item | item in items && item.origin == FromInspect ensures exists m :: m in mounts && Sighted(item, m, r) {
      var m :| m in mounts && item == ItemOf(m, r);
      assert Sighted(item, m, r);
    }
  }

  predicate VolumeSeen(items: seq<Item>, name: string) {
    exists k :: 0 <= k < |items| && items[k].kind.VolumeMount? && items[k].name == name
  }

  predicate BindSeen(items: seq<Item>, source: string) {
    exists k :: 0 <= k < |items| && items[k].kind.Bind? && items[k].decision.Migrate? && items[k].source == source
  }

  /** The sets the walk keeps are what the items already say. */
  ghost predicate Tracked(items: seq<Item>, names: set<string>, binds: set<string>, migrating: set<string>) {
    && (forall n :: n in names <==> n != "" && VolumeSeen(items, n))
    && (forall b :: b in binds <==> BindSeen(items, b))
    && (forall n :: n in migrating <==> n != "" && Migrates(items, n))
  }

  lemma {:induction false} TrackedSnoc(items: seq<Item>, names: set<string>, binds: set<string>, migrating: set<string>, item: Item)
    requires Tracked(items, names, binds, migrating)
    ensures Tracked(items + [item],
                    if item.kind.VolumeMount? && item.name != "" then names + {item.name} else names,
                    if item.kind.Bind? && item.decision.Migrate? then binds + {item.source} else binds,
                    if item.decision.Migrate? && item.name != "" then migrating + {item.name} else migrating)
  {
    var more := items + [item];
    MigratesSnoc(items, item);
    assert more[|items|] == item;
    forall n ensures VolumeSeen(more, n) <==> VolumeSeen(items, n) || (item.kind.VolumeMount? && item.name == n) {
      if VolumeSeen(items, n) {
        var k :| 0 <= k < |items| && items[k].kind.VolumeMount? && items[k].name == n;
        assert more[k] == items[k];
      }
    }
    forall b ensures BindSeen(more, b) <==> BindSeen(items, b) || (item.kind.Bind? && item.decision.Migrate? && item.source == b) {
      if BindSeen(items, b) {
        var k :| 0 <= k < |items| && items[k].kind.Bind? && items[k].decision.Migrate? && items[k].source == b;
        assert more[k] == items[k];
      }
    }
  }

  method Inspect(mounts: seq<Mount>, r: Rules) returns (items: seq<Item>, migrating: set<string>)
    ensures Inspected(items, mounts, r)
    ensures (forall m :: m in mounts && m.name != "" ==> m.kind == VolumeMount) ==>
              forall i, j :: 0 <= i < j < |items| && items[i].decision == Migrate && items[j].decision == Migrate ==>
                && (items[i].name != "" ==> items[i].name != items[j].name)
                && (items[i].kind == Bind && items[j].kind == Bind ==> items[i].source != items[j].source)
    ensures Complete(items, mounts, r) && OnlySighted(items, mounts, r) && forall item :: item in items ==> item.origin == FromInspect
    ensures forall n :: n in migrating <==> n != "" && Migrates(items, n)
  {
    items, migrating := [], {};
    var names: set<string>, binds: set<string> := {}, {};
    for i := 0 to |mounts|
      invariant Inspected(items, mounts[..i], r)
      invariant Tracked(items, names, binds, migrating)
    {
      var m := mounts[i];
      assert mounts[..i + 1] == mounts[..i] + [m];
      if m.kind.VolumeMount? && m.name != "" && m.name in names {
        SeenAgain(items, mounts[..i], m, r);
        continue;
      }
      if m.kind.Bind? && Classify(m, r).Migrate? && m.source in binds {
        SeenAgain(items, mounts[..i], m, r);
        continue;
      }
      SeenFirst(items, mounts[..i], m, r);
      TrackedSnoc(items, names, binds, migrating, ItemOf(m, r));
      if m.kind.VolumeMount? && m.name != "" {
        names := names + {m.name};
      }
      if m.kind.Bind? && Classify(m, r).Migrate? {
        binds := binds + {m.source};
      }
      items := items + [ItemOf(m, r)];
      if Classify(m, r).Migrate? && m.name != "" {
        migrating := migrating + {m.name};
      }
    }
    assert mounts[..|mounts|] == mounts;
    ShownIsComplete(items, mounts, r);
    AllFromMounts(items, mounts, r);
    SightingsAreSighted(items, mounts, r);
  }

  lemma {:induction false} AllFromMounts(items: seq<Item>, mounts: seq<Mount>, r: Rules)
    requires FromMounts(items, mounts, r)
    ensures forall item :: item in items ==> IsSighting(item, mounts, r) && item.origin == FromInspect
  {
  }

  lemma {:induction false} SeenAgain(items: seq<Item>, mounts: seq<Mount>, m: Mount, r: Rules)
    requires Inspected(items, mounts, r)
    requires if m.kind.VolumeMount? then m.name != "" && VolumeSeen(items, m.name)
             else exists k :: 0 <= k < |items| && items[k].kind == m.kind && items[k].decision == Classify(m, r) && items[k].source == m.source
    ensures Inspected(items, mounts + [m], r)
  {
    var k :| 0 <= k < |items| && items[k].kind == m.kind
             && if m.kind.VolumeMount? then items[k].name == m.name
                else items[k].decision == Classify(m, r) && items[k].source == m.source;
    assert IsSighting(items[k], mounts, r);
    assert SamePayload(items[k], m, r);
    assert Shown(items, m, r);
    SightingsMore(items, mounts, m, r);
    StillNamed(mounts, m);
  }

  lemma {:induction false} SightingsMore(items: seq<Item>, mounts: seq<Mount>, m: Mount, r: Rules)
    requires FromMounts(items, mounts, r)
    requires Shown(items, m, r) && forall i :: 0 <= i < |mounts| && !Classify(mounts[i], r).Skip? ==> Shown(items, mounts[i], r)
    ensures FromMounts(items, mounts + [m], r)
    ensures forall i :: 0 <= i < |mounts + [m]| && !Classify((mounts + [m])[i], r).Skip? ==> Shown(items, (mounts + [m])[i], r)
  {
    var more := mounts + [m];
    forall i | 0 <= i < |items| ensures IsSighting(items[i], more, r) {
      assert IsSighting(items[i], mounts, r);
      var n :| n in mounts && items[i] == ItemOf(n, r);
      assert n in more;
    }
    forall i | 0 <= i < |more| && !Classify(more[i], r).Skip? ensures Shown(items, more[i], r) {
      assert i < |mounts| ==> more[i] == mounts[i];
    }
  }

  lemma {:induction false} StillNamed(mounts: seq<Mount>, m: Mount)
    ensures OnlyVolumesNamed(mounts + [m]) ==> OnlyVolumesNamed(mounts) && (m.name != "" ==> m.kind.VolumeMount?)
  {
    var more := mounts + [m];
    assert more[|mounts|] == m;
    assert forall i :: 0 <= i < |mounts| ==> more[i] == mounts[i];
  }

  lemma {:induction false} SeenFirst(items: seq<Item>, mounts: seq<Mount>, m: Mount, r: Rules)
    requires Inspected(items, mounts, r)
    requires m.kind.VolumeMount? && m.name != "" ==> !VolumeSeen(items, m.name)
    requires m.kind.Bind? && Classify(m, r).Migrate? ==> !BindSeen(items, m.source)
    ensures Inspected(items + [ItemOf(m, r)], mounts + [m], r)
  {
    var more, all := items + [ItemOf(m, r)], mounts + [m];
    forall i | 0 <= i < |all| && !Classify(all[i], r).Skip? ensures Shown(more, all[i], r) {
      if i < |mounts| {
        assert all[i] == mounts[i] && Shown(items, mounts[i], r);
        var k :| 0 <= k < |items| && SamePayload(items[k], mounts[i], r);
        assert SamePayload(more[k], all[i], r);
      } else {
        assert SamePayload(more[|items|], all[i], r);
      }
    }
    forall i | 0 <= i < |more| ensures IsSighting(more[i], all, r) {
      if i < |items| {
        assert IsSighting(items[i], mounts, r);
        var n :| n in mounts && items[i] == ItemOf(n, r);
        assert n in all;
      } else {
        assert m in all;
      }
    }
    StillNamed(mounts, m);
    if OnlyVolumesNamed(all) {
      CopiedMore(items, mounts, m, r);
    }
  }

  lemma {:induction false} CopiedMore(items: seq<Item>, mounts: seq<Mount>, m: Mount, r: Rules)
    requires FromMounts(items, mounts, r)
    requires OnlyVolumesNamed(mounts) && CopiedOnce(items) && (m.name != "" ==> m.kind.VolumeMount?)
    requires m.kind.VolumeMount? && m.name != "" ==> !VolumeSeen(items, m.name)
    requires m.kind.Bind? && Classify(m, r).Migrate? ==> !BindSeen(items, m.source)
    ensures CopiedOnce(items + [ItemOf(m, r)])
  {
    var more := items + [ItemOf(m, r)];
    forall i, j | 0 <= i < j < |more| && more[i].decision.Migrate? && more[j].decision.Migrate?
      ensures (more[i].name != "" ==> more[i].name != more[j].name)
              && (more[i].kind.Bind? && more[j].kind.Bind? ==> more[i].source != more[j].source)
    {
      if j == |items| {
        assert IsSighting(items[i], mounts, r);
        var n :| n in mounts && items[i] == ItemOf(n, r);
        var k :| 0 <= k < |mounts| && mounts[k] == n;
      }
    }
  }

  lemma {:induction false} MigratesSnoc(items: seq<Item>, item: Item)
    ensures forall n :: Migrates(items + [item], n) <==> Migrates(items, n) || (item.decision.Migrate? && item.name == n)
  {
    var more := items + [item];
    forall n ensures Migrates(more, n) <==> Migrates(items, n) || (item.decision.Migrate? && item.name == n) {
      if Migrates(items, n) {
        var i :| 0 <= i < |items| && items[i].decision.Migrate? && items[i].name == n;
        assert more[i] == items[i];
      }
      assert more[|items|] == item;
    }
  }

  // ── the declared storages: the intent ──────────────────────────────────────

  predicate HasVolume(volumes: seq<DaemonVolume>, name: string) {
    exists i :: 0 <= i < |volumes| && volumes[i].name == name
  }

  predicate MountedAt(mounts: seq<Mount>, path: string) {
    exists i :: 0 <= i < |mounts| && mounts[i].destination == path
  }

  /** A declared storage is covered by a live mount, migrated, or reported. */
  ghost predicate Answered(s: Storage, mounts: seq<Mount>, items: seq<Item>, warnings: seq<Warning>) {
    || MountedAt(mounts, s.mountPath)
    || (s.name != "" && Migrates(items, s.name)
        && (StaleRow(s.name, s.mountPath) in warnings
            || Declared(s) in items))
    || NotMigrated(s.mountPath) in warnings
  }

  /** Declared data that no container shows, and whose volume is there. */
  ghost predicate Survives(s: Storage, mounts: seq<Mount>, volumes: seq<DaemonVolume>) {
    s.persistent && s.name != "" && (forall m :: m in mounts ==> m.destination != s.mountPath) && exists v :: v in volumes && v.name == s.name
  }

  /** What a warning about one declared storage says is so. */
  ghost predicate Warranted(w: Warning, s: Storage, mounts: seq<Mount>, volumes: seq<DaemonVolume>, items: seq<Item>) {
    match w
    case MirroredFile(path) => s.placeholder && path == s.mountPath
    case StaleRow(name, path) =>
      name == s.name && path == s.mountPath && Migrates(items, name) && forall m :: m in mounts ==> m.destination != path
    case NotMigrated(path) =>
      path == s.mountPath && !Survives(s, mounts, volumes) && forall m :: m in mounts ==> m.destination != path
    case _ => false
  }

  ghost predicate Explained(w: Warning, storages: seq<Storage>, mounts: seq<Mount>, volumes: seq<DaemonVolume>, items: seq<Item>) {
    exists s :: s in storages && Warranted(w, s, mounts, volumes, items)
  }

  /** One declared storage: a stale row of a volume already migrating, data nothing mounts, or noise. */
  method TakeUp(s: Storage, mounts: seq<Mount>, volumes: seq<DaemonVolume>, items: seq<Item>, migrating: set<string>)
    returns (more: seq<Item>, now: set<string>, warned: seq<Warning>)
    requires forall n :: n in migrating <==> n != "" && Migrates(items, n)
    ensures forall n :: n in now <==> n != "" && Migrates(more, n)
    ensures more == items || (more == items + [Declared(s)] && s.persistent && s.name != "" && HasVolume(volumes, s.name))
    ensures CopiedOnce(items) ==> CopiedOnce(more)
    ensures Answered(s, mounts, more, warned)
    ensures Survives(s, mounts, volumes) ==> Migrates(more, s.name)
    ensures s.placeholder ==> MirroredFile(s.mountPath) in warned
    ensures forall w :: w in warned ==> Warranted(w, s, mounts, volumes, more)
  {
    more, now := items, migrating;
    ThereOrNot(s, mounts, volumes);
    warned := if s.placeholder then [MirroredFile(s.mountPath)] else [];
    if MountedAt(mounts, s.mountPath) {
    } else if s.name != "" && s.name in migrating {
      warned := warned + [StaleRow(s.name, s.mountPath)];
    } else if s.persistent && s.name != "" && HasVolume(volumes, s.name) {
      MigratesSnoc(items, Declared(s));
      DeclaredIsNew(items, Declared(s));
      more, now := items + [Declared(s)], migrating + {s.name};
      assert Declared(s) in more;
    } else {
      warned := warned + [NotMigrated(s.mountPath)];
    }
  }

  lemma {:induction false} ThereOrNot(s: Storage, mounts: seq<Mount>, volumes: seq<DaemonVolume>)
    ensures MountedAt(mounts, s.mountPath) <==> !forall m :: m in mounts ==> m.destination != s.mountPath
    ensures HasVolume(volumes, s.name) <==> exists v :: v in volumes && v.name == s.name
  {
    if v :| v in volumes && v.name == s.name {
      var i :| 0 <= i < |volumes| && volumes[i] == v;
    }
    if m :| m in mounts && m.destination == s.mountPath {
      var i :| 0 <= i < |mounts| && mounts[i] == m;
    }
  }

  lemma {:induction false} StillExplained(w: Warning, storages: seq<Storage>, more: seq<Storage>, mounts: seq<Mount>,
                                          volumes: seq<DaemonVolume>, items: seq<Item>, moreItems: seq<Item>)
    requires Explained(w, storages, mounts, volumes, items) && storages <= more && items <= moreItems
    ensures Explained(w, more, mounts, volumes, moreItems)
  {
    var s :| s in storages && Warranted(w, s, mounts, volumes, items);
    assert s in more;
    if w.StaleRow? {
      var i :| 0 <= i < |items| && items[i].decision.Migrate? && items[i].name == w.name;
      assert moreItems[i] == items[i];
    }
  }

  lemma {:induction false} StillMigrates(items: seq<Item>, more: seq<Item>, name: string)
    requires Migrates(items, name) && items <= more
    ensures Migrates(more, name)
  {
    var i :| 0 <= i < |items| && items[i].decision.Migrate? && items[i].name == name;
    assert more[i] == items[i];
  }

  function Declared(s: Storage): Item {
    Item(Migrate, VolumeMount, s.name, "", s.mountPath, FromStorage)
  }

  ghost predicate AllJustified(items: seq<Item>, mounts: seq<Mount>, storages: seq<Storage>, volumes: seq<DaemonVolume>, r: Rules) {
    forall i :: 0 <= i < |items| ==> Justified(items[i], mounts, storages, volumes, r)
  }

  ghost predicate AllShown(items: seq<Item>, mounts: seq<Mount>, r: Rules) {
    forall i :: 0 <= i < |mounts| && !Classify(mounts[i], r).Skip? ==> Shown(items, mounts[i], r)
  }

  ghost predicate AllAnswered(storages: seq<Storage>, mounts: seq<Mount>, items: seq<Item>, warnings: seq<Warning>) {
    forall k :: 0 <= k < |storages| ==> Answered(storages[k], mounts, items, warnings)
  }

  /** What is said of the declared storages so far. */
  ghost predicate Told(storages: seq<Storage>, mounts: seq<Mount>, volumes: seq<DaemonVolume>, items: seq<Item>, warnings: seq<Warning>) {
    && (forall s :: s in storages && Survives(s, mounts, volumes) ==> Migrates(items, s.name))
    && (forall s :: s in storages && s.placeholder ==> MirroredFile(s.mountPath) in warnings)
    && (forall w :: w in warnings ==> Explained(w, storages, mounts, volumes, items))
  }

  lemma {:induction false} ToldMore(storages: seq<Storage>, s: Storage, mounts: seq<Mount>, volumes: seq<DaemonVolume>,
                                    items: seq<Item>, more: seq<Item>, warnings: seq<Warning>, warned: seq<Warning>)
    requires Told(storages, mounts, volumes, items, warnings) && items <= more
    requires Survives(s, mounts, volumes) ==> Migrates(more, s.name)
    requires s.placeholder ==> MirroredFile(s.mountPath) in warned
    requires forall w :: w in warned ==> Warranted(w, s, mounts, volumes, more)
    ensures Told(storages + [s], mounts, volumes, more, warnings + warned)
  {
    forall t | t in storages && Survives(t, mounts, volumes) ensures Migrates(more, t.name) {
      StillMigrates(items, more, t.name);
    }
    assert s in storages + [s];
    forall w | w in warnings + warned ensures Explained(w, storages + [s], mounts, volumes, more) {
      if w in warnings {
        StillExplained(w, storages, storages + [s], mounts, volumes, items, more);
      }
    }
  }

  method Reconcile(mounts: seq<Mount>, storages: seq<Storage>, volumes: seq<DaemonVolume>, belongs: DaemonVolume -> bool, r: Rules)
    returns (items: seq<Item>, warnings: seq<Warning>)
    ensures (forall m :: m in mounts && m.name != "" ==> m.kind == VolumeMount) ==>
              forall i, j :: 0 <= i < j < |items| && items[i].decision == Migrate && items[j].decision == Migrate ==>
                && (items[i].name != "" ==> items[i].name != items[j].name)
                && (items[i].kind == Bind && items[j].kind == Bind ==> items[i].source != items[j].source)
    ensures Complete(items, mounts, r) && OnlySighted(items, mounts, r)
    ensures AllShown(items, mounts, r)
    ensures AllJustified(items, mounts, storages, volumes, r)
    ensures AllAnswered(storages, mounts, items, warnings)
    ensures forall s :: s in storages && Survives(s, mounts, volumes) ==> Migrates(items, s.name)
    ensures forall s :: s in storages && s.placeholder ==> MirroredFile(s.mountPath) in warnings
    ensures forall w :: w in warnings ==>
              || Explained(w, storages, mounts, volumes, items)
              || (w.OrphanVolume? && (w.name == "" || !Migrates(items, w.name)) && exists v :: v in volumes && belongs(v) && v.name == w.name)
              || (w.NothingInspected? && mounts == [] && items != [])
    ensures forall v :: v in volumes && belongs(v) && v.name != "" && !Migrates(items, v.name) ==> OrphanVolume(v.name) in warnings
    ensures mounts == [] && items != [] ==> NothingInspected in warnings
  {
    var migrating;
    items, migrating := Inspect(mounts, r);
    InspectedIsJustified(items, mounts, storages, volumes, r);
    items, migrating, warnings := TakeUpAll(mounts, storages, volumes, items, migrating, r);
    ShownIsComplete(items, mounts, r);
    JustifiedIsSighted(items, mounts, storages, volumes, r);
    assert storages[..|storages|] == storages;
    var orphans := Orphans(volumes, migrating, belongs);
    ghost var declared := warnings;
    warnings := warnings + (orphans + if mounts == [] && items != [] then [NothingInspected] else []);
    StillAllAnswered(storages, mounts, items, items, declared, warnings);
  }

  /** What holds once some of the declared storages have been taken up. */
  ghost predicate TakenUp(items: seq<Item>, warnings: seq<Warning>, mounts: seq<Mount>, storages: seq<Storage>, i: nat,
                          volumes: seq<DaemonVolume>, r: Rules)
    requires i <= |storages|
  {
    && (OnlyVolumesNamed(mounts) ==> CopiedOnce(items))
    && AllShown(items, mounts, r) && AllJustified(items, mounts, storages, volumes, r)
    && AllAnswered(storages[..i], mounts, items, warnings) && Told(storages[..i], mounts, volumes, items, warnings)
  }

  lemma {:induction false} OneTakenUp(items: seq<Item>, more: seq<Item>, warnings: seq<Warning>, warned: seq<Warning>, mounts: seq<Mount>,
                                      storages: seq<Storage>, i: nat, volumes: seq<DaemonVolume>, r: Rules)
    requires i < |storages| && TakenUp(items, warnings, mounts, storages, i, volumes, r)
    requires var s := storages[i];
             && (more == items || (more == items + [Declared(s)] && s.persistent && s.name != "" && HasVolume(volumes, s.name)))
             && (CopiedOnce(items) ==> CopiedOnce(more))
             && Answered(s, mounts, more, warned)
             && (Survives(s, mounts, volumes) ==> Migrates(more, s.name))
             && (s.placeholder ==> MirroredFile(s.mountPath) in warned)
             && forall w :: w in warned ==> Warranted(w, s, mounts, volumes, more)
    ensures TakenUp(more, warnings + warned, mounts, storages, i + 1, volumes, r)
  {
    JustifiedMore(items, more, mounts, storages, i, volumes, r);
    StillShown(items, more, mounts, r);
    AnsweredToo(storages, i, mounts, items, more, warnings, warned);
    ToldNext(storages, i, mounts, volumes, items, more, warnings, warned);
  }

  lemma {:induction false} JustifiedMore(items: seq<Item>, more: seq<Item>, mounts: seq<Mount>, storages: seq<Storage>, i: nat,
                                         volumes: seq<DaemonVolume>, r: Rules)
    requires i < |storages| && AllJustified(items, mounts, storages, volumes, r)
    requires var s := storages[i];
             more == items || (more == items + [Declared(s)] && s.persistent && s.name != "" && HasVolume(volumes, s.name))
    ensures AllJustified(more, mounts, storages, volumes, r)
  {
    if more != items {
      DeclaredIsJustified(storages[i], mounts, storages, volumes, r);
    }
  }

  lemma {:induction false} ToldNext(storages: seq<Storage>, i: nat, mounts: seq<Mount>, volumes: seq<DaemonVolume>,
                                    items: seq<Item>, more: seq<Item>, warnings: seq<Warning>, warned: seq<Warning>)
    requires i < |storages| && Told(storages[..i], mounts, volumes, items, warnings) && items <= more
    requires Survives(storages[i], mounts, volumes) ==> Migrates(more, storages[i].name)
    requires storages[i].placeholder ==> MirroredFile(storages[i].mountPath) in warned
    requires forall w :: w in warned ==> Warranted(w, storages[i], mounts, volumes, more)
    ensures Told(storages[..i + 1], mounts, volumes, more, warnings + warned)
  {
    ToldMore(storages[..i], storages[i], mounts, volumes, items, more, warnings, warned);
    assert storages[..i + 1] == storages[..i] + [storages[i]];
  }

  /** The declared storages, one after the other. */
  method TakeUpAll(mounts: seq<Mount>, storages: seq<Storage>, volumes: seq<DaemonVolume>, before: seq<Item>, found: set<string>, r: Rules)
    returns (items: seq<Item>, migrating: set<string>, warnings: seq<Warning>)
    requires forall n :: n in found <==> n != "" && Migrates(before, n)
    requires TakenUp(before, [], mounts, storages, 0, volumes, r)
    ensures forall n :: n in migrating <==> n != "" && Migrates(items, n)
    ensures TakenUp(items, warnings, mounts, storages, |storages|, volumes, r)
  {
    items, migrating, warnings := before, found, [];
    for i := 0 to |storages|
      invariant forall n :: n in migrating <==> n != "" && Migrates(items, n)
      invariant TakenUp(items, warnings, mounts, storages, i, volumes, r)
    {
      var more, now, warned := TakeUp(storages[i], mounts, volumes, items, migrating);
      OneTakenUp(items, more, warnings, warned, mounts, storages, i, volumes, r);
      items, migrating, warnings := more, now, warnings + warned;
    }
  }

  lemma {:induction false} JustifiedIsSighted(items: seq<Item>, mounts: seq<Mount>, storages: seq<Storage>, volumes: seq<DaemonVolume>,
                                              r: Rules)
    requires AllJustified(items, mounts, storages, volumes, r)
    ensures OnlySighted(items, mounts, r)
  {
    forall item | item in items && item.origin == FromInspect ensures IsSighting(item, mounts, r) {
      var i :| 0 <= i < |items| && items[i] == item;
      assert Justified(items[i], mounts, storages, volumes, r);
    }
    SightingsAreSighted(items, mounts, r);
  }

  lemma {:induction false} InspectedIsJustified(items: seq<Item>, mounts: seq<Mount>, storages: seq<Storage>,
                                                volumes: seq<DaemonVolume>, r: Rules)
    requires FromMounts(items, mounts, r)
    ensures AllJustified(items, mounts, storages, volumes, r)
  {
  }

  lemma {:induction false} StillShown(items: seq<Item>, more: seq<Item>, mounts: seq<Mount>, r: Rules)
    requires AllShown(items, mounts, r) && items <= more
    ensures AllShown(more, mounts, r)
  {
    forall i | 0 <= i < |mounts| && !Classify(mounts[i], r).Skip? ensures Shown(more, mounts[i], r) {
      assert Shown(items, mounts[i], r);
      var k :| 0 <= k < |items| && SamePayload(items[k], mounts[i], r);
      assert SamePayload(more[k], mounts[i], r);
    }
  }

  lemma {:induction false} StillAllAnswered(storages: seq<Storage>, mounts: seq<Mount>, items: seq<Item>, moreItems: seq<Item>,
                                            warnings: seq<Warning>, moreWarnings: seq<Warning>)
    requires AllAnswered(storages, mounts, items, warnings) && items <= moreItems && warnings <= moreWarnings
    ensures AllAnswered(storages, mounts, moreItems, moreWarnings)
  {
    forall k | 0 <= k < |storages| ensures Answered(storages[k], mounts, moreItems, moreWarnings) {
      StillAnswered(storages[k], mounts, items, moreItems, warnings, moreWarnings);
    }
  }

  lemma {:induction false} AnsweredToo(storages: seq<Storage>, i: nat, mounts: seq<Mount>, items: seq<Item>, moreItems: seq<Item>,
                                       warnings: seq<Warning>, more: seq<Warning>)
    requires i < |storages| && items <= moreItems
    requires AllAnswered(storages[..i], mounts, items, warnings) && Answered(storages[i], mounts, moreItems, more)
    ensures AllAnswered(storages[..i + 1], mounts, moreItems, warnings + more)
  {
    StillAllAnswered(storages[..i], mounts, items, moreItems, warnings, warnings + more);
    AnsweredLater(storages[i], mounts, moreItems, warnings, more);
    var sofar := storages[..i + 1];
    forall k | 0 <= k < |sofar| ensures Answered(sofar[k], mounts, moreItems, warnings + more) {
      assert k < i ==> sofar[k] == storages[..i][k];
    }
  }

  lemma {:induction false} AnsweredLater(s: Storage, mounts: seq<Mount>, items: seq<Item>, before: seq<Warning>, more: seq<Warning>)
    requires Answered(s, mounts, items, more)
    ensures Answered(s, mounts, items, before + more)
  {
    assert forall x :: x in more ==> x in before + more;
  }

  lemma {:induction false} StillAnswered(s: Storage, mounts: seq<Mount>, items: seq<Item>, moreItems: seq<Item>,
                                         warnings: seq<Warning>, moreWarnings: seq<Warning>)
    requires Answered(s, mounts, items, warnings) && items <= moreItems && warnings <= moreWarnings
    ensures Answered(s, mounts, moreItems, moreWarnings)
  {
    assert forall x :: x in items ==> x in moreItems;
    assert forall x :: x in warnings ==> x in moreWarnings;
    if Migrates(items, s.name) {
      var i :| 0 <= i < |items| && items[i].decision.Migrate? && items[i].name == s.name;
      assert moreItems[i] == items[i];
    }
  }

  lemma {:induction false} DeclaredIsJustified(s: Storage, mounts: seq<Mount>, storages: seq<Storage>, volumes: seq<DaemonVolume>, r: Rules)
    requires s in storages && s.persistent && s.name != "" && HasVolume(volumes, s.name)
    ensures Justified(Declared(s), mounts, storages, volumes, r)
  {
    var i :| 0 <= i < |volumes| && volumes[i].name == s.name;
    assert volumes[i] in volumes;
  }

  lemma {:induction false} DeclaredIsNew(items: seq<Item>, item: Item)
    requires item.kind.VolumeMount? && !Migrates(items, item.name)
    ensures CopiedOnce(items) ==> CopiedOnce(items + [item])
  {
  }

  /** Volumes of the stack that nothing mounts and nothing declares. */
  method Orphans(volumes: seq<DaemonVolume>, migrating: set<string>, belongs: DaemonVolume -> bool) returns (warnings: seq<Warning>)
    ensures forall v :: v in volumes && belongs(v) && v.name !in migrating ==> OrphanVolume(v.name) in warnings
    ensures forall w :: w in warnings ==>
              w.OrphanVolume? && w.name !in migrating && exists v :: v in volumes && belongs(v) && v.name == w.name
  {
    warnings := [];
    for i := 0 to |volumes|
      invariant forall v :: v in volumes[..i] && belongs(v) && v.name !in migrating ==> OrphanVolume(v.name) in warnings
      invariant forall w :: w in warnings ==>
                  w.OrphanVolume? && w.name !in migrating && exists v :: v in volumes && belongs(v) && v.name == w.name
    {
      if volumes[i].name !in migrating && belongs(volumes[i]) {
        warnings := warnings + [OrphanVolume(volumes[i].name)];
      }
    }
    assert volumes[..|volumes|] == volumes;
  }
}
