/** Which source volume's data goes into which target volume. */
module Naming {
  import opened Wrappers

  /** A volume and where a container sees it; no container is "". */
  datatype Endpoint = Endpoint(name: string, mountPath: string, container: string)

  datatype Pair = Pair(source: Endpoint, target: Endpoint)

  datatype Side = Source | Target

  datatype PairingError =
    | NoPrefix(side: Side, name: string)
    | Ambiguous(side: Side, first: string, second: string)
    | SourceLeftBehind(names: set<string>)
    | TargetStartsEmpty(names: set<string>)

  // ── indexing one side ──────────────────────────────────────────────────────

  /** Every endpoint has a key, and no two volumes share one. */
  ghost predicate Indexable<K(!new)>(endpoints: seq<Endpoint>, key: Endpoint -> Option<K>) {
    && (forall i :: 0 <= i < |endpoints| ==> key(endpoints[i]).Some?)
    && (forall i, j :: 0 <= i < |endpoints| && 0 <= j < |endpoints| && key(endpoints[i]) == key(endpoints[j]) ==>
          endpoints[i].name == endpoints[j].name)
  }

  ghost predicate Indexed<K(!new)>(index: map<K, Endpoint>, endpoints: seq<Endpoint>, key: Endpoint -> Option<K>) {
    && (forall k :: k in index ==> index[k] in endpoints && key(index[k]) == Some(k))
    && (forall i :: 0 <= i < |endpoints| ==> key(endpoints[i]).Some? && key(endpoints[i]).value in index
                                             && index[key(endpoints[i]).value].name == endpoints[i].name)
  }

  method Index<K(==, !new)>(endpoints: seq<Endpoint>, key: Endpoint -> Option<K>, side: Side)
    returns (r: Result<map<K, Endpoint>, PairingError>)
    ensures r.Success? <==> Indexable(endpoints, key)
    ensures r.Success? ==> Indexed(r.value, endpoints, key)
    ensures r.Failure? ==>
              || (r.error.NoPrefix? && exists e :: e in endpoints && key(e).None? && e.name == r.error.name)
              || (r.error.Ambiguous? && r.error.first != r.error.second
                  && exists a, b :: a in endpoints && b in endpoints && key(a) == key(b)
                                    && a.name == r.error.first && b.name == r.error.second)
  {
    var index: map<K, Endpoint> := map[];
    for i := 0 to |endpoints|
      invariant Indexed(index, endpoints[..i], key)
    {
      var e := endpoints[i];
      var k := key(e);
      assert e in endpoints;
      if k.None? {
        return Failure(NoPrefix(side, e.name));
      }
      if k.value in index && index[k.value].name != e.name {
        assert index[k.value] in endpoints[..i] && index[k.value] in endpoints;
        return Failure(Ambiguous(side, index[k.value].name, e.name));
      }
      IndexedSnoc(index, endpoints[..i], e, key);
      assert endpoints[..i + 1] == endpoints[..i] + [e];
      index := index[k.value := e];
    }
    assert endpoints[..|endpoints|] == endpoints;
    r := Success(index);
  }

  lemma {:induction false} IndexedSnoc<K(!new)>(index: map<K, Endpoint>, endpoints: seq<Endpoint>, e: Endpoint, key: Endpoint -> Option<K>)
    requires Indexed(index, endpoints, key) && key(e).Some?
    requires key(e).value in index ==> index[key(e).value].name == e.name
    ensures Indexed(index[key(e).value := e], endpoints + [e], key)
  {
  }

  ghost function Keys<K(!new)>(endpoints: seq<Endpoint>, key: Endpoint -> Option<K>): set<K> {
    set i | 0 <= i < |endpoints| && key(endpoints[i]).Some? :: key(endpoints[i]).value
  }

  lemma {:induction false} IndexKeys<K(!new)>(index: map<K, Endpoint>, endpoints: seq<Endpoint>, key: Endpoint -> Option<K>)
    requires Indexed(index, endpoints, key)
    ensures index.Keys == Keys(endpoints, key)
  {
  }

  // ── pairs ──────────────────────────────────────────────────────────────────

  /** The pairs of two indexed sides, by key. */
  ghost predicate PairsUp<K(!new)>(pairs: map<K, Pair>, source: seq<Endpoint>, target: seq<Endpoint>,
                                   sourceKey: Endpoint -> Option<K>, targetKey: Endpoint -> Option<K>)
  {
    && pairs.Keys == Keys(source, sourceKey)
    && forall k :: k in pairs ==>
         && pairs[k].source in source && sourceKey(pairs[k].source) == Some(k)
         && pairs[k].target in target && targetKey(pairs[k].target) == Some(k)
  }

  function Paired<K>(s: map<K, Endpoint>, t: map<K, Endpoint>): map<K, Pair>
    requires s.Keys <= t.Keys
  {
    map k | k in s :: Pair(s[k], t[k])
  }

  lemma {:induction false} IndexesPairUp<K(!new)>(s: map<K, Endpoint>, t: map<K, Endpoint>, source: seq<Endpoint>, target: seq<Endpoint>,
                                                  sourceKey: Endpoint -> Option<K>, targetKey: Endpoint -> Option<K>)
    requires Indexed(s, source, sourceKey) && Indexed(t, target, targetKey) && s.Keys <= t.Keys
    ensures PairsUp(Paired(s, t), source, target, sourceKey, targetKey)
  {
    IndexKeys(s, source, sourceKey);
    assert Paired(s, t).Keys == s.Keys;
  }

  /** Each source volume is in exactly one pair. */
  ghost predicate EachOnce<K(!new)>(pairs: map<K, Pair>, source: seq<Endpoint>) {
    && (forall e :: e in source ==> exists k :: k in pairs && pairs[k].source.name == e.name)
    && (forall j, k :: j in pairs && k in pairs && pairs[j].source.name == pairs[k].source.name ==> j == k)
  }

  /** No two source volumes share a target volume. */
  ghost predicate NoneShared<K(!new)>(pairs: map<K, Pair>) {
    forall j, k :: j in pairs && k in pairs && pairs[j].target.name == pairs[k].target.name ==> j == k
  }

  // ── by compose key ─────────────────────────────────────────────────────────

  /** The compose volume key inside a Coolify volume name, after `{uuid}_` or `{uuid}-`. */
  function ComposeVolumeSuffix(name: string, uuid: string): (suffix: Option<string>)
    ensures suffix.Some? <==> |name| > |uuid| + 1 && name[..|uuid|] == uuid && name[|uuid|] in "_-"
    ensures suffix.Some? ==> name == uuid + [name[|uuid|]] + suffix.value
  {
    if |name| > |uuid| + 1 && uuid + "_" <= name then Some(name[|uuid| + 1..])
    else if |name| > |uuid| + 1 && uuid + "-" <= name then Some(name[|uuid| + 1..])
    else None
  }

  function BySuffix(uuid: string): Endpoint -> Option<string> {
    (e: Endpoint) => ComposeVolumeSuffix(e.name, uuid)
  }

  method PairByNameSuffix(source: seq<Endpoint>, target: seq<Endpoint>, sourceUuid: string, targetUuid: string)
    returns (r: Result<map<string, Pair>, PairingError>)
    ensures r.Success? <==>
              && Indexable(source, BySuffix(sourceUuid)) && Indexable(target, BySuffix(targetUuid))
              && Keys(source, BySuffix(sourceUuid)) <= Keys(target, BySuffix(targetUuid))
    ensures r.Success? ==> PairsUp(r.value, source, target, BySuffix(sourceUuid), BySuffix(targetUuid))
  {
    var s := Index(source, BySuffix(sourceUuid), Source);
    if s.Failure? { return Failure(s.error); }
    var t := Index(target, BySuffix(targetUuid), Target);
    if t.Failure? { return Failure(t.error); }
    IndexKeys(s.value, source, BySuffix(sourceUuid));
    IndexKeys(t.value, target, BySuffix(targetUuid));
    if !(s.value.Keys <= t.value.Keys) {
      var missing := s.value.Keys - t.value.Keys;
      return Failure(SourceLeftBehind(set k | k in missing :: s.value[k].name));
    }
    IndexesPairUp(s.value, t.value, source, target, BySuffix(sourceUuid), BySuffix(targetUuid));
    r := Success(Paired(s.value, t.value));
  }

  /** A volume Coolify named after the resource and a compose key. */
  predicate Suffixed(name: string, uuid: string, key: string) {
    key != "" && (name == uuid + "_" + key || name == uuid + "-" + key)
  }

  lemma {:induction false} SuffixMeans(e: Endpoint, uuid: string, key: string)
    ensures BySuffix(uuid)(e) == Some(key) <==> Suffixed(e.name, uuid, key)
  {
    if Suffixed(e.name, uuid, key) {
      assert e.name[|uuid| + 1..] == key;
    }
    if BySuffix(uuid)(e) == Some(key) {
      assert uuid + [e.name[|uuid|]] + key == if e.name[|uuid|] == '_' then uuid + "_" + key else uuid + "-" + key;
    }
  }

  /** Every volume of a side is named after a key, and no other volume after the same. */
  ghost predicate Keyed(endpoints: seq<Endpoint>, uuid: string) {
    && (forall e :: e in endpoints ==> exists key :: Suffixed(e.name, uuid, key))
    && (forall a, b, key :: a in endpoints && b in endpoints && Suffixed(a.name, uuid, key) && Suffixed(b.name, uuid, key) ==>
          a.name == b.name)
  }

  ghost predicate HasKey(endpoints: seq<Endpoint>, uuid: string, key: string) {
    exists e :: e in endpoints && Suffixed(e.name, uuid, key)
  }

  lemma {:induction false} IndexableIsKeyed(endpoints: seq<Endpoint>, uuid: string)
    ensures Indexable(endpoints, BySuffix(uuid)) <==> Keyed(endpoints, uuid)
  {
    var keyOf := BySuffix(uuid);
    forall e, key ensures keyOf(e) == Some(key) <==> Suffixed(e.name, uuid, key) { SuffixMeans(e, uuid, key); }
    if Keyed(endpoints, uuid) {
      forall i | 0 <= i < |endpoints| ensures keyOf(endpoints[i]).Some? {
        assert endpoints[i] in endpoints;
        var key :| Suffixed(endpoints[i].name, uuid, key);
        assert keyOf(endpoints[i]) == Some(key);
      }
      forall i, j | 0 <= i < |endpoints| && 0 <= j < |endpoints| && keyOf(endpoints[i]) == keyOf(endpoints[j])
        ensures endpoints[i].name == endpoints[j].name
      {
        var key := keyOf(endpoints[i]).value;
        assert Suffixed(endpoints[i].name, uuid, key) && Suffixed(endpoints[j].name, uuid, key);
      }
    }
    if Indexable(endpoints, keyOf) {
      KeyedIfIndexable(endpoints, uuid);
    }
  }

  lemma {:induction false} KeyedIfIndexable(endpoints: seq<Endpoint>, uuid: string)
    requires Indexable(endpoints, BySuffix(uuid))
    ensures Keyed(endpoints, uuid)
  {
    var keyOf := BySuffix(uuid);
    forall e | e in endpoints ensures exists key :: Suffixed(e.name, uuid, key) {
      var i :| 0 <= i < |endpoints| && endpoints[i] == e;
      SuffixMeans(e, uuid, keyOf(endpoints[i]).value);
    }
    forall a, b, key | a in endpoints && b in endpoints && Suffixed(a.name, uuid, key) && Suffixed(b.name, uuid, key)
      ensures a.name == b.name
    {
      var i :| 0 <= i < |endpoints| && endpoints[i] == a;
      var j :| 0 <= j < |endpoints| && endpoints[j] == b;
      SuffixMeans(a, uuid, key);
      SuffixMeans(b, uuid, key);
      assert keyOf(endpoints[i]) == keyOf(endpoints[j]);
    }
  }

  lemma {:induction false} KeysAreSuffixes(endpoints: seq<Endpoint>, uuid: string)
    ensures forall key :: key in Keys(endpoints, BySuffix(uuid)) <==> HasKey(endpoints, uuid, key)
  {
    var keyOf := BySuffix(uuid);
    forall key ensures key in Keys(endpoints, keyOf) <==> HasKey(endpoints, uuid, key) {
      if e :| e in endpoints && Suffixed(e.name, uuid, key) {
        SuffixMeans(e, uuid, key);
        var i :| 0 <= i < |endpoints| && endpoints[i] == e;
        assert keyOf(endpoints[i]) == Some(key);
      }
      if key in Keys(endpoints, keyOf) {
        var i :| 0 <= i < |endpoints| && keyOf(endpoints[i]) == Some(key);
        SuffixMeans(endpoints[i], uuid, key);
        assert endpoints[i] in endpoints;
      }
    }
  }

  /** What pairing by compose key comes to, in names: it succeeds exactly if every volume of either
      side is the only one named after its key, and each of the source's keys is on the target; and
      then the pair of a key is a volume named after it on either side. */
  lemma {:induction false} SuffixPairsMean(pairs: map<string, Pair>, source: seq<Endpoint>, target: seq<Endpoint>,
                                           sourceUuid: string, targetUuid: string)
    ensures && Indexable(source, BySuffix(sourceUuid)) && Indexable(target, BySuffix(targetUuid))
            && Keys(source, BySuffix(sourceUuid)) <= Keys(target, BySuffix(targetUuid))
            <==> && Keyed(source, sourceUuid) && Keyed(target, targetUuid)
                 && forall key :: HasKey(source, sourceUuid, key) ==> HasKey(target, targetUuid, key)
    ensures PairsUp(pairs, source, target, BySuffix(sourceUuid), BySuffix(targetUuid)) ==>
              && (forall key :: key in pairs <==> HasKey(source, sourceUuid, key))
              && (forall key :: key in pairs ==>
                    && pairs[key].source in source && Suffixed(pairs[key].source.name, sourceUuid, key)
                    && pairs[key].target in target && Suffixed(pairs[key].target.name, targetUuid, key))
  {
    IndexableIsKeyed(source, sourceUuid);
    IndexableIsKeyed(target, targetUuid);
    KeysAreSuffixes(source, sourceUuid);
    KeysAreSuffixes(target, targetUuid);
    if PairsUp(pairs, source, target, BySuffix(sourceUuid), BySuffix(targetUuid)) {
      forall key | key in pairs
        ensures Suffixed(pairs[key].source.name, sourceUuid, key) && Suffixed(pairs[key].target.name, targetUuid, key)
      {
        SuffixMeans(pairs[key].source, sourceUuid, key);
        SuffixMeans(pairs[key].target, targetUuid, key);
      }
    }
  }

  /** Paired by compose key, each source volume is in exactly one pair and no two of them go
      to one target volume. */
  lemma {:induction false} SuffixPairsAreOneToOne(pairs: map<string, Pair>, source: seq<Endpoint>, target: seq<Endpoint>,
                                                  sourceUuid: string, targetUuid: string)
    requires Indexable(source, BySuffix(sourceUuid))
    requires PairsUp(pairs, source, target, BySuffix(sourceUuid), BySuffix(targetUuid))
    ensures EachOnce(pairs, source) && NoneShared(pairs)
  {
    forall e | e in source ensures exists k :: k in pairs && pairs[k].source.name == e.name {
      var i :| 0 <= i < |source| && source[i] == e;
      var k := BySuffix(sourceUuid)(source[i]).value;
      assert k in Keys(source, BySuffix(sourceUuid));
      var j :| 0 <= j < |source| && source[j] == pairs[k].source;
      assert BySuffix(sourceUuid)(source[j]) == BySuffix(sourceUuid)(source[i]);
      assert pairs[k].source.name == e.name;
    }
  }

  // ── by mount path ──────────────────────────────────────────────────────────

  predicate AllNamed(endpoints: seq<Endpoint>) {
    forall i :: 0 <= i < |endpoints| ==> endpoints[i].container != ""
  }

  /** The container counts only when both sides name all of theirs. */
  function ByPath(withContainer: bool): Endpoint -> Option<(string, string)> {
    (e: Endpoint) => Some((if withContainer then e.container else "", e.mountPath))
  }

  method PairByMountPath(source: seq<Endpoint>, target: seq<Endpoint>)
    returns (r: Result<map<(string, string), Pair>, PairingError>)
    ensures var key := ByPath(AllNamed(source) && AllNamed(target));
            && (r.Success? <==> Indexable(source, key) && Indexable(target, key) && Keys(source, key) == Keys(target, key))
            && (r.Success? ==> PairsUp(r.value, source, target, key, key))
  {
    var key := ByPath(AllNamed(source) && AllNamed(target));
    var s := Index(source, key, Source);
    if s.Failure? { return Failure(s.error); }
    var t := Index(target, key, Target);
    if t.Failure? { return Failure(t.error); }
    IndexKeys(s.value, source, key);
    IndexKeys(t.value, target, key);
    if !(s.value.Keys <= t.value.Keys) {
      var missing := s.value.Keys - t.value.Keys;
      return Failure(SourceLeftBehind(set k | k in missing :: s.value[k].name));
    }
    if !(t.value.Keys <= s.value.Keys) {
      var missing := t.value.Keys - s.value.Keys;
      return Failure(TargetStartsEmpty(set k | k in missing :: t.value[k].name));
    }
    IndexesPairUp(s.value, t.value, source, target, key, key);
    r := Success(Paired(s.value, t.value));
  }

  /** Seen at one place: at one path, and in one container if all of them are known. */
  predicate AtOne(a: Endpoint, b: Endpoint, named: bool) {
    a.mountPath == b.mountPath && (named ==> a.container == b.container)
  }

  /** No two volumes of a side are seen at one place. */
  ghost predicate Apart(endpoints: seq<Endpoint>, named: bool) {
    forall a, b :: a in endpoints && b in endpoints && AtOne(a, b, named) ==> a.name == b.name
  }

  /** What is seen on the one side is seen on the other. */
  ghost predicate Matched(endpoints: seq<Endpoint>, others: seq<Endpoint>, named: bool) {
    forall a :: a in endpoints ==> exists b :: b in others && AtOne(a, b, named)
  }

  lemma {:induction false} PathMeans(a: Endpoint, b: Endpoint, named: bool)
    ensures ByPath(named)(a) == ByPath(named)(b) <==> AtOne(a, b, named)
    ensures ByPath(named)(a).Some?
  {
  }

  lemma {:induction false} IndexableIsApart(endpoints: seq<Endpoint>, named: bool)
    ensures Indexable(endpoints, ByPath(named)) <==> Apart(endpoints, named)
  {
    forall a, b ensures ByPath(named)(a) == ByPath(named)(b) <==> AtOne(a, b, named) { PathMeans(a, b, named); }
    if Apart(endpoints, named) {
      assert forall i :: 0 <= i < |endpoints| ==> endpoints[i] in endpoints;
    }
    if Indexable(endpoints, ByPath(named)) {
      forall a, b | a in endpoints && b in endpoints && AtOne(a, b, named) ensures a.name == b.name {
        var i :| 0 <= i < |endpoints| && endpoints[i] == a;
        var j :| 0 <= j < |endpoints| && endpoints[j] == b;
        assert ByPath(named)(endpoints[i]) == ByPath(named)(endpoints[j]);
      }
    }
  }

  lemma {:induction false} KeysAreMatched(endpoints: seq<Endpoint>, others: seq<Endpoint>, named: bool)
    ensures Keys(endpoints, ByPath(named)) <= Keys(others, ByPath(named)) <==> Matched(endpoints, others, named)
  {
    var keyOf := ByPath(named);
    if Matched(endpoints, others, named) {
      forall k | k in Keys(endpoints, keyOf) ensures k in Keys(others, keyOf) {
        var i :| 0 <= i < |endpoints| && keyOf(endpoints[i]) == Some(k);
        assert endpoints[i] in endpoints;
        var b :| b in others && AtOne(endpoints[i], b, named);
        var j :| 0 <= j < |others| && others[j] == b;
        assert keyOf(others[j]) == Some(k);
      }
    }
    if Keys(endpoints, keyOf) <= Keys(others, keyOf) {
      forall a | a in endpoints ensures exists b :: b in others && AtOne(a, b, named) {
        var i :| 0 <= i < |endpoints| && endpoints[i] == a;
        var k := keyOf(endpoints[i]).value;
        assert k in Keys(endpoints, keyOf);
        var j :| 0 <= j < |others| && keyOf(others[j]) == Some(k);
        assert others[j] in others && AtOne(a, others[j], named);
      }
    }
  }

  /** What pairing by path comes to, in places: it succeeds exactly if each side sees one volume at
      a place, and both see the same places. The container counts only if every endpoint names its
      own. */
  lemma {:induction false} PathPairingSucceeds(source: seq<Endpoint>, target: seq<Endpoint>)
    ensures var key := ByPath(AllNamed(source) && AllNamed(target));
            var named := (forall e :: e in source ==> e.container != "") && (forall e :: e in target ==> e.container != "");
            Indexable(source, key) && Indexable(target, key) && Keys(source, key) == Keys(target, key)
            <==> Apart(source, named) && Apart(target, named) && Matched(source, target, named) && Matched(target, source, named)
  {
    NamedMeans(source);
    NamedMeans(target);
    PlacesMatch(source, target, AllNamed(source) && AllNamed(target));
  }

  lemma {:induction false} PlacesMatch(source: seq<Endpoint>, target: seq<Endpoint>, named: bool)
    ensures Indexable(source, ByPath(named)) && Indexable(target, ByPath(named)) && Keys(source, ByPath(named)) == Keys(target, ByPath(named))
            <==> Apart(source, named) && Apart(target, named) && Matched(source, target, named) && Matched(target, source, named)
  {
    IndexableIsApart(source, named);
    IndexableIsApart(target, named);
    KeysAreMatched(source, target, named);
    KeysAreMatched(target, source, named);
  }

  /** And then a pair is of one place, and every volume of the source is in one. */
  lemma {:induction false} PathPairsMean(pairs: map<(string, string), Pair>, source: seq<Endpoint>, target: seq<Endpoint>, named: bool)
    requires PairsUp(pairs, source, target, ByPath(named), ByPath(named))
    ensures forall k :: k in pairs ==>
              pairs[k].source in source && pairs[k].target in target && AtOne(pairs[k].source, pairs[k].target, named)
    ensures forall e :: e in source ==> exists k :: k in pairs && AtOne(pairs[k].source, e, named)
  {
    forall k | k in pairs ensures AtOne(pairs[k].source, pairs[k].target, named) {
      PathMeans(pairs[k].source, pairs[k].target, named);
    }
    forall e | e in source ensures exists k :: k in pairs && AtOne(pairs[k].source, e, named) {
      var i :| 0 <= i < |source| && source[i] == e;
      var k := ByPath(named)(source[i]).value;
      assert k in Keys(source, ByPath(named));
      PathMeans(pairs[k].source, e, named);
    }
  }

  lemma {:induction false} NamedMeans(endpoints: seq<Endpoint>)
    ensures AllNamed(endpoints) <==> forall e :: e in endpoints ==> e.container != ""
  {
    if forall e :: e in endpoints ==> e.container != "" {
      assert forall i :: 0 <= i < |endpoints| ==> endpoints[i] in endpoints;
    }
  }

  /** Paired by path, two source volumes share a target volume exactly when some target
      volume is mounted at two of the paths. */
  lemma {:induction false} PathPairsShareTargets(pairs: map<(string, string), Pair>, source: seq<Endpoint>, target: seq<Endpoint>,
                                                 withContainer: bool)
    requires Indexable(target, ByPath(withContainer)) && Keys(source, ByPath(withContainer)) == Keys(target, ByPath(withContainer))
    requires PairsUp(pairs, source, target, ByPath(withContainer), ByPath(withContainer))
    ensures NoneShared(pairs) <==>
            forall i, j :: 0 <= i < |target| && 0 <= j < |target| && target[i].name == target[j].name ==>
              ByPath(withContainer)(target[i]) == ByPath(withContainer)(target[j])
  {
    var key := ByPath(withContainer);
    forall i | 0 <= i < |target|
      ensures key(target[i]).value in pairs && pairs[key(target[i]).value].target.name == target[i].name
    {
      assert key(target[i]).value in Keys(target, key);
    }
    if NoneShared(pairs) {
    } else {
      var j, k :| j in pairs && k in pairs && pairs[j].target.name == pairs[k].target.name && j != k;
      var x :| 0 <= x < |target| && target[x] == pairs[j].target;
      var y :| 0 <= y < |target| && target[y] == pairs[k].target;
      assert key(target[x]) == Some(j) && key(target[y]) == Some(k);
    }
  }
}
