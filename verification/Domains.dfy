/** A resource's hosts: which stay with the server, which move with the resource. */
module Domains {
  import opened Wrappers
  import opened HostNames

  // ── server wildcards ───────────────────────────────────────────────────────

  predicate EndsWith(s: string, suffix: string) {
    |suffix| <= |s| && s[|s| - |suffix|..] == suffix
  }

  /** Equal to the base, or ending in a dot and the base. */
  predicate UnderWildcard(host: string, base: Option<string>) {
    base.Some? && (host == base.value || EndsWith(host, "." + base.value))
  }

  /** A server-bound host, moved onto the other server's wildcard. */
  function RemapHost(host: string, source: Option<string>, target: Option<string>): Option<string> {
    if source.None? || target.None? then None
    else if host == source.value then target
    else if EndsWith(host, "." + source.value) then Some(host[..|host| - |source.value|] + target.value)
    else None
  }

  /** Remapping is a bijection between the hosts under the two bases: it is defined exactly
      on the one side, lands on the other, and remapping back undoes it. */
  lemma {:induction false} RemapIsABijection(host: string, source: string, target: string)
    ensures RemapHost(host, Some(source), Some(target)).Some? <==> UnderWildcard(host, Some(source))
    ensures UnderWildcard(host, Some(source)) ==>
              var moved := RemapHost(host, Some(source), Some(target)).value;
              UnderWildcard(moved, Some(target)) && RemapHost(moved, Some(target), Some(source)) == Some(host)
  {
    if host != source && EndsWith(host, "." + source) {
      var sub := host[..|host| - |source|];
      var moved := sub + target;
      assert sub == host[..|host| - |source| - 1] + ".";
      assert host == sub + source;
      assert moved[|moved| - |target| - 1..] == "." + target;
      assert moved != target;
      assert moved[..|moved| - |target|] == sub;
    }
  }

  /** The base goes to the base, what stands before a dot and the base stays before it, and nothing
      else moves. */
  lemma {:induction false} RemapMeans(host: string, source: string, target: string)
    ensures RemapHost(source, Some(source), Some(target)) == Some(target)
    ensures forall sub :: host == sub + "." + source ==> RemapHost(host, Some(source), Some(target)) == Some(sub + "." + target)
    ensures host != source && (forall sub :: host != sub + "." + source) ==> RemapHost(host, Some(source), Some(target)) == None
    ensures RemapHost(host, None, Some(target)) == RemapHost(host, Some(source), None) == None
    ensures UnderWildcard(host, Some(source)) <==> host == source || exists sub :: host == sub + "." + source
    ensures !UnderWildcard(host, None)
  {
    var dotted := "." + source;
    if EndsWith(host, dotted) {
      var sub := host[..|host| - |dotted|];
      assert host == sub + dotted == sub + "." + source;
    }
    forall sub | host == sub + "." + source
      ensures EndsWith(host, dotted) && RemapHost(host, Some(source), Some(target)) == Some(sub + "." + target)
    {
      assert host[|host| - |dotted|..] == dotted;
      assert host[..|host| - |source|] == sub + ".";
    }
  }

  /** So no two hosts of the source end up as one on the target. */
  lemma {:induction false} RemapIsInjective(a: string, b: string, source: string, target: string)
    requires UnderWildcard(a, Some(source)) && UnderWildcard(b, Some(source))
    requires RemapHost(a, Some(source), Some(target)) == RemapHost(b, Some(source), Some(target))
    ensures a == b
  {
    RemapIsABijection(a, source, target);
    RemapIsABijection(b, source, target);
  }

  // ── domain lists ───────────────────────────────────────────────────────────

  /** How URLs and hosts are read: the host of a URL, whether Coolify made it up, and a URL
      with another host. */
  datatype Urls = Urls(hostOf: string -> Option<string>, generated: string -> bool, withHost: (string, string) -> string)

  /** Each part of the list that is rewritten is read back with the host it was given. */
  ghost predicate ReadsBack(u: Urls, parts: seq<string>, source: Option<string>, target: Option<string>) {
    forall p :: p in parts ==> PartReadsBack(u, p, source, target)
  }

  predicate PartReadsBack(u: Urls, part: string, source: Option<string>, target: Option<string>) {
    var host := u.hostOf(part);
    host.Some? && RemapHost(host.value, source, target).Some? ==>
      var moved := RemapHost(host.value, source, target).value;
      u.hostOf(u.withHost(part, moved)) == Some(moved)
  }

  predicate IsCustom(u: Urls, host: string, source: Option<string>) {
    !u.generated(host) && !UnderWildcard(host, source)
  }

  predicate HoldsCustom(u: Urls, part: string, source: Option<string>) {
    u.hostOf(part).Some? && IsCustom(u, u.hostOf(part).value, source)
  }

  predicate HoldsGenerated(u: Urls, part: string) {
    u.hostOf(part).Some? && u.generated(u.hostOf(part).value)
  }

  /** The hosts a domain list names. */
  function Hosts(u: Urls, parts: seq<string>): set<string> {
    set i | 0 <= i < |parts| && u.hostOf(parts[i]).Some? :: u.hostOf(parts[i]).value
  }

  function CustomHosts(u: Urls, parts: seq<string>, source: Option<string>): set<string> {
    set h | h in Hosts(u, parts) && IsCustom(u, h, source)
  }

  function Filter(parts: seq<string>, keep: string -> bool): seq<string> {
    if parts == [] then []
    else Filter(parts[..|parts| - 1], keep) + if keep(parts[|parts| - 1]) then [parts[|parts| - 1]] else []
  }

  function WithoutCustom(u: Urls, parts: seq<string>, source: Option<string>): seq<string> {
    Filter(parts, p => !HoldsCustom(u, p, source))
  }

  function WithoutGenerated(u: Urls, parts: seq<string>): seq<string> {
    Filter(parts, p => !HoldsGenerated(u, p))
  }

  lemma {:induction false} FilterIn(parts: seq<string>, keep: string -> bool, part: string)
    ensures part in Filter(parts, keep) <==> part in parts && keep(part)
    decreases |parts|
  {
    if parts != [] {
      FilterIn(parts[..|parts| - 1], keep, part);
      assert parts == parts[..|parts| - 1] + [parts[|parts| - 1]];
    }
  }

  lemma {:induction false} HostIn(u: Urls, parts: seq<string>, host: string)
    ensures host in Hosts(u, parts) <==> exists p :: p in parts && u.hostOf(p) == Some(host)
  {
    if p :| p in parts && u.hostOf(p) == Some(host) {
      var i :| 0 <= i < |parts| && parts[i] == p;
      assert u.hostOf(parts[i]).value == host;
    }
  }

  /** What FINALIZE leaves the source with: every host it had but the custom ones. */
  lemma {:induction false} ReleaseKeepsTheRest(u: Urls, parts: seq<string>, source: Option<string>)
    ensures Hosts(u, WithoutCustom(u, parts, source)) == Hosts(u, parts) - CustomHosts(u, parts, source)
    ensures forall h :: h in Hosts(u, WithoutCustom(u, parts, source)) <==>
                          h in Hosts(u, parts) && (u.generated(h) || UnderWildcard(h, source))
  {
    var left := WithoutCustom(u, parts, source);
    var keep := (p: string) => !HoldsCustom(u, p, source);
    forall h ensures h in Hosts(u, left) <==> h in Hosts(u, parts) && !IsCustom(u, h, source) {
      HostIn(u, left, h);
      HostIn(u, parts, h);
      if h in Hosts(u, left) {
        var p :| p in left && u.hostOf(p) == Some(h);
        FilterIn(parts, keep, p);
      }
      if h in Hosts(u, parts) && !IsCustom(u, h, source) {
        var p :| p in parts && u.hostOf(p) == Some(h);
        FilterIn(parts, keep, p);
      }
    }
  }

  // ── the target's domains ───────────────────────────────────────────────────

  /** Where one part goes: server-bound onto the target's wildcard or nowhere, others as they are. */
  function RemapPart(u: Urls, part: string, source: Option<string>, target: Option<string>): Option<string> {
    var host := u.hostOf(part);
    if host.None? then None
    else if UnderWildcard(host.value, source) then
      var moved := RemapHost(host.value, source, target);
      if moved.None? then None else Some(u.withHost(part, moved.value))
    else Some(part)
  }

  function RemapParts(u: Urls, parts: seq<string>, source: Option<string>, target: Option<string>): seq<string> {
    if parts == [] then []
    else
      var before, part := RemapParts(u, parts[..|parts| - 1], source, target), RemapPart(u, parts[|parts| - 1], source, target);
      if part.None? || part.value in before then before else before + [part.value]
  }

  method RemapDomains(u: Urls, parts: seq<string>, source: Option<string>, target: Option<string>) returns (urls: seq<string>)
    ensures urls == RemapParts(u, parts, source, target)
    ensures forall i, j :: 0 <= i < j < |urls| ==> urls[i] != urls[j] && ComesFirst(u, parts, source, target, urls[i], urls[j])
  {
    NothingRepeats(u, parts, source, target);
    OrderIsKept(u, parts, source, target);
    urls := [];
    for i := 0 to |parts|
      invariant urls == RemapParts(u, parts[..i], source, target)
    {
      assert parts[..i + 1][..i] == parts[..i];
      var host := u.hostOf(parts[i]);
      if host.None? {
        continue;
      }
      var url := parts[i];
      if UnderWildcard(host.value, source) {
        var moved := RemapHost(host.value, source, target);
        if moved.None? {
          continue;
        }
        url := u.withHost(parts[i], moved.value);
      }
      if url !in urls {
        urls := urls + [url];
      }
    }
    assert parts[..|parts|] == parts;
  }

  lemma {:induction false} RemappedFrom(u: Urls, parts: seq<string>, source: Option<string>, target: Option<string>, url: string)
    ensures url in RemapParts(u, parts, source, target) <==>
            exists p :: p in parts && RemapPart(u, p, source, target) == Some(url)
    decreases |parts|
  {
    if parts != [] {
      var front, last := parts[..|parts| - 1], parts[|parts| - 1];
      assert parts == front + [last];
      RemappedFrom(u, front, source, target, url);
      if url in RemapParts(u, front, source, target) {
        var p :| p in front && RemapPart(u, p, source, target) == Some(url);
        assert p in parts;
      }
    }
  }

  predicate NoRepeats(urls: seq<string>) {
    forall i, j :: 0 <= i < j < |urls| ==> urls[i] != urls[j]
  }

  lemma {:induction false} NothingRepeats(u: Urls, parts: seq<string>, source: Option<string>, target: Option<string>)
    ensures NoRepeats(RemapParts(u, parts, source, target))
  {
    if parts != [] {
      NothingRepeats(u, parts[..|parts| - 1], source, target);
    }
  }

  /** Some part becomes the one URL, and no part up to it the other. */
  ghost predicate ComesFirst(u: Urls, parts: seq<string>, source: Option<string>, target: Option<string>, one: string, other: string) {
    exists a :: 0 <= a < |parts| && RemapPart(u, parts[a], source, target) == Some(one)
                && forall b :: 0 <= b <= a ==> RemapPart(u, parts[b], source, target) != Some(other)
  }

  lemma {:induction false} OrderIsKept(u: Urls, parts: seq<string>, source: Option<string>, target: Option<string>)
    ensures var urls := RemapParts(u, parts, source, target);
            forall i, j :: 0 <= i < j < |urls| ==> ComesFirst(u, parts, source, target, urls[i], urls[j])
  {
    if parts != [] {
      var front := parts[..|parts| - 1];
      var before, urls := RemapParts(u, front, source, target), RemapParts(u, parts, source, target);
      OrderIsKept(u, front, source, target);
      forall i, j | 0 <= i < j < |urls| ensures ComesFirst(u, parts, source, target, urls[i], urls[j]) {
        if j == |before| {
          NewComesLast(u, front, source, target, urls[i], urls[j]);
        } else {
          assert ComesFirst(u, front, source, target, before[i], before[j]) && urls[i] == before[i] && urls[j] == before[j];
        }
        FirstOfMore(u, front, parts, source, target, urls[i], urls[j]);
      }
    }
  }

  lemma {:induction false} NewComesLast(u: Urls, parts: seq<string>, source: Option<string>, target: Option<string>, one: string, other: string)
    requires one in RemapParts(u, parts, source, target) && other !in RemapParts(u, parts, source, target)
    ensures ComesFirst(u, parts, source, target, one, other)
  {
    RemappedFrom(u, parts, source, target, one);
    RemappedFrom(u, parts, source, target, other);
    var p :| p in parts && RemapPart(u, p, source, target) == Some(one);
    var a :| 0 <= a < |parts| && parts[a] == p;
    assert RemapPart(u, parts[a], source, target) == Some(one);
  }

  lemma {:induction false} FirstOfMore(u: Urls, front: seq<string>, parts: seq<string>, source: Option<string>, target: Option<string>,
                                       one: string, other: string)
    requires ComesFirst(u, front, source, target, one, other) && front <= parts
    ensures ComesFirst(u, parts, source, target, one, other)
  {
    var a :| 0 <= a < |front| && RemapPart(u, front[a], source, target) == Some(one)
             && forall b :: 0 <= b <= a ==> RemapPart(u, front[b], source, target) != Some(other);
    assert forall b :: 0 <= b <= a ==> parts[b] == front[b];
  }

  /** What CREATE sends, and what the claim sends once the target's gates passed. */
  function CreateValue(u: Urls, parts: seq<string>, source: Option<string>, target: Option<string>): seq<string> {
    RemapParts(u, WithoutCustom(u, WithoutGenerated(u, parts), source), source, target)
  }

  function ClaimValue(u: Urls, parts: seq<string>, source: Option<string>, target: Option<string>): seq<string> {
    RemapParts(u, WithoutGenerated(u, parts), source, target)
  }

  /** The claim carries every custom host, in its own words. */
  lemma {:induction false} ClaimCarriesCustom(u: Urls, parts: seq<string>, source: Option<string>, target: Option<string>, part: string)
    requires part in parts && HoldsCustom(u, part, source)
    ensures part in ClaimValue(u, parts, source, target)
  {
    FilterIn(parts, p => !HoldsGenerated(u, p), part);
    RemappedFrom(u, WithoutGenerated(u, parts), source, target, part);
    assert RemapPart(u, part, source, target) == Some(part);
  }

  /** What is read of a part once it is remapped; nothing if it was dropped. */
  function ReadAfter(u: Urls, part: string, source: Option<string>, target: Option<string>): Option<string> {
    var after := RemapPart(u, part, source, target);
    if after.None? then None else u.hostOf(after.value)
  }

  /** A remapped list names exactly what is read of its parts. */
  lemma {:induction false} RemappedHosts(u: Urls, parts: seq<string>, source: Option<string>, target: Option<string>, host: string)
    ensures host in Hosts(u, RemapParts(u, parts, source, target)) <==>
            exists p :: p in parts && ReadAfter(u, p, source, target) == Some(host)
  {
    var urls := RemapParts(u, parts, source, target);
    HostIn(u, urls, host);
    if host in Hosts(u, urls) {
      var url :| url in urls && u.hostOf(url) == Some(host);
      RemappedFrom(u, parts, source, target, url);
      var p :| p in parts && RemapPart(u, p, source, target) == Some(url);
      assert ReadAfter(u, p, source, target) == Some(host);
    }
    if p :| p in parts && ReadAfter(u, p, source, target) == Some(host) {
      RemappedFrom(u, parts, source, target, RemapPart(u, p, source, target).value);
    }
  }

  /** A host that leads to the source server and not to the target. */
  predicate PointsBack(host: string, source: Option<string>, target: Option<string>) {
    UnderWildcard(host, source) && !UnderWildcard(host, target)
  }

  /** Nothing the target is given still points at the source server: a host under the source's
      wildcard is there only if the target's wildcard covers it too. */
  lemma {:induction false} NothingPointsBack(u: Urls, parts: seq<string>, source: Option<string>, target: Option<string>, host: string)
    requires ReadsBack(u, parts, source, target) && host in Hosts(u, RemapParts(u, parts, source, target))
    ensures UnderWildcard(host, source) ==> UnderWildcard(host, target)
  {
    var p := RemappedHost(u, parts, source, target, host);
    if UnderWildcard(u.hostOf(p).value, source) {
      RemapIsABijection(u.hostOf(p).value, source.value, target.value);
    }
  }

  /** A part that is rewritten names the remapped host afterwards. */
  lemma {:induction false} MovedPart(u: Urls, part: string, source: Option<string>, target: Option<string>)
    requires PartReadsBack(u, part, source, target) && RemapPart(u, part, source, target).Some?
    ensures var host := u.hostOf(part).value;
            var after := u.hostOf(RemapPart(u, part, source, target).value);
            after == if UnderWildcard(host, source) then RemapHost(host, source, target) else Some(host)
    ensures UnderWildcard(u.hostOf(part).value, source) ==>
              UnderWildcard(u.hostOf(RemapPart(u, part, source, target).value).value, target)
  {
    var host := u.hostOf(part).value;
    if UnderWildcard(host, source) {
      RemapIsABijection(host, source.value, target.value);
    }
  }

  /** A host of the source that is rewritten onto the target's wildcard. */
  ghost predicate Rewritten(u: Urls, parts: seq<string>, source: Option<string>, target: Option<string>, host: string) {
    exists h :: h in Hosts(u, parts) && !u.generated(h) && UnderWildcard(h, source) && RemapHost(h, source, target) == Some(host)
  }

  /** Where a host of a remapped list comes from. */
  lemma {:induction false} RemappedHost(u: Urls, parts: seq<string>, source: Option<string>, target: Option<string>, host: string)
    returns (p: string)
    requires ReadsBack(u, parts, source, target) && host in Hosts(u, RemapParts(u, parts, source, target))
    ensures p in parts && u.hostOf(p).Some?
    ensures var h := u.hostOf(p).value;
            Some(host) == if UnderWildcard(h, source) then RemapHost(h, source, target) else Some(h)
  {
    var urls := RemapParts(u, parts, source, target);
    HostIn(u, urls, host);
    var url :| url in urls && u.hostOf(url) == Some(host);
    RemappedFrom(u, parts, source, target, url);
    p :| p in parts && RemapPart(u, p, source, target) == Some(url);
    MovedPart(u, p, source, target);
  }

  /** A part with a server-bound host that was not generated. */
  predicate Bound(u: Urls, part: string, source: Option<string>) {
    u.hostOf(part).Some? && !u.generated(u.hostOf(part).value) && UnderWildcard(u.hostOf(part).value, source)
  }

  ghost predicate ReadOfBound(u: Urls, parts: seq<string>, source: Option<string>, target: Option<string>, host: string) {
    exists p :: p in parts && Bound(u, p, source) && ReadAfter(u, p, source, target) == Some(host)
  }

  /** For every list: the target is created with exactly what is read of the rewritten parts ... */
  lemma {:induction false} CreateHostsRead(u: Urls, parts: seq<string>, source: Option<string>, target: Option<string>, host: string)
    ensures host in Hosts(u, CreateValue(u, parts, source, target)) <==> ReadOfBound(u, parts, source, target, host)
  {
    var carried := WithoutGenerated(u, parts);
    var bound := WithoutCustom(u, carried, source);
    RemappedHosts(u, bound, source, target, host);
    forall p ensures p in bound && u.hostOf(p).Some? <==> p in parts && Bound(u, p, source) {
      FilterIn(carried, q => !HoldsCustom(u, q, source), p);
      FilterIn(parts, q => !HoldsGenerated(u, q), p);
    }
    if host in Hosts(u, CreateValue(u, parts, source, target)) {
      var p :| p in bound && ReadAfter(u, p, source, target) == Some(host);
      assert p in parts && Bound(u, p, source);
    }
    if ReadOfBound(u, parts, source, target, host) {
      var p :| p in parts && Bound(u, p, source) && ReadAfter(u, p, source, target) == Some(host);
      assert p in bound;
    }
  }

  /** ... and claims those, and the custom hosts the source still holds. */
  lemma {:induction false} ClaimHostsRead(u: Urls, parts: seq<string>, source: Option<string>, target: Option<string>, host: string)
    ensures host in Hosts(u, ClaimValue(u, parts, source, target)) <==>
            host in CustomHosts(u, parts, source) || ReadOfBound(u, parts, source, target, host)
  {
    var carried := WithoutGenerated(u, parts);
    RemappedHosts(u, carried, source, target, host);
    HostIn(u, parts, host);
    if host in Hosts(u, ClaimValue(u, parts, source, target)) {
      var p :| p in carried && ReadAfter(u, p, source, target) == Some(host);
      FilterIn(parts, q => !HoldsGenerated(u, q), p);
      assert Bound(u, p, source) || u.hostOf(p) == Some(host);
    }
    if host in CustomHosts(u, parts, source) {
      var p :| p in parts && u.hostOf(p) == Some(host);
      FilterIn(parts, q => !HoldsGenerated(u, q), p);
      assert ReadAfter(u, p, source, target) == Some(host);
    }
    if ReadOfBound(u, parts, source, target, host) {
      var p :| p in parts && Bound(u, p, source) && ReadAfter(u, p, source, target) == Some(host);
      FilterIn(parts, q => !HoldsGenerated(u, q), p);
    }
  }

  /** Where each part reads back, what is read of the rewritten ones is what they were rewritten to. */
  lemma {:induction false} BoundReadsBack(u: Urls, parts: seq<string>, source: Option<string>, target: Option<string>, host: string)
    requires ReadsBack(u, parts, source, target)
    ensures ReadOfBound(u, parts, source, target, host) <==> Rewritten(u, parts, source, target, host)
  {
    if ReadOfBound(u, parts, source, target, host) {
      var p :| p in parts && Bound(u, p, source) && ReadAfter(u, p, source, target) == Some(host);
      HostIn(u, parts, u.hostOf(p).value);
      MovedPart(u, p, source, target);
    }
    if Rewritten(u, parts, source, target, host) {
      var h :| h in Hosts(u, parts) && !u.generated(h) && UnderWildcard(h, source) && RemapHost(h, source, target) == Some(host);
      HostIn(u, parts, h);
      var p :| p in parts && u.hostOf(p) == Some(h);
      MovedPart(u, p, source, target);
      assert Bound(u, p, source) && ReadAfter(u, p, source, target) == Some(host);
    }
  }

  /** The target is created with exactly the remaps of the source's server-bound hosts. */
  lemma {:induction false} CreateHosts(u: Urls, parts: seq<string>, source: Option<string>, target: Option<string>, host: string)
    requires ReadsBack(u, parts, source, target)
    ensures host in Hosts(u, CreateValue(u, parts, source, target)) <==> Rewritten(u, parts, source, target, host)
  {
    CreateHostsRead(u, parts, source, target, host);
    BoundReadsBack(u, parts, source, target, host);
  }

  /** It claims those, and exactly the custom hosts the source still holds. */
  lemma {:induction false} ClaimHosts(u: Urls, parts: seq<string>, source: Option<string>, target: Option<string>, host: string)
    requires ReadsBack(u, parts, source, target)
    ensures host in Hosts(u, ClaimValue(u, parts, source, target)) <==>
            host in CustomHosts(u, parts, source) || Rewritten(u, parts, source, target, host)
  {
    ClaimHostsRead(u, parts, source, target, host);
    BoundReadsBack(u, parts, source, target, host);
  }

  /** One part alone: exactly its remap, if and only if it reads back. */
  lemma {:induction false} CreatesRemapExactly(u: Urls, part: string, source: Option<string>, target: Option<string>)
    requires Bound(u, part, source) && target.Some?
    ensures (forall host :: host in Hosts(u, CreateValue(u, [part], source, target)) <==> Rewritten(u, [part], source, target, host))
            <==> PartReadsBack(u, part, source, target)
  {
    var h := u.hostOf(part).value;
    RemapIsABijection(h, source.value, target.value);
    var moved := RemapHost(h, source, target).value;
    HostIn(u, [part], h);
    assert part in [part];
    assert Rewritten(u, [part], source, target, moved);
    CreateHostsRead(u, [part], source, target, moved);
    if PartReadsBack(u, part, source, target) {
      forall host ensures host in Hosts(u, CreateValue(u, [part], source, target)) <==> Rewritten(u, [part], source, target, host) {
        CreateHosts(u, [part], source, target, host);
      }
    }
  }

  // ── the tool's own reader ──────────────────────────────────────────────────

  /** Hosts read and written as the tool does it, over any way of splitting a URL. */
  function ToolUrls(split: string -> Parts, generated: string -> bool): Urls {
    Urls(NormaliseHost, generated, (url, host) => WithHost(split(url), host))
  }

  predicate IsBase(base: Option<string>) {
    base.Some? ==> IsHost(base.value)
  }

  lemma {:induction false} RemapIsHost(host: string, source: string, target: string)
    requires HostShape(host) && '.' in host && IsHost(source) && IsHost(target)
    requires RemapHost(host, Some(source), Some(target)).Some?
    ensures IsHost(RemapHost(host, Some(source), Some(target)).value)
  {
    if host != source {
      var sub := host[..|host| - |source|];
      var moved := sub + target;
      assert host[|host| - 1] == source[|source| - 1];
      assert host[|host| - |source| - 1] == ("." + source)[0];
      assert sub[0] == host[0] && moved[|moved| - 1] == target[|target| - 1];
      forall i | 0 <= i < |moved| ensures HostChar(moved[i]) {
        if i < |sub| { assert moved[i] == host[i]; } else { assert moved[i] == target[i - |sub|]; }
      }
      assert moved[|sub| - 1] == '.';
    }
  }

  predicate SplitForm(p: Parts) {
    p.scheme == "" || SchemeForm(p.scheme)
  }

  /** A part that is rewritten: its host is under the one base, and there is another. */
  predicate Rewrites(part: string, source: Option<string>, target: Option<string>) {
    NormaliseHost(part).Some? && RemapHost(NormaliseHost(part).value, source, target).Some?
  }

  function MovedTo(part: string, source: Option<string>, target: Option<string>): string
    requires Rewrites(part, source, target)
  {
    RemapHost(NormaliseHost(part).value, source, target).value
  }

  lemma {:induction false} MovedIsHost(part: string, source: Option<string>, target: Option<string>)
    requires IsBase(source) && IsBase(target) && Rewrites(part, source, target)
    ensures IsHost(MovedTo(part, source, target)) && UnderWildcard(NormaliseHost(part).value, source)
    ensures UnderWildcard(MovedTo(part, source, target), target)
  {
    NormalisedIsHost(part);
    RemapIsHost(NormaliseHost(part).value, source.value, target.value);
    RemapIsABijection(NormaliseHost(part).value, source.value, target.value);
  }

  /** What the tool's reader finds in a part it has rewritten: the new host and what runs on. */
  lemma {:induction false} ToolReadsAfter(split: string -> Parts, generated: string -> bool, part: string,
                                          source: Option<string>, target: Option<string>)
    requires IsBase(source) && IsBase(target) && Rewrites(part, source, target) && SplitForm(split(part))
    ensures var u, read := ToolUrls(split, generated), MovedTo(part, source, target) + Overrun(split(part));
            && ReadAfter(u, part, source, target) == (if HostShape(read) then Some(read) else None)
            && (PartReadsBack(u, part, source, target) <==> Overrun(split(part)) == "")
  {
    MovedIsHost(part, source, target);
    WithHostReads(split(part), MovedTo(part, source, target));
    ReadsBackExactly(split(part), MovedTo(part, source, target));
  }

  lemma {:induction false} SchemesAreWritten(split: string -> Parts, parts: seq<string>)
    requires forall p :: p in parts && split(p).scheme != "" ==> WrittenScheme(split(p).scheme + "://")
    ensures forall p :: p in parts ==> SplitForm(split(p))
  {
    forall p | p in parts ensures SplitForm(split(p)) {
      if split(p).scheme != "" { SchemeIsWritten(split(p).scheme); }
    }
  }

  /** Between two bases that are hosts, the tool's own reader reads a list back exactly when
      nothing runs on from the host in any part it rewrites; nothing does in one whose split
      found its authority. */
  lemma {:induction false} ToolReadsBack(split: string -> Parts, generated: string -> bool, parts: seq<string>,
                                         source: Option<string>, target: Option<string>)
    requires (source.Some? ==> IsHost(source.value)) && (target.Some? ==> IsHost(target.value))
    requires forall p :: p in parts && split(p).scheme != "" ==> WrittenScheme(split(p).scheme + "://")
    ensures ReadsBack(ToolUrls(split, generated), parts, source, target) <==>
            forall p :: p in parts && Rewrites(p, source, target) ==> Overrun(split(p)) == ""
    ensures (forall p :: p in parts ==> WellSplit(split(p))) ==> ReadsBack(ToolUrls(split, generated), parts, source, target)
  {
    SchemesAreWritten(split, parts);
    var u := ToolUrls(split, generated);
    forall p | p in parts ensures Rewrites(p, source, target) ==> (PartReadsBack(u, p, source, target) <==> Overrun(split(p)) == "") {
      if Rewrites(p, source, target) {
        ToolReadsAfter(split, generated, p, source, target);
      }
    }
    forall p | p in parts && WellSplit(split(p)) ensures Overrun(split(p)) == "" {
      WellSplitEnds(split(p));
    }
  }

  /** A part that is rewritten to a host which leads back: something runs on from the new host,
      and the two are one that does. */
  predicate TurnsBack(split: string -> Parts, part: string, source: Option<string>, target: Option<string>) {
    && Rewrites(part, source, target) && Overrun(split(part)) != ""
    && var read := MovedTo(part, source, target) + Overrun(split(part));
       HostShape(read) && PointsBack(read, source, target)
  }

  /** For every list, what the target is given points back exactly if one of its parts turns back. */
  lemma {:induction false} ToolPointsBack(split: string -> Parts, generated: string -> bool, parts: seq<string>,
                                          source: Option<string>, target: Option<string>)
    requires (source.Some? ==> IsHost(source.value)) && (target.Some? ==> IsHost(target.value))
    requires forall p :: p in parts && split(p).scheme != "" ==> WrittenScheme(split(p).scheme + "://")
    ensures (exists h :: h in Hosts(ToolUrls(split, generated), RemapParts(ToolUrls(split, generated), parts, source, target))
                         && PointsBack(h, source, target))
            <==> exists p :: p in parts && TurnsBack(split, p, source, target)
  {
    SchemesAreWritten(split, parts);
    var u := ToolUrls(split, generated);
    if h :| h in Hosts(u, RemapParts(u, parts, source, target)) && PointsBack(h, source, target) {
      RemappedHosts(u, parts, source, target, h);
      var p :| p in parts && ReadAfter(u, p, source, target) == Some(h);
      OnlyRewrittenTurns(split, generated, p, source, target, h);
    }
    if p :| p in parts && TurnsBack(split, p, source, target) {
      ToolReadsAfter(split, generated, p, source, target);
      var read := MovedTo(p, source, target) + Overrun(split(p));
      RemappedHosts(u, parts, source, target, read);
    }
  }

  lemma {:induction false} OnlyRewrittenTurns(split: string -> Parts, generated: string -> bool, part: string,
                                              source: Option<string>, target: Option<string>, host: string)
    requires IsBase(source) && IsBase(target) && SplitForm(split(part)) && PointsBack(host, source, target)
    requires ReadAfter(ToolUrls(split, generated), part, source, target) == Some(host)
    ensures TurnsBack(split, part, source, target)
  {
    assert UnderWildcard(NormaliseHost(part).value, source);
    ToolReadsAfter(split, generated, part, source, target);
    MovedIsHost(part, source, target);
    var moved := MovedTo(part, source, target);
    assert moved + "" == moved;
  }

  // ── the two ways a split finds no authority ────────────────────────────────

  lemma {:induction false} LabelsConcat(a: string, b: string)
    requires IsHost(a) && b != "" && Alphanumeric(b[|b| - 1]) && forall i :: 0 <= i < |b| ==> HostChar(b[i])
    ensures IsHost(a + b)
  {
    var s := a + b;
    assert s[0] == a[0] && s[|s| - 1] == b[|b| - 1];
    forall i | 0 <= i < |s| ensures HostChar(s[i]) {
      if i < |a| { assert s[i] == a[i]; } else { assert s[i] == b[i - |a|]; }
    }
    var k :| 0 <= k < |a| && a[k] == '.';
    assert s[k] == '.';
  }

  /** A server-bound address with no scheme and a `://` further on is split into a path alone. It
      never reads back: the old host stays behind the new one, and together they lead back unless
      the old one is the bare base or the target's base ends them. */
  lemma {:induction false} PathOnlyPointsBack(split: string -> Parts, generated: string -> bool, part: string,
                                              host: string, port: string, path: string, source: string, target: string)
    requires IsHost(host) && IsHost(source) && IsHost(target) && UnderWildcard(host, Some(source))
    requires port == "" || (port[0] == ':' && forall i :: 0 < i < |port| ==> '0' <= port[i] <= '9')
    requires path == "" || path[0] == '/'
    requires NormaliseHost(part) == Some(host) && split(part) == Parts("", None, host + (port + path))
    ensures !PartReadsBack(ToolUrls(split, generated), part, Some(source), Some(target))
    ensures var u, moved := ToolUrls(split, generated), RemapHost(host, Some(source), Some(target)).value;
            && Hosts(u, RemapParts(u, [part], Some(source), Some(target))) == {moved + host}
            && (PointsBack(moved + host, Some(source), Some(target)) <==> host != source && !EndsWith(moved + host, "." + target))
  {
    var u := ToolUrls(split, generated);
    RemapIsABijection(host, source, target);
    var moved := RemapHost(host, Some(source), Some(target)).value;
    MovedIsHost(part, Some(source), Some(target));
    PortThenPath(port, path);
    PathAloneRunsOn(host, port + path);
    LabelsConcat(moved, host);
    ToolReadsAfter(split, generated, part, Some(source), Some(target));
    OnePart(u, part, Some(source), Some(target));
    StillUnder(moved, host, source);
    LongerThanBase(moved, host, target);
  }

  /** A list of one part names what is read of it. */
  lemma {:induction false} OnePart(u: Urls, part: string, source: Option<string>, target: Option<string>)
    ensures ReadAfter(u, part, source, target).Some? ==>
              Hosts(u, RemapParts(u, [part], source, target)) == {ReadAfter(u, part, source, target).value}
  {
    assert part in [part];
    if ReadAfter(u, part, source, target).Some? {
      forall h ensures h in Hosts(u, RemapParts(u, [part], source, target)) <==> h == ReadAfter(u, part, source, target).value {
        RemappedHosts(u, [part], source, target, h);
      }
    }
  }

  lemma {:induction false} StillUnder(front: string, host: string, source: string)
    requires IsHost(front) && UnderWildcard(host, Some(source)) && source != ""
    ensures UnderWildcard(front + host, Some(source)) <==> host != source
  {
    var s, suffix := front + host, "." + source;
    if host == source {
      assert s[|s| - |suffix|] == front[|front| - 1];
      assert suffix[0] == '.';
    } else {
      assert s[|s| - |suffix|..] == host[|host| - |suffix|..];
    }
  }

  lemma {:induction false} LongerThanBase(moved: string, host: string, target: string)
    requires UnderWildcard(moved, Some(target)) && host != ""
    ensures UnderWildcard(moved + host, Some(target)) <==> EndsWith(moved + host, "." + target)
  {
    assert |moved + host| > |target|;
  }

  lemma {:induction false} PortAfterMoved(part: string, port: string, source: string, target: string)
    requires IsHost(source) && IsHost(target) && Rewrites(part, Some(source), Some(target)) && PortForm(port)
    ensures IsHost(MovedTo(part, Some(source), Some(target)) + port)
  {
    var moved := MovedTo(part, Some(source), Some(target));
    MovedIsHost(part, Some(source), Some(target));
    if port == "" {
      assert moved + port == moved;
    } else {
      LabelsConcat(moved, port);
    }
  }

  lemma {:induction false} PortReadsAfter(split: string -> Parts, generated: string -> bool, part: string, port: string,
                                          source: string, target: string)
    requires IsHost(source) && IsHost(target) && Rewrites(part, Some(source), Some(target))
    requires SplitForm(split(part)) && Overrun(split(part)) == port && IsHost(MovedTo(part, Some(source), Some(target)) + port)
    ensures PartReadsBack(ToolUrls(split, generated), part, Some(source), Some(target)) <==> port == ""
    ensures var u, moved := ToolUrls(split, generated), MovedTo(part, Some(source), Some(target));
            && Hosts(u, RemapParts(u, [part], Some(source), Some(target))) == {moved + port}
            && (PointsBack(moved + port, Some(source), Some(target)) <==> TurnsBack(split, part, Some(source), Some(target)))
  {
    var moved := MovedTo(part, Some(source), Some(target));
    MovedIsHost(part, Some(source), Some(target));
    assert moved + "" == moved;
    ToolReadsAfter(split, generated, part, Some(source), Some(target));
    OnePart(ToolUrls(split, generated), part, Some(source), Some(target));
  }

  /** One with a port is taken for a scheme, its host, and a path: its port stays behind the new
      host, so that it reads back exactly if it has none. */
  lemma {:induction false} HostForScheme(split: string -> Parts, generated: string -> bool, part: string,
                                         scheme: string, port: string, path: string, source: string, target: string)
    requires IsHost(source) && IsHost(target) && Rewrites(part, Some(source), Some(target))
    requires WrittenScheme(scheme + "://") && (path == "" || path[0] == '/')
    requires forall i :: 0 <= i < |port| ==> '0' <= port[i] <= '9'
    requires split(part) == Parts(scheme, None, port + path)
    ensures PartReadsBack(ToolUrls(split, generated), part, Some(source), Some(target)) <==> port == ""
    ensures var u, moved := ToolUrls(split, generated), MovedTo(part, Some(source), Some(target));
            && Hosts(u, RemapParts(u, [part], Some(source), Some(target))) == {moved + port}
            && (PointsBack(moved + port, Some(source), Some(target)) <==> TurnsBack(split, part, Some(source), Some(target)))
  {
    SchemeIsWritten(scheme);
    PortRunsOn(scheme, port, path);
    PortAfterMoved(part, port, source, target);
    PortReadsAfter(split, generated, part, port, source, target);
  }
}
