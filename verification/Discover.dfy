/** Hierarchical service lookup: prefix searches from the nearest tier outwards, three services at most. */
module Discover {
  import opened ByteStrings
  import opened Wrappers
  import opened PrefixRange
  import opened Keys
  import opened Etcd

  const MAX_SERVICES: nat := 3  // MaxGetServiceLimit

  type Entries = map<Bytes, Entry>
  type Found = map<Bytes, ServiceSpec>

  datatype DiscoverRequest = DiscoverRequest(
    service: Bytes, location: Option<Bytes>, datacenter: Option<Bytes>, node: Option<Bytes>, instance: Option<Bytes>)

  function Min(a: nat, b: nat): nat {
    if a < b then a else b
  }

  // ---------- range requests ----------

  function Selected(m: Entries, lo: Bytes, hi: Bytes): set<Bytes> {
    set k | k in m && InRange(k, lo, hi)
  }

  ghost predicate Ascending(keys: seq<Bytes>) {
    forall i, j :: 0 <= i < j < |keys| ==> Less(keys[i], keys[j])
  }

  method Least(keys: set<Bytes>) returns (k: Bytes)
    requires keys != {}
    ensures k in keys && forall x :: x in keys && x != k ==> Less(k, x)
  {
    k :| k in keys;
    var rest := keys - {k};
    while rest != {}
      invariant rest <= keys && k in keys
      invariant forall x :: x in keys - rest && x != k ==> Less(k, x)
      decreases rest
    {
      var y :| y in rest;
      LessTotal(k, y);
      if Less(y, k) {
        forall x | x in keys - rest && x != k ensures Less(y, x) {
          LessTransitive(y, k, x);
        }
        k := y;
      }
      rest := rest - {y};
    }
  }

  /** The first keys of the interval in byte order, as many as the limit allows; no limit if it is 0. */
  method RangeSearch(m: Entries, lo: Bytes, hi: Bytes, limit: nat) returns (keys: seq<Bytes>)
    ensures Ascending(keys)
    ensures forall k :: k in keys ==> k in Selected(m, lo, hi)
    ensures forall k, j :: k in Selected(m, lo, hi) && k !in keys && j in keys ==> Less(j, k)
    ensures |keys| == if limit == 0 then |Selected(m, lo, hi)| else Min(limit, |Selected(m, lo, hi)|)
  {
    var rest := Selected(m, lo, hi);
    keys := [];
    while rest != {} && (limit == 0 || |keys| < limit)
      invariant Ascending(keys)
      invariant forall k :: k in Selected(m, lo, hi) <==> k in keys || k in rest
      invariant forall k, j :: k in rest && j in keys ==> Less(j, k)
      invariant |keys| + |rest| == |Selected(m, lo, hi)|
      invariant limit != 0 ==> |keys| <= limit
      decreases rest
    {
      var k := Least(rest);
      keys, rest := keys + [k], rest - {k};
    }
  }

  lemma {:induction false} AscendingDistinct(keys: seq<Bytes>)
    requires Ascending(keys)
    ensures |set k | k in keys| == |keys|
  {
    if keys != [] {
      var init, last := keys[..|keys| - 1], keys[|keys| - 1];
      AscendingDistinct(init);
      LessIrreflexive(last);
      assert (set k | k in keys) == (set k | k in init) + {last};
    }
  }

  // ---------- tiers ----------

  /** The stored keys a search for the prefix ranges over. */
  function Tier(m: Entries, prefix: Bytes): set<Bytes> {
    Selected(m, prefix, PrefixEndOf(prefix))
  }

  /** The entries of a tier decode. */
  ghost predicate Decodes(m: Entries, prefix: Bytes) {
    forall k :: k in Tier(m, prefix) ==> m[k].value.Service?
  }

  /** One search: the store as it is at that moment, and the prefix. */
  datatype Search = Search(m: Entries, prefix: Bytes)

  function Hits(q: Search): set<Bytes> {
    Tier(q.m, q.prefix)
  }

  /** When the search ran, the service was stored under a key it selects. */
  predicate FoundAt(q: Search, k: Bytes, sp: ServiceSpec) {
    k in Hits(q) && q.m[k].value == Service(sp)
  }

  /** Whatever was found was stored, under that key, when one of the searches ran. */
  ghost predicate FoundIn(searches: seq<Search>, svcs: Found) {
    forall k :: k in svcs ==> exists q :: q in searches && FoundAt(q, k, svcs[k])
  }

  /** A search for a longer prefix that ends in '/' selects part of what a shorter one selects. */
  lemma TiersNest(m: Entries, outer: Bytes, inner: Bytes)
    requires outer <= inner && outer != [] && outer[|outer| - 1] == SLASH && inner[|inner| - 1] == SLASH
    ensures Tier(m, inner) <= Tier(m, outer)
  {
    PrefixEndExact(outer);
    PrefixEndExact(inner);
  }

  lemma SubsetCard<T>(a: set<T>, b: set<T>)
    requires a <= b
    ensures |a| <= |b| && (|a| == |b| ==> a == b)
  {
    assert b == a + (b - a);
  }

  /** A search without a limit leaves no key out. */
  lemma AllSelected(m: Entries, lo: Bytes, hi: Bytes, keys: seq<Bytes>)
    requires Ascending(keys) && |keys| == |Selected(m, lo, hi)|
    requires forall k :: k in keys ==> k in Selected(m, lo, hi)
    ensures forall k :: k in Selected(m, lo, hi) ==> k in keys
  {
    AscendingDistinct(keys);
    SubsetCard((set k | k in keys), Selected(m, lo, hi));
  }

  method GetServiceInternal(m: Entries, prefix: Bytes, limit: nat) returns (r: Result<Found, ()>)
    requires limit > 0
    ensures Decodes(m, prefix) ==> r.Ok?
    ensures r.Ok? ==> forall k :: k in r.value ==> FoundAt(Search(m, prefix), k, r.value[k])
    ensures r.Ok? ==> |r.value| == Min(limit, |Tier(m, prefix)|)
  {
    var keys := RangeSearch(m, prefix, PrefixEndOf(prefix), limit);
    var svcs: Found := map[];
    for i := 0 to |keys|
      invariant forall k :: k in svcs ==> FoundAt(Search(m, prefix), k, svcs[k])
      invariant svcs.Keys == set k | k in keys[..i]
    {
      assert keys[i] in keys;
      if !m[keys[i]].value.Service? {
        return Err(());
      }
      svcs := svcs[keys[i] := m[keys[i]].value.spec];
    }
    assert keys[..|keys|] == keys;
    AscendingDistinct(keys);
    return Ok(svcs);
  }

  /** Adds services of a tier, in any order, until there are three; a failed search adds none. */
  method FillServices(m: Entries, prefix: Bytes, before: Found) returns (svcs: Found)
    requires |before| < MAX_SERVICES
    ensures before.Keys <= svcs.Keys && |svcs| <= MAX_SERVICES
    ensures forall k :: k in svcs ==>
              (k in before && svcs[k] == before[k]) || FoundAt(Search(m, prefix), k, svcs[k])
    ensures Decodes(m, prefix) ==> |svcs| == MAX_SERVICES || Tier(m, prefix) <= svcs.Keys
  {
    svcs := before;
    var search := GetServiceInternal(m, prefix, MAX_SERVICES);
    if search.Err? {
      return;
    }
    var extra := search.value;
    var rest := extra.Keys;
    while rest != {}
      invariant rest <= extra.Keys && before.Keys <= svcs.Keys
      invariant extra.Keys - rest <= svcs.Keys && |svcs| <= MAX_SERVICES
      invariant forall k :: k in svcs ==>
                  (k in before && svcs[k] == before[k]) || FoundAt(Search(m, prefix), k, svcs[k])
      decreases rest
    {
      var k :| k in rest;
      if |svcs| >= MAX_SERVICES {
        break;
      }
      assert svcs[k := extra[k]].Keys == svcs.Keys + {k};
      svcs, rest := svcs[k := extra[k]], rest - {k};
    }
    if |svcs| < MAX_SERVICES {
      assert extra.Keys <= svcs.Keys;
      SubsetCard(extra.Keys, svcs.Keys);
      SubsetCard(extra.Keys, Tier(m, prefix));
    }
  }

  // ---------- the call ----------

  function ServicePrefix(service: Bytes): Bytes {
    TierPrefix([SERVICE_NS, service])
  }

  function LocationPrefix(service: Bytes, location: Bytes): Bytes {
    TierPrefix([SERVICE_NS, service, location])
  }

  function DatacenterPrefix(service: Bytes, location: Bytes, dc: Bytes): Bytes {
    TierPrefix([SERVICE_NS, service, location, dc])
  }

  function NodePrefix(service: Bytes, location: Bytes, dc: Bytes, name: Bytes): Bytes {
    TierPrefix([SERVICE_NS, service, location, dc, name])
  }

  /** The place the search starts from: the caller's own, except where the request names another. */
  datatype Place = Place(location: Bytes, datacenter: Bytes, name: Bytes)

  function Start(req: DiscoverRequest, node: NodeSchema): Place {
    Place(if req.location.Some? then req.location.value else node.location,
          if req.datacenter.Some? then req.datacenter.value else node.datacenter,
          if req.node.Some? then req.node.value else node.name)
  }

  function With<T>(xs: seq<T>, wanted: bool, x: T): (r: seq<T>)
    ensures xs != [] ==> r != []
  {
    if wanted then xs + [x] else xs
  }

  /**
   * The searches made as long as fewer than three services are found, nearest first. Between any two of
   * them others may have changed the store: ms holds its contents at the moment of each.
   */
  function Searches(ms: seq<Entries>, req: DiscoverRequest, node: NodeSchema): seq<Search>
    requires |ms| == 4
  {
    var at := Start(req, node);
    With(With(With([Search(ms[0], NodePrefix(req.service, at.location, at.datacenter, at.name))],
                   req.node.None?, Search(ms[1], DatacenterPrefix(req.service, at.location, at.datacenter))),
              req.datacenter.None?, Search(ms[2], LocationPrefix(req.service, at.location))),
         req.location.None?, Search(ms[3], ServicePrefix(req.service)))
  }

  /** The keys that any of the searches selects. */
  function Reach(searches: seq<Search>): set<Bytes> {
    if searches == [] then {}
    else Reach(searches[..|searches| - 1]) + Hits(searches[|searches| - 1])
  }

  /**
   * Nearest first, as many as exist, never more than three: each search and those nearer than it have
   * together yielded as many services as the search alone selects, up to three.
   */
  ghost predicate NearestFirst(found: set<Bytes>, searches: seq<Search>) {
    && |found| <= MAX_SERVICES && found <= Reach(searches)
    && forall i {:trigger searches[i]} :: 0 <= i < |searches| ==>
         |found * Reach(searches[..i + 1])| >= Min(MAX_SERVICES, |Hits(searches[i])|)
  }

  lemma ReachSnoc(searches: seq<Search>, q: Search)
    ensures Reach(searches + [q]) == Reach(searches) + Hits(q)
  {
    assert (searches + [q])[..|searches|] == searches;
  }

  lemma ReachHas(searches: seq<Search>, q: Search, k: Bytes)
    requires q in searches && k in Hits(q)
    ensures k in Reach(searches)
  {
    var last := |searches| - 1;
    if searches[last] != q {
      ReachHas(searches[..last], q, k);
    }
  }

  /** One more search, outwards: what the nearer ones yielded stays, and there are three or all of its own. */
  lemma Outwards(before: set<Bytes>, after: set<Bytes>, searches: seq<Search>, q: Search)
    requires NearestFirst(before, searches)
    requires before <= after <= before + Hits(q) && |after| <= MAX_SERVICES
    requires |after| == MAX_SERVICES || Hits(q) <= after
    ensures NearestFirst(after, searches + [q])
  {
    hide Hits, Reach;
    var all := searches + [q];
    ReachSnoc(searches, q);
    forall i {:trigger all[i]} | 0 <= i < |all|
      ensures |after * Reach(all[..i + 1])| >= Min(MAX_SERVICES, |Hits(all[i])|)
    {
      if i < |searches| {
        assert all[..i + 1] == searches[..i + 1];
        assert searches[i] == all[i];
        SubsetCard(before * Reach(searches[..i + 1]), after * Reach(all[..i + 1]));
      } else {
        assert all[..i + 1] == all;
        assert after * Reach(all) == after;
        if Hits(q) <= after {
          SubsetCard(Hits(q), after);
        }
      }
    }
  }

  lemma FoundMore(searches: seq<Search>, q: Search, before: Found, after: Found)
    requires FoundIn(searches, before)
    requires forall k :: k in after ==> (k in before && after[k] == before[k]) || FoundAt(q, k, after[k])
    ensures FoundIn(searches + [q], after)
  {
    hide FoundAt;
    forall k | k in after ensures exists x :: x in searches + [q] && FoundAt(x, k, after[k]) {
      if k in before && after[k] == before[k] {
        var x :| x in searches && FoundAt(x, k, before[k]);
        assert x in searches + [q];
      } else {
        assert q in searches + [q];
      }
    }
  }

  lemma FoundKeys(before: Found, after: Found, q: Search)
    requires forall k :: k in after ==> (k in before && after[k] == before[k]) || FoundAt(q, k, after[k])
    ensures after.Keys <= before.Keys + Hits(q)
  {
  }

  /** One conditional fill of Discover. */
  method NextTier(m: Entries, prefix: Bytes, wanted: bool, before: Found, ghost searches: seq<Search>)
      returns (svcs: Found)
    requires FoundIn(searches, before) && |before| <= MAX_SERVICES
    ensures FoundIn(With(searches, wanted, Search(m, prefix)), svcs) && |svcs| <= MAX_SERVICES
    ensures !wanted ==> svcs == before
    ensures Decodes(m, prefix) && NearestFirst(before.Keys, searches) ==>
              NearestFirst(svcs.Keys, With(searches, wanted, Search(m, prefix)))
  {
    hide FoundIn, FoundAt, NearestFirst, Decodes;
    svcs := before;
    if |svcs| < MAX_SERVICES && wanted {
      svcs := FillServices(m, prefix, before);
    }
    if wanted {
      FoundMore(searches, Search(m, prefix), before, svcs);
      FoundKeys(before, svcs, Search(m, prefix));
      if Decodes(m, prefix) && NearestFirst(before.Keys, searches) {
        Outwards(before.Keys, svcs.Keys, searches, Search(m, prefix));
      }
    }
  }

  lemma TierPrefixExtends(lead: seq<Bytes>, c: Bytes)
    requires lead != []
    ensures TierPrefix(lead + [c]) == TierPrefix(lead) + c + [SLASH]
  {
    JoinAppend(lead, [c]);
  }

  /** Each of the four prefixes extends the one outside it. */
  lemma PrefixesExtend(service: Bytes, at: Place)
    ensures LocationPrefix(service, at.location) == ServicePrefix(service) + at.location + [SLASH]
    ensures DatacenterPrefix(service, at.location, at.datacenter)
         == LocationPrefix(service, at.location) + at.datacenter + [SLASH]
    ensures NodePrefix(service, at.location, at.datacenter, at.name)
         == DatacenterPrefix(service, at.location, at.datacenter) + at.name + [SLASH]
  {
    TierPrefixExtends([SERVICE_NS, service], at.location);
    TierPrefixExtends([SERVICE_NS, service, at.location], at.datacenter);
    TierPrefixExtends([SERVICE_NS, service, at.location, at.datacenter], at.name);
    assert [SERVICE_NS, service] + [at.location] == [SERVICE_NS, service, at.location];
    assert [SERVICE_NS, service, at.location] + [at.datacenter] == [SERVICE_NS, service, at.location, at.datacenter];
    assert [SERVICE_NS, service, at.location, at.datacenter] + [at.name]
        == [SERVICE_NS, service, at.location, at.datacenter, at.name];
  }

  lemma FourTiersNest(m: Entries, service: Bytes, at: Place)
    ensures Tier(m, NodePrefix(service, at.location, at.datacenter, at.name))
         <= Tier(m, DatacenterPrefix(service, at.location, at.datacenter))
         <= Tier(m, LocationPrefix(service, at.location)) <= Tier(m, ServicePrefix(service))
    ensures Decodes(m, ServicePrefix(service)) ==>
              && Decodes(m, NodePrefix(service, at.location, at.datacenter, at.name))
              && Decodes(m, DatacenterPrefix(service, at.location, at.datacenter))
              && Decodes(m, LocationPrefix(service, at.location))
    ensures var p := NodePrefix(service, at.location, at.datacenter, at.name); p != [] && p[|p| - 1] < 255
  {
    PrefixesExtend(service, at);
    TiersNest(m, ServicePrefix(service), LocationPrefix(service, at.location));
    TiersNest(m, LocationPrefix(service, at.location), DatacenterPrefix(service, at.location, at.datacenter));
    TiersNest(m, DatacenterPrefix(service, at.location, at.datacenter),
              NodePrefix(service, at.location, at.datacenter, at.name));
  }

  lemma ExtendedTier(m: Entries, prefix: Bytes, more: Bytes)
    requires more != [] && more[|more| - 1] < 255 && prefix != [] && prefix[|prefix| - 1] < 255
    ensures Tier(m, prefix + more) <= Tier(m, prefix)
    ensures Decodes(m, prefix) ==> Decodes(m, prefix + more)
  {
    PrefixEndExact(prefix);
    PrefixEndExact(prefix + more);
  }

  lemma NearestSearch(found: set<Bytes>, q: Search)
    requires found <= Hits(q) && |found| == Min(MAX_SERVICES, |Hits(q)|)
    ensures NearestFirst(found, [q])
  {
    hide Hits;
    ReachSnoc([], q);
    assert [] + [q] == [q];
    assert Reach([]) + Hits(q) == Hits(q);
    assert [q][..1] == [q];
    assert found * Hits(q) == found;
  }

  lemma FoundAlone(found: Found, q: Search)
    requires forall k :: k in found ==> FoundAt(q, k, found[k])
    ensures FoundIn([q], found) && found.Keys <= Hits(q)
  {
    assert q in [q];
  }

  /** The first search: the node's own services, or the one service of an instance. */
  method SearchNode(m: Entries, prefix: Bytes, instance: bool, pointer: Bytes) returns (r: Result<Found, ()>)
    requires prefix != [] && prefix[|prefix| - 1] < 255 && pointer != [] && pointer[|pointer| - 1] < 255
    ensures Decodes(m, prefix) ==> r.Ok?
    ensures r.Ok? ==> FoundIn([Search(m, prefix)], r.value) && |r.value| <= MAX_SERVICES
    ensures r.Ok? && !instance ==> NearestFirst(r.value.Keys, [Search(m, prefix)])
  {
    hide NearestFirst, FoundIn, Tier, Decodes;
    if instance {
      ExtendedTier(m, prefix, pointer);
      r := GetServiceInternal(m, prefix + pointer, 1);
    } else {
      r := GetServiceInternal(m, prefix, MAX_SERVICES);
    }
    if r.Ok? {
      FoundAlone(r.value, Search(m, prefix));
      if !instance {
        NearestSearch(r.value.Keys, Search(m, prefix));
      }
    }
  }

  lemma AllDecode(ms: seq<Entries>, service: Bytes, at: Place, m: Entries)
    requires m in ms
    ensures (forall x :: x in ms ==> Decodes(x, ServicePrefix(service))) ==>
              && Decodes(m, NodePrefix(service, at.location, at.datacenter, at.name))
              && Decodes(m, DatacenterPrefix(service, at.location, at.datacenter))
              && Decodes(m, LocationPrefix(service, at.location))
              && Decodes(m, ServicePrefix(service))
  {
    FourTiersNest(m, service, at);
  }

  /**
   * For every request without an instance and whatever the store holds at each of the searches: nearest
   * first, as many as exist, in whatever order the maps are walked. pointer is the text that formatting a
   * set instance yields, the address of its variable and not its value.
   */
  method DiscoverServices(ms: seq<Entries>, node: NodeSchema, req: DiscoverRequest, pointer: Bytes)
      returns (r: Result<Found, ()>)
    requires |ms| == 4 && pointer != [] && pointer[|pointer| - 1] < 255
    ensures Decodes(ms[0], ServicePrefix(req.service)) ==> r.Ok?
    ensures r.Ok? ==> FoundIn(Searches(ms, req, node), r.value) && |r.value| <= MAX_SERVICES
    ensures r.Ok? && req.instance.None? && (forall m :: m in ms ==> Decodes(m, ServicePrefix(req.service))) ==>
              NearestFirst(r.value.Keys, Searches(ms, req, node))
  {
    var at := Start(req, node);
    var svcPrefix := ServicePrefix(req.service);
    var locPrefix := LocationPrefix(req.service, at.location);
    var dcPrefix := DatacenterPrefix(req.service, at.location, at.datacenter);
    var namePrefix := NodePrefix(req.service, at.location, at.datacenter, at.name);
    FourTiersNest(ms[0], req.service, at);
    AllDecode(ms, req.service, at, ms[1]);
    AllDecode(ms, req.service, at, ms[2]);
    AllDecode(ms, req.service, at, ms[3]);
    hide ServicePrefix, LocationPrefix, DatacenterPrefix, NodePrefix, NearestFirst, With, FoundIn, Decodes;
    var first := SearchNode(ms[0], namePrefix, req.instance.Some?, pointer);
    if first.Err? {
      return first;
    }
    var svcs := first.value;
    ghost var searches := [Search(ms[0], namePrefix)];
    svcs := NextTier(ms[1], dcPrefix, req.node.None?, svcs, searches);
    searches := With(searches, req.node.None?, Search(ms[1], dcPrefix));
    svcs := NextTier(ms[2], locPrefix, req.datacenter.None?, svcs, searches);
    searches := With(searches, req.datacenter.None?, Search(ms[2], locPrefix));
    svcs := NextTier(ms[3], svcPrefix, req.location.None?, svcs, searches);
    return Ok(svcs);
  }

  /** The store does not change between the searches. */
  ghost predicate StillAndWellKeyed(ms: seq<Entries>) {
    |ms| == 4 && ms[0] == ms[1] == ms[2] == ms[3] && WellKeyed(ms[0])
  }

  /** The response lists the found services, one for each key, in the order the map is walked. */
  method Discover(ms: seq<Entries>, node: NodeSchema, req: DiscoverRequest, pointer: Bytes)
      returns (services: Result<seq<ServiceSpec>, ()>, ghost found: Found, ghost keys: seq<Bytes>)
    requires |ms| == 4 && pointer != [] && pointer[|pointer| - 1] < 255
    ensures Decodes(ms[0], ServicePrefix(req.service)) ==> services.Ok?
    ensures services.Ok? ==> |services.value| == |keys| && (set k | k in keys) == found.Keys
    ensures services.Ok? ==> forall i :: 0 <= i < |keys| ==> keys[i] in found && services.value[i] == found[keys[i]]
    ensures services.Ok? ==> forall i, j :: 0 <= i < j < |keys| ==> keys[i] != keys[j]
    ensures services.Ok? ==> FoundIn(Searches(ms, req, node), found) && |found| <= MAX_SERVICES
    ensures services.Ok? && req.instance.None? && (forall m :: m in ms ==> Decodes(m, ServicePrefix(req.service))) ==>
              NearestFirst(found.Keys, Searches(ms, req, node))
    ensures services.Ok? && req.instance.None? && CleanRequest(req, node) && StillAndWellKeyed(ms) ==>
              NearestFound(ms[0], req, node, found.Keys)
  {
    hide NearestFirst, Searches, Decodes, FoundIn, NearestFound, CleanRequest, WellKeyed;
    var result := DiscoverServices(ms, node, req, pointer);
    keys, found := [], map[];
    if result.Err? {
      return Err(()), found, keys;
    }
    found := result.value;
    var specs := [];
    var svcs := result.value;
    var rest := svcs.Keys;
    while rest != {}
      invariant rest <= found.Keys && |specs| == |keys|
      invariant forall k :: k in found <==> k in keys || k in rest
      invariant forall k :: k in rest ==> k !in keys
      invariant forall i :: 0 <= i < |keys| ==> keys[i] in found && specs[i] == found[keys[i]]
      invariant forall i, j :: 0 <= i < j < |keys| ==> keys[i] != keys[j]
      decreases rest
    {
      var k :| k in rest;
      keys := keys + [k];
      specs, rest := specs + [svcs[k]], rest - {k};
    }
    if req.instance.None? && CleanRequest(req, node) && StillAndWellKeyed(ms) {
      WellKeyedDecodes(ms[0], req.service);
      assert ms == [ms[0], ms[0], ms[0], ms[0]];
      NearestAreFound(ms[0], req, node, found.Keys);
    }
    return Ok(specs), found, keys;
  }

  // ---------- a store that stays as it is ----------

  /** The searches get wider. */
  ghost predicate Widening(searches: seq<Search>) {
    forall i, j :: 0 <= i < j < |searches| ==> Hits(searches[i]) <= Hits(searches[j])
  }

  lemma {:induction false} WideningReach(searches: seq<Search>)
    requires Widening(searches) && searches != []
    ensures Reach(searches) == Hits(searches[|searches| - 1])
  {
    hide Hits;
    var last := |searches| - 1;
    if last > 0 {
      WideningReach(searches[..last]);
    } else {
      assert searches[..0] == [];
    }
  }

  lemma WideningWith(searches: seq<Search>, wanted: bool, q: Search)
    requires Widening(searches) && forall x :: x in searches ==> Hits(x) <= Hits(q)
    ensures Widening(With(searches, wanted, q)) && forall x :: x in With(searches, wanted, q) ==> Hits(x) <= Hits(q)
  {
    hide Hits;
    var all := searches + [q];
    forall i, j | 0 <= i < j < |all| ensures Hits(all[i]) <= Hits(all[j]) {
      if j == |searches| {
        assert all[i] in searches;
      } else {
        assert all[i] == searches[i] && all[j] == searches[j];
      }
    }
  }

  lemma SearchesWiden(m: Entries, req: DiscoverRequest, node: NodeSchema)
    ensures Widening(Searches([m, m, m, m], req, node))
  {
    var at := Start(req, node);
    var q0 := Search(m, NodePrefix(req.service, at.location, at.datacenter, at.name));
    var q1 := Search(m, DatacenterPrefix(req.service, at.location, at.datacenter));
    var q2 := Search(m, LocationPrefix(req.service, at.location));
    var q3 := Search(m, ServicePrefix(req.service));
    FourTiersNest(m, req.service, at);
    assert Hits(q0) <= Hits(q1) <= Hits(q2) <= Hits(q3);
    hide ServicePrefix, LocationPrefix, DatacenterPrefix, NodePrefix, Hits, With;
    var one := With([q0], req.node.None?, q1);
    var two := With(one, req.datacenter.None?, q2);
    WideningWith([q0], req.node.None?, q1);
    WideningWith(one, req.datacenter.None?, q2);
    WideningWith(two, req.location.None?, q3);
  }

  lemma WideningExact(found: set<Bytes>, searches: seq<Search>, i: nat)
    requires Widening(searches) && NearestFirst(found, searches) && i < |searches|
    ensures |found * Hits(searches[i])| == Min(MAX_SERVICES, |Hits(searches[i])|)
  {
    hide Hits, Reach;
    var upTo := searches[..i + 1];
    assert upTo[i] == searches[i];
    WideningReach(upTo);
    SubsetCard(found * Hits(searches[i]), found);
    SubsetCard(found * Hits(searches[i]), Hits(searches[i]));
  }

  /** If nothing changes between the searches, exactly min(3, its size) services of each tier are found. */
  lemma StillStore(m: Entries, req: DiscoverRequest, node: NodeSchema, found: set<Bytes>)
    requires NearestFirst(found, Searches([m, m, m, m], req, node))
    ensures forall q :: q in Searches([m, m, m, m], req, node) ==>
              |found * Hits(q)| == Min(MAX_SERVICES, |Hits(q)|)
  {
    hide Searches, Hits, NearestFirst, Widening;
    var searches := Searches([m, m, m, m], req, node);
    SearchesWiden(m, req, node);
    forall i | 0 <= i < |searches| ensures |found * Hits(searches[i])| == Min(MAX_SERVICES, |Hits(searches[i])|) {
      WideningExact(found, searches, i);
    }
  }

  // ---------- what a request may rely on ----------

  /** Node only with Datacenter, Datacenter only with Location. */
  predicate Hierarchical(req: DiscoverRequest) {
    (req.node.Some? ==> req.datacenter.Some?) && (req.datacenter.Some? ==> req.location.Some?)
  }

  /** The service asked for, within every scope the request names. */
  predicate Matches(req: DiscoverRequest, sp: ServiceSpec) {
    && sp.service == req.service
    && (req.location.Some? ==> sp.location == req.location.value)
    && (req.datacenter.Some? ==> sp.datacenter == req.datacenter.value)
    && (req.node.Some? ==> sp.node == req.node.value)
  }

  predicate CleanRequest(req: DiscoverRequest, node: NodeSchema) {
    && SlashFree(req.service) && SlashFree(node.location) && SlashFree(node.datacenter) && SlashFree(node.name)
    && (req.location.Some? ==> SlashFree(req.location.value))
    && (req.datacenter.Some? ==> SlashFree(req.datacenter.value))
    && (req.node.Some? ==> SlashFree(req.node.value))
  }

  predicate Names(key: Key, sp: ServiceSpec) {
    key == ServiceKey(sp.service, sp.location, sp.datacenter, sp.node, sp.instance)
  }

  /** Every key is a printed one, and what it holds under svc names the same service as the key. */
  ghost predicate WellKeyed(m: Entries) {
    forall k {:trigger Parse(k)} :: k in m ==>
      && Parse(k).Some?
      && (Parse(k).value.ServiceKey? ==> m[k].value.Service? && Names(Parse(k).value, m[k].value.spec))
  }

  /** The leading components that a tier fixes, outermost first: as many as depth. */
  function Lead(service: Bytes, at: Place, depth: nat): seq<Bytes>
    requires 2 <= depth <= 5
  {
    [SERVICE_NS, service, at.location, at.datacenter, at.name][..depth]
  }

  /** The widest tier searched fixes this many components. */
  function Depth(req: DiscoverRequest): nat {
    if req.location.None? then 2 else if req.datacenter.None? then 3 else if req.node.None? then 4 else 5
  }

  function Widest(req: DiscoverRequest, node: NodeSchema): Bytes {
    TierPrefix(Lead(req.service, Start(req, node), Depth(req)))
  }

  /** The prefixes of the four tiers, by the number of components they fix. */
  lemma Depths(service: Bytes, at: Place)
    ensures TierPrefix(Lead(service, at, 2)) == ServicePrefix(service)
    ensures TierPrefix(Lead(service, at, 3)) == LocationPrefix(service, at.location)
    ensures TierPrefix(Lead(service, at, 4)) == DatacenterPrefix(service, at.location, at.datacenter)
    ensures TierPrefix(Lead(service, at, 5)) == NodePrefix(service, at.location, at.datacenter, at.name)
  {
    assert Lead(service, at, 2) == [SERVICE_NS, service];
    assert Lead(service, at, 3) == [SERVICE_NS, service, at.location];
    assert Lead(service, at, 4) == [SERVICE_NS, service, at.location, at.datacenter];
    assert Lead(service, at, 5) == [SERVICE_NS, service, at.location, at.datacenter, at.name];
  }

  /** Every search stays within the widest tier; the last one covers it. */
  lemma WithinWidest(ms: seq<Entries>, req: DiscoverRequest, node: NodeSchema, q: Search)
    requires |ms| == 4 && q in Searches(ms, req, node)
    ensures q.m in ms && Hits(q) <= Tier(q.m, Widest(req, node))
  {
    Depths(req.service, Start(req, node));
    FourTiersNest(q.m, req.service, Start(req, node));
    hide ServicePrefix, LocationPrefix, DatacenterPrefix, NodePrefix, Tier, TierPrefix, Lead;
    assert ms == [ms[0], ms[1], ms[2], ms[3]];
  }

  lemma LastIsWidest(m: Entries, req: DiscoverRequest, node: NodeSchema)
    ensures Search(m, Widest(req, node)) in Searches([m, m, m, m], req, node)
  {
    Depths(req.service, Start(req, node));
    hide ServicePrefix, LocationPrefix, DatacenterPrefix, NodePrefix, TierPrefix, Lead;
    var searches := Searches([m, m, m, m], req, node);
    assert searches[|searches| - 1] == Search(m, Widest(req, node));
  }

  /** A key in the tier of some depth names the service and the outer places the tier fixes. */
  lemma InTier(m: Entries, service: Bytes, at: Place, depth: nat, k: Bytes)
    requires WellKeyed(m) && 2 <= depth <= 5 && AllSlashFree(Lead(service, at, depth))
    requires k in Tier(m, TierPrefix(Lead(service, at, depth)))
    ensures m[k].value.Service?
    ensures var sp := m[k].value.spec;
            && sp.service == service && (depth >= 3 ==> sp.location == at.location)
            && (depth >= 4 ==> sp.datacenter == at.datacenter) && (depth >= 5 ==> sp.node == at.name)
  {
    ParsePrint(k);
    var key, lead := Parse(k).value, Lead(service, at, depth);
    TierRange(lead, key);
    var cs := Components(key);
    assert cs[..depth][0] == lead[0] == SERVICE_NS && cs[..depth][1] == lead[1];
    assert depth >= 3 ==> cs[..depth][2] == lead[2];
    assert depth >= 4 ==> cs[..depth][3] == lead[3];
    assert depth >= 5 ==> cs[..depth][4] == lead[4];
  }

  lemma LeadSlashFree(req: DiscoverRequest, node: NodeSchema)
    requires CleanRequest(req, node)
    ensures AllSlashFree(Lead(req.service, Start(req, node), Depth(req)))
  {
    var at := Start(req, node);
    assert SlashFree(SERVICE_NS) && SlashFree(at.location) && SlashFree(at.datacenter) && SlashFree(at.name);
    var all := [SERVICE_NS, req.service, at.location, at.datacenter, at.name];
    assert forall i :: 0 <= i < 5 ==> SlashFree(all[i]);
  }

  /** Services found for a hierarchical request match every scope it names, whatever happens between the searches. */
  lemma FoundMatch(ms: seq<Entries>, svcs: Found, req: DiscoverRequest, node: NodeSchema, k: Bytes)
    requires |ms| == 4 && (forall m :: m in ms ==> WellKeyed(m)) && CleanRequest(req, node)
    requires FoundIn(Searches(ms, req, node), svcs) && Hierarchical(req) && k in svcs
    ensures Matches(req, svcs[k])
  {
    hide Searches, TierPrefix;
    var q :| q in Searches(ms, req, node) && FoundAt(q, k, svcs[k]);
    WithinWidest(ms, req, node, q);
    LeadSlashFree(req, node);
    InTier(q.m, req.service, Start(req, node), Depth(req), k);
  }

  lemma UnderServices(m: Entries, service: Bytes, k: Bytes)
    requires WellKeyed(m) && k in Tier(m, ServicePrefix(service))
    ensures m[k].value.Service? && Parse(k).Some? && Parse(k).value.ServiceKey?
  {
    var p := ServicePrefix(service);
    PrefixEndExact(p);
    JoinAppend([SERVICE_NS], [service]);
    assert [SERVICE_NS] + [service] == [SERVICE_NS, service];
    var rest := k[|SERVICE_NS| + 1..];
    assert k == Join([SERVICE_NS]) + [SLASH] + rest by {
      assert p == SERVICE_NS + [SLASH] + service + [SLASH];
      assert k == p + k[|p|..];
      assert k[..|SERVICE_NS| + 1] == SERVICE_NS + [SLASH];
    }
    SplitAfterLead([SERVICE_NS], rest);
    assert Split(k)[0] == SERVICE_NS;
    assert |SERVICE_NS| == 3 && |DC_SERVICE_NS| == 5 && |NODES_NS| == 5 && |LEASES_NS| == 10 && |PEER_API_NS| == 14;
    assert Parse(k).Some? && Parse(k).value.ServiceKey?;
  }

  lemma WellKeyedDecodes(m: Entries, service: Bytes)
    requires WellKeyed(m)
    ensures Decodes(m, ServicePrefix(service))
  {
    hide WellKeyed;
    FourTiersNest(m, service, Place([], [], []));
    forall k | k in Tier(m, ServicePrefix(service)) ensures m[k].value.Service? {
      UnderServices(m, service, k);
    }
  }

  // ---------- what is found, said of the stored services alone ----------

  /** A key of a stored service of this name under svc. */
  predicate Offers(m: Entries, k: Bytes, service: Bytes) {
    && k in m && Parse(k).Some? && Parse(k).value.ServiceKey?
    && m[k].value.Service? && m[k].value.spec.service == service
  }

  /**
   * The stored services of the requested name that are, down to a depth of location (1), datacenter (2) and
   * node (3), where the request says or, where it says nothing, where the caller is.
   */
  function Near(m: Entries, req: DiscoverRequest, caller: NodeSchema, depth: nat): set<Bytes> {
    set k | k in m && Offers(m, k, req.service)
      && var sp := m[k].value.spec;
         && (depth >= 1 ==> sp.location == match req.location case Some(l) => l case None => caller.location)
         && (depth >= 2 ==> sp.datacenter == match req.datacenter case Some(d) => d case None => caller.datacenter)
         && (depth >= 3 ==> sp.node == match req.node case Some(n) => n case None => caller.name)
  }

  /** The depths that are searched: the node, and outwards from each scope the request does not name. */
  predicate Searched(req: DiscoverRequest, depth: nat) {
    || depth == 3 || (depth == 2 && req.node.None?) || (depth == 1 && req.datacenter.None?)
    || (depth == 0 && req.location.None?)
  }

  /** Three of the services at every searched depth, or all if there are fewer, and none from further out. */
  ghost predicate NearestFound(m: Entries, req: DiscoverRequest, caller: NodeSchema, found: set<Bytes>) {
    && |found| <= 3
    && (forall depth :: 0 <= depth <= 3 && Searched(req, depth) ==>
          && |found * Near(m, req, caller, depth)| == (if |Near(m, req, caller, depth)| < 3 then |Near(m, req, caller, depth)| else 3)
          && (Outermost(req, depth) ==> found <= Near(m, req, caller, depth)))
  }

  predicate Outermost(req: DiscoverRequest, depth: nat) {
    Searched(req, depth) && forall d :: 0 <= d < depth ==> !Searched(req, d)
  }

  lemma LeadOf(service: Bytes, at: Place, depth: nat, cs: seq<Bytes>)
    requires 2 <= depth <= 5 <= |cs|
    ensures cs[..depth] == Lead(service, at, depth) <==>
              && cs[0] == SERVICE_NS && cs[1] == service && (depth >= 3 ==> cs[2] == at.location)
              && (depth >= 4 ==> cs[3] == at.datacenter) && (depth >= 5 ==> cs[4] == at.name)
  {
    var lead := Lead(service, at, depth);
    if cs[0] == SERVICE_NS && cs[1] == service && (depth >= 3 ==> cs[2] == at.location)
       && (depth >= 4 ==> cs[3] == at.datacenter) && (depth >= 5 ==> cs[4] == at.name) {
      forall i | 0 <= i < depth ensures cs[..depth][i] == lead[i] {
      }
    }
    if cs[..depth] == lead {
      assert cs[..depth][0] == lead[0] && cs[..depth][1] == lead[1];
      assert depth >= 3 ==> cs[..depth][2] == lead[2];
      assert depth >= 4 ==> cs[..depth][3] == lead[3];
      assert depth >= 5 ==> cs[..depth][4] == lead[4];
    }
  }

  lemma PlaceSlashFree(req: DiscoverRequest, node: NodeSchema, depth: nat)
    requires CleanRequest(req, node) && 2 <= depth <= 5
    ensures AllSlashFree(Lead(req.service, Start(req, node), depth))
  {
    var at := Start(req, node);
    assert SlashFree(SERVICE_NS) && SlashFree(at.location) && SlashFree(at.datacenter) && SlashFree(at.name);
    var all := [SERVICE_NS, req.service, at.location, at.datacenter, at.name];
    assert forall i :: 0 <= i < 5 ==> SlashFree(all[i]);
  }

  /** A tier's keys start with svc, so they are service keys. */
  lemma TierUnderService(m: Entries, req: DiscoverRequest, node: NodeSchema, depth: nat, k: Bytes)
    requires WellKeyed(m) && 2 <= depth <= 5 && k in Tier(m, TierPrefix(Lead(req.service, Start(req, node), depth)))
    ensures m[k].value.Service? && Parse(k).Some? && Parse(k).value.ServiceKey?
  {
    hide WellKeyed;
    Depths(req.service, Start(req, node));
    FourTiersNest(m, req.service, Start(req, node));
    hide ServicePrefix, LocationPrefix, DatacenterPrefix, NodePrefix, Tier, TierPrefix, Lead;
    UnderServices(m, req.service, k);
  }

  /** What the search at a depth selects are the services near to that depth. */
  lemma NearIsTier(m: Entries, req: DiscoverRequest, node: NodeSchema, depth: nat)
    requires WellKeyed(m) && CleanRequest(req, node) && depth <= 3
    ensures Near(m, req, node, depth) == Tier(m, TierPrefix(Lead(req.service, Start(req, node), depth + 2)))
  {
    hide Print, Parse, TierPrefix, Lead, CleanRequest;
    var prefix := TierPrefix(Lead(req.service, Start(req, node), depth + 2));
    forall k | k in m ensures k in Near(m, req, node, depth) <==> k in Tier(m, prefix) {
      if k in Tier(m, prefix) {
        TierUnderService(m, req, node, depth + 2, k);
      }
      if Parse(k).Some? && Parse(k).value.ServiceKey? {
        NearKey(m, req, node, depth, k);
      }
    }
  }

  lemma NearKey(m: Entries, req: DiscoverRequest, node: NodeSchema, depth: nat, k: Bytes)
    requires WellKeyed(m) && CleanRequest(req, node) && depth <= 3
    requires k in m && Parse(k).Some? && Parse(k).value.ServiceKey?
    ensures k in Near(m, req, node, depth) <==>
              k in Tier(m, TierPrefix(Lead(req.service, Start(req, node), depth + 2)))
  {
    hide Print, Parse, TierPrefix, Lead, AllSlashFree;
    var key := Parse(k).value;
    ParsePrint(k);
    PlaceSlashFree(req, node, depth + 2);
    LeadLength(req.service, Start(req, node), depth + 2);
    TierRange(Lead(req.service, Start(req, node), depth + 2), key);
    LeadOf(req.service, Start(req, node), depth + 2, Components(key));
  }

  lemma LeadLength(service: Bytes, at: Place, depth: nat)
    requires 2 <= depth <= 5
    ensures |Lead(service, at, depth)| == depth
  {
  }

  lemma SearchedIsMade(m: Entries, req: DiscoverRequest, node: NodeSchema, depth: nat)
    requires depth <= 3 && Searched(req, depth)
    ensures Search(m, TierPrefix(Lead(req.service, Start(req, node), depth + 2))) in Searches([m, m, m, m], req, node)
    ensures Outermost(req, depth) ==> Depth(req) == depth + 2
  {
    Depths(req.service, Start(req, node));
    hide ServicePrefix, LocationPrefix, DatacenterPrefix, NodePrefix, TierPrefix, Lead;
    assert Searched(req, 0) <==> req.location.None?;
    assert Searched(req, 1) <==> req.datacenter.None?;
    assert Searched(req, 2) <==> req.node.None?;
  }

  lemma ReachWithin(searches: seq<Search>, all: set<Bytes>)
    requires forall q :: q in searches ==> Hits(q) <= all
    ensures Reach(searches) <= all
  {
    hide Hits;
    if searches != [] {
      ReachWithin(searches[..|searches| - 1], all);
      assert searches[|searches| - 1] in searches;
    }
  }

  lemma NearestAtDepth(m: Entries, req: DiscoverRequest, node: NodeSchema, found: set<Bytes>, depth: nat)
    requires WellKeyed(m) && CleanRequest(req, node) && NearestFirst(found, Searches([m, m, m, m], req, node))
    requires depth <= 3 && Searched(req, depth)
    ensures |found * Near(m, req, node, depth)| == Min(MAX_SERVICES, |Near(m, req, node, depth)|)
    ensures Outermost(req, depth) ==> found <= Near(m, req, node, depth)
  {
    hide Searches, Start, Lead, TierPrefix, Tier, Near, WellKeyed, CleanRequest, Reach, Searched, Outermost, NearestFirst;
    StillStore(m, req, node, found);
    NearIsTier(m, req, node, depth);
    SearchedIsMade(m, req, node, depth);
    var q := Search(m, TierPrefix(Lead(req.service, Start(req, node), depth + 2)));
    assert Hits(q) == Near(m, req, node, depth);
    if Outermost(req, depth) {
      FoundNear(m, req, node, found, depth);
    }
  }

  lemma FoundNear(m: Entries, req: DiscoverRequest, node: NodeSchema, found: set<Bytes>, depth: nat)
    requires NearestFirst(found, Searches([m, m, m, m], req, node)) && Depth(req) == depth + 2
    requires Near(m, req, node, depth) == Tier(m, TierPrefix(Lead(req.service, Start(req, node), depth + 2)))
    ensures found <= Near(m, req, node, depth)
  {
    hide Searches, Start, Lead, TierPrefix, Tier, Near, Reach, Hits;
    var searches := Searches([m, m, m, m], req, node);
    forall q | q in searches ensures Hits(q) <= Near(m, req, node, depth) {
      WithinWidest([m, m, m, m], req, node, q);
    }
    ReachWithin(searches, Near(m, req, node, depth));
  }

  lemma AtMostThree(found: set<Bytes>, searches: seq<Search>)
    requires NearestFirst(found, searches)
    ensures |found| <= 3
  {
    hide Reach, Hits;
  }

  /**
   * Over a store that stays as it is: at every depth that is searched, exactly three of the stored services
   * that are near to that depth are found, or all of them if there are fewer.
   */
  lemma NearestAreFound(m: Entries, req: DiscoverRequest, node: NodeSchema, found: set<Bytes>)
    requires WellKeyed(m) && CleanRequest(req, node) && NearestFirst(found, Searches([m, m, m, m], req, node))
    ensures NearestFound(m, req, node, found)
  {
    hide NearestFirst, Searches, Near, Searched, Outermost, WellKeyed, CleanRequest;
    AtMostThree(found, Searches([m, m, m, m], req, node));
    forall depth | 0 <= depth <= 3 && Searched(req, depth)
      ensures |found * Near(m, req, node, depth)|
           == (if |Near(m, req, node, depth)| < 3 then |Near(m, req, node, depth)| else 3)
      ensures Outermost(req, depth) ==> found <= Near(m, req, node, depth)
    {
      NearestAtDepth(m, req, node, found, depth);
    }
  }

  /** Where one key is all that is selected, finding it is finding all. */
  lemma OneKey(k: Bytes, searches: seq<Search>, q: Search)
    requires (forall x :: x in searches ==> Hits(x) <= {k}) && q in searches && k in Hits(q)
    ensures NearestFirst({k}, searches)
  {
    hide Hits;
    ReachHas(searches, q, k);
    forall i {:trigger searches[i]} | 0 <= i < |searches|
      ensures |{k} * Reach(searches[..i + 1])| >= Min(MAX_SERVICES, |Hits(searches[i])|)
    {
      assert searches[i] in searches;
      SubsetCard(Hits(searches[i]), {k});
      if k in Hits(searches[i]) {
        assert searches[i] in searches[..i + 1] by { assert searches[..i + 1][i] == searches[i]; }
        ReachHas(searches[..i + 1], searches[i], k);
        assert {k} * Reach(searches[..i + 1]) == {k};
      } else {
        assert Hits(searches[i]) == {};
      }
    }
  }
}
