/** What discovery finds in the stores that runs of the registry lead to. */
module Scopes {
  import opened ByteStrings
  import opened Wrappers
  import opened Keys
  import opened Etcd
  import opened Protocol
  import opened Invariant
  import opened Runs
  import opened Discover
  import opened Witness

  /** Whatever lies under svc/ in a reachable store is a service that names its key. */
  lemma ReachableIsWellKeyed(ws: seq<World>, acts: seq<Action>, i: nat)
    requires CleanRun(ws, acts) && i < |ws|
    ensures WellKeyed(ws[i].s.entries)
  {
    RunInv(ws, acts, i);
    forall k | k in ws[i].s.entries
      ensures Parse(k).Some?
      ensures Parse(k).value.ServiceKey? ==>
                ws[i].s.entries[k].value.Service? && Names(Parse(k).value, ws[i].s.entries[k].value.spec)
    {
      assert EntryOk(ws[i].s, k);
    }
  }

  lemma ReachableDecodes(ws: seq<World>, acts: seq<Action>, i: nat, service: Bytes)
    requires CleanRun(ws, acts) && i < |ws|
    ensures Decodes(ws[i].s.entries, ServicePrefix(service))
  {
    ReachableIsWellKeyed(ws, acts, i);
    WellKeyedDecodes(ws[i].s.entries, service);
  }

  /** The store's entries at some moments of a run. */
  function StoresAt(ws: seq<World>, moments: seq<nat>): seq<Entries>
    requires forall i :: i in moments ==> i < |ws|
  {
    seq(|moments|, i requires 0 <= i < |moments| => assert moments[i] in moments; ws[moments[i]].s.entries)
  }

  lemma StoresAreWellKeyed(ws: seq<World>, acts: seq<Action>, moments: seq<nat>)
    requires CleanRun(ws, acts) && forall i :: i in moments ==> i < |ws|
    ensures forall m :: m in StoresAt(ws, moments) ==> WellKeyed(m)
  {
    forall m | m in StoresAt(ws, moments) ensures WellKeyed(m) {
      var i :| 0 <= i < |moments| && m == StoresAt(ws, moments)[i];
      assert moments[i] in moments;
      ReachableIsWellKeyed(ws, acts, moments[i]);
    }
  }

  // ---------- which scopes a caller can rely on ----------

  /** A Discover call of a stored node, with its searches at four moments of a run, one after another. */
  ghost predicate Lookup(ws: seq<World>, acts: seq<Action>, moments: seq<nat>, caller: NodeSchema) {
    && CleanRun(ws, acts) && |moments| == 4
    && moments[0] <= moments[1] <= moments[2] <= moments[3] < |ws|
    && (forall i :: i in moments ==> i < |ws|)
    && NodeKnown(ws[moments[0]].s, caller)
  }

  /** Whatever Discover may find for the request, in any run, matches it. */
  ghost predicate ScopesHold(req: DiscoverRequest, caller: NodeSchema) {
    forall ws: seq<World>, acts: seq<Action>, moments: seq<nat>, svcs: Found, k: Bytes ::
      Lookup(ws, acts, moments, caller) && k in svcs && FoundIn(Searches(StoresAt(ws, moments), req, caller), svcs)
      && NearestFirst(svcs.Keys, Searches(StoresAt(ws, moments), req, caller)) ==>
        Matches(req, svcs[k])
  }

  /** A name that starts like this one and is not the other. */
  function Apart(name: Bytes, other: Bytes): Bytes {
    if name + [0x78] == other then name + [0x79] else name + [0x78]
  }

  /** A node in the widest tier of the request but outside a scope it names. */
  function StrayNode(req: DiscoverRequest, caller: NodeSchema): NodeSchema {
    var at := Start(req, caller);
    if req.datacenter.Some? && req.location.None?
    then NodeSchema(at.name, Apart(at.datacenter, caller.datacenter), at.location, Agent)
    else NodeSchema(Apart(at.name, caller.name), at.datacenter, at.location, Agent)
  }

  function StrayJob(req: DiscoverRequest): Job {
    Register(req.service, [], [], [], None, [])
  }

  function Stray(req: DiscoverRequest, caller: NodeSchema): ServiceSpec {
    SpecOf(StrayNode(req, caller), StrayJob(req))
  }

  lemma StrayIsClean(req: DiscoverRequest, caller: NodeSchema)
    requires CleanRequest(req, caller)
    ensures CleanNode(StrayNode(req, caller)) && Id(StrayNode(req, caller)) != Id(caller) && CleanJob(StrayJob(req))
    ensures var sp := Stray(req, caller); Clean(ServiceKey(sp.service, sp.location, sp.datacenter, sp.node, sp.instance))
  {
    var at := Start(req, caller);
    assert |at.name + [0x78]| == |at.name| + 1 && (at.name + [0x78])[|at.name|] == 0x78;
    assert |at.datacenter + [0x78]| == |at.datacenter| + 1 && (at.datacenter + [0x78])[|at.datacenter|] == 0x78;
  }

  /** The stray service lies in the widest tier, and does not match. */
  lemma StrayInTier(m: Entries, req: DiscoverRequest, caller: NodeSchema)
    requires CleanRequest(req, caller) && !Hierarchical(req) && SvcText(Stray(req, caller)) in m
    ensures SvcText(Stray(req, caller)) in Tier(m, Widest(req, caller))
    ensures !Matches(req, Stray(req, caller))
  {
    hide Print;
    var sp, at, depth := Stray(req, caller), Start(req, caller), Depth(req);
    var key := ServiceKey(sp.service, sp.location, sp.datacenter, sp.node, sp.instance);
    StrayIsClean(req, caller);
    LeadSlashFree(req, caller);
    TierRange(Lead(req.service, at, depth), key);
    assert Components(key)[..depth] == Lead(req.service, at, depth);
  }

  /** Of the keys of two nodes and one service, only the service's first key lies under svc. */
  lemma OneServiceTier(s: Store, caller: NodeSchema, node: NodeSchema, sp: ServiceSpec, service: Bytes)
    requires OneService(s, caller, node, sp) && WellKeyed(s.entries) && SpecOfNode(s, sp, node)
    ensures Tier(s.entries, ServicePrefix(service)) <= {SvcText(sp)}
  {
    hide Print, Parse, WellKeyed;
    forall k | k in Tier(s.entries, ServicePrefix(service)) ensures k == SvcText(sp) {
      UnderServices(s.entries, service, k);
      SpecKeys(s, sp, node);
    }
  }

  /** The run in which the stray node is added and registers, and a lookup after it. */
  lemma StrayFound(req: DiscoverRequest, caller: NodeSchema)
    requires CleanRequest(req, caller) && !Hierarchical(req)
    ensures !ScopesHold(req, caller)
  {
    hide Print, Parse, CleanRun, WellKeyed, Tier, Widest, Stray, NearestFirst, FoundIn, StrayNode, StrayJob, Matches,
         Hierarchical, Searches, OneService;
    var node, job, sp := StrayNode(req, caller), StrayJob(req), Stray(req, caller);
    assert sp == SpecOf(node, job) && job.Register? by { StrayIsSpec(req, caller); }
    StrayIsClean(req, caller);
    var ws0, acts0, ws, acts := OneRegistered(caller, node, job);
    RunLength(ws, acts);
    var n, m, k := |acts|, Last(ws, acts).s.entries, SvcText(sp);
    var moments: seq<nat> := [n, n, n, n];
    assert StoresAt(ws, moments) == [m, m, m, m];
    ReachableIsWellKeyed(ws, acts, n);
    StrayServes(Last(ws, acts).s, req, caller);
    assert Lookup(ws, acts, moments, caller) by { OneServiceKnows(Last(ws, acts).s, caller, node, sp); }
    var svcs := map[k := sp];
    assert k in svcs && svcs[k] == sp;
  }

  lemma StrayIsSpec(req: DiscoverRequest, caller: NodeSchema)
    ensures Stray(req, caller) == SpecOf(StrayNode(req, caller), StrayJob(req)) && StrayJob(req).Register?
  {
  }

  lemma RunLength(ws: seq<World>, acts: seq<Action>)
    requires CleanRun(ws, acts)
    ensures |ws| == |acts| + 1
  {
  }

  lemma OneServiceKnows(s: Store, caller: NodeSchema, node: NodeSchema, sp: ServiceSpec)
    requires OneService(s, caller, node, sp)
    ensures NodeKnown(s, caller)
  {
  }

  /** In such a store the stray service is what Discover finds, and it does not match. */
  lemma StrayServes(s: Store, req: DiscoverRequest, caller: NodeSchema)
    requires CleanRequest(req, caller) && !Hierarchical(req) && WellKeyed(s.entries)
    requires OneService(s, caller, StrayNode(req, caller), Stray(req, caller))
    ensures var m, k := s.entries, SvcText(Stray(req, caller));
            var searches, svcs := Searches([m, m, m, m], req, caller), map[k := Stray(req, caller)];
            FoundIn(searches, svcs) && NearestFirst(svcs.Keys, searches) && !Matches(req, Stray(req, caller))
  {
    hide Print, Parse, WellKeyed, Tier, Widest, Stray, NearestFirst, Searches, StrayNode, Matches, Hierarchical, CleanRequest;
    var m, sp := s.entries, Stray(req, caller);
    var k, searches, q := SvcText(sp), Searches([m, m, m, m], req, caller), Search(m, Widest(req, caller));
    StrayInTier(m, req, caller);
    LastIsWidest(m, req, caller);
    assert FoundAt(q, k, sp);
    StrayKnown(s, req, caller);
    OneServiceTier(s, caller, StrayNode(req, caller), sp, req.service);
    forall x | x in searches ensures Hits(x) <= {k} {
      WithinWidest([m, m, m, m], req, caller, x);
      WidestInService(m, req, caller);
    }
    OneKey(k, searches, q);
    var svcs := map[k := sp];
    assert svcs.Keys == {k};
  }

  lemma StrayKnown(s: Store, req: DiscoverRequest, caller: NodeSchema)
    requires CleanRequest(req, caller) && OneService(s, caller, StrayNode(req, caller), Stray(req, caller))
    ensures SpecOfNode(s, Stray(req, caller), StrayNode(req, caller))
  {
    hide Print, Parse;
  }

  lemma WidestInService(m: Entries, req: DiscoverRequest, caller: NodeSchema)
    ensures Tier(m, Widest(req, caller)) <= Tier(m, ServicePrefix(req.service))
  {
    Depths(req.service, Start(req, caller));
    FourTiersNest(m, req.service, Start(req, caller));
    hide ServicePrefix, LocationPrefix, DatacenterPrefix, NodePrefix, Tier, TierPrefix, Lead;
  }

  /**
   * When can a caller rely on the scopes it names? Exactly when the request is hierarchical: otherwise
   * some run leads to a store in which a service outside a scope of the request is found for it.
   */
  lemma ScopesHoldIffHierarchical(req: DiscoverRequest, caller: NodeSchema)
    requires CleanRequest(req, caller)
    ensures Hierarchical(req) <==> ScopesHold(req, caller)
  {
    hide NearestFirst, FoundIn, Searches, Matches;
    if Hierarchical(req) {
      forall ws: seq<World>, acts: seq<Action>, moments: seq<nat>, svcs: Found, k: Bytes
        | Lookup(ws, acts, moments, caller) && k in svcs && FoundIn(Searches(StoresAt(ws, moments), req, caller), svcs)
        ensures Matches(req, svcs[k])
      {
        StoresAreWellKeyed(ws, acts, moments);
        FoundMatch(StoresAt(ws, moments), svcs, req, caller, k);
      }
    } else {
      StrayFound(req, caller);
    }
  }
}
