/**
 * The registry's calls as the servers run them: requests to etcd one after another, with any number
 * of other calls' requests and expiries in between. Each request is recorded as an action of a run
 * of the protocol, so every theorem about runs is a theorem about these methods.
 */
module Server {
  import opened ByteStrings
  import opened Wrappers
  import opened Keys
  import opened Etcd
  import opened Protocol
  import opened Invariant
  import opened Steps
  import opened Runs
  import opened Indexes

  const NO_CHOICE := Choice(NO_LEASE, [])

  lemma {:induction false} Bounded(ids: set<nat>) returns (b: nat)
    ensures forall x :: x in ids ==> x < b
  {
    if ids == {} {
      b := 0;
    } else {
      var x :| x in ids;
      var c := Bounded(ids - {x});
      assert ids == (ids - {x}) + {x};
      b := if x < c then c else x + 1;
    }
  }

  class EtcdServer {
    var s: Store
    ghost var ws: seq<World>
    ghost var acts: seq<Action>

    /** The store is the last state of a run with slash-free components. */
    ghost predicate Valid()
      reads this
    {
      CleanRun(ws, acts) && Now().s == s
    }

    ghost function Now(): World
      reads this
      requires |ws| == |acts| + 1
    {
      ws[|acts|]
    }

    /** Call p stands at pc. */
    ghost predicate At(p: nat, pc: Pc)
      reads this
    {
      |ws| == |acts| + 1 && p in Now().calls && Now().calls[p] == pc
    }

    constructor ()
      ensures Valid() && s == EMPTY_STORE && acts == []
    {
      s, ws, acts := EMPTY_STORE, [START], [];
    }

    /** A call arrives. */
    ghost method Arrive(first: Pc) returns (p: nat)
      requires Valid() && CleanCall(first)
      modifies this`ws, this`acts
      ensures Valid() && old(ws) <= ws && old(acts) <= acts
      ensures At(p, first)
    {
      p := Bounded(Now().calls.Keys);
      Extend(Begin(p, first));
    }

    /** One more action of the run. */
    ghost method Extend(a: Action)
      requires CleanRun(ws, acts) && Enabled(Now(), a) && (a.Begin? ==> CleanCall(a.first))
      modifies this`ws, this`acts
      ensures CleanRun(ws, acts) && ws == old(ws) + [Next(old(Now()), a)] && acts == old(acts) + [a]
      ensures old(ws) <= ws && old(acts) <= acts && Now() == Next(old(Now()), a)
    {
      ws, acts := ws + [Next(Now(), a)], acts + [a];
      forall i | 0 <= i < |acts| ensures StepAt(ws, acts, i) {
        if i < |acts| - 1 {
          assert StepAt(old(ws), old(acts), i);
        }
      }
    }

    /** Other calls make requests, leases expire, time passes; call p stays where it is. */
    method Interference(ghost p: nat)
      requires Valid() && p in Now().calls
      modifies this
      ensures Valid() && old(ws) <= ws && old(acts) <= acts
      ensures At(p, old(Now().calls[p]))
    {
      // Whatever the others do: callers see only the contract.
    }

    /** Call p made the request that led to the present store. */
    ghost method Record(p: nat, c: Choice)
      requires CleanRun(ws, acts) && p in Now().calls && Admissible(Now().s, Now().calls[p], c)
      requires Request(Now().s, Now().calls[p], c).0 == s
      modifies this`ws, this`acts
      ensures Valid() && ws == old(ws) + [Now()] && acts == old(acts) + [Exec(p, c)]
      ensures old(ws) <= ws && old(acts) <= acts
      ensures At(p, old(Request(Now().s, Now().calls[p], c).1))
    {
      Extend(Exec(p, c));
    }

    method Range(key: Bytes) returns (e: Option<Entry>)
      ensures e == Lookup(s, key)
    {
      e := if key in s.entries then Some(s.entries[key]) else None;
    }

    method Transact(guard: Option<Compare>, ops: seq<Op>) returns (reply: TxnReply)
      modifies this`s
      ensures (s, reply) == Txn(old(s), guard, ops)
    {
      var result := Txn(s, guard, ops);
      s, reply := result.0, result.1;
    }

    /** A lease id never handed out before. */
    method LeaseGrant() returns (id: LeaseId)
      modifies this`s
      ensures id != NO_LEASE && id !in old(s.granted) && s == Grant(old(s), id)
    {
      ghost var b := Bounded(s.granted);
      assert b + 1 !in s.granted;
      id :| id != NO_LEASE && id !in s.granted;
      s := Grant(s, id);
    }

    method LeaseRenew(id: LeaseId) returns (ok: bool)
      modifies this`s
      ensures ok == (id in old(s.leases)) && s == Renew(old(s), id) && (ok ==> id in s.leases)
    {
      ok := id in s.leases;
      s := Renew(s, id);
    }

    /** False when there was no such lease to revoke. */
    method LeaseRevoke(id: LeaseId) returns (found: bool, order: seq<Bytes>)
      modifies this`s
      ensures found == (id in old(s.leases)) && Lists(order, old(s), id) && s == Revoke(old(s), id, order)
    {
      var rest := Attached(s, id);
      order := [];
      while rest != {}
        invariant forall k :: k in Attached(s, id) <==> k in rest || k in order
        invariant forall k :: k in rest ==> k !in order
        invariant forall i, j :: 0 <= i < j < |order| ==> order[i] != order[j]
        decreases rest
      {
        var k :| k in rest;
        order, rest := order + [k], rest - {k};
      }
      found := id in s.leases;
      s := Revoke(s, id, order);
    }
  }

  // ---------- GetNodeLease ----------

  /** The lease the node's key names is stored, now, for whoever gets it from here. */
  lemma LeaseIsStored(etcd: EtcdServer, node: NodeSchema, lease: LeaseId)
    requires etcd.Valid() && CleanNode(node)
    requires lease in Past(etcd.Now().published, Id(node)) && lease in etcd.s.leases
    ensures Stored(etcd.s, node) == Some(lease)
  {
    RunInv(etcd.ws, etcd.acts, |etcd.acts|);
    assert LineageOk(etcd.s, etcd.Now().published, Id(node));
    LeaseVersion(etcd.s, etcd.Now().published, node);
  }

  lemma SwappedIsStored(s: Store, node: NodeSchema, last: Option<Seen>, lease: LeaseId)
    requires Txn(s, Some(SwapGuard(node, last)), SwapOps(node, lease)).1 == Replied(true)
    ensures Stored(Txn(s, Some(SwapGuard(node, last)), SwapOps(node, lease)).0, node) == Some(lease)
  {
    hide Print;
    CommitOne(s, OpPut(LeaseText(node), LeaseRef(lease), NO_LEASE));
  }

  /** First half of a round of GetNodeLease: read the lease key and try to renew the lease it names. */
  method RenewStored(etcd: EtcdServer, node: NodeSchema, ghost p: nat, ghost job: Job, ghost base: nat, ghost round: nat)
      returns (kv: Option<Entry>, renewed: Option<LeaseId>)
    requires etcd.Valid() && etcd.At(p, ReadLease(node, job, base, round))
    modifies etcd
    ensures etcd.Valid() && old(etcd.ws) <= etcd.ws && old(etcd.acts) <= etcd.acts
    ensures renewed.Some? ==>
              etcd.At(p, WithLease(node, job, renewed.value)) && Stored(etcd.s, node) == Some(renewed.value)
    ensures renewed.None? ==> etcd.At(p, GrantLease(node, job, BaseOf(base, round, SeenIn(kv)), round, SeenIn(kv)))
  {
    hide Print, CleanRun, Stored, WithLease;
    etcd.Interference(p);
    kv := etcd.Range(LeaseText(node));
    etcd.Record(p, NO_CHOICE);
    if kv.Some? && kv.value.value.LeaseRef? {
      etcd.Interference(p);
      var leaseId := kv.value.value.id;
      var ok := etcd.LeaseRenew(leaseId);
      etcd.Record(p, NO_CHOICE);
      if ok {
        RenewedIsStored(etcd, p, node, job, leaseId);
        return kv, Some(leaseId);
      }
    }
    return kv, None;
  }

  /** What a read of the lease key is remembered as. */
  function SeenIn(kv: Option<Entry>): Option<Seen> {
    if kv.None? then None
    else Some(Seen(if kv.value.value.LeaseRef? then Some(kv.value.value.id) else None, kv.value.version))
  }

  /** Second half: grant a lease and store it, unless the key has changed. None means the swap was lost. */
  method SwapIn(etcd: EtcdServer, node: NodeSchema, kv: Option<Entry>,
                ghost p: nat, ghost job: Job, ghost base: nat, ghost round: nat)
      returns (r: Option<LeaseId>)
    requires etcd.Valid() && etcd.At(p, GrantLease(node, job, base, round, SeenIn(kv)))
    modifies etcd
    ensures etcd.Valid() && old(etcd.ws) <= etcd.ws && old(etcd.acts) <= etcd.acts
    ensures r.Some? ==> etcd.At(p, WithLease(node, job, r.value)) && Stored(etcd.s, node) == Some(r.value)
    ensures r.None? ==> etcd.At(p, NextRound(node, job, base, round))
  {
    hide Print, CleanRun, Txn, Grant, Stored, WithLease, NextRound;
    var key := LeaseText(node);
    etcd.Interference(p);
    var lease := etcd.LeaseGrant();
    etcd.Record(p, Choice(lease, []));
    var guard := if kv.Some? then VersionIs(key, kv.value.version) else CreateRevIs(key, 0);
    etcd.Interference(p);
    ghost var before := etcd.s;
    assert guard == SwapGuard(node, SeenIn(kv));
    var reply := etcd.Transact(Some(guard), SwapOps(node, lease));
    etcd.Record(p, NO_CHOICE);
    if reply == Replied(true) {
      SwappedIsStored(before, node, SeenIn(kv), lease);
      return Some(lease);
    }
    return None;
  }

  /**
   * Read, renew, grant, swap, at most five times. On success the lease returned is the one stored
   * under the node's lease key; an error means five lost swaps.
   */
  method GetNodeLease(etcd: EtcdServer, node: NodeSchema, ghost p: nat, ghost job: Job)
      returns (r: Result<LeaseId, Outcome>)
    requires etcd.Valid() && etcd.At(p, ReadLease(node, job, 0, 0))
    modifies etcd
    ensures etcd.Valid() && old(etcd.ws) <= etcd.ws && old(etcd.acts) <= etcd.acts
    ensures r.Ok? ==> etcd.At(p, WithLease(node, job, r.value)) && Stored(etcd.s, node) == Some(r.value)
    ensures r.Err? ==> r.error == ServerError && exists base :: etcd.At(p, Finished(GaveUp(node, base)))
  {
    hide Print, CleanRun, Stored, WithLease, EtcdServer.Valid, EtcdServer.At;
    var round := 0;
    ghost var base := 0;
    while round < MAX_ROUNDS
      invariant 0 <= round <= MAX_ROUNDS
      invariant etcd.Valid() && old(etcd.ws) <= etcd.ws && old(etcd.acts) <= etcd.acts
      invariant round < MAX_ROUNDS ==> etcd.At(p, ReadLease(node, job, base, round))
      invariant round == MAX_ROUNDS ==> etcd.At(p, Finished(GaveUp(node, base)))
    {
      var kv, lease := RenewStored(etcd, node, p, job, base, round);
      if lease.Some? {
        return Ok(lease.value);
      }
      base := BaseOf(base, round, SeenIn(kv));
      lease := SwapIn(etcd, node, kv, p, job, base, round);
      if lease.Some? {
        return Ok(lease.value);
      }
      round := round + 1;
    }
    return Err(ServerError);
  }

  lemma RenewedIsStored(etcd: EtcdServer, p: nat, node: NodeSchema, job: Job, lease: LeaseId)
    requires etcd.Valid() && etcd.At(p, WithLease(node, job, lease)) && lease in etcd.s.leases
    ensures Stored(etcd.s, node) == Some(lease)
  {
    RunInv(etcd.ws, etcd.acts, |etcd.acts|);
    assert PcOk(etcd.s, etcd.Now().published, etcd.Now().calls[p]);
    LeaseIsStored(etcd, node, lease);
  }

  // ---------- the calls ----------

  /** The last action is p's own request, made where it stood at pc. */
  ghost predicate JustRequested(etcd: EtcdServer, p: nat, pc: Pc)
    reads etcd
  {
    && |etcd.ws| == |etcd.acts| + 1 && |etcd.acts| > 0
    && var t := |etcd.acts| - 1;
       etcd.acts[t].Exec? && etcd.acts[t].p == p && p in etcd.ws[t].calls && etcd.ws[t].calls[p] == pc
  }

  /** The call has just been refused because there is no node of that name in the datacenter. */
  ghost predicate Unknown(etcd: EtcdServer, p: nat, dc: Bytes, name: Bytes, job: Job)
    reads etcd
  {
    && JustRequested(etcd, p, Authenticate(dc, name, job)) && etcd.At(p, Finished(AuthFailed))
    && Print(NodeKey(dc, name)) !in etcd.s.entries
  }

  /** The caller's node record, if there is one. */
  method AuthenticateAgent(etcd: EtcdServer, dc: Bytes, name: Bytes, ghost p: nat, ghost job: Job)
      returns (r: Option<NodeSchema>)
    requires etcd.Valid() && etcd.At(p, Authenticate(dc, name, job))
    modifies etcd
    ensures etcd.Valid() && old(etcd.ws) <= etcd.ws && old(etcd.acts) <= etcd.acts
    ensures r.None? ==> Unknown(etcd, p, dc, name, job)
    ensures r.Some? ==> NodeKnown(etcd.s, r.value) && Id(r.value) == (dc, name)
    ensures r.Some? ==> match job
                        case Register(_, _, _, _, _, _) =>
                          etcd.At(p, ReadLease(r.value, job, 0, 0))
                        case Heartbeat => etcd.At(p, ReadLease(r.value, job, 0, 0))
                        case Deregister(service, instance) => etcd.At(p, DropService(r.value, service, instance))
                        case Reset => etcd.At(p, ReadForReset(r.value))
  {
    hide Print, CleanRun, NodeKnown;
    etcd.Interference(p);
    RecordFound(etcd, p, dc, name, job);
    var kv := etcd.Range(Print(NodeKey(dc, name)));
    etcd.Record(p, NO_CHOICE);
    if kv.None? || !kv.value.value.NodeRecord? {
      return None;
    }
    return Some(kv.value.value.schema);
  }

  lemma RecordFound(etcd: EtcdServer, p: nat, dc: Bytes, name: Bytes, job: Job)
    requires etcd.Valid() && etcd.At(p, Authenticate(dc, name, job))
    ensures Print(NodeKey(dc, name)) in etcd.s.entries ==>
              var v := etcd.s.entries[Print(NodeKey(dc, name))].value;
              v.NodeRecord? && NodeKnown(etcd.s, v.schema) && Id(v.schema) == (dc, name)
  {
    RunInv(etcd.ws, etcd.acts, |etcd.acts|);
    assert PcOk(etcd.s, etcd.Now().published, etcd.Now().calls[p]);
    if Print(NodeKey(dc, name)) in etcd.s.entries {
      AuthenticateOk(etcd.s, etcd.Now().published, dc, name);
    }
  }

  /** The entry under k is this registration, on this lease, put by the latest transaction. */
  ghost predicate RegisteredUnder(s: Store, k: Bytes, sp: ServiceSpec) {
    && k in s.entries && s.entries[k].value == Service(sp) && s.entries[k].modRev == s.rev
    && Stored(s, NodeSchema(sp.node, sp.datacenter, sp.location, Agent)) == Some(s.entries[k].lease)
    && s.entries[k].lease in s.leases
  }

  lemma PutIsRegistered(etcd: EtcdServer, p: nat, node: NodeSchema, sp: ServiceSpec, lease: LeaseId)
    requires etcd.Valid() && etcd.At(p, PutService(node, sp, lease))
    ensures var (t, reply) := Txn(etcd.s, None, RegisterOps(sp, lease));
            && (reply == Replied(true) <==> lease in etcd.s.leases)
            && (reply != Replied(true) ==> t == etcd.s)
            && (reply == Replied(true) ==>
                 RegisteredUnder(t, SvcText(sp), sp) && RegisteredUnder(t, DcText(sp), sp) && FromRecord(t, sp))
  {
    hide Print, Parse, Keeps, Later;
    var s, h, pc := etcd.s, etcd.Now().published, PutService(node, sp, lease);
    RunInv(etcd.ws, etcd.acts, |etcd.acts|);
    assert PcOk(s, h, pc);
    PutKeeps(s, h, pc, NO_CHOICE);
    if lease in s.leases {
      RegisterOk(s, h, sp, node, lease);
      TwinsStored(Commit(s, RegisterOps(sp, lease)), h, node, sp);
    }
  }

  lemma TwinsStored(t: Store, h: History, node: NodeSchema, sp: ServiceSpec)
    requires StoreOk(t, h) && CleanNode(node) && SvcText(sp) in t.entries && t.entries[SvcText(sp)].value == Service(sp)
    requires sp.datacenter == node.datacenter && sp.node == node.name
    ensures LeaseText(node) in t.entries && t.entries[LeaseText(node)].value == LeaseRef(t.entries[SvcText(sp)].lease)
    ensures t.entries[SvcText(sp)].lease in t.leases && FromRecord(t, sp)
  {
    assert ServiceOk(t, h, SvcText(sp));
    OnStoredLease(t, h, node, SvcText(sp));
  }

  /** The spec is what the caller asked for, under its own datacenter and name. */
  predicate AsAsked(sp: ServiceSpec, dc: Bytes, name: Bytes, req: Job)
    requires req.Register?
  {
    && sp.service == req.service && sp.instance == req.instance && sp.datacenter == dc && sp.node == name
    && sp.addresses == (if req.addresses == [] then [req.peer] else req.addresses)
    && sp.ports == req.ports && sp.metricsPort == req.metricsPort
  }

  /** The registration's put has just been refused: the lease it got was no longer live. */
  ghost predicate PutRefused(etcd: EtcdServer, p: nat, node: NodeSchema, sp: ServiceSpec, lease: LeaseId)
    reads etcd
  {
    && JustRequested(etcd, p, PutService(node, sp, lease)) && lease !in etcd.s.leases
    && etcd.s == etcd.ws[|etcd.acts| - 1].s
  }

  /** The only two ways for a known node's registration to fail: five lost swaps, or a lease that died before the put. */
  ghost predicate NothingPut(etcd: EtcdServer, p: nat, dc: Bytes, name: Bytes, req: Job)
    requires req.Register?
    reads etcd
  {
    || (exists node, base :: etcd.At(p, Finished(GaveUp(node, base))) && Id(node) == (dc, name))
    || (exists node, sp, lease :: PutRefused(etcd, p, node, sp, lease) && AsAsked(sp, dc, name, req))
  }

  /** The last request changed the store's entries under these keys only, and no lease. */
  ghost predicate JustPut(etcd: EtcdServer, keys: set<Bytes>)
    reads etcd
  {
    && |etcd.ws| == |etcd.acts| + 1 && |etcd.acts| > 0
    && var s := etcd.ws[|etcd.acts| - 1].s;
       SameBut(s, etcd.s, keys) && etcd.s.leases == s.leases
  }

  /** Location, datacenter and node are those of a stored node record. */
  ghost predicate FromRecord(s: Store, sp: ServiceSpec) {
    exists kind :: NodeKnown(s, NodeSchema(sp.node, sp.datacenter, sp.location, kind))
  }

  lemma GaveUpPutsNothing(etcd: EtcdServer, p: nat, node: NodeSchema, req: Job)
    requires req.Register? && exists base :: etcd.At(p, Finished(GaveUp(node, base)))
    ensures NothingPut(etcd, p, node.datacenter, node.name, req)
  {
    var base :| etcd.At(p, Finished(GaveUp(node, base)));
    assert etcd.At(p, Finished(GaveUp(node, base))) && Id(node) == (node.datacenter, node.name);
  }

  lemma RefusedPutsNothing(etcd: EtcdServer, p: nat, node: NodeSchema, sp: ServiceSpec, lease: LeaseId, req: Job)
    requires req.Register? && PutRefused(etcd, p, node, sp, lease) && AsAsked(sp, node.datacenter, node.name, req)
    ensures NothingPut(etcd, p, node.datacenter, node.name, req)
  {
  }

  /** The transaction that p has just made changed no entry but those it may, and no lease. */
  lemma ChangedOnly(etcd: EtcdServer, p: nat, pc: Pc)
    requires etcd.Valid() && JustRequested(etcd, p, pc) && (pc.PutService? || pc.CreateNode?)
    ensures JustPut(etcd, Touches(etcd.ws[|etcd.acts| - 1].s, pc))
  {
    hide Print, Request;
    var t := |etcd.acts| - 1;
    assert StepAt(etcd.ws, etcd.acts, t);
    RequestTouches(etcd.ws[t].s, pc, etcd.acts[t].choice);
    TransactionFrame(etcd.ws[t].s, pc, etcd.acts[t].choice);
  }

  /** The put itself, with the lease the call got: it is refused exactly if that lease is no longer live. */
  method PutIn(etcd: EtcdServer, node: NodeSchema, spec: ServiceSpec, lease: LeaseId, ghost p: nat) returns (ok: bool)
    requires etcd.Valid() && etcd.At(p, PutService(node, spec, lease))
    modifies etcd
    ensures etcd.Valid() && old(etcd.ws) <= etcd.ws && old(etcd.acts) <= etcd.acts
    ensures ok ==>
              && etcd.At(p, Finished(Registered(spec))) && FromRecord(etcd.s, spec)
              && JustPut(etcd, {SvcText(spec), DcText(spec)})
              && RegisteredUnder(etcd.s, SvcText(spec), spec) && RegisteredUnder(etcd.s, DcText(spec), spec)
    ensures !ok ==> PutRefused(etcd, p, node, spec, lease)
  {
    hide Print, CleanRun, Txn, RegisterOps, RegisteredUnder, NodeKnown, FromRecord;
    etcd.Interference(p);
    PutIsRegistered(etcd, p, node, spec, lease);
    var reply := etcd.Transact(None, RegisterOps(spec, lease));
    etcd.Record(p, NO_CHOICE);
    if reply != Replied(true) {
      return false;
    }
    ChangedOnly(etcd, p, PutService(node, spec, lease));
    return true;
  }

  /** On success the service is stored under both its keys, on the node's stored and live lease. */
  method RegisterService(etcd: EtcdServer, dc: Bytes, name: Bytes, req: Job, ghost p: nat)
      returns (r: Result<ServiceSpec, Outcome>)
    requires etcd.Valid() && req.Register? && etcd.At(p, Authenticate(dc, name, req))
    modifies etcd
    ensures etcd.Valid() && old(etcd.ws) <= etcd.ws && old(etcd.acts) <= etcd.acts
    ensures r.Ok? ==>
              && etcd.At(p, Finished(Registered(r.value)))
              && AsAsked(r.value, dc, name, req) && FromRecord(etcd.s, r.value)
              && JustPut(etcd, {SvcText(r.value), DcText(r.value)})
              && RegisteredUnder(etcd.s, SvcText(r.value), r.value)
              && RegisteredUnder(etcd.s, DcText(r.value), r.value)
    ensures r.Err? ==>
              || (r.error == AuthFailed && Unknown(etcd, p, dc, name, req))
              || (r.error == ServerError && NothingPut(etcd, p, dc, name, req))
  {
    hide Print, CleanRun, Txn, RegisterOps, RegisteredUnder, NodeKnown, FromRecord;
    var node := AuthenticateAgent(etcd, dc, name, p, req);
    if node.None? {
      return Err(AuthFailed);
    }
    var spec := SpecOf(node.value, req);
    assert AsAsked(spec, dc, name, req);
    hide AsAsked, NothingPut, SpecOf;
    var lease := GetNodeLease(etcd, node.value, p, req);
    if lease.Err? {
      GaveUpPutsNothing(etcd, p, node.value, req);
      return Err(lease.error);
    }
    var put := PutIn(etcd, node.value, spec, lease.value, p);
    if !put {
      RefusedPutsNothing(etcd, p, node.value, spec, lease.value, req);
      return Err(ServerError);
    }
    return Ok(spec);
  }

  /** The last request took just the entries of one service and instance of the node out of the store. */
  ghost predicate JustDropped(etcd: EtcdServer, node: NodeSchema, service: Bytes, instance: Bytes)
    reads etcd
  {
    && |etcd.ws| == |etcd.acts| + 1 && |etcd.acts| > 0
    && OnlyDropped(etcd.ws[|etcd.acts| - 1].s, etcd.s, node, service, instance)
  }

  /** On success the caller's entries for that service and instance are gone, at any location, and no others. */
  method DeregisterService(etcd: EtcdServer, dc: Bytes, name: Bytes, service: Bytes, instance: Bytes, ghost p: nat)
      returns (r: Result<NodeSchema, Outcome>)
    requires etcd.Valid() && etcd.At(p, Authenticate(dc, name, Deregister(service, instance)))
    modifies etcd
    ensures etcd.Valid() && old(etcd.ws) <= etcd.ws && old(etcd.acts) <= etcd.acts
    ensures r.Err? ==> r.error == AuthFailed && Unknown(etcd, p, dc, name, Deregister(service, instance))
    ensures r.Ok? ==> etcd.At(p, Finished(Deregistered)) && Id(r.value) == (dc, name)
    ensures r.Ok? ==> forall k :: !IsOf(etcd.s, r.value, service, instance, k)
    ensures r.Ok? ==> JustDropped(etcd, r.value, service, instance)
  {
    hide Print, CleanRun, Txn, DeregisterOps, NodeKnown, IsServiceOf;
    var node := AuthenticateAgent(etcd, dc, name, p, Deregister(service, instance));
    if node.None? {
      return Err(AuthFailed);
    }
    etcd.Interference(p);
    ghost var t := |etcd.acts|;
    DropSucceeds(etcd, p, node.value, service, instance);
    var reply := etcd.Transact(None, DeregisterOps(node.value, service, instance));
    etcd.Record(p, NO_CHOICE);
    NothingLeft(etcd, t, node.value, service, instance);
    return Ok(node.value);
  }

  lemma DropSucceeds(etcd: EtcdServer, p: nat, node: NodeSchema, service: Bytes, instance: Bytes)
    requires etcd.Valid() && etcd.At(p, DropService(node, service, instance))
    ensures Txn(etcd.s, None, DeregisterOps(node, service, instance)).1 == Replied(true)
  {
    hide Print;
  }

  lemma NothingLeft(etcd: EtcdServer, t: nat, node: NodeSchema, service: Bytes, instance: Bytes)
    requires etcd.Valid() && |etcd.acts| == t + 1 && etcd.acts[t].Exec?
    requires etcd.acts[t].p in etcd.ws[t].calls && etcd.ws[t].calls[etcd.acts[t].p] == DropService(node, service, instance)
    ensures JustDropped(etcd, node, service, instance)
    ensures forall k :: !IsOf(etcd.s, node, service, instance, k)
  {
    DeregisterClears(etcd.ws, etcd.acts, t);
  }

  /** Reset read the lease key at the given revision or later, and no older service entry is left. */
  ghost predicate ClearSince(etcd: EtcdServer, p: nat, node: NodeSchema, start: nat)
    reads etcd
  {
    exists readRev ::
      && readRev >= start && etcd.At(p, Finished(WasReset(node, readRev)))
      && forall k :: IsServiceOf(etcd.s, node, k) ==> etcd.s.entries[k].modRev > readRev
  }

  /** Reads the node's lease key and revokes the lease it names; a lease that is gone already will do. */
  method ResetLease(etcd: EtcdServer, node: NodeSchema, ghost p: nat) returns (ghost readRev: nat)
    requires etcd.Valid() && etcd.At(p, ReadForReset(node))
    modifies etcd
    ensures etcd.Valid() && old(etcd.ws) <= etcd.ws && old(etcd.acts) <= etcd.acts
    ensures readRev >= old(etcd.s.rev) && etcd.At(p, Finished(WasReset(node, readRev)))
  {
    hide Print, CleanRun, NodeKnown, Lists, Kill, AuthenticateRequest, SwapRequest, RenewRequest;
    ghost var start := |etcd.acts|;
    etcd.Interference(p);
    readRev := etcd.s.rev;
    RevisionsGrow(etcd, start);
    var kv := etcd.Range(LeaseText(node));
    etcd.Record(p, NO_CHOICE);
    if kv.Some? && kv.value.value.LeaseRef? {
      etcd.Interference(p);
      var found, order := etcd.LeaseRevoke(kv.value.value.id);
      etcd.Record(p, Choice(NO_LEASE, order));
    }
  }

  /** When Reset returns, every service entry of the caller was put after Reset's read, so after its call. */
  method ResetNode(etcd: EtcdServer, dc: Bytes, name: Bytes, ghost p: nat)
      returns (r: Result<NodeSchema, Outcome>)
    requires etcd.Valid() && etcd.At(p, Authenticate(dc, name, Reset))
    modifies etcd
    ensures etcd.Valid() && old(etcd.ws) <= etcd.ws && old(etcd.acts) <= etcd.acts
    ensures r.Err? ==> r.error == AuthFailed && Unknown(etcd, p, dc, name, Reset)
    ensures r.Ok? ==> Id(r.value) == (dc, name)
    ensures r.Ok? ==> ClearSince(etcd, p, r.value, old(etcd.s.rev))
  {
    hide Print, CleanRun, NodeKnown, ClearSince;
    ghost var start := |etcd.acts|;
    var node := AuthenticateAgent(etcd, dc, name, p, Reset);
    if node.None? {
      return Err(AuthFailed);
    }
    RevisionsGrow(etcd, start);
    ghost var readRev := ResetLease(etcd, node.value, p);
    NothingOlder(etcd, p, node.value, readRev, old(etcd.s.rev));
    return Ok(node.value);
  }

  lemma RevisionsGrow(etcd: EtcdServer, i: nat)
    requires etcd.Valid() && i <= |etcd.acts|
    ensures etcd.ws[i].s.rev <= etcd.s.rev
  {
    RunLater(etcd.ws, etcd.acts, i, |etcd.acts|);
  }

  lemma NothingOlder(etcd: EtcdServer, p: nat, node: NodeSchema, readRev: nat, start: nat)
    requires etcd.Valid() && etcd.At(p, Finished(WasReset(node, readRev))) && readRev >= start
    ensures ClearSince(etcd, p, node, start)
  {
    RunInv(etcd.ws, etcd.acts, |etcd.acts|);
    assert PcOk(etcd.s, etcd.Now().published, etcd.Now().calls[p]);
    forall k | IsServiceOf(etcd.s, node, k) ensures etcd.s.entries[k].modRev > readRev {
      assert EntryOk(etcd.s, k);
    }
  }

  /** Heartbeat drops GetNodeLease's result: it answers the same when the lease could not be had. */
  method HeartbeatNode(etcd: EtcdServer, dc: Bytes, name: Bytes, ghost p: nat) returns (r: Result<NodeSchema, Outcome>)
    requires etcd.Valid() && etcd.At(p, Authenticate(dc, name, Heartbeat))
    modifies etcd
    ensures etcd.Valid() && old(etcd.ws) <= etcd.ws && old(etcd.acts) <= etcd.acts
    ensures r.Err? ==> r.error == AuthFailed && Unknown(etcd, p, dc, name, Heartbeat)
    ensures r.Ok? ==> Id(r.value) == (dc, name)
    ensures r.Ok? ==>
              || (exists base: nat :: etcd.At(p, Finished(GaveUp(r.value, base))))
              || (exists lease: LeaseId ::
                    etcd.At(p, Finished(Beat(r.value, lease))) && Stored(etcd.s, r.value) == Some(lease))
  {
    hide Print, CleanRun, NodeKnown, Stored;
    var node := AuthenticateAgent(etcd, dc, name, p, Heartbeat);
    if node.None? {
      return Err(AuthFailed);
    }
    var ignored := GetNodeLease(etcd, node.value, p, Heartbeat);
    return Ok(node.value);
  }

  /** Creates the node's record, or fails and leaves the one there is. */
  method AddNode(etcd: EtcdServer, node: NodeSchema, ghost p: nat) returns (r: Result<NodeSchema, Outcome>)
    requires etcd.Valid() && etcd.At(p, CreateNode(node))
    modifies etcd
    ensures etcd.Valid() && old(etcd.ws) <= etcd.ws && old(etcd.acts) <= etcd.acts
    ensures r.Ok? ==> JustPut(etcd, {NodeText(node)})
    ensures r.Ok? ==> r.value == node && NodeKnown(etcd.s, node) && etcd.At(p, Finished(NodeAdded(node)))
    ensures r.Err? ==> r.error == AlreadyExists && NodeText(node) in etcd.s.entries && etcd.At(p, Finished(AlreadyExists))
    ensures r.Err? ==> |etcd.acts| > 0 && etcd.s == etcd.ws[|etcd.acts| - 1].s
  {
    hide Print, CleanRun, Txn, CreateOps, NodeKnown;
    etcd.Interference(p);
    ghost var before := etcd.s;
    Creation(etcd, p, node);
    var reply := etcd.Transact(Some(CreateRevIs(NodeText(node), 0)), CreateOps(node));
    etcd.Record(p, NO_CHOICE);
    if reply != Replied(true) {
      return Err(AlreadyExists);
    }
    ChangedOnly(etcd, p, CreateNode(node));
    return Ok(node);
  }

  lemma Creation(etcd: EtcdServer, p: nat, node: NodeSchema)
    requires etcd.Valid() && etcd.At(p, CreateNode(node))
    ensures var (t, reply) := Txn(etcd.s, Some(CreateRevIs(NodeText(node), 0)), CreateOps(node));
            if reply == Replied(true) then NodeKnown(t, node) else NodeText(node) in t.entries && t == etcd.s
  {
    var s, h := etcd.s, etcd.Now().published;
    RunInv(etcd.ws, etcd.acts, |etcd.acts|);
    assert PcOk(s, h, CreateNode(node));
    CreateKeeps(s, h, CreateNode(node), NO_CHOICE);
  }
}
