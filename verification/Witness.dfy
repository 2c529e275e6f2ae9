/** Runs that show what can happen: nodes are added, and one of them registers a service and deregisters it. */
module Witness {
  import opened Wrappers
  import opened Keys
  import opened Etcd
  import opened Protocol
  import opened Invariant
  import opened Runs

  /** The state a run has come to. */
  function Last(ws: seq<World>, acts: seq<Action>): World
    requires |ws| == |acts| + 1
  {
    ws[|acts|]
  }

  ghost predicate Continues(ws: seq<World>, acts: seq<Action>, vs: seq<World>, bs: seq<Action>) {
    CleanRun(ws, acts) && CleanRun(vs, bs) && ws <= vs && acts <= bs
  }

  lemma StartRun()
    ensures CleanRun([START], [])
  {
  }

  lemma OneMore(ws: seq<World>, acts: seq<Action>, a: Action)
    requires CleanRun(ws, acts) && Enabled(Last(ws, acts), a) && (a.Begin? ==> CleanCall(a.first))
    ensures Continues(ws, acts, ws + [Next(Last(ws, acts), a)], acts + [a])
  {
    hide Enabled, Next, CleanCall;
    var vs, bs := ws + [Next(Last(ws, acts), a)], acts + [a];
    forall i | 0 <= i < |bs| ensures StepAt(vs, bs, i) {
      if i < |acts| {
        assert StepAt(ws, acts, i);
      }
    }
  }

  /** A call arrives. */
  lemma Arrives(ws: seq<World>, acts: seq<Action>, p: nat, first: Pc) returns (vs: seq<World>, bs: seq<Action>)
    requires CleanRun(ws, acts) && p !in Last(ws, acts).calls && CleanCall(first)
    ensures Continues(ws, acts, vs, bs) && Last(vs, bs).s == Last(ws, acts).s
    ensures Last(vs, bs).calls == Last(ws, acts).calls[p := first]
  {
    OneMore(ws, acts, Begin(p, first));
    vs, bs := ws + [Next(Last(ws, acts), Begin(p, first))], acts + [Begin(p, first)];
  }

  /** A call makes its next request. */
  lemma Requests(ws: seq<World>, acts: seq<Action>, p: nat, c: Choice) returns (vs: seq<World>, bs: seq<Action>)
    requires CleanRun(ws, acts) && p in Last(ws, acts).calls && Admissible(Last(ws, acts).s, Last(ws, acts).calls[p], c)
    ensures Continues(ws, acts, vs, bs)
    ensures var w := Last(ws, acts);
            var (t, after) := Request(w.s, w.calls[p], c);
            Last(vs, bs).s == t && Last(vs, bs).calls == w.calls[p := after]
  {
    hide Request, CleanActions, StepAt;
    assert CleanRun(ws, acts);
    OneMore(ws, acts, Exec(p, c));
    vs, bs := ws + [Next(Last(ws, acts), Exec(p, c))], acts + [Exec(p, c)];
    EndsWith(ws, acts, Exec(p, c));
  }

  lemma EndsWith(ws: seq<World>, acts: seq<Action>, a: Action)
    requires |ws| == |acts| + 1 && Enabled(Last(ws, acts), a)
    ensures Last(ws + [Next(Last(ws, acts), a)], acts + [a]) == Next(Last(ws, acts), a)
  {
    hide Enabled, Next;
  }

  const ANY := Choice(NO_LEASE, [])

  lemma CreateResult(s: Store, node: NodeSchema)
    requires LogFaithful(s) && NodeText(node) !in s.entries
    ensures var t := Request(s, CreateNode(node), ANY).0;
            && t.entries == s.entries[NodeText(node) := Entry(NodeRecord(node), s.rev + 1, s.rev + 1, 1, NO_LEASE)]
            && t.log == s.log + [Put(NodeText(node), NodeRecord(node))]
            && t.leases == s.leases && t.granted == s.granted
  {
    hide Print;
    CommitPut(s, NodeText(node), NodeRecord(node), NO_LEASE);
    assert AllAttachable(s, CreateOps(node));
  }

  /** AddNode. */
  lemma Adds(ws: seq<World>, acts: seq<Action>, p: nat, node: NodeSchema) returns (vs: seq<World>, bs: seq<Action>)
    requires CleanRun(ws, acts) && p !in Last(ws, acts).calls && CleanNode(node)
    requires NodeText(node) !in Last(ws, acts).s.entries
    ensures Continues(ws, acts, vs, bs) && Last(vs, bs).calls.Keys == Last(ws, acts).calls.Keys + {p}
    ensures var s, t := Last(ws, acts).s, Last(vs, bs).s;
            && t.entries == s.entries[NodeText(node) := Entry(NodeRecord(node), s.rev + 1, s.rev + 1, 1, NO_LEASE)]
            && t.log == s.log + [Put(NodeText(node), NodeRecord(node))]
            && t.leases == s.leases && t.granted == s.granted
  {
    hide Print, CleanActions, Request, StepAt;
    vs, bs := Arrives(ws, acts, p, CreateNode(node));
    Faithful(ws, acts);
    CreateResult(Last(ws, acts).s, node);
    vs, bs := Requests(vs, bs, p, ANY);
  }

  lemma Faithful(ws: seq<World>, acts: seq<Action>)
    requires CleanRun(ws, acts)
    ensures LogFaithful(Last(ws, acts).s) && Last(ws, acts).s.leases.Keys <= Last(ws, acts).s.granted
  {
    RunInv(ws, acts, |acts|);
  }

  /** The store after a first registration of a node, on its first lease. */
  ghost predicate FirstRegistered(s: Store, t: Store, node: NodeSchema, sp: ServiceSpec, lease: LeaseId) {
    && SvcText(sp) in t.entries && t.entries[SvcText(sp)].value == Service(sp)
    && LeaseText(node) in t.entries && t.entries[LeaseText(node)].value == LeaseRef(lease)
    && t.entries == s.entries[LeaseText(node) := t.entries[LeaseText(node)]]
                    [SvcText(sp) := t.entries[SvcText(sp)]][DcText(sp) := t.entries[SvcText(sp)]]
    && t.log == s.log + [Put(LeaseText(node), LeaseRef(lease)), Put(SvcText(sp), Service(sp)), Put(DcText(sp), Service(sp))]
  }

  lemma SwapResult(s: Store, node: NodeSchema, job: Job, lease: LeaseId)
    requires LogFaithful(s) && LeaseText(node) !in s.entries
    ensures var (t, after) := Request(s, SwapLease(node, job, 0, 0, None, lease), ANY);
            && after == WithLease(node, job, lease) && LogFaithful(t)
            && t.entries == s.entries[LeaseText(node) := Entry(LeaseRef(lease), s.rev + 1, s.rev + 1, 1, NO_LEASE)]
            && t.log == s.log + [Put(LeaseText(node), LeaseRef(lease))]
            && t.leases == s.leases
  {
    hide Print, WithLease, LogFaithful;
    CommitPut(s, LeaseText(node), LeaseRef(lease), NO_LEASE);
    assert AllAttachable(s, SwapOps(node, lease));
  }

  lemma PutResult(s: Store, node: NodeSchema, sp: ServiceSpec, lease: LeaseId)
    requires LogFaithful(s) && SvcText(sp) !in s.entries && DcText(sp) !in s.entries && SvcText(sp) != DcText(sp)
    requires lease in s.leases
    ensures var t := Request(s, PutService(node, sp, lease), ANY).0;
            && SvcText(sp) in t.entries && t.entries[SvcText(sp)].value == Service(sp)
            && t.entries == s.entries[SvcText(sp) := t.entries[SvcText(sp)]][DcText(sp) := t.entries[SvcText(sp)]]
            && t.log == s.log + [Put(SvcText(sp), Service(sp)), Put(DcText(sp), Service(sp))]
  {
    hide Print;
    CommitTwins(s, SvcText(sp), DcText(sp), Service(sp), lease);
    assert AllAttachable(s, RegisterOps(sp, lease));
  }

  lemma KeysApart(sp: ServiceSpec, node: NodeSchema)
    ensures SvcText(sp) != DcText(sp) && LeaseText(node) != SvcText(sp) && LeaseText(node) != DcText(sp)
    ensures NodeText(node) != SvcText(sp) && NodeText(node) != DcText(sp) && NodeText(node) != LeaseText(node)
  {
    assert SvcText(sp)[0] == SERVICE_NS[0] && DcText(sp)[0] == DC_SERVICE_NS[0];
    assert LeaseText(node)[0] == LEASES_NS[0] && NodeText(node)[0] == NODES_NS[0];
    assert LeaseText(node)[..4] == LEASES_NS[..4] && NodeText(node)[..4] == NODES_NS[..4];
  }

  /** Register up to the swap, by a known node that has no lease yet. */
  lemma ComesToSwap(ws: seq<World>, acts: seq<Action>, p: nat, node: NodeSchema, job: Job, lease: LeaseId)
      returns (vs: seq<World>, bs: seq<Action>)
    requires CleanRun(ws, acts) && p !in Last(ws, acts).calls && job.Register? && CleanJob(job)
    requires NodeKnown(Last(ws, acts).s, node) && LeaseText(node) !in Last(ws, acts).s.entries
    requires lease != NO_LEASE && lease !in Last(ws, acts).s.granted
    ensures Continues(ws, acts, vs, bs) && Last(vs, bs).s == Grant(Last(ws, acts).s, lease)
    ensures Last(vs, bs).calls == Last(ws, acts).calls[p := SwapLease(node, job, 0, 0, None, lease)]
  {
    hide Print, CleanActions, StepAt, SpecOf;
    vs, bs := Arrives(ws, acts, p, Authenticate(node.datacenter, node.name, job));
    vs, bs := Requests(vs, bs, p, ANY);
    assert Last(vs, bs).calls[p] == ReadLease(node, job, 0, 0);
    vs, bs := Requests(vs, bs, p, ANY);
    assert Last(vs, bs).calls[p] == GrantLease(node, job, 0, 0, None);
    vs, bs := Requests(vs, bs, p, Choice(lease, []));
  }

  /** Register up to the put of the service. */
  lemma ComesToPut(ws: seq<World>, acts: seq<Action>, p: nat, node: NodeSchema, job: Job, lease: LeaseId)
      returns (vs: seq<World>, bs: seq<Action>)
    requires CleanRun(ws, acts) && p !in Last(ws, acts).calls && job.Register? && CleanJob(job)
    requires NodeKnown(Last(ws, acts).s, node) && LeaseText(node) !in Last(ws, acts).s.entries
    requires lease != NO_LEASE && lease !in Last(ws, acts).s.granted
    ensures Continues(ws, acts, vs, bs)
    ensures Last(vs, bs).calls == Last(ws, acts).calls[p := PutService(node, SpecOf(node, job), lease)]
    ensures var s, t := Last(ws, acts).s, Last(vs, bs).s;
            && t.entries == s.entries[LeaseText(node) := Entry(LeaseRef(lease), s.rev + 1, s.rev + 1, 1, NO_LEASE)]
            && t.log == s.log + [Put(LeaseText(node), LeaseRef(lease))] && lease in t.leases && LogFaithful(t)
  {
    hide Print, CleanActions, StepAt, SpecOf, Request, LeaseText, CleanJob, NodeKnown;
    vs, bs := ComesToSwap(ws, acts, p, node, job, lease);
    Faithful(vs, bs);
    SwapResult(Last(vs, bs).s, node, job, lease);
    vs, bs := Requests(vs, bs, p, ANY);
  }

  /** Register, on the node's first lease. */
  lemma Registers(ws: seq<World>, acts: seq<Action>, p: nat, node: NodeSchema, job: Job, lease: LeaseId)
      returns (vs: seq<World>, bs: seq<Action>)
    requires CleanRun(ws, acts) && p !in Last(ws, acts).calls && job.Register? && CleanJob(job)
    requires NodeKnown(Last(ws, acts).s, node) && LeaseText(node) !in Last(ws, acts).s.entries
    requires SvcText(SpecOf(node, job)) !in Last(ws, acts).s.entries && DcText(SpecOf(node, job)) !in Last(ws, acts).s.entries
    requires lease != NO_LEASE && lease !in Last(ws, acts).s.granted
    ensures Continues(ws, acts, vs, bs) && Last(vs, bs).calls.Keys == Last(ws, acts).calls.Keys + {p}
    ensures FirstRegistered(Last(ws, acts).s, Last(vs, bs).s, node, SpecOf(node, job), lease)
  {
    hide Print, CleanActions, StepAt, SpecOf, Request, SvcText, DcText, LeaseText, CleanJob, NodeKnown, LogFaithful;
    var sp := SpecOf(node, job);
    KeysApart(sp, node);
    vs, bs := ComesToPut(ws, acts, p, node, job, lease);
    PutResult(Last(vs, bs).s, node, sp, lease);
    vs, bs := Requests(vs, bs, p, ANY);
  }

  lemma DropResult(s: Store, node: NodeSchema, sp: ServiceSpec)
    requires LogFaithful(s) && SvcText(sp) in s.entries && DcText(sp) in s.entries && SvcText(sp) != DcText(sp)
    requires sp.location == node.location && sp.datacenter == node.datacenter && sp.node == node.name
    ensures var t := Request(s, DropService(node, sp.service, sp.instance), ANY).0;
            t.entries == s.entries - {SvcText(sp), DcText(sp)} && t.log == s.log + [Delete(SvcText(sp)), Delete(DcText(sp))]
  {
    hide Print;
    CommitDeletes(s, SvcText(sp), DcText(sp));
    CommitTwo(s, OpDelete(SvcText(sp)), OpDelete(DcText(sp)));
    assert AllAttachable(s, DeregisterOps(node, sp.service, sp.instance));
    assert s.log + [Delete(SvcText(sp))] + [Delete(DcText(sp))] == s.log + [Delete(SvcText(sp)), Delete(DcText(sp))];
  }

  /** Deregister, of a stored service. */
  lemma Deregisters(ws: seq<World>, acts: seq<Action>, p: nat, node: NodeSchema, sp: ServiceSpec)
      returns (vs: seq<World>, bs: seq<Action>)
    requires CleanRun(ws, acts) && p !in Last(ws, acts).calls && SlashFree(sp.service) && SlashFree(sp.instance)
    requires NodeKnown(Last(ws, acts).s, node)
    requires sp.location == node.location && sp.datacenter == node.datacenter && sp.node == node.name
    requires SvcText(sp) in Last(ws, acts).s.entries && DcText(sp) in Last(ws, acts).s.entries
    ensures Continues(ws, acts, vs, bs)
    ensures var s, t := Last(ws, acts).s, Last(vs, bs).s;
            t.entries == s.entries - {SvcText(sp), DcText(sp)} && t.log == s.log + [Delete(SvcText(sp)), Delete(DcText(sp))]
  {
    hide Print, CleanActions, StepAt, DropRequest;
    KeysApart(sp, node);
    vs, bs := Arrives(ws, acts, p, Authenticate(node.datacenter, node.name, Deregister(sp.service, sp.instance)));
    vs, bs := Requests(vs, bs, p, ANY);
    assert Last(vs, bs).calls[p] == DropService(node, sp.service, sp.instance);
    Faithful(vs, bs);
    DropResult(Last(vs, bs).s, node, sp);
    vs, bs := Requests(vs, bs, p, ANY);
  }

  // ---------- two nodes, one service ----------

  /** The store with the records of two nodes. */
  ghost predicate TwoNodes(s: Store, caller: NodeSchema, node: NodeSchema) {
    && s.entries.Keys == {NodeText(caller), NodeText(node)}
    && NodeKnown(s, caller) && NodeKnown(s, node)
    && s.log == [Put(NodeText(caller), NodeRecord(caller)), Put(NodeText(node), NodeRecord(node))]
    && s.granted == {}
  }

  lemma TwoAdded(caller: NodeSchema, node: NodeSchema) returns (ws: seq<World>, acts: seq<Action>)
    requires CleanNode(caller) && CleanNode(node) && Id(caller) != Id(node)
    ensures CleanRun(ws, acts) && TwoNodes(Last(ws, acts).s, caller, node) && Last(ws, acts).calls.Keys == {0, 1}
  {
    hide Print, Parse, CleanActions, StepAt;
    PrintParse(NodeKey(caller.datacenter, caller.name));
    PrintParse(NodeKey(node.datacenter, node.name));
    StartRun();
    ws, acts := Adds([START], [], 0, caller);
    ws, acts := Adds(ws, acts, 1, node);
  }

  /** What two nodes and the service of one of them leave in the store. */
  ghost predicate OneService(s: Store, caller: NodeSchema, node: NodeSchema, sp: ServiceSpec) {
    && s.entries.Keys == {NodeText(caller), NodeText(node), LeaseText(node), SvcText(sp), DcText(sp)}
    && NodeKnown(s, caller) && NodeKnown(s, node)
    && s.entries[SvcText(sp)].value == Service(sp) && s.entries[DcText(sp)].value == Service(sp)
    && s.entries[LeaseText(node)].value.LeaseRef?
  }

  lemma OneRegistered(caller: NodeSchema, node: NodeSchema, job: Job)
      returns (ws: seq<World>, acts: seq<Action>, vs: seq<World>, bs: seq<Action>)
    requires CleanNode(caller) && CleanNode(node) && Id(caller) != Id(node) && job.Register? && CleanJob(job)
    ensures Continues(ws, acts, vs, bs) && TwoNodes(Last(ws, acts).s, caller, node)
    ensures OneService(Last(vs, bs).s, caller, node, SpecOf(node, job)) && 3 !in Last(vs, bs).calls
    ensures |Last(vs, bs).s.log| == 5 && Last(vs, bs).s.log[..2] == Last(ws, acts).s.log
  {
    hide Print, Parse, CleanActions, StepAt, SpecOf;
    var sp := SpecOf(node, job);
    ws, acts := TwoAdded(caller, node);
    KeysApart(sp, node);
    KeysApart(sp, caller);
    PrintParse(NodeKey(caller.datacenter, caller.name));
    PrintParse(NodeKey(node.datacenter, node.name));
    PrintParse(LeaseKey(node.datacenter, node.name));
    vs, bs := Registers(ws, acts, 2, node, job, 1);
  }
}
