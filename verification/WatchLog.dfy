/** The history that the registry's runs leave in the store is one the observer can rely on. */
module WatchLog {
  import opened ByteStrings
  import opened Wrappers
  import opened Keys
  import opened Etcd
  import opened Protocol
  import opened Invariant
  import opened Runs
  import opened Observer
  import opened Convergence
  import opened Witness

  predicate OpOk(op: Op) {
    EventOk(if op.OpPut? then Put(op.key, op.value) else Delete(op.key))
  }

  lemma {:induction false} ApplyAllLog(s: Store, rev: nat, ops: seq<Op>)
    requires LogOk(s.log) && forall i :: 0 <= i < |ops| ==> OpOk(ops[i])
    ensures LogOk(ApplyAll(s, rev, ops).log)
    decreases |ops|
  {
    if ops != [] {
      assert OpOk(ops[0]);
      ApplyAllLog(Apply(s, rev, ops[0]), rev, ops[1..]);
    }
  }

  lemma TxnLog(s: Store, guard: Option<Compare>, ops: seq<Op>)
    requires LogOk(s.log) && forall i :: 0 <= i < |ops| ==> OpOk(ops[i])
    ensures LogOk(Txn(s, guard, ops).0.log)
  {
    ApplyAllLog(s, s.rev + 1, ops);
  }

  lemma {:induction false} DeletionsLog(order: seq<Bytes>)
    requires forall k :: k in order ==> Parse(k).Some?
    ensures LogOk(Deletions(order))
  {
    if order != [] {
      var init, last := order[..|order| - 1], order[|order| - 1];
      assert order == init + [last];
      DeletionsLog(init);
    }
  }

  lemma KillLog(s: Store, h: History, id: LeaseId, order: seq<Bytes>)
    requires StoreOk(s, h) && LogOk(s.log) && Lists(order, s, id)
    ensures LogOk(Kill(s, id, order).log)
  {
    forall k | k in order ensures Parse(k).Some? {
      assert EntryOk(s, k);
    }
    DeletionsLog(order);
  }

  lemma RegisterOpsOk(s: Store, spec: ServiceSpec, node: NodeSchema, lease: LeaseId)
    requires SpecOfNode(s, spec, node)
    ensures forall i :: 0 <= i < |RegisterOps(spec, lease)| ==> OpOk(RegisterOps(spec, lease)[i])
  {
    hide Print, Parse;
    SpecKeys(s, spec, node);
  }

  lemma DeregisterOpsOk(s: Store, node: NodeSchema, service: Bytes, instance: Bytes)
    requires NodeKnown(s, node) && SlashFree(service) && SlashFree(instance)
    ensures forall i :: 0 <= i < |DeregisterOps(node, service, instance)| ==> OpOk(DeregisterOps(node, service, instance)[i])
  {
    hide Print, Parse;
    PrintParse(ServiceKey(service, node.location, node.datacenter, node.name, instance));
    PrintParse(DcServiceKey(node.datacenter, node.name, service, instance));
  }

  lemma RequestLog(s: Store, h: History, pc: Pc, c: Choice)
    requires StoreOk(s, h) && PcOk(s, h, pc) && Admissible(s, pc, c) && LogOk(s.log)
    ensures LogOk(Request(s, pc, c).0.log)
  {
    hide Print, Parse, Txn, EventOk, StoreOk;
    match pc
    case SwapLease(node, _, _, _, last, lease) =>
      PlainOpOk(LeaseKey(node.datacenter, node.name), LeaseRef(lease));
      TxnLog(s, Some(SwapGuard(node, last)), SwapOps(node, lease));
    case PutService(node, spec, lease) =>
      RegisterOpsOk(s, spec, node, lease);
      TxnLog(s, None, RegisterOps(spec, lease));
    case DropService(node, service, instance) =>
      DeregisterOpsOk(s, node, service, instance);
      TxnLog(s, None, DeregisterOps(node, service, instance));
    case CreateNode(node) =>
      PlainOpOk(NodeKey(node.datacenter, node.name), NodeRecord(node));
      TxnLog(s, Some(CreateRevIs(NodeText(node), 0)), CreateOps(node));
    case Announce(server, host) =>
      PlainOpOk(AddressKey(server), Address(host));
      TxnLog(s, None, AnnounceOps(server, host));
    case RevokeLease(_, lease, _) =>
      if lease in s.leases {
        KillLog(s, h, lease, c.order);
      }
    case _ =>
  }

  lemma PlainOpOk(key: Key, v: Value)
    requires Clean(key) && !key.DcServiceKey?
    ensures OpOk(OpPut(Print(key), v, NO_LEASE))
  {
    PrintParse(key);
  }

  /** In every reachable state every event names its key's service, and replaying them all gives the store. */
  lemma {:induction false} ReachableLog(ws: seq<World>, acts: seq<Action>, i: nat)
    requires CleanRun(ws, acts) && i < |ws|
    ensures LogOk(ws[i].s.log) && At(ws[i].s.log, |ws[i].s.log|) == Values(ws[i].s.entries)
  {
    RunInv(ws, acts, i);
    assert ws[i].s.log[..|ws[i].s.log|] == ws[i].s.log;
    if i > 0 {
      var w, a := ws[i - 1], acts[i - 1];
      ReachableLog(ws, acts, i - 1);
      RunInv(ws, acts, i - 1);
      assert StepAt(ws, acts, i - 1);
      if a.Exec? {
        assert PcOk(w.s, w.published, w.calls[a.p]);
        RequestLog(w.s, w.published, w.calls[a.p], a.choice);
      } else if a.Expire? {
        KillLog(w.s, w.published, a.lease, a.order);
      }
    }
  }

  lemma StoredIsService(ws: seq<World>, acts: seq<Action>, i: nat, dc: Bytes, id: ServiceId)
    requires CleanRun(ws, acts) && i < |ws| && SlashFree(dc) && CleanId(id) && KeyOf(dc, id) in ws[i].s.entries
    ensures ws[i].s.entries[KeyOf(dc, id)].value.Service?
  {
    hide Print, Parse;
    RunInv(ws, acts, i);
    PrintParse(DcServiceKey(dc, id.node, id.service, id.instance));
    assert EntryOk(ws[i].s, KeyOf(dc, id));
  }

  /**
   * From the registry's calls to the scrape targets: an observer of any reachable store that has read the
   * whole stream, with a snapshot no older than the events handled before it, has for every service of
   * its datacenter the target of its stored spec, or none; only a service stored without a port is excepted.
   */
  lemma TargetsMirrorStore(ws: seq<World>, acts: seq<Action>, i: nat, dc: Bytes, w: nat, e: nat, r: nat,
                           keys: seq<Bytes>, id: ServiceId)
    requires CleanRun(ws, acts) && i < |ws| && SlashFree(dc) && CleanId(id)
    requires w <= e <= r <= |ws[i].s.log| && Snapshot(At(ws[i].s.log, r), dc, keys)
    ensures var s, k := ws[i].s, KeyOf(dc, id);
            k !in s.entries || (s.entries[k].value.Service? && Ported(s.entries[k].value.spec)) ==>
              Look(Observed(s.log, dc, w, e, r, |s.log|, keys), id)
              == (if k in s.entries then Some(TargetOf(s.entries[k].value.spec)) else None)
    ensures var s, t, k := ws[i].s, Observed(ws[i].s.log, dc, w, e, r, |ws[i].s.log|, keys), KeyOf(dc, id);
            && (k !in s.entries ==> id !in t)
            && (k in s.entries ==>
                 && s.entries[k].value.Service?
                 && var port := s.entries[k].value.spec.metricsPort;
                    (port.Some? && port.value != 0 ==> id in t && Shows(t[id], s.entries[k].value.spec)))
  {
    hide Print, Parse, Heard, Observed;
    ReachableLog(ws, acts, i);
    var s, k := ws[i].s, KeyOf(dc, id);
    if k in s.entries {
      StoredIsService(ws, acts, i, dc, id);
    }
    if k !in s.entries || (s.entries[k].value.Service? && Ported(s.entries[k].value.spec)) {
      GoneOrPortedIsExact(s.log, dc, w, e, r, |s.log|, keys, id);
    }
  }

  // ---------- orders that do harm ----------

  /** A prefix of a run leaves a prefix of the history: the contents then are the contents at that position. */
  lemma ThenContents(ws: seq<World>, acts: seq<Action>, log: seq<Event>, r: nat)
    requires CleanRun(ws, acts) && r <= |log| && log[..r] == Last(ws, acts).s.log
    ensures At(log, r) == Values(Last(ws, acts).s.entries)
  {
    ReachableLog(ws, acts, |acts|);
    var short := Last(ws, acts).s.log;
    assert short[..|short|] == short;
  }

  lemma NodesAreNotWatched(s: Store, caller: NodeSchema, node: NodeSchema, dc: Bytes)
    requires TwoNodes(s, caller, node) && SlashFree(dc)
    ensures Snapshot(Values(s.entries), dc, [])
  {
    hide Print, Parse, Watched;
    PrintParse(NodeKey(caller.datacenter, caller.name));
    PrintParse(NodeKey(node.datacenter, node.name));
    WatchedKeys(dc, NodeText(caller));
    WatchedKeys(dc, NodeText(node));
  }

  lemma ServiceIsWatched(s: Store, caller: NodeSchema, node: NodeSchema, sp: ServiceSpec)
    requires OneService(s, caller, node, sp) && SpecOfNode(s, sp, node)
    ensures Snapshot(Values(s.entries), sp.datacenter, [DcText(sp)])
    ensures Watched(sp.datacenter, DcText(sp)) && DcText(sp) == KeyOf(sp.datacenter, IdOf(sp)) && CleanId(IdOf(sp))
  {
    hide Print, Parse, Watched;
    var dc := sp.datacenter;
    SpecKeys(s, sp, node);
    PrintParse(NodeKey(caller.datacenter, caller.name));
    PrintParse(NodeKey(node.datacenter, node.name));
    PrintParse(LeaseKey(node.datacenter, node.name));
    WatchedKeys(dc, NodeText(caller));
    WatchedKeys(dc, NodeText(node));
    WatchedKeys(dc, LeaseText(node));
    WatchedKeys(dc, SvcText(sp));
    WatchedKeys(dc, DcText(sp));
  }

  lemma SpecIsOf(s: Store, caller: NodeSchema, node: NodeSchema, job: Job)
    requires job.Register? && CleanJob(job) && OneService(s, caller, node, SpecOf(node, job))
    ensures SpecOfNode(s, SpecOf(node, job), node)
  {
    hide Print, Parse;
  }

  /** There is a service with a port of the observer's datacenter to register. */
  predicate Scrapes(observer: NodeSchema, node: NodeSchema, job: Job) {
    && CleanNode(observer) && CleanNode(node) && observer.datacenter == node.datacenter && observer.name != node.name
    && job.Register? && CleanJob(job) && Ported(SpecOf(node, job))
  }

  /**
   * A run in which the snapshot is taken before, and the watch starts after, the first registration of a
   * node: the service is stored, and without a target until another event on its key.
   */
  lemma EarlySnapshotMissesService(observer: NodeSchema, node: NodeSchema, job: Job)
      returns (ws: seq<World>, acts: seq<Action>)
    requires Scrapes(observer, node, job)
    ensures CleanRun(ws, acts)
    ensures var s, sp := Last(ws, acts).s, SpecOf(node, job);
            && |s.log| == 5 && NodeKnown(s, observer)
            && DcText(sp) in s.entries && s.entries[DcText(sp)].value == Service(sp)
            && Snapshot(At(s.log, 2), sp.datacenter, [])
            && Look(Observed(s.log, sp.datacenter, 5, 5, 2, 5, []), IdOf(sp)) == None
  {
    hide Print, Parse, StepAt, CleanActions, SpecOf, Observed, Snapshot, Watched, EventOk, Ported;
    var sp, dc := SpecOf(node, job), SpecOf(node, job).datacenter;
    var before, done;
    before, done, ws, acts := OneRegistered(observer, node, job);
    var s := Last(ws, acts).s;
    SpecIsOf(s, observer, node, job);
    ReachableLog(ws, acts, |acts|);
    ThenContents(before, done, s.log, 2);
    NodesAreNotWatched(Last(before, done).s, observer, node, dc);
    ServiceIsWatched(s, observer, node, sp);
    ObservedTargets(s.log, dc, 5, 5, 2, 5, [], IdOf(sp));
    KeysApart(sp, node);
    KeysApart(sp, observer);
    assert DcText(sp) !in At(s.log, 2);
  }

  /**
   * A run in which a service is deregistered after the snapshot was taken and before the bulk is applied:
   * the bulk brings its target back, though the store holds it no longer.
   */
  lemma LateBulkResurrects(observer: NodeSchema, node: NodeSchema, job: Job)
      returns (ws: seq<World>, acts: seq<Action>)
    requires Scrapes(observer, node, job)
    ensures CleanRun(ws, acts)
    ensures var s, sp := Last(ws, acts).s, SpecOf(node, job);
            && |s.log| == 7 && DcText(sp) !in s.entries && SvcText(sp) !in s.entries
            && Snapshot(At(s.log, 5), sp.datacenter, [DcText(sp)])
            && Look(Observed(s.log, sp.datacenter, 2, 7, 5, 7, [DcText(sp)]), IdOf(sp)) == Some(TargetOf(sp))
  {
    hide Print, Parse, StepAt, CleanActions, SpecOf, Observed, Snapshot, Watched, EventOk, Ported;
    var sp, dc := SpecOf(node, job), SpecOf(node, job).datacenter;
    var nodes, added, before, done := OneRegistered(observer, node, job);
    var s0 := Last(before, done).s;
    SpecIsOf(s0, observer, node, job);
    ServiceIsWatched(s0, observer, node, sp);
    ws, acts := Deregisters(before, done, 3, node, sp);
    var s := Last(ws, acts).s;
    ReachableLog(ws, acts, |acts|);
    assert s.log[..5] == s0.log;
    ThenContents(before, done, s.log, 5);
    ObservedTargets(s.log, dc, 2, 7, 5, 7, [DcText(sp)], IdOf(sp));
    assert PortedAt(At(s.log, 5), DcText(sp)) == Some(sp);
  }
}
