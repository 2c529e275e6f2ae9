/**
 * What every action of the protocol keeps: values agree with their keys, the two service key spaces
 * agree with each other, and every service entry hangs on the one live lease of its node.
 */
module Invariant {
  import opened ByteStrings
  import opened Wrappers
  import opened Keys
  import opened Etcd
  import opened Protocol

  // ---------- the store ----------

  /** An entry's value says what its key says; only service entries hang on a lease. */
  predicate Typed(key: Key, e: Entry) {
    match key
    case ServiceKey(s, l, d, n, i) =>
      && e.value.Service? && e.lease != NO_LEASE
      && var sp := e.value.spec;
         sp.service == s && sp.location == l && sp.datacenter == d && sp.node == n && sp.instance == i
    case DcServiceKey(d, n, s, i) =>
      && e.value.Service? && e.lease != NO_LEASE
      && var sp := e.value.spec; sp.service == s && sp.datacenter == d && sp.node == n && sp.instance == i
    case NodeKey(d, n) =>
      && e.value.NodeRecord? && e.lease == NO_LEASE
      && e.value.schema.datacenter == d && e.value.schema.name == n && SlashFree(e.value.schema.location)
    case LeaseKey(_, _) => e.value.LeaseRef? && e.lease == NO_LEASE
    case AddressKey(_) => e.value.Address? && e.lease == NO_LEASE
  }

  ghost predicate EntryOk(s: Store, k: Bytes)
    requires k in s.entries
  {
    var e := s.entries[k];
    && Parse(k).Some? && Typed(Parse(k).value, e)
    && 1 <= e.createRev <= e.modRev <= s.rev && e.version >= 1
    && (e.lease != NO_LEASE ==> e.lease in s.leases)
  }

  ghost predicate NodeKnown(s: Store, node: NodeSchema) {
    && CleanNode(node)
    && NodeText(node) in s.entries && s.entries[NodeText(node)].value == NodeRecord(node)
  }

  /** A service is stored under both its keys, identically, at the location its node was created with. */
  ghost predicate Paired(s: Store, sp: ServiceSpec) {
    && SvcText(sp) in s.entries && DcText(sp) in s.entries
    && s.entries[SvcText(sp)] == s.entries[DcText(sp)]
    && s.entries[SvcText(sp)].value == Service(sp)
    && exists kind :: NodeKnown(s, NodeSchema(sp.node, sp.datacenter, sp.location, kind))
  }

  ghost predicate ServiceOk(s: Store, h: History, k: Bytes)
    requires k in s.entries
  {
    s.entries[k].value.Service? ==>
      var sp := s.entries[k].value.spec;
      && Paired(s, sp) && s.entries[SvcText(sp)] == s.entries[k]
      && s.entries[k].lease in Past(h, (sp.datacenter, sp.node))
  }

  /** A node's lease key holds the last lease published for it; all earlier ones are dead. */
  ghost predicate LineageOk(s: Store, h: History, id: (Bytes, Bytes))
    requires id in h
  {
    var key, past := Print(LeaseKey(id.0, id.1)), h[id];
    && SlashFree(id.0) && SlashFree(id.1) && past != []
    && key in s.entries && s.entries[key].value == LeaseRef(past[|past| - 1])
    && s.entries[key].version == |past|
    && (forall i :: 0 <= i < |past| ==> past[i] in s.granted)
    && (forall i :: 0 <= i < |past| - 1 ==> past[i] !in s.leases)
    && (forall i, j :: 0 <= i < j < |past| ==> past[i] != past[j])
  }

  ghost predicate StoreOk(s: Store, h: History) {
    && LogFaithful(s)
    && s.leases.Keys <= s.granted && NO_LEASE !in s.granted
    && (forall k {:trigger EntryOk(s, k)} :: k in s.entries ==> EntryOk(s, k))
    && (forall k {:trigger ServiceOk(s, h, k)} :: k in s.entries ==> ServiceOk(s, h, k))
    && (forall id {:trigger LineageOk(s, h, id)} :: id in h ==> LineageOk(s, h, id))
    && (forall a, b, l :: a in h && b in h && l in h[a] && l in h[b] ==> a == b)
    && AllPublished(s, h)
  }

  /** Every stored lease key was published. */
  ghost predicate AllPublished(s: Store, h: History) {
    forall k {:trigger Parse(k)} :: k in s.entries && Parse(k).Some? && Parse(k).value.LeaseKey?
      ==> (Parse(k).value.datacenter, Parse(k).value.node) in h
  }

  // ---------- what only grows ----------

  /** From one state to a later one: nodes and lineages persist, the dead stay dead, changed entries are newer. */
  ghost predicate Later(s: Store, h: History, t: Store, g: History) {
    && s.rev <= t.rev && s.now <= t.now
    && s.granted <= t.granted
    && (forall l :: l in s.granted && l !in s.leases ==> l !in t.leases)
    && NodesKept(s, t)
    && (forall id :: id in h ==> id in g && h[id] <= g[id])
    && (forall k :: k in t.entries ==>
          (k in s.entries && t.entries[k] == s.entries[k]) || t.entries[k].modRev > s.rev)
  }

  ghost predicate NodesKept(s: Store, t: Store) {
    forall k {:trigger Parse(k)} :: k in s.entries && Parse(k).Some? && Parse(k).value.NodeKey?
      ==> k in t.entries && t.entries[k] == s.entries[k]
  }

  lemma LaterReflexive(s: Store, h: History)
    ensures Later(s, h, s, h)
  {
  }

  lemma LaterTransitive(s: Store, h: History, t: Store, g: History, u: Store, f: History)
    requires Later(s, h, t, g) && Later(t, g, u, f)
    ensures Later(s, h, u, f)
  {
  }

  // ---------- calls in progress ----------

  /** What a call knows about a lease key it has read. */
  ghost predicate SeenOk(h: History, node: NodeSchema, atLeast: nat, seen: Seen) {
    var past := Past(h, Id(node));
    && atLeast <= seen.version && 1 <= seen.version <= |past|
    && seen.lease == Some(past[seen.version - 1])
  }

  ghost predicate LastOk(s: Store, h: History, node: NodeSchema, atLeast: nat, last: Option<Seen>) {
    match last
    case None => atLeast == 0
    case Some(seen) => SeenOk(h, node, atLeast, seen) && seen.lease.value !in s.leases
  }

  /** Every service entry of the node that is not on the given lease was put after the revision. */
  ghost predicate ClearedSince(s: Store, node: NodeSchema, rev: nat, keep: LeaseId) {
    rev <= s.rev &&
    forall k :: k in s.entries && s.entries[k].value.Service? && s.entries[k].lease != keep
      && s.entries[k].value.spec.datacenter == node.datacenter && s.entries[k].value.spec.node == node.name
      ==> s.entries[k].modRev > rev
  }

  ghost predicate PcOk(s: Store, h: History, pc: Pc) {
    match pc
    case Authenticate(_, _, _) => CleanCall(pc)
    case ReadLease(node, job, base, round) =>
      NodeKnown(s, node) && CleanJob(job) && round < MAX_ROUNDS && base + round <= |Past(h, Id(node))|
    case RenewLease(node, job, base, round, seen) =>
      NodeKnown(s, node) && CleanJob(job) && round < MAX_ROUNDS && SeenOk(h, node, base + round, seen)
    case GrantLease(node, job, base, round, last) =>
      NodeKnown(s, node) && CleanJob(job) && round < MAX_ROUNDS && LastOk(s, h, node, base + round, last)
    case SwapLease(node, job, base, round, last, lease) =>
      && NodeKnown(s, node) && CleanJob(job) && round < MAX_ROUNDS && LastOk(s, h, node, base + round, last)
      && lease in s.granted && forall id :: id in h ==> lease !in h[id]
    case PutService(node, spec, lease) => SpecOfNode(s, spec, node) && lease in Past(h, Id(node))
    case DropService(node, service, instance) =>
      NodeKnown(s, node) && SlashFree(service) && SlashFree(instance)
    case ReadForReset(node) => NodeKnown(s, node)
    case RevokeLease(node, lease, readRev) =>
      NodeKnown(s, node) && lease in Past(h, Id(node)) && ClearedSince(s, node, readRev, lease)
    case CreateNode(_) => CleanCall(pc)
    case Announce(_, _) => CleanCall(pc)
    case Finished(outcome) =>
      match outcome
      case WasReset(node, readRev) => ClearedSince(s, node, readRev, NO_LEASE)
      case GaveUp(node, base) => base + MAX_ROUNDS <= |Past(h, Id(node))|
      case NodeAdded(node) => NodeKnown(s, node)
      case Beat(node, lease) => NodeKnown(s, node) && lease in Past(h, Id(node))
      case _ => true
  }

  ghost predicate Inv(w: World) {
    && StoreOk(w.s, w.published)
    && (forall p :: p in w.calls ==> PcOk(w.s, w.published, w.calls[p]))
    && (forall p, q :: p in w.calls && q in w.calls && p != q && w.calls[p].SwapLease? && w.calls[q].SwapLease?
          ==> w.calls[p].lease != w.calls[q].lease)
  }

  lemma KnownStable(s: Store, t: Store)
    requires NodesKept(s, t)
    ensures forall node {:trigger NodeKnown(s, node)} :: NodeKnown(s, node) ==> NodeKnown(t, node)
  {
    forall node | NodeKnown(s, node) ensures NodeKnown(t, node) {
      PrintParse(NodeKey(node.datacenter, node.name));
    }
  }

  /** What a call knows stays true whatever the others do. */
  lemma PcStable(s: Store, h: History, t: Store, g: History, pc: Pc)
    requires StoreOk(s, h) && Later(s, h, t, g) && PcOk(s, h, pc)
    requires pc.SwapLease? ==> forall id :: id in g ==> pc.lease !in g[id]
    ensures PcOk(t, g, pc)
  {
    KnownStable(s, t);
    if (pc.GrantLease? || pc.SwapLease?) && pc.last.Some? {
      assert LineageOk(s, h, Id(pc.node));
    }
  }

  // ---------- store transitions ----------

  /** Entries untouched: leases may come or be renewed, time may pass. */
  lemma QuietOk(s: Store, h: History, t: Store)
    requires StoreOk(s, h)
    requires t.entries == s.entries && t.log == s.log && t.rev == s.rev && s.now <= t.now
    requires s.granted <= t.granted && NO_LEASE !in t.granted && t.leases.Keys <= t.granted
    requires s.leases.Keys <= t.leases.Keys
    requires forall l :: l in s.granted && l !in s.leases ==> l !in t.leases
    ensures StoreOk(t, h) && Later(s, h, t, h)
  {
    forall k | k in t.entries ensures EntryOk(t, k) && ServiceOk(t, h, k) {
      assert EntryOk(s, k) && ServiceOk(s, h, k);
      if t.entries[k].value.Service? {
        PairedFrame(s, t, s.entries[k].value.spec);
      }
    }
    forall id | id in h ensures LineageOk(t, h, id) {
      assert LineageOk(s, h, id);
    }
  }

  /** Paired looks at three entries only. */
  lemma PairedFrame(s: Store, t: Store, sp: ServiceSpec)
    requires Paired(s, sp)
    requires SvcText(sp) in t.entries && t.entries[SvcText(sp)] == s.entries[SvcText(sp)]
    requires DcText(sp) in t.entries && t.entries[DcText(sp)] == s.entries[DcText(sp)]
    requires var k := Print(NodeKey(sp.datacenter, sp.node));
             k in s.entries ==> k in t.entries && t.entries[k] == s.entries[k]
    ensures Paired(t, sp)
  {
    var kind :| NodeKnown(s, NodeSchema(sp.node, sp.datacenter, sp.location, kind));
    assert NodeKnown(t, NodeSchema(sp.node, sp.datacenter, sp.location, kind));
  }

  /** A service loses both its keys or none. */
  ghost predicate TwinsTogether(s: Store, t: Store) {
    forall sp {:trigger Paired(s, sp)} :: Paired(s, sp) ==> (SvcText(sp) in t.entries <==> DcText(sp) in t.entries)
  }

  /** Some service entries go, with their twins and for good reason; everything else stays. */
  ghost predicate Shrinks(s: Store, t: Store) {
    && LogFaithful(t) && t.granted == s.granted && t.leases.Keys <= s.leases.Keys
    && s.rev <= t.rev && s.now <= t.now
    && (forall k :: k in t.entries ==> k in s.entries && t.entries[k] == s.entries[k]
                                       && (t.entries[k].lease != NO_LEASE ==> t.entries[k].lease in t.leases))
    && (forall k :: k in s.entries && s.entries[k].lease == NO_LEASE ==> k in t.entries)
    && TwinsTogether(s, t)
  }

  lemma PairedKeys(s: Store, h: History, k: Bytes)
    requires StoreOk(s, h) && k in s.entries && s.entries[k].value.Service?
    ensures var sp := s.entries[k].value.spec; k == SvcText(sp) || k == DcText(sp)
  {
    assert EntryOk(s, k);
    ParsePrint(k);
  }

  lemma NodeEntry(s: Store, h: History, node: NodeSchema)
    requires StoreOk(s, h) && NodeKnown(s, node)
    ensures s.entries[NodeText(node)].lease == NO_LEASE
  {
    assert EntryOk(s, NodeText(node));
  }

  lemma ShrinkService(s: Store, h: History, t: Store, k: Bytes)
    requires StoreOk(s, h) && Shrinks(s, t) && k in t.entries
    ensures ServiceOk(t, h, k)
  {
    assert ServiceOk(s, h, k);
    if t.entries[k].value.Service? {
      var sp := s.entries[k].value.spec;
      PairedKeys(s, h, k);
      PairedNode(s, h, sp);
      PairedFrame(s, t, sp);
    }
  }

  lemma PairedNode(s: Store, h: History, sp: ServiceSpec)
    requires StoreOk(s, h) && Paired(s, sp)
    ensures var k := Print(NodeKey(sp.datacenter, sp.node)); k in s.entries && s.entries[k].lease == NO_LEASE
  {
    var kind :| NodeKnown(s, NodeSchema(sp.node, sp.datacenter, sp.location, kind));
    NodeEntry(s, h, NodeSchema(sp.node, sp.datacenter, sp.location, kind));
  }

  lemma LeaseEntry(s: Store, h: History, id: (Bytes, Bytes))
    requires StoreOk(s, h) && id in h
    ensures Print(LeaseKey(id.0, id.1)) in s.entries && s.entries[Print(LeaseKey(id.0, id.1))].lease == NO_LEASE
  {
    assert LineageOk(s, h, id);
    assert EntryOk(s, Print(LeaseKey(id.0, id.1)));
  }

  lemma ShrinkLineage(s: Store, h: History, t: Store, id: (Bytes, Bytes))
    requires StoreOk(s, h) && Shrinks(s, t) && id in h
    ensures LineageOk(t, h, id)
  {
    assert LineageOk(s, h, id);
    LeaseEntry(s, h, id);
  }

  lemma ShrinkNodes(s: Store, h: History, t: Store)
    requires StoreOk(s, h) && Shrinks(s, t)
    ensures NodesKept(s, t) && AllPublished(t, h)
  {
    forall k | k in s.entries && Parse(k).Some? && Parse(k).value.NodeKey? ensures k in t.entries {
      assert EntryOk(s, k);
    }
  }

  lemma ShrinkOk(s: Store, h: History, t: Store)
    requires StoreOk(s, h) && Shrinks(s, t)
    ensures StoreOk(t, h) && Later(s, h, t, h)
  {
    hide Print, Parse, Typed, LogFaithful, LineageOk, ServiceOk, NodesKept, AllPublished;
    forall k | k in t.entries ensures EntryOk(t, k) && ServiceOk(t, h, k) {
      assert EntryOk(s, k);
      ShrinkService(s, h, t, k);
    }
    forall id | id in h ensures LineageOk(t, h, id) {
      ShrinkLineage(s, h, t, id);
    }
    ShrinkNodes(s, h, t);
  }

  lemma KillShrinks(s: Store, h: History, id: LeaseId, order: seq<Bytes>)
    requires StoreOk(s, h) && id in s.leases && Lists(order, s, id)
    ensures Shrinks(s, Kill(s, id, order))
  {
    hide Print, Parse;
    KillKeepsLog(s, id, order);
    forall k | k in s.entries && s.entries[k].lease != NO_LEASE ensures s.entries[k].lease in s.leases {
      assert EntryOk(s, k);
    }
  }

  lemma KillOk(s: Store, h: History, id: LeaseId, order: seq<Bytes>)
    requires StoreOk(s, h) && id in s.leases && Lists(order, s, id)
    ensures StoreOk(Kill(s, id, order), h) && Later(s, h, Kill(s, id, order), h)
  {
    hide StoreOk, Later, Shrinks, Kill, Lists;
    KillShrinks(s, h, id, order);
    ShrinkOk(s, h, Kill(s, id, order));
  }

  /** A node has one record, so services that share a dcsvc key share a location. */
  lemma SameNode(s: Store, a: NodeSchema, b: NodeSchema)
    requires NodeKnown(s, a) && NodeKnown(s, b) && Id(a) == Id(b)
    ensures a == b
  {
  }

  /** Two stored or storable services agree on both keys or on neither. */
  lemma TwinKeys(s: Store, sp: ServiceSpec, node: NodeSchema, service: Bytes, instance: Bytes)
    requires Paired(s, sp) && NodeKnown(s, node) && SlashFree(service) && SlashFree(instance)
    requires SlashFree(sp.service) && SlashFree(sp.instance)
    ensures SvcText(sp) == Print(ServiceKey(service, node.location, node.datacenter, node.name, instance))
       <==> DcText(sp) == Print(DcServiceKey(node.datacenter, node.name, service, instance))
    ensures SvcText(sp) != Print(DcServiceKey(node.datacenter, node.name, service, instance))
    ensures DcText(sp) != Print(ServiceKey(service, node.location, node.datacenter, node.name, instance))
  {
    hide Print, Parse;
    var kind :| NodeKnown(s, NodeSchema(sp.node, sp.datacenter, sp.location, kind));
    PrintParse(ServiceKey(sp.service, sp.location, sp.datacenter, sp.node, sp.instance));
    PrintParse(DcServiceKey(sp.datacenter, sp.node, sp.service, sp.instance));
    PrintParse(ServiceKey(service, node.location, node.datacenter, node.name, instance));
    PrintParse(DcServiceKey(node.datacenter, node.name, service, instance));
    if DcText(sp) == Print(DcServiceKey(node.datacenter, node.name, service, instance)) {
      SameNode(s, node, NodeSchema(sp.node, sp.datacenter, sp.location, kind));
    }
  }

  /** Stored services have slash-free names. */
  lemma PairedClean(s: Store, h: History, sp: ServiceSpec)
    requires StoreOk(s, h) && Paired(s, sp)
    ensures SlashFree(sp.service) && SlashFree(sp.instance)
    ensures Parse(SvcText(sp)) == Some(ServiceKey(sp.service, sp.location, sp.datacenter, sp.node, sp.instance))
    ensures Parse(DcText(sp)) == Some(DcServiceKey(sp.datacenter, sp.node, sp.service, sp.instance))
  {
    assert EntryOk(s, SvcText(sp)) && EntryOk(s, DcText(sp));
    ParsePrint(SvcText(sp));
    ParsePrint(DcText(sp));
    ServiceTyped(Parse(SvcText(sp)).value, s.entries[SvcText(sp)]);
    PrintParse(ServiceKey(sp.service, sp.location, sp.datacenter, sp.node, sp.instance));
    PrintParse(DcServiceKey(sp.datacenter, sp.node, sp.service, sp.instance));
  }

  lemma ServiceTyped(key: Key, e: Entry)
    requires Typed(key, e) && e.value.Service? && Clean(key)
    ensures SlashFree(e.value.spec.service) && SlashFree(e.value.spec.instance)
  {
  }

  lemma PlainEntry(s: Store, h: History, k: Bytes)
    requires StoreOk(s, h) && k in s.entries
    ensures s.entries[k].lease != NO_LEASE ==> s.entries[k].lease in s.leases
    ensures Parse(k).Some? && (Parse(k).value.ServiceKey? || Parse(k).value.DcServiceKey?) ==>
              s.entries[k].lease != NO_LEASE && s.entries[k].value.Service?
    ensures Parse(k).Some?
  {
    assert EntryOk(s, k);
  }

  lemma DropPairKeeps(s: Store, h: History, t: Store, k1: Bytes, k2: Bytes)
    requires StoreOk(s, h) && t.entries == s.entries - {k1, k2} && t.leases == s.leases
    requires Parse(k1).Some? && Parse(k1).value.ServiceKey? && Parse(k2).Some? && Parse(k2).value.DcServiceKey?
    ensures forall k :: k in t.entries && t.entries[k].lease != NO_LEASE ==> t.entries[k].lease in t.leases
    ensures forall k :: k in s.entries && s.entries[k].lease == NO_LEASE ==> k in t.entries
  {
    forall k | k in s.entries
      ensures s.entries[k].lease != NO_LEASE ==> s.entries[k].lease in t.leases
      ensures s.entries[k].lease == NO_LEASE ==> k in t.entries
    {
      PlainEntry(s, h, k);
    }
  }

  /** Dropping two service keys that are twins of each other and of nothing else. */
  lemma DropPairOk(s: Store, h: History, t: Store, k1: Bytes, k2: Bytes)
    requires StoreOk(s, h)
    requires LogFaithful(t) && t.leases == s.leases && t.granted == s.granted
    requires s.rev <= t.rev && s.now <= t.now
    requires t.entries == s.entries - {k1, k2}
    requires Parse(k1).Some? && Parse(k1).value.ServiceKey? && Parse(k2).Some? && Parse(k2).value.DcServiceKey?
    requires TwinsTogether(s, t)
    ensures StoreOk(t, h) && Later(s, h, t, h)
  {
    hide Print, Parse;
    DropPairKeeps(s, h, t, k1, k2);
    assert Shrinks(s, t);
    ShrinkOk(s, h, t);
  }

  lemma TwinsDropTogether(s: Store, h: History, node: NodeSchema, service: Bytes, instance: Bytes, sp: ServiceSpec)
    requires StoreOk(s, h) && Paired(s, sp) && NodeKnown(s, node) && SlashFree(service) && SlashFree(instance)
    ensures var k1 := Print(ServiceKey(service, node.location, node.datacenter, node.name, instance));
            var k2 := Print(DcServiceKey(node.datacenter, node.name, service, instance));
            SvcText(sp) in {k1, k2} <==> DcText(sp) in {k1, k2}
  {
    PairedClean(s, h, sp);
    TwinKeys(s, sp, node, service, instance);
  }

  lemma DeregisterOk(s: Store, h: History, node: NodeSchema, service: Bytes, instance: Bytes)
    requires StoreOk(s, h) && NodeKnown(s, node) && SlashFree(service) && SlashFree(instance)
    ensures var t := Commit(s, DeregisterOps(node, service, instance));
            StoreOk(t, h) && Later(s, h, t, h)
  {
    var k1 := Print(ServiceKey(service, node.location, node.datacenter, node.name, instance));
    var k2 := Print(DcServiceKey(node.datacenter, node.name, service, instance));
    CommitDeletes(s, k1, k2);
    PrintParse(ServiceKey(service, node.location, node.datacenter, node.name, instance));
    PrintParse(DcServiceKey(node.datacenter, node.name, service, instance));
    var t := Commit(s, DeregisterOps(node, service, instance));
    forall sp | Paired(s, sp) ensures SvcText(sp) in t.entries <==> DcText(sp) in t.entries {
      TwinsDropTogether(s, h, node, service, instance, sp);
    }
    DropPairOk(s, h, t, k1, k2);
  }

  // ---------- transitions that put ----------

  /** One key put, not a service's and not over a node record; at most its own lineage grows. */
  ghost predicate PutsOne(s: Store, h: History, t: Store, g: History, at: Bytes) {
    && LogFaithful(t) && t.leases == s.leases && t.granted == s.granted && t.now == s.now && t.rev == s.rev + 1
    && at in t.entries && t.entries == s.entries[at := t.entries[at]]
    && t.entries[at].modRev == t.rev && !t.entries[at].value.Service? && EntryOk(t, at)
    && Parse(at).Some? && (Parse(at).value.NodeKey? ==> at !in s.entries)
    && (forall id :: id in h ==> id in g && h[id] <= g[id])
    && (forall a, b, l :: a in g && b in g && l in g[a] && l in g[b] ==> a == b)
    && (forall id {:trigger LineageOk(t, g, id)} :: id in g ==>
          LineageOk(t, g, id) || (id in h && g[id] == h[id] && at != Print(LeaseKey(id.0, id.1))))
    && (Parse(at).value.LeaseKey? ==> (Parse(at).value.datacenter, Parse(at).value.node) in g)
  }

  lemma ElsewhereOk(s: Store, h: History, t: Store, g: History, at: Bytes, k: Bytes)
    requires StoreOk(s, h) && PutsOne(s, h, t, g, at) && k in s.entries && k != at
    ensures EntryOk(t, k) && ServiceOk(t, g, k)
  {
    hide Print, Parse;
    assert EntryOk(s, k) && ServiceOk(s, h, k);
    if s.entries[k].value.Service? {
      var sp := s.entries[k].value.spec;
      PairedClean(s, h, sp);
      PairedNode(s, h, sp);
      PairedNodeKey(s, sp);
      PairedFrame(s, t, sp);
    }
  }

  lemma PairedNodeKey(s: Store, sp: ServiceSpec)
    requires exists kind :: NodeKnown(s, NodeSchema(sp.node, sp.datacenter, sp.location, kind))
    ensures Parse(Print(NodeKey(sp.datacenter, sp.node))) == Some(NodeKey(sp.datacenter, sp.node))
  {
    PrintParse(NodeKey(sp.datacenter, sp.node));
  }

  lemma PutsOneOk(s: Store, h: History, t: Store, g: History, at: Bytes)
    requires StoreOk(s, h) && PutsOne(s, h, t, g, at)
    ensures StoreOk(t, g) && Later(s, h, t, g)
  {
    forall k | k in t.entries ensures EntryOk(t, k) && ServiceOk(t, g, k) {
      if k != at {
        ElsewhereOk(s, h, t, g, at, k);
      }
    }
    forall id | id in g ensures LineageOk(t, g, id) {
      if !LineageOk(t, g, id) {
        assert LineageOk(s, h, id);
      }
    }
  }

  lemma LineageKeys(s: Store, h: History, at: Key)
    requires StoreOk(s, h) && Clean(at)
    ensures forall id :: id in h && at != LeaseKey(id.0, id.1) ==> Print(at) != Print(LeaseKey(id.0, id.1))
  {
    forall id | id in h && at != LeaseKey(id.0, id.1) ensures Print(at) != Print(LeaseKey(id.0, id.1)) {
      assert LineageOk(s, h, id);
      PrintParse(at);
      PrintParse(LeaseKey(id.0, id.1));
    }
  }

  lemma PutPlainOk(s: Store, h: History, key: Key, value: Value)
    requires StoreOk(s, h) && Clean(key) && Typed(key, Entry(value, 0, 0, 0, NO_LEASE))
    requires key.NodeKey? || key.AddressKey?
    requires key.NodeKey? ==> Print(key) !in s.entries
    ensures var t := Commit(s, [OpPut(Print(key), value, NO_LEASE)]);
            StoreOk(t, h) && Later(s, h, t, h) && Print(key) in t.entries && t.entries[Print(key)].value == value
  {
    hide Print;
    var at := Print(key);
    var t := Commit(s, [OpPut(at, value, NO_LEASE)]);
    CommitPut(s, at, value, NO_LEASE);
    PrintParse(key);
    LineageKeys(s, h, key);
    assert at in s.entries ==> EntryOk(s, at);
    PutsOneOk(s, h, t, h, at);
  }

  /** A won swap: the lease read is still stored, was found dead, and the granted lease takes its place. */
  lemma SwapOk(s: Store, h: History, node: NodeSchema, base: nat, last: Option<Seen>, lease: LeaseId)
    requires StoreOk(s, h) && NodeKnown(s, node) && LastOk(s, h, node, base, last)
    requires Holds(s, SwapGuard(node, last))
    requires lease in s.granted && forall id :: id in h ==> lease !in h[id]
    ensures var t := Commit(s, SwapOps(node, lease));
            var g := h[Id(node) := Past(h, Id(node)) + [lease]];
            StoreOk(t, g) && Later(s, h, t, g)
    ensures last.None? <==> Past(h, Id(node)) == []
    ensures last.Some? ==> last.value.version == |Past(h, Id(node))|
  {
    hide Print, Parse, Typed, LogFaithful, ServiceOk, AllPublished, Later;
    var at, id0 := LeaseText(node), Id(node);
    var t := Commit(s, SwapOps(node, lease));
    var g := h[id0 := Past(h, id0) + [lease]];
    CommitPut(s, at, LeaseRef(lease), NO_LEASE);
    PrintParse(LeaseKey(node.datacenter, node.name));
    if at in s.entries {
      assert EntryOk(s, at);
    }
    if id0 in h {
      assert LineageOk(s, h, id0);
    }
    LineageKeys(s, h, LeaseKey(node.datacenter, node.name));
    assert LineageOk(t, g, id0);
    PutsOneOk(s, h, t, g, at);
  }

  // ---------- registration ----------

  /** A spec of a known node. */
  ghost predicate SpecOfNode(s: Store, sp: ServiceSpec, node: NodeSchema) {
    && NodeKnown(s, node) && SlashFree(sp.service) && SlashFree(sp.instance)
    && sp.location == node.location && sp.datacenter == node.datacenter && sp.node == node.name
  }

  lemma SpecKeys(s: Store, sp: ServiceSpec, node: NodeSchema)
    requires SpecOfNode(s, sp, node)
    ensures Parse(SvcText(sp)) == Some(ServiceKey(sp.service, sp.location, sp.datacenter, sp.node, sp.instance))
    ensures Parse(DcText(sp)) == Some(DcServiceKey(sp.datacenter, sp.node, sp.service, sp.instance))
  {
    PrintParse(ServiceKey(sp.service, sp.location, sp.datacenter, sp.node, sp.instance));
    PrintParse(DcServiceKey(sp.datacenter, sp.node, sp.service, sp.instance));
  }

  /** A stored service that shares a key with a spec of a known node shares both. */
  lemma SameService(s: Store, h: History, sp: ServiceSpec, node: NodeSchema, other: ServiceSpec)
    requires StoreOk(s, h) && SpecOfNode(s, sp, node) && Paired(s, other)
    ensures SvcText(other) == SvcText(sp) <==> DcText(other) == DcText(sp)
    ensures SvcText(other) != DcText(sp) && DcText(other) != SvcText(sp)
  {
    PairedClean(s, h, other);
    TwinKeys(s, other, node, sp.service, sp.instance);
  }

  /** Before a registration its two keys are both there, and equal, or both missing. */
  lemma TwinsBefore(s: Store, h: History, sp: ServiceSpec, node: NodeSchema)
    requires StoreOk(s, h) && SpecOfNode(s, sp, node)
    ensures SvcText(sp) in s.entries <==> DcText(sp) in s.entries
    ensures SvcText(sp) in s.entries ==> s.entries[SvcText(sp)] == s.entries[DcText(sp)]
  {
    SpecKeys(s, sp, node);
    forall k | k in s.entries && k in {SvcText(sp), DcText(sp)}
      ensures SvcText(sp) in s.entries && DcText(sp) in s.entries
      ensures s.entries[SvcText(sp)] == s.entries[DcText(sp)]
    {
      assert EntryOk(s, k) && ServiceOk(s, h, k);
      PairedKeys(s, h, k);
      SameService(s, h, sp, node, s.entries[k].value.spec);
    }
  }

  /** The state after a registration. */
  ghost predicate PutsTwins(s: Store, t: Store, sp: ServiceSpec, lease: LeaseId) {
    && LogFaithful(t) && t.rev == s.rev + 1
    && t.leases == s.leases && t.granted == s.granted && t.now == s.now
    && SvcText(sp) in t.entries
    && t.entries == s.entries[SvcText(sp) := t.entries[SvcText(sp)]][DcText(sp) := t.entries[SvcText(sp)]]
    && t.entries[SvcText(sp)].value == Service(sp) && t.entries[SvcText(sp)].lease == lease
    && 1 <= t.entries[SvcText(sp)].createRev <= t.entries[SvcText(sp)].modRev == t.rev
    && t.entries[SvcText(sp)].version >= 1
  }

  lemma OtherServiceOk(s: Store, h: History, t: Store, sp: ServiceSpec, node: NodeSchema, lease: LeaseId, k: Bytes)
    requires StoreOk(s, h) && SpecOfNode(s, sp, node) && PutsTwins(s, t, sp, lease)
    requires k in s.entries && k != SvcText(sp) && k != DcText(sp)
    ensures EntryOk(t, k) && ServiceOk(t, h, k)
  {
    hide Print, Parse;
    assert EntryOk(s, k) && ServiceOk(s, h, k);
    if s.entries[k].value.Service? {
      var other := s.entries[k].value.spec;
      PairedKeys(s, h, k);
      SameService(s, h, sp, node, other);
      PairedNodeKey(s, other);
      SpecKeys(s, sp, node);
      PairedFrame(s, t, other);
    }
  }

  /** The registration itself, under either of its keys. */
  lemma TwinPutOk(s: Store, h: History, t: Store, sp: ServiceSpec, node: NodeSchema, lease: LeaseId)
    requires StoreOk(s, h) && SpecOfNode(s, sp, node) && PutsTwins(s, t, sp, lease)
    requires lease in s.leases && lease in Past(h, Id(node))
    ensures EntryOk(t, SvcText(sp)) && ServiceOk(t, h, SvcText(sp))
    ensures EntryOk(t, DcText(sp)) && ServiceOk(t, h, DcText(sp))
    ensures NodeKnown(t, node)
  {
    hide Print, Parse, StoreOk;
    SpecKeys(s, sp, node);
    PrintParse(NodeKey(node.datacenter, node.name));
    LeaseIsNone(s, h, lease);
    assert SvcText(sp) in s.entries ==> EntryOk(s, SvcText(sp)) by { AllOk(s, h, SvcText(sp)); }
    assert NodeKnown(t, node);
    assert node == NodeSchema(sp.node, sp.datacenter, sp.location, node.kind);
    assert Paired(t, sp);
  }

  lemma LeaseIsNone(s: Store, h: History, lease: LeaseId)
    requires StoreOk(s, h) && lease in s.leases
    ensures lease != NO_LEASE
  {
  }

  lemma AllOk(s: Store, h: History, k: Bytes)
    requires StoreOk(s, h)
    ensures k in s.entries ==> EntryOk(s, k) && ServiceOk(s, h, k)
  {
    hide EntryOk, ServiceOk, LineageOk;
  }

  lemma TwinsLineages(s: Store, h: History, t: Store, sp: ServiceSpec, node: NodeSchema, lease: LeaseId, id: (Bytes, Bytes))
    requires StoreOk(s, h) && SpecOfNode(s, sp, node) && PutsTwins(s, t, sp, lease) && id in h
    ensures LineageOk(t, h, id)
  {
    hide Print, Parse;
    SpecKeys(s, sp, node);
    assert LineageOk(s, h, id);
    PrintParse(LeaseKey(id.0, id.1));
  }

  lemma TwinsLater(s: Store, h: History, t: Store, sp: ServiceSpec, node: NodeSchema, lease: LeaseId)
    requires StoreOk(s, h) && SpecOfNode(s, sp, node) && PutsTwins(s, t, sp, lease)
    ensures Later(s, h, t, h) && AllPublished(t, h)
  {
    hide Print, Parse, EntryOk, ServiceOk, LineageOk;
    SpecKeys(s, sp, node);
  }

  lemma TwinsOk(s: Store, h: History, t: Store, sp: ServiceSpec, node: NodeSchema, lease: LeaseId)
    requires StoreOk(s, h) && SpecOfNode(s, sp, node) && PutsTwins(s, t, sp, lease)
    requires lease in s.leases && lease in Past(h, Id(node))
    ensures StoreOk(t, h) && Later(s, h, t, h)
  {
    hide Print, Parse, EntryOk, ServiceOk, LineageOk, LogFaithful, AllPublished, Later, SpecOfNode;
    TwinPutOk(s, h, t, sp, node, lease);
    forall k | k in t.entries ensures EntryOk(t, k) && ServiceOk(t, h, k) {
      if k != SvcText(sp) && k != DcText(sp) {
        OtherServiceOk(s, h, t, sp, node, lease, k);
      }
    }
    forall id | id in h ensures LineageOk(t, h, id) {
      TwinsLineages(s, h, t, sp, node, lease, id);
    }
    TwinsLater(s, h, t, sp, node, lease);
  }

  lemma RegisterOk(s: Store, h: History, sp: ServiceSpec, node: NodeSchema, lease: LeaseId)
    requires StoreOk(s, h) && SpecOfNode(s, sp, node)
    requires lease in s.leases && lease in Past(h, Id(node))
    ensures var t := Commit(s, RegisterOps(sp, lease));
            StoreOk(t, h) && Later(s, h, t, h) && PutsTwins(s, t, sp, lease)
  {
    SpecKeys(s, sp, node);
    TwinsBefore(s, h, sp, node);
    assert SvcText(sp) in s.entries ==> EntryOk(s, SvcText(sp));
    CommitTwins(s, SvcText(sp), DcText(sp), Service(sp), lease);
    TwinsOk(s, h, Commit(s, RegisterOps(sp, lease)), sp, node, lease);
  }
}
