/** The two service key spaces, svc/... for discovery and dcsvc/... for observers, mirror each other. */
module Indexes {
  import opened ByteStrings
  import opened Wrappers
  import opened Keys
  import opened Etcd
  import opened Protocol
  import opened Invariant
  import opened Steps
  import opened Runs

  /** Every svc key has its dcsvc key, with the same entry, which names the same service. */
  ghost predicate ServiceKeysMirrored(s: Store) {
    forall sv, l, d, n, i {:trigger ServiceKey(sv, l, d, n, i)} ::
      var key := ServiceKey(sv, l, d, n, i);
      Clean(key) && Print(key) in s.entries ==>
        && Print(DcServiceKey(d, n, sv, i)) in s.entries
        && s.entries[Print(DcServiceKey(d, n, sv, i))] == s.entries[Print(key)]
        && s.entries[Print(key)].value.Service?
        && var sp := s.entries[Print(key)].value.spec;
           sp.service == sv && sp.location == l && sp.datacenter == d && sp.node == n && sp.instance == i
  }

  /** Every dcsvc key has one svc key, with the same entry: at the location the node was created with. */
  ghost predicate DcKeysMirrored(s: Store) {
    forall d, n, sv, i {:trigger DcServiceKey(d, n, sv, i)} ::
      var key := DcServiceKey(d, n, sv, i);
      Clean(key) && Print(key) in s.entries ==>
        && s.entries[Print(key)].value.Service?
        && var l := s.entries[Print(key)].value.spec.location;
           && SlashFree(l) && Print(ServiceKey(sv, l, d, n, i)) in s.entries
           && s.entries[Print(ServiceKey(sv, l, d, n, i))] == s.entries[Print(key)]
           && (exists kind :: NodeKnown(s, NodeSchema(n, d, l, kind)))
  }

  lemma ServiceKeyMirrored(s: Store, h: History, key: Key)
    requires StoreOk(s, h) && Clean(key) && (key.ServiceKey? || key.DcServiceKey?) && Print(key) in s.entries
    ensures var e := s.entries[Print(key)];
            && e.value.Service? && Typed(key, e) && Paired(s, e.value.spec)
            && s.entries[SvcText(e.value.spec)] == e && s.entries[DcText(e.value.spec)] == e
  {
    PrintParse(key);
    assert EntryOk(s, Print(key)) && ServiceOk(s, h, Print(key));
  }

  /** In every reachable state the two key spaces are in bijection, with equal entries. */
  lemma IndexesAgree(ws: seq<World>, acts: seq<Action>, i: nat)
    requires CleanRun(ws, acts) && i < |ws|
    ensures ServiceKeysMirrored(ws[i].s) && DcKeysMirrored(ws[i].s)
  {
    RunInv(ws, acts, i);
    var s, h := ws[i].s, ws[i].published;
    forall sv, l, d, n, inst | Clean(ServiceKey(sv, l, d, n, inst)) && Print(ServiceKey(sv, l, d, n, inst)) in s.entries
      ensures var e := s.entries[Print(ServiceKey(sv, l, d, n, inst))];
              && e.value.Service? && Typed(ServiceKey(sv, l, d, n, inst), e)
              && Print(DcServiceKey(d, n, sv, inst)) in s.entries
              && s.entries[Print(DcServiceKey(d, n, sv, inst))] == e
    {
      ServiceKeyMirrored(s, h, ServiceKey(sv, l, d, n, inst));
    }
    forall d, n, sv, inst | Clean(DcServiceKey(d, n, sv, inst)) && Print(DcServiceKey(d, n, sv, inst)) in s.entries
      ensures var e := s.entries[Print(DcServiceKey(d, n, sv, inst))];
              && e.value.Service? && SlashFree(e.value.spec.location)
              && Print(ServiceKey(sv, e.value.spec.location, d, n, inst)) in s.entries
              && s.entries[Print(ServiceKey(sv, e.value.spec.location, d, n, inst))] == e
              && (exists kind :: NodeKnown(s, NodeSchema(n, d, e.value.spec.location, kind)))
    {
      ServiceKeyMirrored(s, h, DcServiceKey(d, n, sv, inst));
    }
  }

  /** One location per service: two svc keys that differ only in location are never stored together. */
  lemma OneLocation(ws: seq<World>, acts: seq<Action>, i: nat, a: Key, b: Key)
    requires CleanRun(ws, acts) && i < |ws|
    requires a.ServiceKey? && Clean(a) && Print(a) in ws[i].s.entries
    requires b.ServiceKey? && b == a.(location := b.location) && Clean(b) && Print(b) in ws[i].s.entries
    ensures a == b
  {
    RunInv(ws, acts, i);
    ServiceKeyMirrored(ws[i].s, ws[i].published, a);
    ServiceKeyMirrored(ws[i].s, ws[i].published, b);
  }

  /** Step t is a Deregister transaction. */
  predicate DropStep(ws: seq<World>, acts: seq<Action>, t: nat) {
    && t < |acts| && t + 1 < |ws| && acts[t].Exec?
    && acts[t].p in ws[t].calls && ws[t].calls[acts[t].p].DropService?
  }

  /** A service entry of this service and instance of the node. */
  predicate IsOf(s: Store, node: NodeSchema, service: Bytes, instance: Bytes, k: Bytes) {
    && IsServiceOf(s, node, k)
    && s.entries[k].value.spec.service == service && s.entries[k].value.spec.instance == instance
  }

  /** From s to t exactly the entries of one service and instance of the node have gone. */
  ghost predicate OnlyDropped(s: Store, t: Store, node: NodeSchema, service: Bytes, instance: Bytes) {
    && (forall k :: k in t.entries ==> k in s.entries && t.entries[k] == s.entries[k])
    && (forall k :: k in s.entries ==> (k in t.entries <==> !IsOf(s, node, service, instance, k)))
  }

  /** Deregister removes the entries of that service and instance of the node, and nothing else. */
  lemma DeregisterClears(ws: seq<World>, acts: seq<Action>, t: nat)
    requires CleanRun(ws, acts) && DropStep(ws, acts, t)
    ensures var pc := ws[t].calls[acts[t].p];
            OnlyDropped(ws[t].s, ws[t + 1].s, pc.node, pc.service, pc.instance)
  {
    hide Print, Parse, OnlyDropped, Keeps;
    var s, h, pc := ws[t].s, ws[t].published, ws[t].calls[acts[t].p];
    RunInv(ws, acts, t);
    assert StepAt(ws, acts, t);
    assert PcOk(s, h, pc);
    DropKeeps(s, h, pc, acts[t].choice);
    DropsOnly(s, h, pc.node, pc.service, pc.instance);
  }

  lemma DropsOnly(s: Store, h: History, node: NodeSchema, service: Bytes, instance: Bytes)
    requires StoreOk(s, h) && NodeKnown(s, node) && SlashFree(service) && SlashFree(instance)
    ensures OnlyDropped(s, Commit(s, DeregisterOps(node, service, instance)), node, service, instance)
  {
    hide Print, Parse, IsOf, EntryOk, ServiceOk, LineageOk, AllPublished, NodeKnown;
    var key1 := Print(ServiceKey(service, node.location, node.datacenter, node.name, instance));
    var key2 := Print(DcServiceKey(node.datacenter, node.name, service, instance));
    CommitDeletes(s, key1, key2);
    forall k | k in s.entries ensures k in {key1, key2} <==> IsOf(s, node, service, instance, k) {
      DroppedKeys(s, h, node, service, instance, k);
    }
  }

  /** The two keys that Deregister deletes hold just the entries of the service it names. */
  lemma DroppedKeys(s: Store, h: History, node: NodeSchema, service: Bytes, instance: Bytes, k: Bytes)
    requires StoreOk(s, h) && NodeKnown(s, node) && SlashFree(service) && SlashFree(instance) && k in s.entries
    ensures k in {Print(ServiceKey(service, node.location, node.datacenter, node.name, instance)),
                  Print(DcServiceKey(node.datacenter, node.name, service, instance))}
        <==> IsOf(s, node, service, instance, k)
  {
    hide Print, Parse;
    PrintParse(ServiceKey(service, node.location, node.datacenter, node.name, instance));
    PrintParse(DcServiceKey(node.datacenter, node.name, service, instance));
    assert EntryOk(s, k);
    if IsOf(s, node, service, instance, k) {
      PairedKeys(s, h, k);
      assert ServiceOk(s, h, k);
      PairedClean(s, h, s.entries[k].value.spec);
      TwinKeys(s, s.entries[k].value.spec, node, service, instance);
      var sp := s.entries[k].value.spec;
      var kind :| NodeKnown(s, NodeSchema(sp.node, sp.datacenter, sp.location, kind));
      SameNode(s, node, NodeSchema(sp.node, sp.datacenter, sp.location, kind));
    }
  }

  // ---------- why components must be slash-free ----------

  lemma NamespacesDiffer(a: ServiceSpec, b: ServiceSpec)
    ensures SvcText(a) != DcText(b)
  {
    assert SvcText(a)[0] == SERVICE_NS[0] && DcText(b)[0] == DC_SERVICE_NS[0];
  }

  /**
   * For any two registrations, slash-free or not: the second leaves the first one's two entries equal
   * if and only if the two share both keys or neither.
   */
  lemma SecondRegistrationKeepsPair(s: Store, a: ServiceSpec, b: ServiceSpec, lease: LeaseId)
    requires LogFaithful(s) && SvcText(a) in s.entries && DcText(a) in s.entries
    requires s.entries[SvcText(a)] == s.entries[DcText(a)]
    requires forall k :: k in s.entries ==> s.entries[k].modRev <= s.rev
    ensures var t := Commit(s, RegisterOps(b, lease));
            && SvcText(a) in t.entries && DcText(a) in t.entries
            && (t.entries[SvcText(a)] == t.entries[DcText(a)] <==>
                (SvcText(a) == SvcText(b) <==> DcText(a) == DcText(b)))
  {
    NamespacesDiffer(a, b);
    NamespacesDiffer(b, a);
    var op1, op2 := OpPut(SvcText(b), Service(b), lease), OpPut(DcText(b), Service(b), lease);
    CommitTwo(s, op1, op2);
    var t := Apply(Apply(s, s.rev + 1, op1), s.rev + 1, op2);
    assert Commit(s, RegisterOps(b, lease)).entries == t.entries;
  }

  /**
   * For any stored pair and any deregistration, slash-free or not: the pair stays or goes together if
   * and only if the deregistration names both its keys or neither.
   */
  lemma DeregistrationKeepsPair(s: Store, a: ServiceSpec, node: NodeSchema, service: Bytes, instance: Bytes)
    requires LogFaithful(s) && SvcText(a) in s.entries && DcText(a) in s.entries
    requires s.entries[SvcText(a)] == s.entries[DcText(a)]
    ensures var t := Commit(s, DeregisterOps(node, service, instance));
            var b := ServiceSpec(service, instance, node.location, node.datacenter, node.name, [], [], None);
            (SvcText(a) in t.entries <==> DcText(a) in t.entries) <==>
            (SvcText(a) == SvcText(b) <==> DcText(a) == DcText(b))
  {
    hide Print;
    var b := ServiceSpec(service, instance, node.location, node.datacenter, node.name, [], [], None);
    NamespacesDiffer(a, b);
    NamespacesDiffer(b, a);
    CommitDeletes(s, SvcText(b), DcText(b));
  }

  const N: Bytes := [0x6e]

  /** Service "a/b" instance "c", and service "a" instance "b/c", of node n at n in n. */
  const SLASHED_SERVICE := ServiceSpec([0x61, SLASH, 0x62], [0x63], N, N, N, [], [], None)
  const SLASHED_INSTANCE := ServiceSpec([0x61], [0x62, SLASH, 0x63], N, N, N, [], [], None)

  /** They share their dcsvc key but not their svc key, so registering both leaves the indexes apart. */
  lemma SlashesCollide()
    ensures DcText(SLASHED_SERVICE) == DcText(SLASHED_INSTANCE)
    ensures SvcText(SLASHED_SERVICE) != SvcText(SLASHED_INSTANCE)
  {
    var x, y := SLASHED_SERVICE, SLASHED_INSTANCE;
    var lead := [DC_SERVICE_NS, N, N];
    JoinAppend(lead, [x.service, x.instance]);
    JoinAppend(lead, [y.service, y.instance]);
    JoinAppend([x.service], [x.instance]);
    JoinAppend([y.service], [y.instance]);
    assert lead + [x.service, x.instance] == Components(DcServiceKey(N, N, x.service, x.instance));
    assert lead + [y.service, y.instance] == Components(DcServiceKey(N, N, y.service, y.instance));
    assert [x.service] + [x.instance] == [x.service, x.instance];
    assert [y.service] + [y.instance] == [y.service, y.instance];
    assert x.service + [SLASH] + x.instance == y.service + [SLASH] + y.instance;

    SeventhByte(x);
    SeventhByte(y);
  }

  /** After svc/a/ the first key goes on with its service, the second with its location. */
  lemma SeventhByte(sp: ServiceSpec)
    requires sp == SLASHED_SERVICE || sp == SLASHED_INSTANCE
    ensures |SvcText(sp)| > 6 && SvcText(sp)[6] == if sp == SLASHED_SERVICE then 0x62 else 0x6e
  {
    var rest := [N, N, N, sp.instance];
    JoinAppend([SERVICE_NS], [sp.service]);
    JoinAppend([SERVICE_NS, sp.service], rest);
    JoinAppend([N], [N, N, sp.instance]);
    assert [SERVICE_NS] + [sp.service] == [SERVICE_NS, sp.service];
    assert [SERVICE_NS, sp.service] + rest == Components(ServiceKey(sp.service, N, N, N, sp.instance));
    assert [N] + [N, N, sp.instance] == rest;
    assert SvcText(sp) == SERVICE_NS + [SLASH] + sp.service + [SLASH] + Join(rest);
    assert Join(rest)[0] == 0x6e;
  }

  /** No key of the two services is stored yet, and no revision is yet to come. */
  ghost predicate Untouched(s: Store, a: ServiceSpec, b: ServiceSpec) {
    && LogFaithful(s) && (forall k :: k in s.entries ==> s.entries[k].modRev <= s.rev)
    && {SvcText(a), DcText(a), SvcText(b), DcText(b)} !! s.entries.Keys
  }

  /** Registering both services breaks the first one's pair; so does deregistering the second after the first. */
  lemma SlashesBreakPairs(s: Store, first: LeaseId, second: LeaseId)
    requires Untouched(s, SLASHED_SERVICE, SLASHED_INSTANCE)
    ensures var a, b := SLASHED_SERVICE, SLASHED_INSTANCE;
            var one := Commit(s, RegisterOps(a, first));
            var both := Commit(one, RegisterOps(b, second));
            var dropped := Commit(one, DeregisterOps(NodeSchema(b.node, b.datacenter, b.location, Agent), b.service, b.instance));
            && SvcText(a) in one.entries && DcText(a) in one.entries && one.entries[SvcText(a)] == one.entries[DcText(a)]
            && SvcText(a) in both.entries && DcText(a) in both.entries && both.entries[SvcText(a)] != both.entries[DcText(a)]
            && SvcText(a) in dropped.entries && DcText(a) !in dropped.entries
  {
    hide Print;
    var a, b := SLASHED_SERVICE, SLASHED_INSTANCE;
    var one := Commit(s, RegisterOps(a, first));
    SlashesCollide();
    NamespacesDiffer(a, a);
    NamespacesDiffer(a, b);
    CommitTwins(s, SvcText(a), DcText(a), Service(a), first);
    SecondRegistrationKeepsPair(one, a, b, second);
    CommitDeletes(one, SvcText(b), DcText(b));
  }
}
