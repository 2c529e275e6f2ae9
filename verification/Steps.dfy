/** Every action of the protocol keeps the invariant and only moves the system forward. */
module Steps {
  import opened ByteStrings
  import opened Wrappers
  import opened Keys
  import opened Etcd
  import opened Protocol
  import opened Invariant

  /** The lease key's version counts the leases published for the node; its value is the last of them. */
  lemma LeaseVersion(s: Store, h: History, node: NodeSchema)
    requires StoreOk(s, h) && CleanNode(node)
    ensures VersionOf(s, LeaseText(node)) == |Past(h, Id(node))|
    ensures LeaseText(node) in s.entries <==> Past(h, Id(node)) != []
    ensures LeaseText(node) in s.entries ==>
              && s.entries[LeaseText(node)].value == LeaseRef(Past(h, Id(node))[|Past(h, Id(node))| - 1])
              && s.entries[LeaseText(node)].createRev >= 1
  {
    PrintParse(LeaseKey(node.datacenter, node.name));
    if LeaseText(node) in s.entries {
      assert EntryOk(s, LeaseText(node));
    }
    if Id(node) in h {
      assert LineageOk(s, h, Id(node));
    }
  }

  lemma AuthenticateOk(s: Store, h: History, dc: Bytes, name: Bytes)
    requires StoreOk(s, h) && SlashFree(dc) && SlashFree(name) && Print(NodeKey(dc, name)) in s.entries
    ensures var v := s.entries[Print(NodeKey(dc, name))].value;
            v.NodeRecord? && NodeKnown(s, v.schema) && v.schema.datacenter == dc && v.schema.name == name
  {
    PrintParse(NodeKey(dc, name));
    assert EntryOk(s, Print(NodeKey(dc, name)));
  }

  /** All service entries of a node hang on its stored lease: earlier ones are dead, and none is foreign. */
  lemma OnStoredLease(s: Store, h: History, node: NodeSchema, k: Bytes)
    requires StoreOk(s, h) && CleanNode(node) && k in s.entries && s.entries[k].value.Service?
    requires s.entries[k].value.spec.datacenter == node.datacenter && s.entries[k].value.spec.node == node.name
    ensures LeaseText(node) in s.entries && s.entries[LeaseText(node)].value == LeaseRef(s.entries[k].lease)
    ensures s.entries[k].lease in s.leases && s.entries[k].lease != NO_LEASE
  {
    assert EntryOk(s, k) && ServiceOk(s, h, k);
    assert LineageOk(s, h, Id(node));
  }

  lemma ReadForResetOk(s: Store, h: History, node: NodeSchema)
    requires StoreOk(s, h) && CleanNode(node)
    ensures LeaseText(node) !in s.entries ==> ClearedSince(s, node, s.rev, NO_LEASE)
    ensures LeaseText(node) in s.entries ==>
              && s.entries[LeaseText(node)].value.LeaseRef?
              && s.entries[LeaseText(node)].value.id in Past(h, Id(node))
              && ClearedSince(s, node, s.rev, s.entries[LeaseText(node)].value.id)
  {
    LeaseVersion(s, h, node);
    forall k | k in s.entries && s.entries[k].value.Service?
        && s.entries[k].value.spec.datacenter == node.datacenter && s.entries[k].value.spec.node == node.name
      ensures LeaseText(node) in s.entries && s.entries[LeaseText(node)].value == LeaseRef(s.entries[k].lease)
    {
      OnStoredLease(s, h, node, k);
    }
  }

  lemma RevokeOk(s: Store, h: History, node: NodeSchema, lease: LeaseId, readRev: nat, order: seq<Bytes>)
    requires StoreOk(s, h) && ClearedSince(s, node, readRev, lease)
    requires lease in s.leases ==> Lists(order, s, lease)
    ensures var t := Revoke(s, lease, order);
            StoreOk(t, h) && Later(s, h, t, h) && ClearedSince(t, node, readRev, NO_LEASE)
  {
    if lease in s.leases {
      KillOk(s, h, lease, order);
    } else {
      forall k | k in s.entries && s.entries[k].lease != NO_LEASE ensures s.entries[k].lease != lease {
        assert EntryOk(s, k);
      }
    }
  }

  lemma FreshOk(s: Store, h: History, lease: LeaseId)
    requires StoreOk(s, h) && lease !in s.granted
    ensures forall id :: id in h ==> lease !in h[id]
  {
    forall id | id in h ensures lease !in h[id] {
      assert LineageOk(s, h, id);
    }
  }

  /** The lineages after a request: a won swap extends one. */
  function Extended(s: Store, h: History, pc: Pc): History {
    if Swaps(s, pc) then h[Id(pc.node) := Past(h, Id(pc.node)) + [pc.lease]] else h
  }

  /** What a request keeps. A lease a call comes to hold is one it was just granted. */
  ghost predicate Keeps(s: Store, h: History, pc: Pc, c: Choice)
    requires Admissible(s, pc, c)
  {
    var (t, after) := Request(s, pc, c);
    var g := Extended(s, h, pc);
    && StoreOk(t, g) && Later(s, h, t, g) && PcOk(t, g, after)
    && (after.SwapLease? ==> after.lease !in s.granted)
  }

  lemma AuthenticateKeeps(s: Store, h: History, pc: Pc, c: Choice)
    requires StoreOk(s, h) && PcOk(s, h, pc) && Admissible(s, pc, c) && pc.Authenticate?
    ensures Keeps(s, h, pc, c)
  {
    var k := Print(NodeKey(pc.datacenter, pc.name));
    if k in s.entries {
      AuthenticateOk(s, h, pc.datacenter, pc.name);
      LeaseVersion(s, h, s.entries[k].value.schema);
    }
    LaterReflexive(s, h);
  }

  lemma ReadKeeps(s: Store, h: History, pc: Pc, c: Choice)
    requires StoreOk(s, h) && PcOk(s, h, pc) && Admissible(s, pc, c) && pc.ReadLease?
    ensures Keeps(s, h, pc, c)
  {
    LeaseVersion(s, h, pc.node);
    LaterReflexive(s, h);
  }

  lemma RenewKeeps(s: Store, h: History, pc: Pc, c: Choice)
    requires StoreOk(s, h) && PcOk(s, h, pc) && Admissible(s, pc, c) && pc.RenewLease?
    ensures Keeps(s, h, pc, c)
  {
    hide Print, Parse;
    var t := Renew(s, pc.seen.lease.value);
    QuietOk(s, h, t);
    LaterReflexive(s, h);
    KnownStable(s, t);
  }

  lemma GrantKeeps(s: Store, h: History, pc: Pc, c: Choice)
    requires StoreOk(s, h) && PcOk(s, h, pc) && Admissible(s, pc, c) && pc.GrantLease?
    ensures Keeps(s, h, pc, c)
  {
    hide Print, Parse;
    var t := Grant(s, c.lease);
    QuietOk(s, h, t);
    FreshOk(s, h, c.lease);
    PcStable(s, h, t, h, pc);
  }

  /** A swap wins exactly when the key is as it was read; a lost one means another has won since. */
  lemma SwapKeeps(s: Store, h: History, pc: Pc, c: Choice)
    requires StoreOk(s, h) && PcOk(s, h, pc) && Admissible(s, pc, c) && pc.SwapLease?
    ensures Keeps(s, h, pc, c)
    ensures Request(s, pc, c).1 ==
              if Swaps(s, pc) then WithLease(pc.node, pc.job, pc.lease)
              else NextRound(pc.node, pc.job, pc.base, pc.round)
  {
    hide Print, Parse;
    LeaseVersion(s, h, pc.node);
    LaterReflexive(s, h);
    if Swaps(s, pc) {
      SwapOk(s, h, pc.node, pc.base + pc.round, pc.last, pc.lease);
      var t := Commit(s, SwapOps(pc.node, pc.lease));
      assert Request(s, pc, c).0 == t;
      var g := Extended(s, h, pc);
      assert Past(g, Id(pc.node))[|Past(h, Id(pc.node))|] == pc.lease;
      KnownStable(s, t);
    }
  }

  lemma PutKeeps(s: Store, h: History, pc: Pc, c: Choice)
    requires StoreOk(s, h) && PcOk(s, h, pc) && Admissible(s, pc, c) && pc.PutService?
    ensures Keeps(s, h, pc, c)
    ensures Request(s, pc, c) ==
              if pc.lease in s.leases then (Commit(s, RegisterOps(pc.spec, pc.lease)), Finished(Registered(pc.spec)))
              else (s, Finished(ServerError))
  {
    hide Print, Parse;
    var ops := RegisterOps(pc.spec, pc.lease);
    assert LineageOk(s, h, Id(pc.node));
    assert ops[0].lease == pc.lease && ops[1].lease == pc.lease;
    LaterReflexive(s, h);
    if pc.lease in s.leases {
      RegisterOk(s, h, pc.spec, pc.node, pc.lease);
    }
  }

  lemma DropKeeps(s: Store, h: History, pc: Pc, c: Choice)
    requires StoreOk(s, h) && PcOk(s, h, pc) && Admissible(s, pc, c) && pc.DropService?
    ensures Keeps(s, h, pc, c)
    ensures Request(s, pc, c) ==
              (Commit(s, DeregisterOps(pc.node, pc.service, pc.instance)), Finished(Deregistered))
  {
    hide Print;
    DeregisterOk(s, h, pc.node, pc.service, pc.instance);
  }

  lemma ResetReadKeeps(s: Store, h: History, pc: Pc, c: Choice)
    requires StoreOk(s, h) && PcOk(s, h, pc) && Admissible(s, pc, c) && pc.ReadForReset?
    ensures Keeps(s, h, pc, c)
  {
    LaterReflexive(s, h);
    ReadForResetOk(s, h, pc.node);
  }

  lemma RevokeKeeps(s: Store, h: History, pc: Pc, c: Choice)
    requires StoreOk(s, h) && PcOk(s, h, pc) && Admissible(s, pc, c) && pc.RevokeLease?
    ensures Keeps(s, h, pc, c)
  {
    hide Print, Parse;
    RevokeOk(s, h, pc.node, pc.lease, pc.readRev, c.order);
  }

  /** AddNode creates the record if there is none, and otherwise changes nothing. */
  lemma CreateKeeps(s: Store, h: History, pc: Pc, c: Choice)
    requires StoreOk(s, h) && PcOk(s, h, pc) && Admissible(s, pc, c) && pc.CreateNode?
    ensures Keeps(s, h, pc, c)
    ensures Request(s, pc, c).1 == Finished(if NodeText(pc.node) in s.entries then AlreadyExists else NodeAdded(pc.node))
    ensures NodeText(pc.node) in s.entries ==> Request(s, pc, c).0 == s
  {
    hide Print, Parse;
    if NodeText(pc.node) in s.entries {
      assert EntryOk(s, NodeText(pc.node));
      LaterReflexive(s, h);
    } else {
      var t := Commit(s, CreateOps(pc.node));
      assert Request(s, pc, c).0 == t;
      PutPlainOk(s, h, NodeKey(pc.node.datacenter, pc.node.name), NodeRecord(pc.node));
    }
  }

  lemma AnnounceKeeps(s: Store, h: History, pc: Pc, c: Choice)
    requires StoreOk(s, h) && PcOk(s, h, pc) && Admissible(s, pc, c) && pc.Announce?
    ensures Keeps(s, h, pc, c)
  {
    PutPlainOk(s, h, AddressKey(pc.server), Address(pc.host));
  }

  /** Transactions leave leases and time alone; only Register and Deregister touch service entries. */
  lemma TransactionFrame(s: Store, pc: Pc, c: Choice)
    requires Admissible(s, pc, c)
    requires pc.SwapLease? || pc.PutService? || pc.DropService? || pc.CreateNode? || pc.Announce?
    ensures var t := Request(s, pc, c).0; t.leases == s.leases && t.granted == s.granted && t.now == s.now
    ensures !pc.DropService? ==> s.entries.Keys <= Request(s, pc, c).0.entries.Keys
    ensures !pc.PutService? && !pc.DropService? ==> ServicesUntouched(s, Request(s, pc, c).0)
  {
    hide Print, Commit;
    match pc
    case SwapLease(node, _, _, _, last, lease) => TxnFrame(s, Some(SwapGuard(node, last)), SwapOps(node, lease));
    case PutService(_, spec, lease) => TxnFrame(s, None, RegisterOps(spec, lease));
    case DropService(node, service, instance) => TxnFrame(s, None, DeregisterOps(node, service, instance));
    case CreateNode(node) => TxnFrame(s, Some(CreateRevIs(NodeText(node), 0)), CreateOps(node));
    case Announce(server, host) => TxnFrame(s, None, AnnounceOps(server, host));
  }

  /** The keys that a call's next request may change. */
  function Touches(s: Store, pc: Pc): set<Bytes> {
    match pc
    case SwapLease(node, _, _, _, _, _) => {Print(LeaseKey(node.datacenter, node.name))}
    case PutService(_, sp, _) =>
      {Print(ServiceKey(sp.service, sp.location, sp.datacenter, sp.node, sp.instance)),
       Print(DcServiceKey(sp.datacenter, sp.node, sp.service, sp.instance))}
    case DropService(node, service, instance) =>
      {Print(ServiceKey(service, node.location, node.datacenter, node.name, instance)),
       Print(DcServiceKey(node.datacenter, node.name, service, instance))}
    case CreateNode(node) => {Print(NodeKey(node.datacenter, node.name))}
    case Announce(server, _) => {Print(AddressKey(server))}
    case RevokeLease(_, lease, _) => Attached(s, lease)
    case _ => {}
  }

  /** A request changes nothing else. */
  lemma RequestTouches(s: Store, pc: Pc, c: Choice)
    requires Admissible(s, pc, c)
    ensures SameBut(s, Request(s, pc, c).0, Touches(s, pc))
  {
    hide Print, Txn;
    match pc
    case SwapLease(node, _, _, _, last, lease) =>
      TxnTouches(s, Some(SwapGuard(node, last)), SwapOps(node, lease));
      assert forall op :: op in SwapOps(node, lease) ==> op.key in Touches(s, pc);
    case PutService(_, spec, lease) =>
      TxnTouches(s, None, RegisterOps(spec, lease));
      assert forall op :: op in RegisterOps(spec, lease) ==> op.key in Touches(s, pc);
    case DropService(node, service, instance) =>
      TxnTouches(s, None, DeregisterOps(node, service, instance));
      assert forall op :: op in DeregisterOps(node, service, instance) ==> op.key in Touches(s, pc);
    case CreateNode(node) =>
      TxnTouches(s, Some(CreateRevIs(NodeText(node), 0)), CreateOps(node));
      assert forall op :: op in CreateOps(node) ==> op.key in Touches(s, pc);
    case Announce(server, host) =>
      TxnTouches(s, None, AnnounceOps(server, host));
      assert forall op :: op in AnnounceOps(server, host) ==> op.key in Touches(s, pc);
    case _ =>
  }

  /** The node a call is about, if it is about one. */
  function NodeOf(pc: Pc): Option<(Bytes, Bytes)> {
    match pc
    case Authenticate(dc, name, _) => Some((dc, name))
    case ReadLease(node, _, _, _) => Some(Id(node))
    case RenewLease(node, _, _, _, _) => Some(Id(node))
    case GrantLease(node, _, _, _, _) => Some(Id(node))
    case SwapLease(node, _, _, _, _, _) => Some(Id(node))
    case PutService(node, _, _) => Some(Id(node))
    case DropService(node, _, _) => Some(Id(node))
    case ReadForReset(node) => Some(Id(node))
    case RevokeLease(node, _, _) => Some(Id(node))
    case CreateNode(node) => Some(Id(node))
    case Announce(_, _) => None
    case Finished(_) => None
  }

  /** The key belongs to the node, or is the server's address that the call announces. */
  predicate Owns(pc: Pc, key: Key) {
    match key
    case ServiceKey(_, _, d, n, _) => NodeOf(pc) == Some((d, n))
    case DcServiceKey(d, n, _, _) => NodeOf(pc) == Some((d, n))
    case NodeKey(d, n) => NodeOf(pc) == Some((d, n))
    case LeaseKey(d, n) => NodeOf(pc) == Some((d, n))
    case AddressKey(server) => pc.Announce? && pc.server == server
  }

  lemma TouchesOwned(s: Store, h: History, pc: Pc, k: Bytes)
    requires StoreOk(s, h) && PcOk(s, h, pc) && k in Touches(s, pc)
    ensures Parse(k).Some? && Owns(pc, Parse(k).value)
  {
    hide Print, Parse;
    match pc
    case SwapLease(node, _, _, _, _, _) => PrintParse(LeaseKey(node.datacenter, node.name));
    case PutService(node, sp, _) => SpecKeys(s, sp, node);
    case DropService(node, service, instance) =>
      PrintParse(ServiceKey(service, node.location, node.datacenter, node.name, instance));
      PrintParse(DcServiceKey(node.datacenter, node.name, service, instance));
    case CreateNode(node) => PrintParse(NodeKey(node.datacenter, node.name));
    case Announce(server, _) => PrintParse(AddressKey(server));
    case RevokeLease(node, lease, _) => LeasedIsOwned(s, h, node, lease, k);
    case _ =>
  }

  /** What hangs on a lease published for a node is the node's. */
  lemma LeasedIsOwned(s: Store, h: History, node: NodeSchema, lease: LeaseId, k: Bytes)
    requires StoreOk(s, h) && lease in Past(h, Id(node)) && k in Attached(s, lease)
    ensures Parse(k).Some?
    ensures match Parse(k).value
            case ServiceKey(_, _, d, n, _) => Id(node) == (d, n)
            case DcServiceKey(d, n, _, _) => Id(node) == (d, n)
            case _ => false
  {
    hide Print, Parse;
    assert EntryOk(s, k) && ServiceOk(s, h, k);
    assert LineageOk(s, h, Id(node));
  }

  /** A request renews or ends only leases published for the call's node. */
  lemma LeasesOwned(s: Store, h: History, pc: Pc, c: Choice, l: LeaseId)
    requires StoreOk(s, h) && PcOk(s, h, pc) && Admissible(s, pc, c) && l in s.leases
    requires !(NodeOf(pc).Some? && l in Past(h, NodeOf(pc).value))
    ensures l in Request(s, pc, c).0.leases && Request(s, pc, c).0.leases[l] == s.leases[l]
  {
    hide Print, Parse;
    if pc.SwapLease? || pc.PutService? || pc.DropService? || pc.CreateNode? || pc.Announce? {
      TransactionFrame(s, pc, c);
    }
  }

  /** One request of one call, whatever the store chooses. */
  lemma RequestKeeps(s: Store, h: History, pc: Pc, c: Choice)
    requires StoreOk(s, h) && PcOk(s, h, pc) && Admissible(s, pc, c)
    ensures Keeps(s, h, pc, c)
  {
    match pc
    case Authenticate(_, _, _) => AuthenticateKeeps(s, h, pc, c);
    case ReadLease(_, _, _, _) => ReadKeeps(s, h, pc, c);
    case RenewLease(_, _, _, _, _) => RenewKeeps(s, h, pc, c);
    case GrantLease(_, _, _, _, _) => GrantKeeps(s, h, pc, c);
    case SwapLease(_, _, _, _, _, _) => SwapKeeps(s, h, pc, c);
    case PutService(_, _, _) => PutKeeps(s, h, pc, c);
    case DropService(_, _, _) => DropKeeps(s, h, pc, c);
    case ReadForReset(_) => ResetReadKeeps(s, h, pc, c);
    case RevokeLease(_, _, _) => RevokeKeeps(s, h, pc, c);
    case CreateNode(_) => CreateKeeps(s, h, pc, c);
    case Announce(_, _) => AnnounceKeeps(s, h, pc, c);
  }

  /** The other calls' knowledge survives one call's request. */
  lemma OthersStable(w: World, p: nat, c: Choice, q: nat)
    requires Inv(w) && p in w.calls && q in w.calls && p != q && Admissible(w.s, w.calls[p], c)
    requires Keeps(w.s, w.published, w.calls[p], c)
    ensures PcOk(Request(w.s, w.calls[p], c).0, Extended(w.s, w.published, w.calls[p]), w.calls[q])
  {
    hide Print, Parse;
    var t, g := Request(w.s, w.calls[p], c).0, Extended(w.s, w.published, w.calls[p]);
    assert PcOk(w.s, w.published, w.calls[q]);
    if w.calls[q].SwapLease? {
      forall id | id in g ensures w.calls[q].lease !in g[id] {
        if Swaps(w.s, w.calls[p]) && id == Id(w.calls[p].node) {
          assert w.calls[p].lease != w.calls[q].lease;
        }
      }
    }
    PcStable(w.s, w.published, t, g, w.calls[q]);
  }

  lemma ExecOk(w: World, p: nat, c: Choice)
    requires Inv(w) && Enabled(w, Exec(p, c))
    ensures Inv(Next(w, Exec(p, c)))
    ensures Later(w.s, w.published, Next(w, Exec(p, c)).s, Next(w, Exec(p, c)).published)
  {
    hide Print, Parse, Request;
    var v := Next(w, Exec(p, c));
    assert PcOk(w.s, w.published, w.calls[p]);
    RequestKeeps(w.s, w.published, w.calls[p], c);
    assert v.published == Extended(w.s, w.published, w.calls[p]);
    forall q | q in v.calls ensures PcOk(v.s, v.published, v.calls[q]) {
      if q != p {
        OthersStable(w, p, c, q);
      }
    }
    forall q | q in w.calls && w.calls[q].SwapLease? ensures w.calls[q].lease in w.s.granted {
      assert PcOk(w.s, w.published, w.calls[q]);
    }
  }

  /** A change of the store that no call made. */
  lemma EnvironmentOk(w: World, t: Store)
    requires Inv(w) && StoreOk(t, w.published) && Later(w.s, w.published, t, w.published)
    ensures Inv(w.(s := t))
  {
    forall q | q in w.calls ensures PcOk(t, w.published, w.calls[q]) {
      assert PcOk(w.s, w.published, w.calls[q]);
      PcStable(w.s, w.published, t, w.published, w.calls[q]);
    }
  }

  lemma BeginOk(w: World, p: nat, first: Pc)
    requires Inv(w) && Enabled(w, Begin(p, first)) && CleanCall(first)
    ensures Inv(Next(w, Begin(p, first)))
  {
    hide Print, Parse, StoreOk;
  }

  lemma FailOk(w: World, p: nat)
    requires Inv(w) && Enabled(w, Fail(p))
    ensures Inv(Next(w, Fail(p)))
  {
    hide Print, Parse, StoreOk;
  }

  lemma TickOk(w: World, d: nat)
    requires Inv(w)
    ensures var t := w.s.(now := w.s.now + d); StoreOk(t, w.published) && Later(w.s, w.published, t, w.published)
  {
    hide Print, Parse;
    QuietOk(w.s, w.published, w.s.(now := w.s.now + d));
  }

  /** Every action of a run with slash-free components keeps the invariant and moves forward. */
  lemma NextOk(w: World, a: Action)
    requires Inv(w) && Enabled(w, a) && (a.Begin? ==> CleanCall(a.first))
    ensures Inv(Next(w, a))
    ensures Later(w.s, w.published, Next(w, a).s, Next(w, a).published)
  {
    hide StoreOk, Later, PcOk, Request, CleanCall;
    match a
    case Begin(p, first) =>
      BeginOk(w, p, first);
      LaterReflexive(w.s, w.published);
    case Exec(p, c) =>
      ExecOk(w, p, c);
    case Fail(p) =>
      FailOk(w, p);
      LaterReflexive(w.s, w.published);
    case Expire(lease, order) =>
      KillOk(w.s, w.published, lease, order);
      EnvironmentOk(w, Kill(w.s, lease, order));
    case Tick(d) =>
      TickOk(w, d);
      EnvironmentOk(w, w.s.(now := w.s.now + d));
  }

  lemma StartOk()
    ensures Inv(START)
  {
  }
}
