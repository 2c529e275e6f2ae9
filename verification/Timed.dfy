/**
 * Timed liveness of registrations: a node that keeps renewing in time keeps its lease, and its
 * service entries go only when it asks for it.
 */
module Timed {
  import opened ByteStrings
  import opened Wrappers
  import opened Keys
  import opened Etcd
  import opened Protocol
  import opened Invariant
  import opened Steps
  import opened Runs

  /** No lease is due later than a full TTL from now. */
  ghost predicate DueWithinTtl(s: Store) {
    forall l :: l in s.leases ==> s.leases[l] <= s.now + LEASE_TTL
  }

  /** From one state to the next a lease that lives on is due no earlier. */
  ghost predicate DueLater(s: Store, t: Store, except: Option<LeaseId>) {
    && s.now <= t.now
    && forall l :: l in s.leases && Some(l) != except ==> l in t.leases && s.leases[l] <= t.leases[l]
  }

  /** The lease an action ends, if any. */
  function Ended(w: World, a: Action): Option<LeaseId>
    requires Enabled(w, a)
  {
    match a
    case Expire(lease, _) => Some(lease)
    case Exec(p, _) => if w.calls[p].RevokeLease? then Some(w.calls[p].lease) else None
    case _ => None
  }

  lemma RequestTime(s: Store, h: History, pc: Pc, c: Choice)
    requires StoreOk(s, h) && PcOk(s, h, pc) && Admissible(s, pc, c) && DueWithinTtl(s)
    ensures var t := Request(s, pc, c).0;
            DueWithinTtl(t) && DueLater(s, t, if pc.RevokeLease? then Some(pc.lease) else None)
  {
    if pc.SwapLease? || pc.PutService? || pc.DropService? || pc.CreateNode? || pc.Announce? {
      TransactionFrame(s, pc, c);
    }
  }

  lemma StepTime(w: World, a: Action)
    requires Inv(w) && Enabled(w, a) && DueWithinTtl(w.s)
    ensures DueWithinTtl(Next(w, a).s) && DueLater(w.s, Next(w, a).s, Ended(w, a))
  {
    if a.Exec? {
      assert PcOk(w.s, w.published, w.calls[a.p]);
      RequestTime(w.s, w.published, w.calls[a.p], a.choice);
    }
  }

  lemma {:induction false} RunDue(ws: seq<World>, acts: seq<Action>, i: nat)
    requires CleanRun(ws, acts) && i < |ws|
    ensures DueWithinTtl(ws[i].s)
  {
    if i > 0 {
      RunDue(ws, acts, i - 1);
      RunInv(ws, acts, i - 1);
      assert StepAt(ws, acts, i - 1);
      StepTime(ws[i - 1], acts[i - 1]);
    }
  }

  ghost predicate Holding(s: Store, node: NodeSchema, lease: LeaseId) {
    Stored(s, node) == Some(lease) && lease in s.leases
  }

  /** A lease granted by step i and live at step j has been live in between. */
  lemma LiveBetween(ws: seq<World>, acts: seq<Action>, lease: LeaseId, i: nat, m: nat, j: nat)
    requires CleanRun(ws, acts) && i <= m <= j < |ws|
    requires lease in ws[i].s.granted && lease in ws[j].s.leases
    ensures lease in ws[m].s.leases
  {
    RunLater(ws, acts, i, m);
    RunLater(ws, acts, m, j);
  }

  /** The due time of a lease that lives on never moves back. */
  lemma {:induction false} DueGrows(ws: seq<World>, acts: seq<Action>, lease: LeaseId, i: nat, j: nat)
    requires CleanRun(ws, acts) && i <= j < |ws| && lease in ws[i].s.leases && lease in ws[j].s.leases
    ensures ws[i].s.leases[lease] <= ws[j].s.leases[lease]
    decreases j
  {
    hide Print, Parse;
    if i < j {
      RunInv(ws, acts, i);
      LiveBetween(ws, acts, lease, i, j - 1, j);
      DueGrows(ws, acts, lease, i, j - 1);
      RunInv(ws, acts, j - 1);
      RunDue(ws, acts, j - 1);
      assert StepAt(ws, acts, j - 1);
      StepTime(ws[j - 1], acts[j - 1]);
      if Ended(ws[j - 1], acts[j - 1]).Some? {
        EndedIsGone(ws[j - 1], acts[j - 1]);
      }
    }
  }

  lemma EndedIsGone(w: World, a: Action)
    requires Enabled(w, a) && Ended(w, a).Some?
    ensures Ended(w, a).value !in Next(w, a).s.leases
  {
  }

  // ---------- what secures a node's registrations ----------

  /** Step f renews the live lease that a call for the node read. */
  predicate Renews(ws: seq<World>, acts: seq<Action>, node: NodeSchema, f: nat) {
    && f < |acts| && f < |ws| && acts[f].Exec? && acts[f].p in ws[f].calls
    && var pc := ws[f].calls[acts[f].p];
       && pc.RenewLease? && Id(pc.node) == Id(node)
       && pc.seen.lease.Some? && pc.seen.lease.value in ws[f].s.leases
  }

  /** Step b grants call p the lease. */
  predicate Grants(ws: seq<World>, acts: seq<Action>, b: nat, p: nat, lease: LeaseId) {
    && b < |acts| && b + 1 < |ws| && acts[b].Exec? && acts[b].p == p
    && p in ws[b].calls && ws[b].calls[p].GrantLease?
    && p in ws[b + 1].calls && ws[b + 1].calls[p].SwapLease? && ws[b + 1].calls[p].lease == lease
  }

  /**
   * The node's lease is secured from the moment of step b, by step f: f renews the lease that was read,
   * or wins the swap of a lease that was granted to the same call at b.
   */
  predicate Secures(ws: seq<World>, acts: seq<Action>, node: NodeSchema, b: nat, f: nat) {
    || (b == f && Renews(ws, acts, node, f))
    || (b < f && WinStep(ws, acts, f) && Id(ws[f].calls[acts[f].p].node) == Id(node)
        && Grants(ws, acts, b, acts[f].p, ws[f].calls[acts[f].p].lease))
  }

  /** The lease that step f secures. */
  function SecuredLease(ws: seq<World>, acts: seq<Action>, node: NodeSchema, b: nat, f: nat): LeaseId
    requires Secures(ws, acts, node, b, f)
  {
    var pc := ws[f].calls[acts[f].p];
    if pc.RenewLease? then pc.seen.lease.value else pc.lease
  }

  /** At step j the node's lease was secured less than a TTL ago. */
  ghost predicate Secured(ws: seq<World>, acts: seq<Action>, node: NodeSchema, j: nat)
    requires j < |ws|
  {
    exists b: nat, f: nat :: b <= f < j && Secures(ws, acts, node, b, f) && ws[j].s.now < ws[b].s.now + LEASE_TTL
  }

  /** A call that has the lease it went for got it from a step that secures it. */
  lemma {:induction false} GrantStep(ws: seq<World>, acts: seq<Action>, i: nat, p: nat) returns (b: nat)
    requires CleanRun(ws, acts) && i < |ws| && p in ws[i].calls && ws[i].calls[p].SwapLease?
    ensures b < i && Grants(ws, acts, b, p, ws[i].calls[p].lease)
    ensures ws[b].calls[p].node == ws[i].calls[p].node && ws[b].calls[p].last == ws[i].calls[p].last
  {
    hide Print, Parse;
    assert StepAt(ws, acts, i - 1);
    if p in ws[i - 1].calls && ws[i - 1].calls[p].SwapLease? && ws[i - 1].calls[p] == ws[i].calls[p] {
      b := GrantStep(ws, acts, i - 1, p);
    } else {
      b := i - 1;
    }
  }

  /** The call goes on with this lease: it has a heartbeat's answer or a registration to make. */
  predicate HasLease(pc: Pc, node: NodeSchema, lease: LeaseId) {
    pc == Finished(Beat(node, lease)) || (pc.PutService? && pc.node == node && pc.lease == lease)
  }

  lemma LeaseStep(w: World, a: Action, p: nat, node: NodeSchema, lease: LeaseId)
    requires Inv(w) && Enabled(w, a) && p in Next(w, a).calls && HasLease(Next(w, a).calls[p], node, lease)
    ensures p in w.calls
    ensures HasLease(w.calls[p], node, lease) || (a.Exec? && a.p == p && (w.calls[p].RenewLease? || w.calls[p].SwapLease?)
              && w.calls[p].node == node)
    ensures a.Exec? && a.p == p && w.calls[p].RenewLease? ==>
              w.calls[p].seen.lease == Some(lease) && lease in w.s.leases
    ensures a.Exec? && a.p == p && w.calls[p].SwapLease? ==> w.calls[p].lease == lease && Swaps(w.s, w.calls[p])
  {
    hide Print, Parse, StoreOk, Later;
    if a.Exec? && a.p == p {
      var pc := w.calls[p];
      assert PcOk(w.s, w.published, pc);
      if pc.SwapLease? {
        SwapKeeps(w.s, w.published, pc, a.choice);
      }
    }
  }

  /** Every call that succeeds in GetNodeLease, a heartbeat or a registration, secures the node's lease. */
  lemma {:induction false} CallSecures(ws: seq<World>, acts: seq<Action>, i: nat, p: nat, node: NodeSchema, lease: LeaseId)
      returns (b: nat, f: nat)
    requires CleanRun(ws, acts) && i < |ws| && p in ws[i].calls && HasLease(ws[i].calls[p], node, lease)
    ensures b <= f < i && Secures(ws, acts, node, b, f) && acts[f].p == p
    ensures SecuredLease(ws, acts, node, b, f) == lease
  {
    hide Print, Parse, Inv, Next;
    RunInv(ws, acts, i - 1);
    assert StepAt(ws, acts, i - 1);
    LeaseStep(ws[i - 1], acts[i - 1], p, node, lease);
    if HasLease(ws[i - 1].calls[p], node, lease) {
      b, f := CallSecures(ws, acts, i - 1, p, node, lease);
    } else {
      f := i - 1;
      b := f;
      if ws[f].calls[p].SwapLease? {
        b := GrantStep(ws, acts, f, p);
      }
    }
  }

  /** Right after step f the secured lease is stored; as long as it lives it is due a TTL after b. */
  lemma SecuredIsStored(ws: seq<World>, acts: seq<Action>, node: NodeSchema, b: nat, f: nat)
    requires CleanRun(ws, acts) && CleanNode(node) && Secures(ws, acts, node, b, f)
    ensures f + 1 < |ws| && Stored(ws[f + 1].s, node) == Some(SecuredLease(ws, acts, node, b, f))
  {
    hide Print, Parse;
    var pc := ws[f].calls[acts[f].p];
    RunInv(ws, acts, f);
    assert StepAt(ws, acts, f);
    assert PcOk(ws[f].s, ws[f].published, pc);
    if pc.SwapLease? {
      WinnerReplacesWhatItSaw(ws, acts, f);
      SameLeaseKey(pc.node, node, ws[f + 1].s);
    } else {
      LeaseVersion(ws[f].s, ws[f].published, node);
      assert LineageOk(ws[f].s, ws[f].published, Id(node));
      assert Stored(ws[f].s, node) == pc.seen.lease;
    }
  }

  lemma SameLeaseKey(a: NodeSchema, b: NodeSchema, s: Store)
    requires Id(a) == Id(b)
    ensures LeaseText(a) == LeaseText(b) && Stored(s, a) == Stored(s, b)
  {
  }

  lemma GrantedIsDue(ws: seq<World>, acts: seq<Action>, b: nat, p: nat, lease: LeaseId)
    requires CleanRun(ws, acts) && Grants(ws, acts, b, p, lease)
    ensures lease in ws[b + 1].s.leases && ws[b + 1].s.leases[lease] == ws[b].s.now + LEASE_TTL
  {
    hide Print, Parse;
    assert StepAt(ws, acts, b);
  }

  lemma SecuredIsDue(ws: seq<World>, acts: seq<Action>, node: NodeSchema, b: nat, f: nat, j: nat)
    requires CleanRun(ws, acts) && Secures(ws, acts, node, b, f) && f < j < |ws|
    requires SecuredLease(ws, acts, node, b, f) in ws[j].s.leases
    ensures ws[j].s.leases[SecuredLease(ws, acts, node, b, f)] >= ws[b].s.now + LEASE_TTL
  {
    hide Print, Parse;
    var lease := SecuredLease(ws, acts, node, b, f);
    if ws[f].calls[acts[f].p].RenewLease? {
      assert StepAt(ws, acts, f);
    } else {
      GrantedIsDue(ws, acts, b, acts[f].p, lease);
    }
    DueGrows(ws, acts, lease, b + 1, j);
  }

  /** A lease that came to be stored since step i was published by a won swap since. */
  lemma {:induction false} PublishStep(ws: seq<World>, acts: seq<Action>, node: NodeSchema, i: nat, j: nat) returns (g: nat)
    requires CleanRun(ws, acts) && CleanNode(node) && i <= j < |ws|
    requires Stored(ws[j].s, node).Some? && Stored(ws[i].s, node) != Stored(ws[j].s, node)
    ensures i <= g < j && WinStep(ws, acts, g) && Id(ws[g].calls[acts[g].p].node) == Id(node)
    ensures Some(ws[g].calls[acts[g].p].lease) == Stored(ws[j].s, node)
    decreases j
  {
    hide Print, Parse;
    if Stored(ws[j - 1].s, node) == Stored(ws[j].s, node) {
      g := PublishStep(ws, acts, node, i, j - 1);
    } else {
      g := j - 1;
      RunInv(ws, acts, g);
      RunInv(ws, acts, j);
      LeaseVersion(ws[g].s, ws[g].published, node);
      LeaseVersion(ws[j].s, ws[j].published, node);
      PublishedStep(ws, acts, g, Id(node));
      WinnerReplacesWhatItSaw(ws, acts, g);
      SameLeaseKey(ws[g].calls[acts[g].p].node, node, ws[j].s);
    }
  }

  lemma PublishedStep(ws: seq<World>, acts: seq<Action>, g: nat, id: (Bytes, Bytes))
    requires CleanRun(ws, acts) && g < |acts|
    ensures Past(ws[g + 1].published, id) == Past(ws[g].published, id) ||
              (WinStep(ws, acts, g) && Id(ws[g].calls[acts[g].p].node) == id)
  {
    hide Print, Parse, Request;
    assert StepAt(ws, acts, g);
  }

  /**
   * A lease published after another one was secured at f was also granted after f: when it was granted,
   * its predecessor had been found dead.
   */
  lemma Younger(ws: seq<World>, acts: seq<Action>, node: NodeSchema, b: nat, f: nat, g: nat, c: nat)
    requires CleanRun(ws, acts) && CleanNode(node) && Secures(ws, acts, node, b, f)
    requires f < g && WinStep(ws, acts, g) && Id(ws[g].calls[acts[g].p].node) == Id(node)
    requires c < g && Grants(ws, acts, c, acts[g].p, ws[g].calls[acts[g].p].lease)
    requires ws[c].calls[acts[g].p].node == ws[g].calls[acts[g].p].node
    requires ws[c].calls[acts[g].p].last == ws[g].calls[acts[g].p].last
    ensures f < c
  {
    hide Print, Parse;
    var pc, last := ws[c].calls[acts[g].p], ws[g].calls[acts[g].p].last;
    if c <= f {
      SecuredIsStored(ws, acts, node, b, f);
      WinnerReplacesWhatItSaw(ws, acts, g);
      SameLeaseKey(ws[g].calls[acts[g].p].node, node, ws[g].s);
      VersionsOnlyGrow(ws, acts, f + 1, g, node);
      VersionsOnlyGrow(ws, acts, c, f, node);
      VersionsOnlyGrow(ws, acts, f, f + 1, node);
      SeenThen(ws, acts, c, acts[g].p, node);
      assert SeenVersion(last) <= VersionOf(ws[c].s, LeaseText(node));
      assert VersionOf(ws[f].s, LeaseText(node)) == VersionOf(ws[f + 1].s, LeaseText(node));
      if ws[f].calls[acts[f].p].SwapLease? {
        SameLeaseKey(ws[f].calls[acts[f].p].node, node, ws[f].s);
        WinnerReplacesWhatItSaw(ws, acts, f);
      } else {
        RunLater(ws, acts, c, f);
      }
    }
  }

  /** What a call about to be granted a lease has seen, if it is up to date, is stored and dead. */
  lemma SeenThen(ws: seq<World>, acts: seq<Action>, c: nat, p: nat, node: NodeSchema)
    requires CleanRun(ws, acts) && c < |ws| && p in ws[c].calls && ws[c].calls[p].GrantLease?
    requires CleanNode(node) && Id(ws[c].calls[p].node) == Id(node)
    ensures var s, last := ws[c].s, ws[c].calls[p].last;
            && SeenVersion(last) <= VersionOf(s, LeaseText(node))
            && (last.Some? ==> last.value.lease.Some? && last.value.lease.value in s.granted
                               && last.value.lease.value !in s.leases)
            && (last.Some? && SeenVersion(last) == VersionOf(s, LeaseText(node)) ==> Stored(s, node) == last.value.lease)
  {
    hide Print, Parse;
    RunInv(ws, acts, c);
    var s, h, pc := ws[c].s, ws[c].published, ws[c].calls[p];
    assert PcOk(s, h, pc);
    LeaseVersion(s, h, node);
    if pc.last.Some? {
      assert LineageOk(s, h, Id(node));
    }
  }

  /** Once a node's lease is secured at b, any live lease stored from then on is due no earlier than a TTL after b. */
  lemma StoredIsFresh(ws: seq<World>, acts: seq<Action>, node: NodeSchema, b: nat, f: nat, j: nat, lease: LeaseId)
    requires CleanRun(ws, acts) && CleanNode(node) && Secures(ws, acts, node, b, f) && b <= f < j < |ws|
    requires Holding(ws[j].s, node, lease)
    ensures ws[j].s.leases[lease] >= ws[b].s.now + LEASE_TTL
  {
    hide Print, Parse, Secures, SecuredLease, WinStep, Grants;
    if lease == SecuredLease(ws, acts, node, b, f) {
      SecuredIsDue(ws, acts, node, b, f, j);
    } else {
      SecuredIsStored(ws, acts, node, b, f);
      var g := PublishStep(ws, acts, node, f + 1, j);
      assert SwapStep(ws, acts, g) by { WinIsSwap(ws, acts, g); }
      var c := GrantStep(ws, acts, g, acts[g].p);
      Younger(ws, acts, node, b, f, g, c);
      GrantedIsDue(ws, acts, c, acts[g].p, lease);
      DueGrows(ws, acts, lease, c + 1, j);
      RunLater(ws, acts, b, c);
    }
  }

  lemma WinIsSwap(ws: seq<World>, acts: seq<Action>, g: nat)
    requires WinStep(ws, acts, g)
    ensures SwapStep(ws, acts, g)
  {
  }

  /** A service entry of the node goes only with its lease or by a Deregister that names it. */
  lemma ServiceGoes(w: World, a: Action, node: NodeSchema, k: Bytes)
    requires Inv(w) && Enabled(w, a) && (a.Begin? ==> CleanCall(a.first))
    requires IsServiceOf(w.s, node, k) && !IsServiceOf(Next(w, a).s, node, k)
    ensures Ended(w, a) == Some(w.s.entries[k].lease)
         || (a.Exec? && w.calls[a.p].DropService? && DropNames(w.calls[a.p], w.s.entries[k].value.spec))
  {
    hide Print, Parse;
    NextOk(w, a);
    var t := Next(w, a).s;
    assert EntryOk(w.s, k);
    assert k in t.entries ==> EntryOk(t, k);
    if k !in t.entries && a.Exec? {
      assert PcOk(w.s, w.published, w.calls[a.p]);
      RequestRemoves(w.s, w.published, w.calls[a.p], a.choice, k);
    }
  }

  /** The deregistration is of this service. */
  predicate DropNames(pc: Pc, sp: ServiceSpec)
    requires pc.DropService?
  {
    && pc.node.datacenter == sp.datacenter && pc.node.name == sp.node
    && pc.service == sp.service && pc.instance == sp.instance
  }

  lemma DropRemoves(s: Store, h: History, pc: Pc, c: Choice, k: Bytes)
    requires StoreOk(s, h) && PcOk(s, h, pc) && Admissible(s, pc, c) && pc.DropService?
    requires k in s.entries && s.entries[k].value.Service? && k !in Request(s, pc, c).0.entries
    ensures DropNames(pc, s.entries[k].value.spec)
  {
    hide Print, Parse;
    var node, service, instance := pc.node, pc.service, pc.instance;
    DropKeeps(s, h, pc, c);
    CommitDeletes(s, Print(ServiceKey(service, node.location, node.datacenter, node.name, instance)),
                  Print(DcServiceKey(node.datacenter, node.name, service, instance)));
    PrintParse(ServiceKey(service, node.location, node.datacenter, node.name, instance));
    PrintParse(DcServiceKey(node.datacenter, node.name, service, instance));
    assert EntryOk(s, k);
  }

  lemma RequestRemoves(s: Store, h: History, pc: Pc, c: Choice, k: Bytes)
    requires StoreOk(s, h) && PcOk(s, h, pc) && Admissible(s, pc, c)
    requires k in s.entries && s.entries[k].value.Service? && k !in Request(s, pc, c).0.entries
    ensures (pc.RevokeLease? && pc.lease == s.entries[k].lease)
         || (pc.DropService? && DropNames(pc, s.entries[k].value.spec))
  {
    if pc.DropService? {
      DropRemoves(s, h, pc, c, k);
    } else if pc.SwapLease? || pc.PutService? || pc.CreateNode? || pc.Announce? {
      TransactionFrame(s, pc, c);
    }
  }

  /** Step j is a Reset's revocation of the lease. */
  predicate Revokes(ws: seq<World>, acts: seq<Action>, j: nat, lease: LeaseId) {
    && j < |acts| && j < |ws| && acts[j].Exec? && acts[j].p in ws[j].calls
    && ws[j].calls[acts[j].p].RevokeLease? && ws[j].calls[acts[j].p].lease == lease
  }

  /** Step j is a Deregister transaction that names the service. */
  predicate Deregisters(ws: seq<World>, acts: seq<Action>, j: nat, sp: ServiceSpec) {
    && j < |acts| && j < |ws| && acts[j].Exec? && acts[j].p in ws[j].calls
    && ws[j].calls[acts[j].p].DropService? && DropNames(ws[j].calls[acts[j].p], sp)
  }

  /**
   * Step j does not expire the node's stored lease, and if it takes a service entry of the node away, it is
   * a Deregister that names the service or a Reset that revokes the stored lease.
   */
  ghost predicate Alive(ws: seq<World>, acts: seq<Action>, node: NodeSchema, j: nat)
    requires |ws| == |acts| + 1 && j < |acts|
  {
    && !(acts[j].Expire? && Stored(ws[j].s, node) == Some(acts[j].lease))
    && forall k :: IsServiceOf(ws[j].s, node, k) && !IsServiceOf(ws[j + 1].s, node, k) ==>
         || Deregisters(ws, acts, j, ws[j].s.entries[k].value.spec)
         || exists lease :: Stored(ws[j].s, node) == Some(lease) && Revokes(ws, acts, j, lease)
  }

  /**
   * In every run, whatever leases come and go: as long as a node's lease was secured less than a TTL ago,
   * the stored lease does not expire, and registrations go only by Deregister or Reset.
   */
  lemma RegistrationsLive(ws: seq<World>, acts: seq<Action>, node: NodeSchema, j: nat)
    requires CleanRun(ws, acts) && CleanNode(node) && j < |acts| && Secured(ws, acts, node, j)
    ensures Alive(ws, acts, node, j)
  {
    hide Print, Parse, Secures;
    var b: nat, f: nat :| b <= f < j && Secures(ws, acts, node, b, f) && ws[j].s.now < ws[b].s.now + LEASE_TTL;
    var w, a := ws[j], acts[j];
    RunInv(ws, acts, j);
    assert StepAt(ws, acts, j);
    if a.Expire? && Stored(w.s, node) == Some(a.lease) {
      StoredIsFresh(ws, acts, node, b, f, j, a.lease);
      assert false;
    }
    forall k | IsServiceOf(w.s, node, k) && !IsServiceOf(ws[j + 1].s, node, k)
      ensures Deregisters(ws, acts, j, w.s.entries[k].value.spec)
           || exists lease :: Stored(w.s, node) == Some(lease) && Revokes(ws, acts, j, lease)
    {
      ServicesHangOnStoredLease(ws, acts, j, node, k);
      ServiceGoes(w, a, node, k);
      assert a.Exec? && w.calls[a.p].RevokeLease? ==> Revokes(ws, acts, j, w.calls[a.p].lease);
    }
  }

  /** A lease held at step a is held, and not yet due, for as long as it is secured and no Reset has revoked it. */
  lemma {:induction false} HeldUntilReset(ws: seq<World>, acts: seq<Action>, node: NodeSchema, lease: LeaseId, a: nat, n: nat)
    requires CleanRun(ws, acts) && a <= n < |ws| && CleanNode(node) && Holding(ws[a].s, node, lease)
    requires forall j :: a <= j <= n ==> Secured(ws, acts, node, j)
    ensures || (Holding(ws[n].s, node, lease) && ws[n].s.now < ws[n].s.leases[lease])
            || exists j :: a <= j < n && Revokes(ws, acts, j, lease)
    decreases n
  {
    hide Print, Parse, Secures;
    if a < n {
      HeldUntilReset(ws, acts, node, lease, a, n - 1);
      if Holding(ws[n - 1].s, node, lease) && !Revokes(ws, acts, n - 1, lease) {
        StaysHeld(ws, acts, node, lease, n - 1);
      }
    }
    if Holding(ws[n].s, node, lease) {
      assert Secured(ws, acts, node, n);
      var b: nat, f: nat :| b <= f < n && Secures(ws, acts, node, b, f) && ws[n].s.now < ws[b].s.now + LEASE_TTL;
      StoredIsFresh(ws, acts, node, b, f, n, lease);
    }
  }

  lemma StaysHeld(ws: seq<World>, acts: seq<Action>, node: NodeSchema, lease: LeaseId, j: nat)
    requires CleanRun(ws, acts) && CleanNode(node) && j < |acts| && Holding(ws[j].s, node, lease)
    requires Secured(ws, acts, node, j) && !Revokes(ws, acts, j, lease)
    ensures Holding(ws[j + 1].s, node, lease)
  {
    hide Print, Parse, Secured;
    RegistrationsLive(ws, acts, node, j);
    RunInv(ws, acts, j);
    RunDue(ws, acts, j);
    assert StepAt(ws, acts, j);
    StepTime(ws[j], acts[j]);
    if Stored(ws[j + 1].s, node) != Some(lease) {
      ReplacedLeasesAreDead(ws, acts, j, j + 1, node);
    }
  }

  // ---------- heartbeats one after another ----------

  /** One heartbeat: the steps from which and by which it secures the lease. */
  datatype Pulse = Pulse(b: nat, f: nat)

  /** Heartbeats of the node that end before step n. */
  ghost predicate Pulses(ws: seq<World>, acts: seq<Action>, node: NodeSchema, n: nat, beats: seq<Pulse>) {
    forall i {:trigger beats[i]} :: 0 <= i < |beats| ==>
      beats[i].b <= beats[i].f < n && Secures(ws, acts, node, beats[i].b, beats[i].f)
  }

  /** The step by which the next heartbeat has secured the lease; step n for the last. */
  function NextDone(beats: seq<Pulse>, n: nat, i: nat): nat
    requires i < |beats|
  {
    if i + 1 < |beats| then beats[i + 1].f else n
  }

  /** Each heartbeat is done less than so many seconds after the one before took hold. */
  ghost predicate Within(ws: seq<World>, n: nat, beats: seq<Pulse>, seconds: nat)
    requires n < |ws| && forall i :: 0 <= i < |beats| ==> beats[i].b <= beats[i].f < n
  {
    forall i {:trigger NextDone(beats, n, i)} :: 0 <= i < |beats| ==>
      ws[NextDone(beats, n, i)].s.now < ws[beats[i].b].s.now + seconds
  }

  /** The last heartbeat that was done before step j. */
  lemma {:induction false} LastDone(beats: seq<Pulse>, n: nat, j: nat, i: nat) returns (last: nat)
    requires i < |beats| && beats[i].f < j <= n
    ensures last < |beats| && beats[last].f < j <= NextDone(beats, n, last)
    decreases |beats| - i
  {
    if i + 1 == |beats| || j <= beats[i + 1].f {
      last := i;
    } else {
      last := LastDone(beats, n, j, i + 1);
    }
  }

  /** With successive heartbeats less than a TTL apart the node's lease is secured at every step after the first. */
  lemma BeatsSecure(ws: seq<World>, acts: seq<Action>, node: NodeSchema, n: nat, beats: seq<Pulse>, j: nat)
    requires CleanRun(ws, acts) && n < |ws| && Pulses(ws, acts, node, n, beats) && Within(ws, n, beats, LEASE_TTL)
    requires beats != [] && beats[0].f < j <= n
    ensures Secured(ws, acts, node, j)
  {
    hide CleanRun, Secures;
    var i := LastDone(beats, n, j, 0);
    RunLater(ws, acts, j, NextDone(beats, n, i));
    assert Secures(ws, acts, node, beats[i].b, beats[i].f);
  }

  /**
   * The heartbeat loop at the period that is served, at most half the TTL: if from one heartbeat to the next
   * less than a period is lost to delays, registrations go only by Deregister or Reset, in every run.
   */
  lemma ServedPeriodSuffices(ws: seq<World>, acts: seq<Action>, node: NodeSchema, n: nat, beats: seq<Pulse>,
                             period: nat, delay: nat, j: nat)
    requires CleanRun(ws, acts) && CleanNode(node) && n < |ws| && Pulses(ws, acts, node, n, beats)
    requires 2 * period <= LEASE_TTL && delay < period
    requires forall i {:trigger NextDone(beats, n, i)} :: 0 <= i < |beats| ==>
               ws[NextDone(beats, n, i)].s.now <= ws[beats[i].b].s.now + period + delay
    requires beats != [] && beats[0].f < j < n
    ensures Alive(ws, acts, node, j)
  {
    hide CleanRun, Secured, Alive;
    assert Within(ws, n, beats, LEASE_TTL);
    BeatsSecure(ws, acts, node, n, beats, j);
    NotLast(ws, acts, n, j);
    RegistrationsLive(ws, acts, node, j);
  }

  lemma NotLast(ws: seq<World>, acts: seq<Action>, n: nat, j: nat)
    requires CleanRun(ws, acts) && j < n < |ws|
    ensures j < |acts|
  {
  }
}
