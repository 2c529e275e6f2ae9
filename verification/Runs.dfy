/** What holds over whole runs: any number of servers and calls, any interleaving, any expiry. */
module Runs {
  import opened ByteStrings
  import opened Wrappers
  import opened Keys
  import opened Etcd
  import opened Protocol
  import opened Invariant
  import opened Steps

  ghost predicate CleanRun(ws: seq<World>, acts: seq<Action>) {
    IsRun(ws, acts) && CleanActions(acts)
  }

  lemma {:induction false} RunInv(ws: seq<World>, acts: seq<Action>, i: nat)
    requires CleanRun(ws, acts) && i < |ws|
    ensures Inv(ws[i])
  {
    if i == 0 {
      StartOk();
    } else {
      RunInv(ws, acts, i - 1);
      assert StepAt(ws, acts, i - 1);
      NextOk(ws[i - 1], acts[i - 1]);
    }
  }

  lemma {:induction false} RunLater(ws: seq<World>, acts: seq<Action>, i: nat, j: nat)
    requires CleanRun(ws, acts) && i <= j < |ws|
    ensures Later(ws[i].s, ws[i].published, ws[j].s, ws[j].published)
    decreases j
  {
    if i == j {
      LaterReflexive(ws[i].s, ws[i].published);
    } else {
      RunLater(ws, acts, i, j - 1);
      RunInv(ws, acts, j - 1);
      assert StepAt(ws, acts, j - 1);
      NextOk(ws[j - 1], acts[j - 1]);
      LaterTransitive(ws[i].s, ws[i].published, ws[j - 1].s, ws[j - 1].published, ws[j].s, ws[j].published);
    }
  }

  /** The lease a node's lease key names. */
  function Stored(s: Store, node: NodeSchema): Option<LeaseId> {
    if LeaseText(node) in s.entries && s.entries[LeaseText(node)].value.LeaseRef?
    then Some(s.entries[LeaseText(node)].value.id) else None
  }

  predicate IsServiceOf(s: Store, node: NodeSchema, k: Bytes) {
    && k in s.entries && s.entries[k].value.Service?
    && s.entries[k].value.spec.datacenter == node.datacenter && s.entries[k].value.spec.node == node.name
  }

  // ---------- one live owner ----------

  /** Any lease ever stored for a node and stored no longer is dead, and so it stays. */
  lemma ReplacedLeasesAreDead(ws: seq<World>, acts: seq<Action>, j: nat, i: nat, node: NodeSchema)
    requires CleanRun(ws, acts) && j <= i < |ws| && CleanNode(node)
    requires Stored(ws[j].s, node).Some? && Stored(ws[i].s, node) != Stored(ws[j].s, node)
    ensures Stored(ws[j].s, node).value !in ws[i].s.leases
  {
    RunInv(ws, acts, j);
    RunInv(ws, acts, i);
    RunLater(ws, acts, j, i);
    LeaseVersion(ws[j].s, ws[j].published, node);
    LeaseVersion(ws[i].s, ws[i].published, node);
    var before, after := Past(ws[j].published, Id(node)), Past(ws[i].published, Id(node));
    assert LineageOk(ws[i].s, ws[i].published, Id(node));
    assert before <= after && before[|before| - 1] == after[|before| - 1];
  }

  /** All of a node's service entries hang on the lease its lease key names, and that lease is live. */
  lemma ServicesHangOnStoredLease(ws: seq<World>, acts: seq<Action>, i: nat, node: NodeSchema, k: Bytes)
    requires CleanRun(ws, acts) && i < |ws| && CleanNode(node) && IsServiceOf(ws[i].s, node, k)
    ensures Stored(ws[i].s, node) == Some(ws[i].s.entries[k].lease)
    ensures ws[i].s.entries[k].lease in ws[i].s.leases
  {
    RunInv(ws, acts, i);
    OnStoredLease(ws[i].s, ws[i].published, node, k);
  }

  /** Granted, never published, and no call is about to publish it. */
  ghost predicate Abandoned(w: World, lease: LeaseId) {
    && lease in w.s.granted
    && (forall id :: id in w.published ==> lease !in w.published[id])
    && (forall p :: p in w.calls && w.calls[p].SwapLease? ==> w.calls[p].lease != lease)
  }

  /** A request publishes only the lease it swaps in, and leads to a swap only with a lease it has just been granted. */
  lemma AbandonedByRequest(w: World, p: nat, c: Choice, lease: LeaseId)
    requires Inv(w) && Enabled(w, Exec(p, c)) && Abandoned(w, lease)
    ensures Abandoned(Next(w, Exec(p, c)), lease)
  {
    hide Print, Parse, StoreOk, PcOk, Request, Admissible;
    var pc, v := w.calls[p], Next(w, Exec(p, c));
    assert PcOk(w.s, w.published, pc);
    RequestKeeps(w.s, w.published, pc, c);
    assert v.published == Extended(w.s, w.published, pc);
    assert v.calls == w.calls[p := Request(w.s, pc, c).1];
    forall id | id in v.published ensures lease !in v.published[id] {
      if Swaps(w.s, pc) && id == Id(pc.node) {
        assert v.published[id] == Past(w.published, id) + [pc.lease];
      }
    }
    forall q | q in v.calls && v.calls[q].SwapLease? ensures v.calls[q].lease != lease {
      if q != p {
        assert q in w.calls && w.calls[q] == v.calls[q];
      }
    }
  }

  lemma AbandonedStays(w: World, a: Action, lease: LeaseId)
    requires Inv(w) && Enabled(w, a) && (a.Begin? ==> CleanCall(a.first)) && Abandoned(w, lease)
    ensures Abandoned(Next(w, a), lease)
  {
    hide Print, Parse, Inv, Request;
    if a.Exec? {
      AbandonedByRequest(w, a.p, a.choice, lease);
    }
  }

  lemma {:induction false} AbandonedForever(ws: seq<World>, acts: seq<Action>, j: nat, i: nat, lease: LeaseId)
    requires CleanRun(ws, acts) && j <= i < |ws| && Abandoned(ws[j], lease)
    ensures Abandoned(ws[i], lease)
    decreases i
  {
    if j < i {
      AbandonedForever(ws, acts, j, i - 1, lease);
      RunInv(ws, acts, i - 1);
      assert StepAt(ws, acts, i - 1);
      AbandonedStays(ws[i - 1], acts[i - 1], lease);
    }
  }

  /** Step t is a swap of a lease key. */
  predicate SwapStep(ws: seq<World>, acts: seq<Action>, t: nat) {
    && t < |acts| && t < |ws| && acts[t].Exec?
    && acts[t].p in ws[t].calls && ws[t].calls[acts[t].p].SwapLease?
  }

  predicate WinStep(ws: seq<World>, acts: seq<Action>, t: nat) {
    SwapStep(ws, acts, t) && Swaps(ws[t].s, ws[t].calls[acts[t].p])
  }

  lemma AbandonedOwnsNothing(w: World, lease: LeaseId, node: NodeSchema)
    requires Inv(w) && Abandoned(w, lease) && CleanNode(node)
    ensures forall k :: k in w.s.entries ==> w.s.entries[k].lease != lease
    ensures Stored(w.s, node) != Some(lease)
  {
    hide Print, Parse;
    forall k | k in w.s.entries ensures w.s.entries[k].lease != lease {
      assert EntryOk(w.s, k) && ServiceOk(w.s, w.published, k);
    }
    LeaseVersion(w.s, w.published, node);
  }

  lemma LostIsAbandoned(w: World, p: nat, c: Choice)
    requires Inv(w) && Enabled(w, Exec(p, c)) && w.calls[p].SwapLease? && !Swaps(w.s, w.calls[p])
    ensures Abandoned(Next(w, Exec(p, c)), w.calls[p].lease)
  {
    hide Print, Parse, StoreOk, Later;
    assert PcOk(w.s, w.published, w.calls[p]);
    SwapKeeps(w.s, w.published, w.calls[p], c);
  }

  /** The lease of a lost swap never owns a key, and is never stored. */
  lemma LostLeasesOwnNothing(ws: seq<World>, acts: seq<Action>, t: nat, i: nat, node: NodeSchema)
    requires CleanRun(ws, acts) && t < i < |ws| && CleanNode(node)
    requires SwapStep(ws, acts, t) && !WinStep(ws, acts, t)
    ensures var lease := ws[t].calls[acts[t].p].lease;
            && (forall k :: k in ws[i].s.entries ==> ws[i].s.entries[k].lease != lease)
            && Stored(ws[i].s, node) != Some(lease)
  {
    hide Abandoned, Inv, Stored;
    var p := acts[t].p;
    RunInv(ws, acts, t);
    assert StepAt(ws, acts, t);
    LostIsAbandoned(ws[t], p, acts[t].choice);
    AbandonedForever(ws, acts, t + 1, i, ws[t].calls[p].lease);
    RunInv(ws, acts, i);
    AbandonedOwnsNothing(ws[i], ws[t].calls[p].lease, node);
  }

  // ---------- compare-and-swap without ABA ----------

  /** A winner replaces exactly the lease it saw, found dead, at the version it saw. */
  lemma WinnerReplacesWhatItSaw(ws: seq<World>, acts: seq<Action>, t: nat)
    requires CleanRun(ws, acts) && WinStep(ws, acts, t)
    ensures var pc := ws[t].calls[acts[t].p];
            var before, after := ws[t].s, ws[t + 1].s;
            && Stored(before, pc.node) == (if pc.last.None? then None else pc.last.value.lease)
            && VersionOf(before, LeaseText(pc.node)) == SeenVersion(pc.last)
            && (Stored(before, pc.node).Some? ==> Stored(before, pc.node).value !in before.leases)
            && Stored(after, pc.node) == Some(pc.lease)
            && VersionOf(after, LeaseText(pc.node)) == VersionOf(before, LeaseText(pc.node)) + 1
  {
    hide Print, Parse;
    var p := acts[t].p;
    var pc := ws[t].calls[p];
    RunInv(ws, acts, t);
    RunInv(ws, acts, t + 1);
    assert PcOk(ws[t].s, ws[t].published, pc);
    assert StepAt(ws, acts, t);
    SwapOk(ws[t].s, ws[t].published, pc.node, pc.base + pc.round, pc.last, pc.lease);
    LeaseVersion(ws[t].s, ws[t].published, pc.node);
    LeaseVersion(ws[t + 1].s, ws[t + 1].published, pc.node);
  }

  /** Lease keys are never deleted and their versions never fall. */
  lemma VersionsOnlyGrow(ws: seq<World>, acts: seq<Action>, i: nat, j: nat, node: NodeSchema)
    requires CleanRun(ws, acts) && i <= j < |ws| && CleanNode(node)
    ensures VersionOf(ws[i].s, LeaseText(node)) <= VersionOf(ws[j].s, LeaseText(node))
    ensures Stored(ws[i].s, node).Some? ==> Stored(ws[j].s, node).Some?
    ensures VersionOf(ws[i].s, LeaseText(node)) == VersionOf(ws[j].s, LeaseText(node)) ==>
              Stored(ws[i].s, node) == Stored(ws[j].s, node)
  {
    RunInv(ws, acts, i);
    RunInv(ws, acts, j);
    RunLater(ws, acts, i, j);
    LeaseVersion(ws[i].s, ws[i].published, node);
    LeaseVersion(ws[j].s, ws[j].published, node);
  }

  /** Each observed version of a lease key is replaced at most once. */
  lemma OneWinnerPerVersion(ws: seq<World>, acts: seq<Action>, t: nat, u: nat)
    requires CleanRun(ws, acts) && WinStep(ws, acts, t) && WinStep(ws, acts, u)
    requires Id(ws[t].calls[acts[t].p].node) == Id(ws[u].calls[acts[u].p].node)
    requires SeenVersion(ws[t].calls[acts[t].p].last) == SeenVersion(ws[u].calls[acts[u].p].last)
    ensures t == u
  {
    hide Print, Parse;
    if t != u {
      var a, b := if t < u then t else u, if t < u then u else t;
      var node := ws[a].calls[acts[a].p].node;
      RunInv(ws, acts, a);
      assert PcOk(ws[a].s, ws[a].published, ws[a].calls[acts[a].p]);
      WinnerReplacesWhatItSaw(ws, acts, a);
      WinnerReplacesWhatItSaw(ws, acts, b);
      VersionsOnlyGrow(ws, acts, a + 1, b, node);
    }
  }

  // ---------- reset ----------

  /** Step t is a Register transaction that puts k. */
  predicate RegisterStep(ws: seq<World>, acts: seq<Action>, t: nat, k: Bytes) {
    && t < |acts| && t + 1 < |ws| && acts[t].Exec?
    && acts[t].p in ws[t].calls && ws[t].calls[acts[t].p].PutService?
    && acts[t].p in ws[t + 1].calls
    && ws[t + 1].calls[acts[t].p] == Finished(Registered(ws[t].calls[acts[t].p].spec))
    && k in {SvcText(ws[t].calls[acts[t].p].spec), DcText(ws[t].calls[acts[t].p].spec)}
    && k in ws[t + 1].s.entries && ws[t + 1].s.entries[k].modRev == ws[t + 1].s.rev > ws[t].s.rev
  }

  /** Requests other than a registration leave every service entry as it was or remove it. */
  lemma OtherRequests(s: Store, h: History, pc: Pc, c: Choice, k: Bytes)
    requires StoreOk(s, h) && PcOk(s, h, pc) && Admissible(s, pc, c) && !pc.PutService?
    requires k in Request(s, pc, c).0.entries && Request(s, pc, c).0.entries[k].value.Service?
    ensures k in s.entries && s.entries[k] == Request(s, pc, c).0.entries[k]
  {
    hide Print, Parse;
    if pc.SwapLease? || pc.CreateNode? || pc.Announce? {
      TransactionFrame(s, pc, c);
    } else if pc.DropService? {
      DropKeeps(s, h, pc, c);
      CommitDeletes(s, Print(ServiceKey(pc.service, pc.node.location, pc.node.datacenter, pc.node.name, pc.instance)),
                    Print(DcServiceKey(pc.node.datacenter, pc.node.name, pc.service, pc.instance)));
    }
  }

  /** Only a Register transaction makes or changes a service entry. */
  lemma NewServiceEntry(w: World, a: Action, k: Bytes)
    requires Inv(w) && Enabled(w, a)
    requires k in Next(w, a).s.entries && Next(w, a).s.entries[k].value.Service?
    requires !(k in w.s.entries && w.s.entries[k] == Next(w, a).s.entries[k])
    ensures a.Exec? && w.calls[a.p].PutService?
    ensures Next(w, a).calls[a.p] == Finished(Registered(w.calls[a.p].spec))
    ensures k in {SvcText(w.calls[a.p].spec), DcText(w.calls[a.p].spec)}
    ensures Next(w, a).s.entries[k].modRev == Next(w, a).s.rev > w.s.rev
  {
    hide Print, Parse;
    if a.Exec? {
      var pc := w.calls[a.p];
      assert PcOk(w.s, w.published, pc);
      if pc.PutService? {
        PutKeeps(w.s, w.published, pc, a.choice);
        if pc.lease in w.s.leases {
          RegisterOk(w.s, w.published, pc.spec, pc.node, pc.lease);
        }
      } else {
        OtherRequests(w.s, w.published, pc, a.choice, k);
      }
    }
  }

  lemma {:induction false} ServiceOrigin(ws: seq<World>, acts: seq<Action>, i: nat, k: Bytes) returns (t: nat)
    requires CleanRun(ws, acts) && i < |ws| && k in ws[i].s.entries && ws[i].s.entries[k].value.Service?
    ensures t < i && RegisterStep(ws, acts, t, k) && ws[t + 1].s.entries[k] == ws[i].s.entries[k]
  {
    hide Print, Parse;
    RunInv(ws, acts, i - 1);
    assert StepAt(ws, acts, i - 1);
    if k in ws[i - 1].s.entries && ws[i - 1].s.entries[k] == ws[i].s.entries[k] {
      t := ServiceOrigin(ws, acts, i - 1, k);
    } else {
      NewServiceEntry(ws[i - 1], acts[i - 1], k);
      t := i - 1;
    }
  }

  /** Step j is the read of the lease key by the Reset call p. */
  predicate ResetRead(ws: seq<World>, acts: seq<Action>, j: nat, p: nat, node: NodeSchema) {
    && j < |acts| && j < |ws| && acts[j].Exec? && acts[j].p == p
    && p in ws[j].calls && ws[j].calls[p] == ReadForReset(node)
  }

  lemma {:induction false} ResetHasRead(ws: seq<World>, acts: seq<Action>, i: nat, p: nat, node: NodeSchema, r: nat)
      returns (j: nat)
    requires CleanRun(ws, acts) && i < |ws| && p in ws[i].calls
    requires ws[i].calls[p] == Finished(WasReset(node, r))
          || (ws[i].calls[p].RevokeLease? && ws[i].calls[p].node == node && ws[i].calls[p].readRev == r)
    ensures j < i && ResetRead(ws, acts, j, p, node) && ws[j].s.rev == r
  {
    assert StepAt(ws, acts, i - 1);
    var w, a := ws[i - 1], acts[i - 1];
    if a.Exec? && a.p == p && w.calls[p] == ReadForReset(node) {
      j := i - 1;
    } else {
      j := ResetHasRead(ws, acts, i - 1, p, node, r);
    }
  }

  /**
   * Reset is complete: once it has succeeded, now or at any time after, every service entry of the
   * node was put by a Register transaction that ran after Reset read the lease key.
   */
  lemma ResetIsComplete(ws: seq<World>, acts: seq<Action>, i: nat, p: nat, node: NodeSchema, r: nat)
    requires CleanRun(ws, acts) && i < |ws| && p in ws[i].calls && ws[i].calls[p] == Finished(WasReset(node, r))
    ensures exists j :: 0 <= j < i && ResetRead(ws, acts, j, p, node)
              && forall k :: IsServiceOf(ws[i].s, node, k) ==>
                   exists t :: j < t < i && RegisterStep(ws, acts, t, k)
                               && ws[t + 1].s.entries[k] == ws[i].s.entries[k]
  {
    hide Print, Parse;
    var j := ResetHasRead(ws, acts, i, p, node, r);
    RunInv(ws, acts, i);
    assert PcOk(ws[i].s, ws[i].published, ws[i].calls[p]);
    forall k | IsServiceOf(ws[i].s, node, k)
      ensures exists t :: j < t < i && RegisterStep(ws, acts, t, k) && ws[t + 1].s.entries[k] == ws[i].s.entries[k]
    {
      assert EntryOk(ws[i].s, k);
      var t := ServiceOrigin(ws, acts, i, k);
      if t < j {
        RunLater(ws, acts, t + 1, j);
      }
    }
  }

  // ---------- calls keep to their node ----------

  /**
   * Whatever a call does, for whatever node: the entries it changes are its own node's, or the address it
   * announces, and the leases it renews or ends were published for that node.
   */
  lemma CallsKeepToTheirNode(ws: seq<World>, acts: seq<Action>, t: nat)
    requires CleanRun(ws, acts) && t < |acts| && acts[t].Exec? && acts[t].p in ws[t].calls
    ensures var s, u, pc := ws[t].s, ws[t + 1].s, ws[t].calls[acts[t].p];
            && (forall k :: k in s.entries.Keys + u.entries.Keys && !(Parse(k).Some? && Owns(pc, Parse(k).value)) ==>
                  k in s.entries && k in u.entries && s.entries[k] == u.entries[k])
            && (forall l :: l in s.leases && !(NodeOf(pc).Some? && l in Past(ws[t].published, NodeOf(pc).value)) ==>
                  l in u.leases && u.leases[l] == s.leases[l])
  {
    hide Print, Parse, Request, Touches, Owns;
    var s, h, pc, c := ws[t].s, ws[t].published, ws[t].calls[acts[t].p], acts[t].choice;
    RunInv(ws, acts, t);
    assert StepAt(ws, acts, t);
    assert PcOk(s, h, pc);
    RequestTouches(s, pc, c);
    forall k | k in Touches(s, pc) ensures Parse(k).Some? && Owns(pc, Parse(k).value) {
      TouchesOwned(s, h, pc, k);
    }
    forall l | l in s.leases && !(NodeOf(pc).Some? && l in Past(h, NodeOf(pc).value))
      ensures l in ws[t + 1].s.leases && ws[t + 1].s.leases[l] == s.leases[l]
    {
      LeasesOwned(s, h, pc, c, l);
    }
  }

  // ---------- node records ----------

  /** A record, once stored, is never changed or removed. */
  lemma NodeRecordsAreFixed(ws: seq<World>, acts: seq<Action>, i: nat, j: nat, node: NodeSchema)
    requires CleanRun(ws, acts) && i <= j < |ws| && NodeKnown(ws[i].s, node)
    ensures NodeKnown(ws[j].s, node)
  {
    RunLater(ws, acts, i, j);
    KnownStable(ws[i].s, ws[j].s);
  }

  /** Step t is an AddNode transaction for the node's name that succeeds. */
  predicate AddStep(ws: seq<World>, acts: seq<Action>, t: nat, id: (Bytes, Bytes)) {
    && t < |acts| && t + 1 < |ws| && acts[t].Exec?
    && acts[t].p in ws[t].calls && ws[t].calls[acts[t].p].CreateNode? && Id(ws[t].calls[acts[t].p].node) == id
    && acts[t].p in ws[t + 1].calls
    && ws[t + 1].calls[acts[t].p] == Finished(NodeAdded(ws[t].calls[acts[t].p].node))
  }

  /** A success means there was no record before, and now there is this one. */
  lemma AddStepCreates(ws: seq<World>, acts: seq<Action>, t: nat, id: (Bytes, Bytes))
    requires CleanRun(ws, acts) && AddStep(ws, acts, t, id)
    ensures var node := ws[t].calls[acts[t].p].node;
            NodeText(node) !in ws[t].s.entries && NodeKnown(ws[t + 1].s, node)
  {
    hide Print, Parse;
    var w, p := ws[t], acts[t].p;
    RunInv(ws, acts, t);
    RunInv(ws, acts, t + 1);
    assert StepAt(ws, acts, t);
    assert PcOk(w.s, w.published, w.calls[p]);
    CreateKeeps(w.s, w.published, w.calls[p], acts[t].choice);
    assert PcOk(ws[t + 1].s, ws[t + 1].published, ws[t + 1].calls[p]);
  }

  /** At most one AddNode succeeds for a datacenter and name. */
  lemma NodesAreAddedOnce(ws: seq<World>, acts: seq<Action>, t: nat, u: nat, id: (Bytes, Bytes))
    requires CleanRun(ws, acts) && AddStep(ws, acts, t, id) && AddStep(ws, acts, u, id)
    ensures t == u
  {
    if t != u {
      var a, b := if t < u then t else u, if t < u then u else t;
      AddStepCreates(ws, acts, a, id);
      AddStepCreates(ws, acts, b, id);
      NodeRecordsAreFixed(ws, acts, a + 1, b, ws[a].calls[acts[a].p].node);
    }
  }

  // ---------- contention ----------

  /** Swaps of the node's lease key won by calls other than p in steps from j up to i. */
  function WinsByOthers(ws: seq<World>, acts: seq<Action>, j: nat, i: nat, id: (Bytes, Bytes), p: nat): nat
    decreases i
  {
    if i <= j then 0
    else
      var won := WinStep(ws, acts, i - 1) && acts[i - 1].p != p && Id(ws[i - 1].calls[acts[i - 1].p].node) == id;
      WinsByOthers(ws, acts, j, i - 1, id, p) + if won then 1 else 0
  }

  /** Swaps that call p has tried in steps from j up to i. */
  function SwapsTried(ws: seq<World>, acts: seq<Action>, j: nat, i: nat, p: nat): nat
    decreases i
  {
    if i <= j then 0
    else SwapsTried(ws, acts, j, i - 1, p) + if SwapStep(ws, acts, i - 1) && acts[i - 1].p == p then 1 else 0
  }

  /** The rounds behind a call in the loop. */
  function RoundOf(pc: Pc): nat {
    match pc
    case ReadLease(_, _, _, round) => round
    case RenewLease(_, _, _, round, _) => round
    case GrantLease(_, _, _, round, _) => round
    case SwapLease(_, _, _, round, _, _) => round
    case Finished(_) => 5
    case _ => 0
  }

  /** In GetNodeLease past its first read of the lease key, or given up on it. */
  predicate InLoop(pc: Pc, node: NodeSchema, base: nat) {
    || (pc.ReadLease? && pc.node == node && pc.base == base && pc.round > 0)
    || (pc.RenewLease? && pc.node == node && pc.base == base)
    || (pc.GrantLease? && pc.node == node && pc.base == base)
    || (pc.SwapLease? && pc.node == node && pc.base == base)
    || pc == Finished(GaveUp(node, base))
  }

  /** At the first read of the node's lease key in GetNodeLease. */
  predicate AtFirstRead(w: World, p: nat, node: NodeSchema) {
    p in w.calls && w.calls[p].ReadLease? && w.calls[p].round == 0 && w.calls[p].node == node
  }

  /** The lineage of a node grows by one with each won swap and not otherwise. */
  lemma LineageStep(ws: seq<World>, acts: seq<Action>, t: nat, id: (Bytes, Bytes))
    requires CleanRun(ws, acts) && t < |acts|
    ensures |Past(ws[t + 1].published, id)| == |Past(ws[t].published, id)|
              + (if WinStep(ws, acts, t) && Id(ws[t].calls[acts[t].p].node) == id then 1 else 0)
  {
    assert StepAt(ws, acts, t);
  }

  /** A call gets into the loop by its first read, and stays in it only by not winning. */
  lemma LoopStep(w: World, a: Action, p: nat, node: NodeSchema, base: nat)
    requires Inv(w) && Enabled(w, a) && p in Next(w, a).calls && InLoop(Next(w, a).calls[p], node, base)
    ensures p in w.calls
    ensures InLoop(w.calls[p], node, base) ||
              (a.Exec? && a.p == p && AtFirstRead(w, p, node) && CleanNode(node)
               && VersionOf(w.s, LeaseText(node)) == base == |Past(w.published, Id(node))|)
    ensures a.Exec? && a.p == p ==> !Swaps(w.s, w.calls[p])
    ensures RoundOf(Next(w, a).calls[p]) ==
              RoundOf(w.calls[p]) + if a.Exec? && a.p == p && w.calls[p].SwapLease? then 1 else 0
  {
    hide Print, Parse, StoreOk, Later, Request, PcOk;
    if a.Exec? && a.p == p {
      assert PcOk(w.s, w.published, w.calls[p]);
      LoopRequest(w.s, w.published, w.calls[p], a.choice, node, base);
    }
  }

  lemma LoopRequest(s: Store, h: History, pc: Pc, c: Choice, node: NodeSchema, base: nat)
    requires StoreOk(s, h) && PcOk(s, h, pc) && Admissible(s, pc, c) && InLoop(Request(s, pc, c).1, node, base)
    ensures !Swaps(s, pc)
    ensures RoundOf(Request(s, pc, c).1) == RoundOf(pc) + if pc.SwapLease? then 1 else 0
    ensures InLoop(pc, node, base) ||
              (pc.ReadLease? && pc.round == 0 && pc.node == node && CleanNode(node)
               && VersionOf(s, LeaseText(node)) == base == |Past(h, Id(node))|)
  {
    hide Print, Parse, StoreOk, Later;
    match pc
    case ReadLease(n, _, _, _) => LeaseVersion(s, h, n);
    case SwapLease(_, _, _, _, _, _) => SwapKeeps(s, h, pc, c);
    case _ =>
  }

  lemma {:induction false} LoopCountsWins(ws: seq<World>, acts: seq<Action>, i: nat, p: nat, node: NodeSchema, base: nat)
      returns (j: nat)
    requires CleanRun(ws, acts) && i < |ws| && p in ws[i].calls && InLoop(ws[i].calls[p], node, base)
    ensures j < i && acts[j].Exec? && acts[j].p == p && AtFirstRead(ws[j], p, node)
    ensures CleanNode(node) && VersionOf(ws[j].s, LeaseText(node)) == base
    ensures |Past(ws[i].published, Id(node))| == base + WinsByOthers(ws, acts, j, i, Id(node), p)
    ensures SwapsTried(ws, acts, j, i, p) == RoundOf(ws[i].calls[p])
  {
    hide Print, Parse;
    RunInv(ws, acts, i - 1);
    LineageStep(ws, acts, i - 1, Id(node));
    assert StepAt(ws, acts, i - 1);
    LoopStep(ws[i - 1], acts[i - 1], p, node, base);
    if InLoop(ws[i - 1].calls[p], node, base) {
      j := LoopCountsWins(ws, acts, i - 1, p, node, base);
    } else {
      j := i - 1;
      assert WinsByOthers(ws, acts, j, i - 1, Id(node), p) == 0 && SwapsTried(ws, acts, j, i - 1, p) == 0;
    }
  }

  /** A call gives up after exactly five swaps since its first read, lost to at least five won by others. */
  lemma GivingUpMeansContention(ws: seq<World>, acts: seq<Action>, i: nat, p: nat, node: NodeSchema, base: nat)
    requires CleanRun(ws, acts) && i < |ws| && p in ws[i].calls && ws[i].calls[p] == Finished(GaveUp(node, base))
    ensures exists j :: 0 <= j < i && acts[j].Exec? && acts[j].p == p && AtFirstRead(ws[j], p, node)
              && VersionOf(ws[i].s, LeaseText(node)) >= VersionOf(ws[j].s, LeaseText(node)) + 5
              && SwapsTried(ws, acts, j, i, p) == 5 && WinsByOthers(ws, acts, j, i, Id(node), p) >= 5
  {
    var j := LoopCountsWins(ws, acts, i, p, node, base);
    RunInv(ws, acts, i);
    assert PcOk(ws[i].s, ws[i].published, ws[i].calls[p]);
    LeaseVersion(ws[i].s, ws[i].published, node);
  }
}
