/**
 * The store the registry runs on, as its own code sees it: multi-version entries, leases that own
 * entries, atomic transactions, and the history of changes that a watch delivers.
 */
module Etcd {
  import opened ByteStrings
  import opened Wrappers

  type LeaseId = nat
  const NO_LEASE: LeaseId := 0
  const LEASE_TTL: nat := 30  // NodeKeepaliveTTL, in seconds

  datatype NodeType = Agent | Observer

  datatype NodeSchema = NodeSchema(name: Bytes, datacenter: Bytes, location: Bytes, kind: NodeType)

  datatype PortSpec = PortSpec(name: Bytes, port: nat, protocol: Option<Bytes>)

  datatype ServiceSpec = ServiceSpec(
    service: Bytes, instance: Bytes, location: Bytes, datacenter: Bytes, node: Bytes,
    addresses: seq<Bytes>, ports: seq<PortSpec>, metricsPort: Option<nat>)

  /** What the registry stores, before JSON encoding. */
  datatype Value =
    | LeaseRef(id: LeaseId)
    | NodeRecord(schema: NodeSchema)
    | Service(spec: ServiceSpec)
    | Address(host: Bytes)

  datatype Entry = Entry(value: Value, createRev: nat, modRev: nat, version: nat, lease: LeaseId)

  datatype Event = Put(key: Bytes, value: Value) | Delete(key: Bytes)

  /** leases maps each live lease to the time it is due; granted holds every id ever handed out. */
  datatype Store = Store(
    rev: nat, entries: map<Bytes, Entry>, leases: map<LeaseId, nat>, granted: set<LeaseId>,
    now: nat, log: seq<Event>)

  const EMPTY_STORE := Store(1, map[], map[], {}, 0, [])

  // ---------- reads and comparisons: a missing key has version and creation revision 0 ----------

  function Lookup(s: Store, key: Bytes): Option<Entry> {
    if key in s.entries then Some(s.entries[key]) else None
  }

  function VersionOf(s: Store, key: Bytes): nat {
    if key in s.entries then s.entries[key].version else 0
  }

  datatype Compare = VersionIs(key: Bytes, version: nat) | CreateRevIs(key: Bytes, rev: nat)

  predicate Holds(s: Store, c: Compare) {
    match c
    case VersionIs(k, v) => VersionOf(s, k) == v
    case CreateRevIs(k, r) => (if k in s.entries then s.entries[k].createRev else 0) == r
  }

  // ---------- transactions ----------

  datatype Op = OpPut(key: Bytes, value: Value, lease: LeaseId) | OpDelete(key: Bytes)

  predicate Attachable(s: Store, op: Op) {
    op.OpPut? && op.lease != NO_LEASE ==> op.lease in s.leases
  }

  function Apply(s: Store, rev: nat, op: Op): Store {
    match op
    case OpPut(k, v, l) =>
      var e := if k in s.entries
               then Entry(v, s.entries[k].createRev, rev, s.entries[k].version + 1, l)
               else Entry(v, rev, rev, 1, l);
      s.(entries := s.entries[k := e], log := s.log + [Put(k, v)])
    case OpDelete(k) =>
      if k in s.entries then s.(entries := s.entries - {k}, log := s.log + [Delete(k)]) else s
  }

  function ApplyAll(s: Store, rev: nat, ops: seq<Op>): Store
    decreases |ops|
  {
    if ops == [] then s else ApplyAll(Apply(s, rev, ops[0]), rev, ops[1..])
  }

  /** All operations take effect at one new revision; a transaction that changes nothing uses none up. */
  function Commit(s: Store, ops: seq<Op>): Store {
    var t := ApplyAll(s, s.rev + 1, ops);
    if t.log == s.log then t else t.(rev := s.rev + 1)
  }

  datatype TxnReply = Refused | Replied(succeeded: bool)

  /** If the guard holds, all operations or, for a put with a dead lease, an error; else nothing. */
  function Txn(s: Store, guard: Option<Compare>, ops: seq<Op>): (Store, TxnReply) {
    if guard.Some? && !Holds(s, guard.value) then (s, Replied(false))
    else if !AllAttachable(s, ops) then (s, Refused)
    else (Commit(s, ops), Replied(true))
  }

  predicate AllAttachable(s: Store, ops: seq<Op>) {
    forall i :: 0 <= i < |ops| ==> Attachable(s, ops[i])
  }

  // ---------- leases ----------

  function Grant(s: Store, id: LeaseId): Store {
    s.(leases := s.leases[id := s.now + LEASE_TTL], granted := s.granted + {id})
  }

  /** Renewal succeeds exactly when the lease is live. */
  function Renew(s: Store, id: LeaseId): Store {
    if id in s.leases then s.(leases := s.leases[id := s.now + LEASE_TTL]) else s
  }

  function Attached(s: Store, id: LeaseId): set<Bytes> {
    set k | k in s.entries && s.entries[k].lease == id
  }

  function Deletions(order: seq<Bytes>): seq<Event> {
    if order == [] then []
    else Deletions(order[..|order| - 1]) + [Delete(order[|order| - 1])]
  }

  /** order lists each key attached to the lease once. */
  predicate Lists(order: seq<Bytes>, s: Store, id: LeaseId) {
    && (forall k :: k in s.entries && s.entries[k].lease == id ==> k in order)
    && (forall k :: k in order ==> k in s.entries && s.entries[k].lease == id)
    && (forall i, j :: 0 <= i < j < |order| ==> order[i] != order[j])
  }

  /** The end of a lease, by revocation or expiry: its entries go with it, in some order. */
  function Kill(s: Store, id: LeaseId, order: seq<Bytes>): Store {
    s.(leases := s.leases - {id},
       entries := s.entries - Attached(s, id),
       log := s.log + Deletions(order),
       rev := if order == [] then s.rev else s.rev + 1)
  }

  /** Revoking a lease that is not live changes nothing. */
  function Revoke(s: Store, id: LeaseId, order: seq<Bytes>): Store {
    if id in s.leases then Kill(s, id, order) else s
  }

  // ---------- the log is the store's history ----------

  function Values(entries: map<Bytes, Entry>): map<Bytes, Value> {
    map k | k in entries :: entries[k].value
  }

  function ReplayOne(m: map<Bytes, Value>, ev: Event): map<Bytes, Value> {
    match ev
    case Put(k, v) => m[k := v]
    case Delete(k) => m - {k}
  }

  /** The contents a history of changes leads to. */
  function Replay(log: seq<Event>): map<Bytes, Value> {
    if log == [] then map[] else ReplayOne(Replay(log[..|log| - 1]), log[|log| - 1])
  }

  ghost predicate LogFaithful(s: Store) {
    Replay(s.log) == Values(s.entries)
  }

  lemma ReplaySnoc(log: seq<Event>, ev: Event)
    ensures Replay(log + [ev]) == ReplayOne(Replay(log), ev)
  {
    assert (log + [ev])[..|log|] == log;
  }

  lemma {:induction false} ReplayDeletions(log: seq<Event>, order: seq<Bytes>)
    ensures Replay(log + Deletions(order)) == Replay(log) - (set k | k in order)
  {
    if order == [] {
      assert log + Deletions(order) == log;
    } else {
      var init, last := order[..|order| - 1], order[|order| - 1];
      ReplayDeletions(log, init);
      assert log + Deletions(order) == (log + Deletions(init)) + [Delete(last)];
      ReplaySnoc(log + Deletions(init), Delete(last));
      assert order == init + [last];
      assert (set k | k in order) == (set k | k in init) + {last};
    }
  }

  lemma {:induction false} ApplyKeepsLog(s: Store, rev: nat, op: Op)
    requires LogFaithful(s)
    ensures LogFaithful(Apply(s, rev, op))
  {
    match op
    case OpPut(k, v, l) =>
      ReplaySnoc(s.log, Put(k, v));
      assert Values(Apply(s, rev, op).entries) == Values(s.entries)[k := v];
    case OpDelete(k) =>
      if k in s.entries {
        ReplaySnoc(s.log, Delete(k));
        assert Values(Apply(s, rev, op).entries) == Values(s.entries) - {k};
      }
  }

  lemma {:induction false} KillKeepsLog(s: Store, id: LeaseId, order: seq<Bytes>)
    requires LogFaithful(s) && Lists(order, s, id)
    ensures LogFaithful(Kill(s, id, order))
  {
    ReplayDeletions(s.log, order);
    assert (set k | k in order) == Attached(s, id);
    assert Values(Kill(s, id, order).entries) == Values(s.entries) - Attached(s, id);
  }

  lemma CommitOne(s: Store, op: Op)
    ensures ApplyAll(s, s.rev + 1, [op]) == Apply(s, s.rev + 1, op)
  {
    assert [op][1..] == [];
  }

  lemma CommitTwo(s: Store, a: Op, b: Op)
    ensures ApplyAll(s, s.rev + 1, [a, b]) == Apply(Apply(s, s.rev + 1, a), s.rev + 1, b)
  {
    assert [a, b][1..] == [b];
    CommitOne(s, b);
    var t := Apply(s, s.rev + 1, a);
    assert [b][1..] == [];
    assert ApplyAll(t, s.rev + 1, [b]) == Apply(t, s.rev + 1, b);
  }

  lemma CommitOf(s: Store, ops: seq<Op>, t: Store)
    requires ApplyAll(s, s.rev + 1, ops) == t
    ensures Commit(s, ops) == if t.log == s.log then t else t.(rev := s.rev + 1)
  {
  }

  lemma ApplyDelete(s: Store, rev: nat, k: Bytes)
    ensures Apply(s, rev, OpDelete(k)).entries == s.entries - {k}
  {
    if k !in s.entries {
      assert s.entries == s.entries - {k};
    }
  }

  /** Deleting two keys at once. */
  lemma CommitDeletes(s: Store, k1: Bytes, k2: Bytes)
    requires LogFaithful(s)
    ensures var t := Commit(s, [OpDelete(k1), OpDelete(k2)]);
            && LogFaithful(t) && t.entries == s.entries - {k1, k2}
            && t.leases == s.leases && t.granted == s.granted && t.now == s.now && s.rev <= t.rev
  {
    var a := Apply(s, s.rev + 1, OpDelete(k1));
    var b := Apply(a, s.rev + 1, OpDelete(k2));
    ApplyDelete(s, s.rev + 1, k1);
    ApplyDelete(a, s.rev + 1, k2);
    ApplyKeepsLog(s, s.rev + 1, OpDelete(k1));
    ApplyKeepsLog(a, s.rev + 1, OpDelete(k2));
    assert s.entries - {k1} - {k2} == s.entries - {k1, k2};
    CommitTwo(s, OpDelete(k1), OpDelete(k2));
    CommitOf(s, [OpDelete(k1), OpDelete(k2)], b);
  }

  /** Putting one key. */
  lemma CommitPut(s: Store, k: Bytes, v: Value, l: LeaseId)
    requires LogFaithful(s)
    ensures var t := Commit(s, [OpPut(k, v, l)]);
            && LogFaithful(t) && t == Apply(s, s.rev + 1, OpPut(k, v, l)).(rev := s.rev + 1)
  {
    CommitOne(s, OpPut(k, v, l));
    ApplyKeepsLog(s, s.rev + 1, OpPut(k, v, l));
    assert |Apply(s, s.rev + 1, OpPut(k, v, l)).log| == |s.log| + 1;
  }

  /** Putting one value under two keys that so far agree leaves them agreeing. */
  lemma CommitTwins(s: Store, k1: Bytes, k2: Bytes, v: Value, l: LeaseId)
    requires LogFaithful(s) && k1 != k2
    requires k1 in s.entries <==> k2 in s.entries
    requires k1 in s.entries ==> s.entries[k1] == s.entries[k2]
    ensures var t := Commit(s, [OpPut(k1, v, l), OpPut(k2, v, l)]);
            && LogFaithful(t) && t.rev == s.rev + 1
            && t.leases == s.leases && t.granted == s.granted && t.now == s.now
            && k1 in t.entries && t.entries == s.entries[k1 := t.entries[k1]][k2 := t.entries[k1]]
            && t.entries[k1].value == v && t.entries[k1].lease == l
            && t.entries[k1].modRev == t.rev && t.entries[k1].version == VersionOf(s, k1) + 1
            && t.entries[k1].createRev == (if k1 in s.entries then s.entries[k1].createRev else t.rev)
            && t.log == s.log + [Put(k1, v), Put(k2, v)]
  {
    var a := Apply(s, s.rev + 1, OpPut(k1, v, l));
    CommitTwo(s, OpPut(k1, v, l), OpPut(k2, v, l));
    ApplyKeepsLog(s, s.rev + 1, OpPut(k1, v, l));
    ApplyKeepsLog(a, s.rev + 1, OpPut(k2, v, l));
    var b := Apply(a, s.rev + 1, OpPut(k2, v, l));
    assert b.log == s.log + [Put(k1, v), Put(k2, v)];
    assert |b.log| == |s.log| + 2;
  }

  // ---------- what transactions leave alone ----------

  /** The entries under all other keys are as they were. */
  ghost predicate SameBut(s: Store, t: Store, keys: set<Bytes>) {
    forall k :: k !in keys ==> (k in t.entries <==> k in s.entries) && (k in s.entries ==> t.entries[k] == s.entries[k])
  }

  function KeysOf(ops: seq<Op>): set<Bytes> {
    set op | op in ops :: op.key
  }

  lemma {:induction false} ApplyAllTouches(s: Store, rev: nat, ops: seq<Op>)
    ensures SameBut(s, ApplyAll(s, rev, ops), KeysOf(ops))
    decreases |ops|
  {
    if ops != [] {
      var t := Apply(s, rev, ops[0]);
      ApplyAllTouches(t, rev, ops[1..]);
      assert forall k :: k in KeysOf(ops[1..]) ==> k in KeysOf(ops);
      assert ops[0] in ops;
    }
  }

  /** A transaction changes no key but those of its operations. */
  lemma TxnTouches(s: Store, guard: Option<Compare>, ops: seq<Op>)
    ensures SameBut(s, Txn(s, guard, ops).0, KeysOf(ops))
  {
    ApplyAllTouches(s, s.rev + 1, ops);
  }

  /** Every key stays, and each entry that now holds a service spec is as it was. */
  ghost predicate ServicesUntouched(s: Store, t: Store) {
    && s.entries.Keys <= t.entries.Keys
    && forall k :: k in t.entries && t.entries[k].value.Service? ==> k in s.entries && t.entries[k] == s.entries[k]
  }

  lemma {:induction false} ApplyAllFrame(s: Store, rev: nat, ops: seq<Op>)
    ensures var t := ApplyAll(s, rev, ops); t.leases == s.leases && t.granted == s.granted && t.now == s.now
    ensures (forall i :: 0 <= i < |ops| ==> ops[i].OpPut?) ==> s.entries.Keys <= ApplyAll(s, rev, ops).entries.Keys
    ensures (forall i :: 0 <= i < |ops| ==> ops[i].OpPut? && !ops[i].value.Service?) ==>
              ServicesUntouched(s, ApplyAll(s, rev, ops))
    decreases |ops|
  {
    if ops != [] {
      ApplyAllFrame(Apply(s, rev, ops[0]), rev, ops[1..]);
    }
  }

  lemma TxnFrame(s: Store, guard: Option<Compare>, ops: seq<Op>)
    ensures var t := Txn(s, guard, ops).0; t.leases == s.leases && t.granted == s.granted && t.now == s.now
    ensures (forall i :: 0 <= i < |ops| ==> ops[i].OpPut?) ==> s.entries.Keys <= Txn(s, guard, ops).0.entries.Keys
    ensures (forall i :: 0 <= i < |ops| ==> ops[i].OpPut? && !ops[i].value.Service?) ==>
              ServicesUntouched(s, Txn(s, guard, ops).0)
  {
    ApplyAllFrame(s, s.rev + 1, ops);
  }
}
