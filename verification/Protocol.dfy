/**
 * The registry servers as a state machine: any number of calls in progress, each stopped between two
 * of its requests to etcd, plus lease expiry and the passing of time. One action is one request.
 */
module Protocol {
  import opened ByteStrings
  import opened Wrappers
  import opened Keys
  import opened Etcd

  const MAX_ROUNDS: nat := 5

  datatype Job =
    | Register(service: Bytes, instance: Bytes, addresses: seq<Bytes>, ports: seq<PortSpec>,
               metricsPort: Option<nat>, peer: Bytes)
    | Deregister(service: Bytes, instance: Bytes)
    | Reset
    | Heartbeat

  /** What a read of a node's lease key returned; an undecodable value gives no lease. */
  datatype Seen = Seen(lease: Option<LeaseId>, version: nat)

  datatype Outcome =
    | Registered(spec: ServiceSpec)
    | Deregistered
    | WasReset(node: NodeSchema, readRev: nat)
    | Beat(node: NodeSchema, lease: LeaseId)
    | NodeAdded(node: NodeSchema)
    | Announced
    | AuthFailed
    | AlreadyExists
    | GaveUp(node: NodeSchema, base: nat)
    | ServerError

  /**
   * Where a call stands: the request it makes next and the variables it holds. base is the version
   * GetNodeLease found at its first read of the lease key, readRev the revision at which Reset read it;
   * both only record history.
   */
  datatype Pc =
    | Authenticate(datacenter: Bytes, name: Bytes, job: Job)
    | ReadLease(node: NodeSchema, job: Job, base: nat, round: nat)
    | RenewLease(node: NodeSchema, job: Job, base: nat, round: nat, seen: Seen)
    | GrantLease(node: NodeSchema, job: Job, base: nat, round: nat, last: Option<Seen>)
    | SwapLease(node: NodeSchema, job: Job, base: nat, round: nat, last: Option<Seen>, lease: LeaseId)
    | PutService(node: NodeSchema, spec: ServiceSpec, lease: LeaseId)
    | DropService(node: NodeSchema, service: Bytes, instance: Bytes)
    | ReadForReset(node: NodeSchema)
    | RevokeLease(node: NodeSchema, lease: LeaseId, readRev: nat)
    | CreateNode(node: NodeSchema)
    | Announce(server: Bytes, host: Bytes)
    | Finished(outcome: Outcome)

  function NodeText(node: NodeSchema): Bytes {
    Print(NodeKey(node.datacenter, node.name))
  }

  function LeaseText(node: NodeSchema): Bytes {
    Print(LeaseKey(node.datacenter, node.name))
  }

  function SvcText(spec: ServiceSpec): Bytes {
    Print(ServiceKey(spec.service, spec.location, spec.datacenter, spec.node, spec.instance))
  }

  function DcText(spec: ServiceSpec): Bytes {
    Print(DcServiceKey(spec.datacenter, spec.node, spec.service, spec.instance))
  }

  /** The spec Register stores; without addresses it takes the caller's. */
  function SpecOf(node: NodeSchema, job: Job): ServiceSpec
    requires job.Register?
  {
    ServiceSpec(job.service, job.instance, node.location, node.datacenter, node.name,
                if job.addresses == [] then [job.peer] else job.addresses, job.ports, job.metricsPort)
  }

  /** What Register puts, in one transaction. */
  function RegisterOps(spec: ServiceSpec, lease: LeaseId): seq<Op> {
    [OpPut(SvcText(spec), Service(spec), lease), OpPut(DcText(spec), Service(spec), lease)]
  }

  /** What Deregister deletes, in one transaction. */
  function DeregisterOps(node: NodeSchema, service: Bytes, instance: Bytes): seq<Op> {
    [OpDelete(Print(ServiceKey(service, node.location, node.datacenter, node.name, instance))),
     OpDelete(Print(DcServiceKey(node.datacenter, node.name, service, instance)))]
  }

  /** The guard of the lease swap: the key is as it was read. */
  function SwapGuard(node: NodeSchema, last: Option<Seen>): Compare {
    match last
    case None => CreateRevIs(LeaseText(node), 0)
    case Some(seen) => VersionIs(LeaseText(node), seen.version)
  }

  function SwapOps(node: NodeSchema, lease: LeaseId): seq<Op> {
    [OpPut(LeaseText(node), LeaseRef(lease), NO_LEASE)]
  }

  /** Where GetNodeLease's callers go on with the lease. */
  function WithLease(node: NodeSchema, job: Job, lease: LeaseId): Pc {
    if job.Register? then PutService(node, SpecOf(node, job), lease) else Finished(Beat(node, lease))
  }

  function NextRound(node: NodeSchema, job: Job, base: nat, round: nat): Pc {
    if round + 1 < MAX_ROUNDS then ReadLease(node, job, base, round + 1) else Finished(GaveUp(node, base))
  }

  /** Choices the store makes: the id of a granted lease, the order in which a lease's keys go. */
  datatype Choice = Choice(lease: LeaseId, order: seq<Bytes>)

  /** The choice is one the store could make. */
  predicate Admissible(s: Store, pc: Pc, c: Choice) {
    && !pc.Finished?
    && (pc.GrantLease? ==> c.lease != NO_LEASE && c.lease !in s.granted)
    && (pc.RevokeLease? && pc.lease in s.leases ==> Lists(c.order, s, pc.lease))
  }

  // What each request does to the store, and where it leaves the call.

  function AuthenticateRequest(s: Store, dc: Bytes, name: Bytes, job: Job): Pc {
    var found := Lookup(s, Print(NodeKey(dc, name)));
    if found.None? || !found.value.value.NodeRecord? then Finished(AuthFailed)
    else
      var node := found.value.value.schema;
      match job
      case Register(_, _, _, _, _, _) => ReadLease(node, job, 0, 0)
      case Heartbeat => ReadLease(node, job, 0, 0)
      case Deregister(service, instance) => DropService(node, service, instance)
      case Reset => ReadForReset(node)
  }

  /** The version a read found; 0 if there was no key. */
  function SeenVersion(last: Option<Seen>): nat {
    if last.None? then 0 else last.value.version
  }

  /** The first read sets the base that later rounds count from. */
  function BaseOf(base: nat, round: nat, last: Option<Seen>): nat {
    if round > 0 then base else SeenVersion(last)
  }

  function ReadRequest(s: Store, node: NodeSchema, job: Job, base: nat, round: nat): Pc {
    match Lookup(s, LeaseText(node))
    case None => GrantLease(node, job, BaseOf(base, round, None), round, None)
    case Some(e) =>
      var seen := Seen(if e.value.LeaseRef? then Some(e.value.id) else None, e.version);
      if e.value.LeaseRef? then RenewLease(node, job, BaseOf(base, round, Some(seen)), round, seen)
      else GrantLease(node, job, BaseOf(base, round, Some(seen)), round, Some(seen))
  }

  function RenewRequest(s: Store, node: NodeSchema, job: Job, base: nat, round: nat, seen: Seen): (Store, Pc) {
    if seen.lease.Some? && seen.lease.value in s.leases
    then (Renew(s, seen.lease.value), WithLease(node, job, seen.lease.value))
    else (s, GrantLease(node, job, base, round, Some(seen)))
  }

  function SwapRequest(s: Store, node: NodeSchema, job: Job, base: nat, round: nat, last: Option<Seen>, lease: LeaseId)
    : (Store, Pc)
  {
    var (t, reply) := Txn(s, Some(SwapGuard(node, last)), SwapOps(node, lease));
    (t, if reply == Replied(true) then WithLease(node, job, lease) else NextRound(node, job, base, round))
  }

  function PutRequest(s: Store, spec: ServiceSpec, lease: LeaseId): (Store, Pc) {
    var (t, reply) := Txn(s, None, RegisterOps(spec, lease));
    (t, Finished(if reply == Replied(true) then Registered(spec) else ServerError))
  }

  function DropRequest(s: Store, node: NodeSchema, service: Bytes, instance: Bytes): (Store, Pc) {
    var (t, reply) := Txn(s, None, DeregisterOps(node, service, instance));
    (t, Finished(if reply == Replied(true) then Deregistered else ServerError))
  }

  function ResetReadRequest(s: Store, node: NodeSchema): Pc {
    match Lookup(s, LeaseText(node))
    case None => Finished(WasReset(node, s.rev))
    case Some(e) =>
      if e.value.LeaseRef? then RevokeLease(node, e.value.id, s.rev) else Finished(WasReset(node, s.rev))
  }

  function CreateRequest(s: Store, node: NodeSchema): (Store, Pc) {
    var (t, reply) := Txn(s, Some(CreateRevIs(NodeText(node), 0)), CreateOps(node));
    (t, Finished(if reply == Replied(true) then NodeAdded(node) else AlreadyExists))
  }

  function CreateOps(node: NodeSchema): seq<Op> {
    [OpPut(NodeText(node), NodeRecord(node), NO_LEASE)]
  }

  function AnnounceOps(server: Bytes, host: Bytes): seq<Op> {
    [OpPut(Print(AddressKey(server)), Address(host), NO_LEASE)]
  }

  /** One request of one call: the store after it, and where the call stands then. */
  function Request(s: Store, pc: Pc, c: Choice): (Store, Pc)
    requires Admissible(s, pc, c)
  {
    match pc
    case Authenticate(dc, name, job) => (s, AuthenticateRequest(s, dc, name, job))
    case ReadLease(node, job, base, round) => (s, ReadRequest(s, node, job, base, round))
    case RenewLease(node, job, base, round, seen) => RenewRequest(s, node, job, base, round, seen)
    case GrantLease(node, job, base, round, last) =>
      (Grant(s, c.lease), SwapLease(node, job, base, round, last, c.lease))
    case SwapLease(node, job, base, round, last, lease) => SwapRequest(s, node, job, base, round, last, lease)
    case PutService(_, spec, lease) => PutRequest(s, spec, lease)
    case DropService(node, service, instance) => DropRequest(s, node, service, instance)
    case ReadForReset(node) => (s, ResetReadRequest(s, node))
    case RevokeLease(node, lease, readRev) => (Revoke(s, lease, c.order), Finished(WasReset(node, readRev)))
    case CreateNode(node) => CreateRequest(s, node)
    case Announce(server, host) => (Txn(s, None, AnnounceOps(server, host)).0, Finished(Announced))
  }

  // ---------- the whole system ----------

  /** Per node, the leases ever stored under its lease key, in order. */
  type History = map<(Bytes, Bytes), seq<LeaseId>>

  function Past(h: History, id: (Bytes, Bytes)): seq<LeaseId> {
    if id in h then h[id] else []
  }

  datatype World = World(s: Store, calls: map<nat, Pc>, published: History)

  const START := World(EMPTY_STORE, map[], map[])

  datatype Action =
    | Begin(p: nat, first: Pc)           // a call arrives
    | Exec(p: nat, choice: Choice)       // a call makes its next request
    | Fail(p: nat)                       // a call ends early: its server stops, or a request errs
    | Expire(lease: LeaseId, order: seq<Bytes>)
    | Tick(seconds: nat)

  predicate Enabled(w: World, a: Action) {
    match a
    case Begin(p, first) =>
      p !in w.calls && (first.Authenticate? || first.CreateNode? || first.Announce?)
    case Exec(p, c) => p in w.calls && Admissible(w.s, w.calls[p], c)
    case Fail(p) => p in w.calls && !w.calls[p].Finished?
    case Expire(lease, order) =>
      lease in w.s.leases && w.s.leases[lease] <= w.s.now && Lists(order, w.s, lease)
    case Tick(_) => true
  }

  function Id(node: NodeSchema): (Bytes, Bytes) {
    (node.datacenter, node.name)
  }

  /** The call's next request publishes its lease. */
  predicate Swaps(s: Store, pc: Pc) {
    pc.SwapLease? && Holds(s, SwapGuard(pc.node, pc.last))
  }

  function Next(w: World, a: Action): World
    requires Enabled(w, a)
  {
    match a
    case Begin(p, first) => w.(calls := w.calls[p := first])
    case Exec(p, c) =>
      var pc := w.calls[p];
      var (t, after) := Request(w.s, pc, c);
      World(t, w.calls[p := after],
            if Swaps(w.s, pc)
            then w.published[Id(pc.node) := Past(w.published, Id(pc.node)) + [pc.lease]]
            else w.published)
    case Fail(p) => w.(calls := w.calls[p := Finished(ServerError)])
    case Expire(lease, order) => w.(s := Kill(w.s, lease, order))
    case Tick(d) => w.(s := w.s.(now := w.s.now + d))
  }

  // ---------- runs ----------

  /** No component a caller hands in holds a '/'. */
  predicate CleanNode(node: NodeSchema) {
    SlashFree(node.name) && SlashFree(node.datacenter) && SlashFree(node.location)
  }

  predicate CleanJob(job: Job) {
    match job
    case Register(s, i, _, _, _, _) => SlashFree(s) && SlashFree(i)
    case Deregister(s, i) => SlashFree(s) && SlashFree(i)
    case Reset => true
    case Heartbeat => true
  }

  predicate CleanCall(first: Pc) {
    match first
    case Authenticate(d, n, job) => SlashFree(d) && SlashFree(n) && CleanJob(job)
    case CreateNode(node) => CleanNode(node)
    case Announce(server, _) => SlashFree(server)
    case _ => false
  }

  ghost predicate StepAt(ws: seq<World>, acts: seq<Action>, i: nat)
    requires |ws| == |acts| + 1 && i < |acts|
  {
    Enabled(ws[i], acts[i]) && ws[i + 1] == Next(ws[i], acts[i])
  }

  ghost predicate IsRun(ws: seq<World>, acts: seq<Action>) {
    && |ws| == |acts| + 1
    && ws[0] == START
    && forall i {:trigger StepAt(ws, acts, i)} :: 0 <= i < |acts| ==> StepAt(ws, acts, i)
  }

  ghost predicate CleanActions(acts: seq<Action>) {
    forall i :: 0 <= i < |acts| && acts[i].Begin? ==> CleanCall(acts[i].first)
  }
}
