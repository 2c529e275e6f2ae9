/**
 * The Prometheus observer: a snapshot and a watch stream of one datacenter's service keys, merged into
 * a target map. What that map is worth is said in terms of the store's history.
 */
module Observer {
  import opened ByteStrings
  import opened Wrappers
  import opened PrefixRange
  import opened Keys
  import opened Etcd

  type Contents = map<Bytes, Value>

  /** ServiceKey in prom-sd-observer/state/state.go. */
  datatype ServiceId = ServiceId(node: Bytes, service: Bytes, instance: Bytes)

  datatype HostPort = HostPort(host: Bytes, port: nat)

  /** The discovery labels, by the place each is meant for. */
  datatype MetaLabels = MetaLabels(location: Bytes, node: Bytes, datacenter: Bytes, job: Bytes, instance: Bytes)

  datatype Target = Target(targets: seq<HostPort>, labels: MetaLabels)

  type Targets = map<ServiceId, Target>

  // ---------- one service ----------

  /** Has a metrics port to scrape. */
  predicate Ported(sp: ServiceSpec) {
    sp.metricsPort.Some? && sp.metricsPort.value != 0
  }

  function IdOf(sp: ServiceSpec): ServiceId {
    ServiceId(sp.node, sp.service, sp.instance)
  }

  /** All labels but the instance carry the location, as the code has it. */
  function TargetOf(sp: ServiceSpec): Target
    requires sp.metricsPort.Some?
  {
    Target(seq(|sp.addresses|, i requires 0 <= i < |sp.addresses| => HostPort(sp.addresses[i], sp.metricsPort.value)),
           MetaLabels(sp.location, sp.location, sp.location, sp.location, sp.instance))
  }

  /** One host and port per address, in order, each that address with the metrics port; and the labels. */
  predicate Shows(t: Target, sp: ServiceSpec)
    requires sp.metricsPort.Some?
  {
    && |t.targets| == |sp.addresses|
    && (forall i :: 0 <= i < |sp.addresses| ==>
          t.targets[i].host == sp.addresses[i] && t.targets[i].port == sp.metricsPort.value)
    && t.labels.location == sp.location && t.labels.node == sp.location && t.labels.datacenter == sp.location
    && t.labels.job == sp.location && t.labels.instance == sp.instance
  }

  /** What an update does to the targets: sets the one under the spec's node, service and instance, or nothing. */
  predicate UpdatesAs(t: Targets, u: Targets, sp: ServiceSpec) {
    if sp.metricsPort == None || sp.metricsPort == Some(0) then u == t
    else
      var id := ServiceId(sp.node, sp.service, sp.instance);
      && id in u && Shows(u[id], sp) && u.Keys == t.Keys + {id}
      && forall other :: other in t && other != id ==> u[other] == t[other]
  }

  lemma UpdatedIs(t: Targets, sp: ServiceSpec)
    ensures UpdatesAs(t, Updated(t, sp), sp)
  {
  }

  /** updateService: a spec without a metrics port is skipped, and an older target stays. */
  function Updated(t: Targets, sp: ServiceSpec): Targets {
    if Ported(sp) then t[IdOf(sp) := TargetOf(sp)] else t
  }

  // ---------- the watch ----------

  datatype Message = Update(spec: ServiceSpec) | Remove(id: ServiceId)

  function WatchPrefix(dc: Bytes): Bytes {
    TierPrefix([DC_SERVICE_NS, dc])
  }

  predicate Watched(dc: Bytes, key: Bytes) {
    InRange(key, WatchPrefix(dc), PrefixEndOf(WatchPrefix(dc)))
  }

  /** What WatchDatacenterServices sends for an event; nothing for one it cannot read, which ends the stream. */
  function Notify(ev: Event): Option<Message> {
    match ev
    case Put(_, v) => if v.Service? then Some(Update(v.spec)) else None
    case Delete(k) =>
      var parts := Split(k);
      var n := |parts|;
      if n < 3 then None else Some(Remove(ServiceId(parts[n - 3], parts[n - 2], parts[n - 1])))
  }

  function Handle(t: Targets, msg: Message): Targets {
    match msg
    case Update(sp) => Updated(t, sp)
    case Remove(id) => t - {id}
  }

  /** The targets after the stream has delivered one more event, if it is a watched one. */
  function Delivered(t: Targets, dc: Bytes, ev: Event): Targets {
    if Watched(dc, ev.key) && Notify(ev).Some? then Handle(t, Notify(ev).value) else t
  }

  /** The targets after the stream has delivered the events from one position of the history to another. */
  function Fed(t: Targets, log: seq<Event>, lo: nat, hi: nat, dc: Bytes): Targets
    requires hi <= |log|
    decreases hi
  {
    if hi <= lo then t else Delivered(Fed(t, log, lo, hi - 1, dc), dc, log[hi - 1])
  }

  /** The targets after a bulk update with the services stored under some keys. */
  function Bulked(t: Targets, m: Contents, keys: seq<Bytes>): Targets {
    if keys == [] then t
    else
      var before, k := Bulked(t, m, keys[..|keys| - 1]), keys[|keys| - 1];
      if k in m && m[k].Service? then Updated(before, m[k].spec) else before
  }

  /** The store's contents at a position of its history. */
  function At(log: seq<Event>, i: nat): Contents
    requires i <= |log|
  {
    Replay(log[..i])
  }

  /** keys lists what a snapshot of the datacenter selects. */
  ghost predicate Snapshot(m: Contents, dc: Bytes, keys: seq<Bytes>) {
    forall k :: k in keys <==> k in m && Watched(dc, k)
  }

  /**
   * One run of the observer: the watch starts at position w, the bulk is a snapshot of position r and is
   * applied after event e, and the stream has been read up to m.
   */
  function Observed(log: seq<Event>, dc: Bytes, w: nat, e: nat, r: nat, m: nat, keys: seq<Bytes>): Targets
    requires w <= e <= m <= |log| && r <= |log|
  {
    Fed(Bulked(Fed(map[], log, w, e, dc), At(log, r), keys), log, e, m, dc)
  }

  // ---------- what the targets should be ----------

  predicate CleanId(id: ServiceId) {
    SlashFree(id.node) && SlashFree(id.service) && SlashFree(id.instance)
  }

  function KeyOf(dc: Bytes, id: ServiceId): Bytes {
    Print(DcServiceKey(dc, id.node, id.service, id.instance))
  }

  function Look(t: Targets, id: ServiceId): Option<Target> {
    if id in t then Some(t[id]) else None
  }

  /** The stored spec under a key, if it can be scraped. */
  function PortedAt(m: Contents, k: Bytes): (r: Option<ServiceSpec>)
    ensures r.Some? ==> Ported(r.value)
  {
    if k in m && m[k].Service? && Ported(m[k].spec) then Some(m[k].spec) else None
  }

  function AsTarget(sp: Option<ServiceSpec>): Option<Target>
    requires sp.Some? ==> Ported(sp.value)
  {
    if sp.Some? then Some(TargetOf(sp.value)) else None
  }

  /** The target map is the projection of the stored services that can be scraped. */
  ghost predicate Agrees(t: Targets, m: Contents, dc: Bytes) {
    && (forall id :: id in t ==> CleanId(id))
    && (forall id :: CleanId(id) ==> Look(t, id) == AsTarget(PortedAt(m, KeyOf(dc, id))))
  }

  // ---------- well-formed histories ----------

  /** An event on a printed key; under dcsvc, a put of the service the key names. */
  predicate EventOk(ev: Event) {
    && Parse(ev.key).Some?
    && (ev.Put? && Parse(ev.key).value.DcServiceKey? ==>
          ev.value.Service?
          && var key, sp := Parse(ev.key).value, ev.value.spec;
             key == DcServiceKey(sp.datacenter, sp.node, sp.service, sp.instance))
  }

  ghost predicate LogOk(log: seq<Event>) {
    forall i :: 0 <= i < |log| ==> EventOk(log[i])
  }

  /** Watched keys are exactly the datacenter's. */
  lemma WatchedKeys(dc: Bytes, k: Bytes)
    requires SlashFree(dc) && Parse(k).Some?
    ensures Watched(dc, k) <==> Parse(k).value.DcServiceKey? && Parse(k).value.datacenter == dc
  {
    ParsePrint(k);
    var key := Parse(k).value;
    TierRange([DC_SERVICE_NS, dc], key);
    var cs := Components(key);
    if Watched(dc, k) {
      assert cs[..2][0] == DC_SERVICE_NS && cs[..2][1] == dc;
      assert |SERVICE_NS| == 3 && |DC_SERVICE_NS| == 5 && |LEASES_NS| == 10 && |PEER_API_NS| == 14;
    }
  }

  /** The id read off a deleted key is the id of the spec that was put under it. */
  lemma DeleteParsingInvertsPutPrinting(dc: Bytes, id: ServiceId)
    requires SlashFree(dc) && CleanId(id)
    ensures Notify(Delete(KeyOf(dc, id))) == Some(Remove(id))
    ensures Watched(dc, KeyOf(dc, id))
  {
    var key := DcServiceKey(dc, id.node, id.service, id.instance);
    PrintParse(key);
    CleanComponents(key);
    SplitJoin(Components(key));
    WatchedKeys(dc, KeyOf(dc, id));
  }

  /** What a watched event says about a service: a message for exactly the service of its key. */
  lemma MessageNamesKey(dc: Bytes, ev: Event)
    requires SlashFree(dc) && EventOk(ev) && Watched(dc, ev.key)
    ensures Notify(ev).Some?
    ensures var id := match Notify(ev).value case Update(sp) => IdOf(sp) case Remove(i) => i;
            CleanId(id) && ev.key == KeyOf(dc, id)
  {
    WatchedKeys(dc, ev.key);
    ParsePrint(ev.key);
    var key := Parse(ev.key).value;
    DeleteParsingInvertsPutPrinting(dc, ServiceId(key.node, key.service, key.instance));
  }

  lemma KeysDistinct(dc: Bytes, a: ServiceId, b: ServiceId)
    requires SlashFree(dc) && CleanId(a) && CleanId(b)
    ensures KeyOf(dc, a) == KeyOf(dc, b) <==> a == b
  {
    PrintParse(DcServiceKey(dc, a.node, a.service, a.instance));
    PrintParse(DcServiceKey(dc, b.node, b.service, b.instance));
  }

  // ---------- what the stream tells about one key ----------

  /** What an event leaves known of the key, as the last spec with a port. */
  function HeardOne(ev: Event, k: Bytes, before: Option<ServiceSpec>): (r: Option<ServiceSpec>)
    requires before.Some? ==> Ported(before.value)
    ensures r.Some? ==> Ported(r.value)
  {
    if ev.key != k then before
    else if ev.Delete? then None
    else if ev.value.Service? && Ported(ev.value.spec) then Some(ev.value.spec)
    else before
  }

  /** The last spec with a port that the events from one position to another leave under the key. */
  function Heard(log: seq<Event>, lo: nat, hi: nat, k: Bytes, init: Option<ServiceSpec>): (r: Option<ServiceSpec>)
    requires hi <= |log|
    requires init.Some? ==> Ported(init.value)
    ensures r.Some? ==> Ported(r.value)
    decreases hi
  {
    if hi <= lo then init else HeardOne(log[hi - 1], k, Heard(log, lo, hi - 1, k, init))
  }

  lemma {:induction false} HeardInTwo(log: seq<Event>, a: nat, b: nat, c: nat, k: Bytes, init: Option<ServiceSpec>)
    requires a <= b <= c <= |log| && (init.Some? ==> Ported(init.value))
    ensures Heard(log, a, c, k, init) == Heard(log, b, c, k, Heard(log, a, b, k, init))
    decreases c
  {
    if b < c {
      HeardInTwo(log, a, b, c - 1, k, init);
    }
  }

  /** A delivered event moves the target of exactly the service its key names. */
  lemma DeliveredHears(t: Targets, dc: Bytes, ev: Event, id: ServiceId, before: Option<ServiceSpec>)
    requires EventOk(ev) && SlashFree(dc) && CleanId(id)
    requires (before.Some? ==> Ported(before.value)) && Look(t, id) == AsTarget(before)
    ensures Look(Delivered(t, dc, ev), id) == AsTarget(HeardOne(ev, KeyOf(dc, id), before))
  {
    hide Print, Parse, Watched, KeyOf, EventOk, Split;
    DeleteParsingInvertsPutPrinting(dc, id);
    if Watched(dc, ev.key) {
      MessageNamesKey(dc, ev);
      var other := match Notify(ev).value case Update(sp) => IdOf(sp) case Remove(i) => i;
      KeysDistinct(dc, id, other);
    }
  }

  /** The stream moves the target of each service as its events say. */
  lemma {:induction false} FedHears(t: Targets, log: seq<Event>, lo: nat, hi: nat, dc: Bytes, id: ServiceId,
                                    init: Option<ServiceSpec>)
    requires LogOk(log) && SlashFree(dc) && CleanId(id) && lo <= hi <= |log|
    requires (init.Some? ==> Ported(init.value)) && Look(t, id) == AsTarget(init)
    ensures Look(Fed(t, log, lo, hi, dc), id) == AsTarget(Heard(log, lo, hi, KeyOf(dc, id), init))
    decreases hi
  {
    if lo < hi {
      FedHears(t, log, lo, hi - 1, dc, id, init);
      DeliveredHears(Fed(t, log, lo, hi - 1, dc), dc, log[hi - 1], id, Heard(log, lo, hi - 1, KeyOf(dc, id), init));
    }
  }

  lemma {:induction false} FedClean(t: Targets, log: seq<Event>, lo: nat, hi: nat, dc: Bytes)
    requires LogOk(log) && SlashFree(dc) && hi <= |log| && forall id :: id in t ==> CleanId(id)
    ensures forall id :: id in Fed(t, log, lo, hi, dc) ==> CleanId(id)
    decreases hi
  {
    if lo < hi {
      FedClean(t, log, lo, hi - 1, dc);
      if Watched(dc, log[hi - 1].key) {
        MessageNamesKey(dc, log[hi - 1]);
      }
    }
  }

  /** Contents reached by a well-formed history: watched keys hold the services they name. */
  ghost predicate ContentsOk(m: Contents) {
    forall k {:trigger Parse(k)} :: k in m ==> EventOk(Put(k, m[k]))
  }

  lemma {:induction false} AtOk(log: seq<Event>, i: nat)
    requires LogOk(log) && i <= |log|
    ensures ContentsOk(At(log, i))
  {
    if i > 0 {
      AtOk(log, i - 1);
      AtNext(log, i - 1);
      assert EventOk(log[i - 1]);
      forall k | k in At(log, i) ensures EventOk(Put(k, At(log, i)[k])) {
        if k != log[i - 1].key {
          assert EventOk(Put(k, At(log, i - 1)[k]));
        }
      }
    }
  }

  lemma AtNext(log: seq<Event>, i: nat)
    requires i < |log|
    ensures At(log, i + 1) == ReplayOne(At(log, i), log[i])
  {
    assert log[..i + 1][..i] == log[..i];
  }

  /** The bulk update sets the targets of the snapshot's services that have a port, and no others. */
  lemma {:induction false} BulkSets(t: Targets, m: Contents, keys: seq<Bytes>, dc: Bytes, id: ServiceId)
    requires ContentsOk(m) && SlashFree(dc) && CleanId(id)
    requires forall k :: k in keys ==> k in m && Watched(dc, k)
    ensures Look(Bulked(t, m, keys), id) ==
              if KeyOf(dc, id) in keys && PortedAt(m, KeyOf(dc, id)).Some?
              then AsTarget(PortedAt(m, KeyOf(dc, id))) else Look(t, id)
  {
    if keys != [] {
      var init, k := keys[..|keys| - 1], keys[|keys| - 1];
      assert keys == init + [k];
      BulkSets(t, m, init, dc, id);
      assert k in keys;
      MessageNamesKey(dc, Put(k, m[k]));
      KeysDistinct(dc, id, IdOf(m[k].spec));
    }
  }

  lemma {:induction false} BulkClean(t: Targets, m: Contents, keys: seq<Bytes>, dc: Bytes)
    requires ContentsOk(m) && SlashFree(dc) && forall id :: id in t ==> CleanId(id)
    requires forall k :: k in keys ==> k in m && Watched(dc, k)
    ensures forall id :: id in Bulked(t, m, keys) ==> CleanId(id)
  {
    if keys != [] {
      var init, k := keys[..|keys| - 1], keys[|keys| - 1];
      assert keys == init + [k] && k in keys;
      BulkClean(t, m, init, dc);
      MessageNamesKey(dc, Put(k, m[k]));
    }
  }

  /** What a run of the observer knows of a key when the bulk has been applied. */
  function Known(log: seq<Event>, w: nat, e: nat, r: nat, k: Bytes): (sp: Option<ServiceSpec>)
    requires w <= e <= |log| && r <= |log|
    ensures sp.Some? ==> Ported(sp.value)
  {
    if PortedAt(At(log, r), k).Some? then PortedAt(At(log, r), k) else Heard(log, w, e, k, None)
  }

  /** The targets of any run, service by service, whatever the order of snapshot and events. */
  lemma ObservedTargets(log: seq<Event>, dc: Bytes, w: nat, e: nat, r: nat, m: nat, keys: seq<Bytes>, id: ServiceId)
    requires LogOk(log) && SlashFree(dc) && CleanId(id) && w <= e <= m <= |log| && r <= |log|
    requires Snapshot(At(log, r), dc, keys)
    ensures var k := KeyOf(dc, id);
            Look(Observed(log, dc, w, e, r, m, keys), id) == AsTarget(Heard(log, e, m, k, Known(log, w, e, r, k)))
  {
    var k := KeyOf(dc, id);
    DeleteParsingInvertsPutPrinting(dc, id);
    AtOk(log, r);
    var t := Fed(map[], log, w, e, dc);
    FedHears(map[], log, w, e, dc, id, None);
    BulkSets(t, At(log, r), keys, dc, id);
    FedHears(Bulked(t, At(log, r), keys), log, e, m, dc, id, Known(log, w, e, r, k));
  }

  lemma ObservedClean(log: seq<Event>, dc: Bytes, w: nat, e: nat, r: nat, m: nat, keys: seq<Bytes>)
    requires LogOk(log) && SlashFree(dc) && w <= e <= m <= |log| && r <= |log|
    requires Snapshot(At(log, r), dc, keys)
    ensures forall id :: id in Observed(log, dc, w, e, r, m, keys) ==> CleanId(id)
  {
    AtOk(log, r);
    FedClean(map[], log, w, e, dc);
    BulkClean(Fed(map[], log, w, e, dc), At(log, r), keys, dc);
    FedClean(Bulked(Fed(map[], log, w, e, dc), At(log, r), keys), log, e, m, dc);
  }
}
