/** prom-sd-observer: the observer's state, its updates, and the run that feeds it. */
module ObserverState {
  import opened ByteStrings
  import opened Wrappers
  import opened PrefixRange
  import opened Etcd
  import opened Discover
  import opened Observer
  import opened TargetsFile

  /** os.File as far as the observer uses it. */
  class File {
    var content: Bytes

    constructor ()
      ensures content == []
    {
      content := [];
    }

    method Truncate(size: nat)
      modifies this
      ensures size <= old(|content|) ==> content == old(content)[..size]
      ensures |content| == size
    {
      if size <= |content| {
        content := content[..size];
      } else {
        content := content + seq(size - |content|, _ => 0);
      }
    }

    /** Overwrites in place and leaves what lies beyond. */
    method WriteAtStart(text: Bytes)
      modifies this
      ensures content == text + (if |text| < old(|content|) then old(content)[|text|..] else [])
    {
      content := text + if |text| < |content| then content[|text|..] else [];
    }
  }

  class State {
    var targets: Targets
    const file: File
    const encode: Encoding

    /** The file shows the targets. */
    ghost predicate Valid()
      reads this, file
    {
      Renders(file.content, targets, encode)
    }

    constructor (encode: Encoding)
      ensures Valid() && targets == map[] && fresh(file) && this.encode == encode
    {
      this.targets := map[];
      this.file := new File();
      this.encode := encode;
      new;
      WriteServices();
    }

    /** Any map order, any previous file length. */
    method WriteServices()
      modifies file
      ensures Valid()
    {
      hide Elements, Visited, Walks, Renders;
      var buf: Bytes := [OPEN];
      WalkBegins(encode, targets);
      var first := true;
      var rest := targets.Keys;
      ghost var order: seq<ServiceId> := [];
      while rest != {}
        invariant Visited(order, rest, targets) && forall id :: id in order ==> id in targets
        invariant first <==> order == []
        invariant buf == [OPEN] + Elements(encode, Listed(order, targets))
        decreases rest
      {
        var id :| id in rest;
        VisitNext(order, rest, targets, id);
        ListedNext(encode, order, id, targets);
        if !first {
          buf := buf + [COMMA];
        } else {
          first := false;
        }
        ghost var before, text := buf, encode(targets[id]);
        buf := buf + encode(targets[id]) + [0x0a];
        buf := buf[..|buf| - 1];
        assert buf == before + text;
        order, rest := order + [id], rest - {id};
      }
      buf := buf + [CLOSE];
      WalkEnds(encode, order, targets);
      file.Truncate(0);
      file.WriteAtStart(buf);
      assert file.content == buf;
    }

    method UpdateServiceInternal(svc: ServiceSpec)
      modifies this
      ensures targets == Updated(old(targets), svc)
      ensures UpdatesAs(old(targets), targets, svc)
    {
      UpdatedIs(targets, svc);
      if svc.metricsPort.None? || svc.metricsPort.value == 0 {
        return;
      }
      var hosts := [];
      for i := 0 to |svc.addresses|
        invariant |hosts| == i && forall j :: 0 <= j < i ==> hosts[j] == HostPort(svc.addresses[j], svc.metricsPort.value)
      {
        hosts := hosts + [HostPort(svc.addresses[i], svc.metricsPort.value)];
      }
      var labels := MetaLabels(svc.location, svc.location, svc.location, svc.location, svc.instance);
      assert hosts == TargetOf(svc).targets;
      targets := targets[ServiceId(svc.node, svc.service, svc.instance) := Target(hosts, labels)];
    }

    method UpdateService(svc: ServiceSpec)
      modifies this, file
      ensures Valid() && targets == Updated(old(targets), svc) && UpdatesAs(old(targets), targets, svc)
    {
      UpdateServiceInternal(svc);
      WriteServices();
    }

    /** The services of a snapshot, given with the keys they are stored under. */
    method UpdateServiceBulk(svcs: seq<ServiceSpec>, ghost m: Contents, ghost keys: seq<Bytes>)
      requires |svcs| == |keys| && forall i :: 0 <= i < |keys| ==> keys[i] in m && m[keys[i]] == Service(svcs[i])
      modifies this, file
      ensures Valid() && targets == Bulked(old(targets), m, keys)
    {
      for i := 0 to |svcs|
        invariant targets == Bulked(old(targets), m, keys[..i])
      {
        UpdateServiceInternal(svcs[i]);
        assert keys[..i + 1][..i] == keys[..i];
      }
      assert keys[..|svcs|] == keys;
      WriteServices();
    }

    method DeleteService(node: Bytes, service: Bytes, instance: Bytes)
      modifies this, file
      ensures Valid() && targets == old(targets) - {ServiceId(node, service, instance)}
    {
      targets := targets - {ServiceId(node, service, instance)};
      WriteServices();
    }

    /** One message of the stream. */
    method Receive(msg: Message)
      modifies this, file
      ensures Valid() && targets == Handle(old(targets), msg)
    {
      match msg
      case Update(svc) => UpdateService(svc);
      case Remove(id) => DeleteService(id.node, id.service, id.instance);
    }

    /** The stream from one position of the history to another. */
    method ReceiveEvents(log: seq<Event>, lo: nat, hi: nat, dc: Bytes)
      requires Valid() && lo <= hi <= |log|
      modifies this, file
      ensures Valid() && targets == Fed(old(targets), log, lo, hi, dc)
    {
      for i := lo to hi
        invariant Valid() && targets == Fed(old(targets), log, lo, i, dc)
      {
        var ev := log[i];
        if InRange(ev.key, WatchPrefix(dc), PrefixEndOf(WatchPrefix(dc))) {
          var msg := Notify(ev);
          if msg.Some? {
            Receive(msg.value);
          }
        }
      }
    }
  }

  /** The snapshot: every service stored under the datacenter's prefix, in key order. */
  method GetDatacenterServices(s: Store, dc: Bytes) returns (r: Result<seq<ServiceSpec>, ()>, keys: seq<Bytes>)
    ensures Snapshot(Values(s.entries), dc, keys) && Ascending(keys)
    ensures r.Ok? <==> forall k :: k in keys ==> s.entries[k].value.Service?
    ensures r.Ok? ==> |r.value| == |keys|
    ensures r.Ok? ==> forall i :: 0 <= i < |keys| ==>
              keys[i] in s.entries && s.entries[keys[i]].value == Service(r.value[i])
  {
    var prefix := WatchPrefix(dc);
    keys := RangeSearch(s.entries, prefix, PrefixEndOf(prefix), 0);
    AllSelected(s.entries, prefix, PrefixEndOf(prefix), keys);
    var svcs := [];
    for i := 0 to |keys|
      invariant |svcs| == i
      invariant forall j :: 0 <= j < i ==> keys[j] in s.entries && s.entries[keys[j]].value == Service(svcs[j])
    {
      assert keys[i] in keys;
      if !s.entries[keys[i]].value.Service? {
        return Err(()), keys;
      }
      svcs := svcs + [s.entries[keys[i]].value.spec];
    }
    return Ok(svcs), keys;
  }

  /**
   * The observer's main: the receive loop with the bulk load taken from one state of the store and
   * applied, by the other goroutine, after event e. It ends if the snapshot cannot be had.
   */
  method Observe(log: seq<Event>, dc: Bytes, w: nat, e: nat, r: nat, m: nat, stored: Store, encode: Encoding)
      returns (result: Result<State, ()>, keys: seq<Bytes>)
    requires w <= e <= m <= |log| && r <= |log| && At(log, r) == Values(stored.entries)
    ensures Snapshot(At(log, r), dc, keys)
    ensures result.Ok? <==> forall k :: k in stored.entries && Watched(dc, k) ==> stored.entries[k].value.Service?
    ensures result.Ok? ==> result.value.targets == Observed(log, dc, w, e, r, m, keys)
    ensures result.Ok? ==> result.value.Valid() && result.value.encode == encode
  {
    var state := new State(encode);
    state.ReceiveEvents(log, w, e, dc);
    var svcs;
    svcs, keys := GetDatacenterServices(stored, dc);
    if svcs.Err? {
      return Err(()), keys;
    }
    state.UpdateServiceBulk(svcs.value, At(log, r), keys);
    state.ReceiveEvents(log, e, m, dc);
    return Ok(state), keys;
  }
}
