/** registry/agent_api/node_api.go: the configuration a node is served. */
module NodeApi {
  import opened ByteStrings
  import opened PrefixRange
  import opened Keys
  import opened Etcd
  import opened Protocol
  import opened Invariant
  import opened Runs
  import opened Discover
  import opened Server

  /** In every reachable store the address search selects the printed address keys, each holding an address. */
  lemma AddressesOnly(ws: seq<World>, acts: seq<Action>, i: nat, k: Bytes)
    requires CleanRun(ws, acts) && i < |ws| && k in ws[i].s.entries
    ensures k in Tier(ws[i].s.entries, PEER_API_NS) <==> exists server :: k == Print(AddressKey(server))
    ensures k in Tier(ws[i].s.entries, PEER_API_NS) ==> ws[i].s.entries[k].value.Address?
  {
    RunInv(ws, acts, i);
    assert EntryOk(ws[i].s, k);
    ParsePrint(k);
    var key := Parse(k).value;
    AddressRange(key);
    assert key.AddressKey? ==> k == Print(AddressKey(key.server));
    forall server | k == Print(AddressKey(server)) ensures key.AddressKey? {
      AddressRange(AddressKey(server));
    }
  }

  /** What a server announces is the address stored under its key from then on, until it announces again. */
  lemma AnnouncedIsStored(ws: seq<World>, acts: seq<Action>, t: nat)
    requires CleanRun(ws, acts) && t < |acts| && acts[t].Exec? && acts[t].p in ws[t].calls
    requires ws[t].calls[acts[t].p].Announce?
    ensures var pc, m := ws[t].calls[acts[t].p], ws[t + 1].s.entries;
            && Print(AddressKey(pc.server)) in m && m[Print(AddressKey(pc.server))].value == Address(pc.host)
            && m[Print(AddressKey(pc.server))].lease == NO_LEASE
  {
    hide Print, Parse;
    var s, pc := ws[t].s, ws[t].calls[acts[t].p];
    RunInv(ws, acts, t);
    assert StepAt(ws, acts, t);
    CommitPut(s, Print(AddressKey(pc.server)), Address(pc.host), NO_LEASE);
  }

  /** A server's stored address changes only when the server announces. */
  lemma AddressesStay(ws: seq<World>, acts: seq<Action>, t: nat, server: Bytes)
    requires CleanRun(ws, acts) && t < |acts| && SlashFree(server) && Print(AddressKey(server)) in ws[t].s.entries
    requires !(acts[t].Exec? && acts[t].p in ws[t].calls && ws[t].calls[acts[t].p].Announce?
               && ws[t].calls[acts[t].p].server == server)
    ensures Print(AddressKey(server)) in ws[t + 1].s.entries
    ensures ws[t + 1].s.entries[Print(AddressKey(server))] == ws[t].s.entries[Print(AddressKey(server))]
  {
    hide Print, Parse, Request;
    PrintParse(AddressKey(server));
    RunInv(ws, acts, t);
    assert EntryOk(ws[t].s, Print(AddressKey(server)));
    assert StepAt(ws, acts, t);
    if acts[t].Exec? {
      CallsKeepToTheirNode(ws, acts, t);
    }
  }

  /**
   * The addresses of all registered servers, each once, in the order of their keys, and a heartbeat
   * period that leaves a second try before the lease is due.
   */
  method Config(etcd: EtcdServer) returns (heartbeatPeriod: nat, keys: seq<Bytes>, addrs: seq<Bytes>)
    requires etcd.Valid()
    ensures heartbeatPeriod == 15 && 2 * heartbeatPeriod <= LEASE_TTL
    ensures Ascending(keys) && |addrs| == |keys|
    ensures forall k :: k in keys <==> k in etcd.s.entries && exists server :: k == Print(AddressKey(server))
    ensures forall i :: 0 <= i < |keys| ==> etcd.s.entries[keys[i]].value == Address(addrs[i])
  {
    hide Print, Parse, InRange, StepAt;
    heartbeatPeriod := LEASE_TTL / 2;
    keys := RangeSearch(etcd.s.entries, PEER_API_NS, PrefixEndOf(PEER_API_NS), 0);
    SearchedAddresses(etcd.ws, etcd.acts, |etcd.acts|, keys);
    addrs := [];
    for i := 0 to |keys|
      invariant |addrs| == i
      invariant forall j :: 0 <= j < i ==> etcd.s.entries[keys[j]].value == Address(addrs[j])
    {
      addrs := addrs + [etcd.s.entries[keys[i]].value.host];
    }
  }

  lemma SearchedAddresses(ws: seq<World>, acts: seq<Action>, i: nat, keys: seq<Bytes>)
    requires CleanRun(ws, acts) && i < |ws|
    requires Ascending(keys) && |keys| == |Tier(ws[i].s.entries, PEER_API_NS)|
    requires forall k :: k in keys ==> k in Tier(ws[i].s.entries, PEER_API_NS)
    ensures forall k :: k in keys <==> k in ws[i].s.entries && exists server :: k == Print(AddressKey(server))
    ensures forall k :: k in keys ==> ws[i].s.entries[k].value.Address?
  {
    hide Print, Parse, CleanRun, InRange, Ascending;
    AllSelected(ws[i].s.entries, PEER_API_NS, PrefixEndOf(PEER_API_NS), keys);
    forall k | k in ws[i].s.entries
      ensures k in keys <==> exists server :: k == Print(AddressKey(server))
      ensures k in keys ==> ws[i].s.entries[k].value.Address?
    {
      AddressesOnly(ws, acts, i, k);
    }
  }
}
