/**
 * The textual key formats of the registry: namespaces, printing, splitting at '/'.
 * Components are not escaped, so what a key means depends on its components being '/'-free.
 */
module Keys {
  import opened ByteStrings
  import opened PrefixRange
  import opened Wrappers

  const SLASH: byte := 0x2f
  const SERVICE_NS: Bytes := [0x73, 0x76, 0x63]                           // svc
  const DC_SERVICE_NS: Bytes := [0x64, 0x63, 0x73, 0x76, 0x63]            // dcsvc
  const NODES_NS: Bytes := [0x6e, 0x6f, 0x64, 0x65, 0x73]                 // nodes
  const LEASES_NS: Bytes :=                                               // node_lease
    [0x6e, 0x6f, 0x64, 0x65, 0x5f, 0x6c, 0x65, 0x61, 0x73, 0x65]
  const PEER_API_NS: Bytes :=                                             // peer_agent_api
    [0x70, 0x65, 0x65, 0x72, 0x5f, 0x61, 0x67, 0x65, 0x6e, 0x74, 0x5f, 0x61, 0x70, 0x69]

  predicate SlashFree(c: Bytes) {
    SLASH !in c
  }

  predicate AllSlashFree(cs: seq<Bytes>) {
    forall i :: 0 <= i < |cs| ==> SlashFree(cs[i])
  }

  /** Components with '/' between them, as the "%s/%s/..." formats print them. */
  function Join(cs: seq<Bytes>): Bytes {
    if cs == [] then [] else if |cs| == 1 then cs[0] else cs[0] + [SLASH] + Join(cs[1..])
  }

  /** bytes.Split(key, "/"). */
  function Split(key: Bytes): (cs: seq<Bytes>)
    ensures cs != []
  {
    if key == [] then [[]]
    else
      var rest := Split(key[1..]);
      if key[0] == SLASH then [[]] + rest else [[key[0]] + rest[0]] + rest[1..]
  }

  lemma {:induction false} SplitFirst(c: Bytes, rest: Bytes)
    requires SlashFree(c)
    ensures Split(c) == [c]
    ensures Split(c + [SLASH] + rest) == [c] + Split(rest)
  {
    var whole := c + [SLASH] + rest;
    if c == [] {
      assert whole[1..] == rest;
    } else {
      SplitFirst(c[1..], rest);
      assert whole[1..] == c[1..] + [SLASH] + rest;
      assert c == [c[0]] + c[1..];
    }
  }

  /** Splitting after a slash-free list of leading components gives them back. */
  lemma {:induction false} SplitAfterLead(lead: seq<Bytes>, rest: Bytes)
    requires lead != [] && AllSlashFree(lead)
    ensures Split(Join(lead) + [SLASH] + rest) == lead + Split(rest)
  {
    hide Split;
    if |lead| == 1 {
      SplitFirst(lead[0], rest);
      assert lead == [lead[0]];
    } else {
      var tail := Join(lead[1..]) + [SLASH] + rest;
      SplitAfterLead(lead[1..], rest);
      SplitFirst(lead[0], tail);
      assert Join(lead) + [SLASH] + rest == lead[0] + [SLASH] + tail;
      assert [lead[0]] + (lead[1..] + Split(rest)) == lead + Split(rest);
    }
  }

  /** Slash-free components survive printing. */
  lemma {:induction false} SplitJoin(cs: seq<Bytes>)
    requires cs != [] && AllSlashFree(cs)
    ensures Split(Join(cs)) == cs
  {
    hide Split;
    if |cs| == 1 {
      SplitFirst(cs[0], []);
      assert cs == [cs[0]];
    } else {
      SplitJoin(cs[1..]);
      SplitFirst(cs[0], Join(cs[1..]));
      assert cs == [cs[0]] + cs[1..];
    }
  }

  /** Every key is the print of its slash-free parts. */
  lemma {:induction false} JoinSplit(key: Bytes)
    ensures Join(Split(key)) == key && AllSlashFree(Split(key))
  {
    if key != [] {
      JoinSplit(key[1..]);
      var rest := Split(key[1..]);
      assert key == [key[0]] + key[1..];
      assert Split(key)[1..] == if key[0] == SLASH then rest else rest[1..];
      assert SlashFree(rest[0]);
      if key[0] == SLASH {
        assert Join(Split(key)) == [] + [SLASH] + Join(rest);
      } else if |rest| > 1 {
        assert Join(rest) == rest[0] + [SLASH] + Join(rest[1..]);
      }
    }
  }

  lemma {:induction false} JoinAppend(lead: seq<Bytes>, rest: seq<Bytes>)
    requires lead != [] && rest != []
    ensures Join(lead + rest) == Join(lead) + [SLASH] + Join(rest)
  {
    assert (lead + rest)[1..] == lead[1..] + rest;
    if |lead| > 1 {
      JoinAppend(lead[1..], rest);
    }
  }

  /**
   * When does a key identify its components? Exactly when none of them holds a '/':
   * any component with one lets the same key be printed from other components.
   */
  lemma {:induction false} UnambiguousIffSlashFree(ns: Bytes, cs: seq<Bytes>)
    requires SlashFree(ns) && |cs| >= 2
    ensures (forall ds: seq<Bytes> :: |ds| == |cs| && Join([ns] + ds) == Join([ns] + cs) ==> ds == cs)
       <==> AllSlashFree(cs)
  {
    if AllSlashFree(cs) {
      forall ds: seq<Bytes> | |ds| == |cs| && Join([ns] + ds) == Join([ns] + cs)
        ensures ds == cs
      {
        JoinAppend([ns], cs);
        JoinAppend([ns], ds);
        SplitAfterLead([ns], Join(cs));
        SplitAfterLead([ns], Join(ds));
        SplitJoin(cs);
        assert Split(Join(ds)) == cs by {
          assert ([ns] + Split(Join(ds)))[1..] == ([ns] + cs)[1..];
        }
        PartsCount(ds);
        SplitJoin(ds);
      }
    } else {
      var ds := Shifted(cs);
      JoinAppend([ns], cs);
      JoinAppend([ns], ds);
    }
  }

  function Count(key: Bytes): nat {
    if key == [] then 0 else (if key[0] == SLASH then 1 else 0) + Count(key[1..])
  }

  lemma {:induction false} CountAppend(a: Bytes, b: Bytes)
    ensures Count(a + b) == Count(a) + Count(b)
  {
    if a == [] {
      assert a + b == b;
    } else {
      CountAppend(a[1..], b);
      assert (a + b)[1..] == a[1..] + b;
    }
  }

  lemma {:induction false} CountZero(c: Bytes)
    ensures Count(c) == 0 <==> SlashFree(c)
  {
    if c != [] {
      CountZero(c[1..]);
      assert c == [c[0]] + c[1..];
    }
  }

  /** A print has one '/' between components and one for each '/' inside them. */
  lemma {:induction false} CountJoin(cs: seq<Bytes>)
    requires cs != []
    ensures Count(Join(cs)) >= |cs| - 1
    ensures Count(Join(cs)) == |cs| - 1 <==> AllSlashFree(cs)
  {
    CountZero(cs[0]);
    if |cs| == 1 {
    } else {
      CountJoin(cs[1..]);
      CountAppend(cs[0] + [SLASH], Join(cs[1..]));
      CountAppend(cs[0], [SLASH]);
      assert Count([SLASH]) == 1;
      assert forall i :: 1 <= i < |cs| ==> cs[i] == cs[1..][i - 1];
      assert AllSlashFree(cs) <==> SlashFree(cs[0]) && AllSlashFree(cs[1..]);
    }
  }

  /** Two prints of equally many components that agree are slash-free together. */
  lemma {:induction false} PartsCount(ds: seq<Bytes>)
    requires ds != [] && |Split(Join(ds))| == |ds|
    ensures AllSlashFree(ds)
  {
    JoinSplit(Join(ds));
    CountJoin(Split(Join(ds)));
    CountJoin(ds);
  }

  /** A '/' inside a component prints like one between two. */
  lemma MovedSlash(a: Bytes, b: Bytes, c: Bytes, rest: seq<Bytes>)
    ensures Join([a + [SLASH] + b, c] + rest) == Join([a, b + [SLASH] + c] + rest)
  {
    var one, other := [a + [SLASH] + b, c], [a, b + [SLASH] + c];
    assert Join(one) == Join(other) by {
      assert one[1..] == [c] && other[1..] == [b + [SLASH] + c];
      assert (a + [SLASH] + b) + [SLASH] + c == a + [SLASH] + (b + [SLASH] + c);
    }
    if rest == [] {
      assert one + rest == one && other + rest == other;
    } else {
      JoinAppend(one, rest);
      JoinAppend(other, rest);
    }
  }

  lemma AroundSlash(c: Bytes) returns (a: Bytes, b: Bytes)
    requires !SlashFree(c)
    ensures c == a + [SLASH] + b
  {
    var j :| 0 <= j < |c| && c[j] == SLASH;
    a, b := c[..j], c[j + 1..];
  }

  /** Other components with the same print, when one of them holds a '/'. */
  lemma {:induction false} Shifted(cs: seq<Bytes>) returns (ds: seq<Bytes>)
    requires |cs| >= 2 && !AllSlashFree(cs)
    ensures |ds| == |cs| && ds != cs && Join(ds) == Join(cs)
  {
    if !SlashFree(cs[0]) {
      var a, b := AroundSlash(cs[0]);
      ds := [a, b + [SLASH] + cs[1]] + cs[2..];
      MovedSlash(a, b, cs[1], cs[2..]);
      assert cs == [cs[0], cs[1]] + cs[2..] && |ds[0]| < |cs[0]|;
    } else if |cs| == 2 {
      var a, b := AroundSlash(cs[1]);
      ds := [cs[0] + [SLASH] + a, b];
      MovedSlash(cs[0], a, b, []);
      assert cs == [cs[0], cs[1]] + [] && ds == ds + [] && |ds[0]| > |cs[0]|;
    } else {
      assert !AllSlashFree(cs[1..]) by {
        var i :| 0 <= i < |cs| && !SlashFree(cs[i]);
        assert cs[1..][i - 1] == cs[i];
      }
      var rest := Shifted(cs[1..]);
      ds := [cs[0]] + rest;
      assert ds[1..] == rest;
    }
  }

  // ---------- the five kinds of keys ----------

  datatype Key =
    | ServiceKey(service: Bytes, location: Bytes, datacenter: Bytes, node: Bytes, instance: Bytes)
    | DcServiceKey(datacenter: Bytes, node: Bytes, service: Bytes, instance: Bytes)
    | NodeKey(datacenter: Bytes, node: Bytes)
    | LeaseKey(datacenter: Bytes, node: Bytes)
    | AddressKey(server: Bytes)

  function Components(key: Key): (cs: seq<Bytes>)
    ensures |cs| >= 2
  {
    match key
    case ServiceKey(s, l, d, n, i) => [SERVICE_NS, s, l, d, n, i]
    case DcServiceKey(d, n, s, i) => [DC_SERVICE_NS, d, n, s, i]
    case NodeKey(d, n) => [NODES_NS, d, n]
    case LeaseKey(d, n) => [LEASES_NS, d, n]
    case AddressKey(s) => [PEER_API_NS, s]
  }

  /** No component holds a '/'. */
  predicate Clean(key: Key) {
    match key
    case ServiceKey(s, l, d, n, i) =>
      SlashFree(s) && SlashFree(l) && SlashFree(d) && SlashFree(n) && SlashFree(i)
    case DcServiceKey(d, n, s, i) => SlashFree(d) && SlashFree(n) && SlashFree(s) && SlashFree(i)
    case NodeKey(d, n) => SlashFree(d) && SlashFree(n)
    case LeaseKey(d, n) => SlashFree(d) && SlashFree(n)
    case AddressKey(s) => SlashFree(s)
  }

  function Print(key: Key): Bytes {
    Join(Components(key))
  }

  lemma JoinTwo(a: Bytes, b: Bytes)
    ensures Join([a, b]) == a + Text("/") + b
  {
    assert [a, b][1..] == [b] && Text("/") == [SLASH];
  }

  lemma JoinCons(a: Bytes, rest: seq<Bytes>)
    requires rest != []
    ensures Join([a] + rest) == a + Text("/") + Join(rest)
  {
    assert ([a] + rest)[1..] == rest && Text("/") == [SLASH];
  }

  lemma JoinThree(a: Bytes, b: Bytes, c: Bytes)
    ensures Join([a, b, c]) == a + Text("/") + b + Text("/") + c
  {
    JoinTwo(b, c);
    JoinCons(a, [b, c]);
    assert [a] + [b, c] == [a, b, c];
  }

  lemma JoinFive(a: Bytes, b: Bytes, c: Bytes, d: Bytes, e: Bytes)
    ensures Join([a, b, c, d, e]) == a + Text("/") + b + Text("/") + c + Text("/") + d + Text("/") + e
  {
    JoinThree(c, d, e);
    JoinCons(b, [c, d, e]);
    JoinCons(a, [b, c, d, e]);
    assert [b] + [c, d, e] == [b, c, d, e] && [a] + [b, c, d, e] == [a, b, c, d, e];
  }

  lemma JoinSix(a: Bytes, b: Bytes, c: Bytes, d: Bytes, e: Bytes, f: Bytes)
    ensures Join([a, b, c, d, e, f])
         == a + Text("/") + b + Text("/") + c + Text("/") + d + Text("/") + e + Text("/") + f
  {
    JoinFive(b, c, d, e, f);
    JoinCons(a, [b, c, d, e, f]);
    assert [a] + [b, c, d, e, f] == [a, b, c, d, e, f];
  }

  lemma Namespaces()
    ensures SERVICE_NS == Text("svc") && DC_SERVICE_NS == Text("dcsvc") && NODES_NS == Text("nodes")
    ensures LEASES_NS == Text("node_lease") && PEER_API_NS == Text("peer_agent_api")
  {
  }

  /** What the keys look like. */
  lemma Formats(s: Bytes, l: Bytes, d: Bytes, n: Bytes, i: Bytes)
    ensures Print(ServiceKey(s, l, d, n, i))
         == Text("svc") + Text("/") + s + Text("/") + l + Text("/") + d + Text("/") + n + Text("/") + i
    ensures Print(DcServiceKey(d, n, s, i)) == Text("dcsvc") + Text("/") + d + Text("/") + n + Text("/") + s + Text("/") + i
    ensures Print(NodeKey(d, n)) == Text("nodes") + Text("/") + d + Text("/") + n
    ensures Print(LeaseKey(d, n)) == Text("node_lease") + Text("/") + d + Text("/") + n
    ensures Print(AddressKey(s)) == Text("peer_agent_api") + Text("/") + s
  {
    hide Join, Text;
    Namespaces();
    JoinSix(SERVICE_NS, s, l, d, n, i);
    JoinFive(DC_SERVICE_NS, d, n, s, i);
    JoinThree(NODES_NS, d, n);
    JoinThree(LEASES_NS, d, n);
    JoinTwo(PEER_API_NS, s);
  }

  /** Reads a key back from its parts. */
  function Parse(text: Bytes): Option<Key> {
    var p := Split(text);
    if |p| == 6 && p[0] == SERVICE_NS then Some(ServiceKey(p[1], p[2], p[3], p[4], p[5]))
    else if |p| == 5 && p[0] == DC_SERVICE_NS then Some(DcServiceKey(p[1], p[2], p[3], p[4]))
    else if |p| == 3 && p[0] == NODES_NS then Some(NodeKey(p[1], p[2]))
    else if |p| == 3 && p[0] == LEASES_NS then Some(LeaseKey(p[1], p[2]))
    else if |p| == 2 && p[0] == PEER_API_NS then Some(AddressKey(p[1]))
    else None
  }

  lemma {:induction false} CleanComponents(key: Key)
    ensures Clean(key) <==> AllSlashFree(Components(key))
  {
    var cs := Components(key);
    match key
    case ServiceKey(s, l, d, n, i) =>
      assert cs[1] == s && cs[2] == l && cs[3] == d && cs[4] == n && cs[5] == i;
    case DcServiceKey(d, n, s, i) =>
      assert cs[1] == d && cs[2] == n && cs[3] == s && cs[4] == i;
    case NodeKey(d, n) => assert cs[1] == d && cs[2] == n;
    case LeaseKey(d, n) => assert cs[1] == d && cs[2] == n;
    case AddressKey(s) => assert cs[1] == s;
  }

  /** Printing is undone by parsing: the formats are injective and the namespaces disjoint. */
  lemma {:induction false} PrintParse(key: Key)
    requires Clean(key)
    ensures Parse(Print(key)) == Some(key)
  {
    CleanComponents(key);
    SplitJoin(Components(key));
  }

  /** Whatever parses was printed, and from slash-free components. */
  lemma {:induction false} ParsePrint(text: Bytes)
    requires Parse(text).Some?
    ensures Print(Parse(text).value) == text && Clean(Parse(text).value)
  {
    JoinSplit(text);
    var p, key := Split(text), Parse(text).value;
    assert p == Components(key);
    CleanComponents(key);
  }

  // ---------- prefix searches over keys ----------

  /** The text searched for: leading components and a final '/'. */
  function TierPrefix(lead: seq<Bytes>): Bytes {
    Join(lead) + [SLASH]
  }

  /** A slash-free print starts with a tier prefix exactly when its leading components are the tier's. */
  lemma {:induction false} TierMembership(lead: seq<Bytes>, cs: seq<Bytes>)
    requires lead != [] && AllSlashFree(lead) && cs != [] && AllSlashFree(cs)
    ensures TierPrefix(lead) <= Join(cs) <==> |lead| < |cs| && cs[..|lead|] == lead
  {
    var n, p, key := |lead|, TierPrefix(lead), Join(cs);
    if p <= key {
      var rest := key[|p|..];
      assert key == p + rest;
      SplitAfterLead(lead, rest);
      SplitJoin(cs);
    } else if n < |cs| && cs[..n] == lead {
      assert cs == lead + cs[n..];
      JoinAppend(lead, cs[n..]);
    }
  }

  /** The range request for a tier selects exactly the keys whose leading components are the tier's. */
  lemma {:induction false} TierRange(lead: seq<Bytes>, key: Key)
    requires lead != [] && AllSlashFree(lead) && Clean(key)
    ensures InRange(Print(key), TierPrefix(lead), PrefixEndOf(TierPrefix(lead)))
       <==> |lead| < |Components(key)| && Components(key)[..|lead|] == lead
  {
    CleanComponents(key);
    TierMembership(lead, Components(key));
    PrefixEndExact(TierPrefix(lead));
  }

  /** The unterminated registry-address prefix still selects only address keys. */
  lemma {:induction false} AddressRange(key: Key)
    ensures InRange(Print(key), PEER_API_NS, PrefixEndOf(PEER_API_NS)) <==> key.AddressKey?
  {
    PrefixEndExact(PEER_API_NS);
    var text := Print(key);
    if key.AddressKey? {
      JoinAppend([PEER_API_NS], [key.server]);
      assert [PEER_API_NS] + [key.server] == Components(key);
      assert text == PEER_API_NS + [SLASH] + key.server;
    } else {
      assert text[0] == Components(key)[0][0];
    }
  }
}
