/** The targets file: a JSON array of the current targets (section 5 of RFC 8259). */
module TargetsFile {
  import opened ByteStrings
  import opened Observer

  const OPEN: byte := 0x5b   // [
  const CLOSE: byte := 0x5d  // ]
  const COMMA: byte := 0x2c

  /** How one target is written, as encoding/json would, without the newline after it. */
  type Encoding = Target -> Bytes

  /** JSON objects: never empty, never starting like an array's end, and none a prefix of another. */
  ghost predicate SelfDelimiting(enc: Encoding) {
    && (forall t :: enc(t) != [] && enc(t)[0] != CLOSE)
    && (forall t, u, x, y {:trigger enc(t) + x, enc(u) + y} :: enc(t) + x == enc(u) + y ==> t == u)
  }

  /** Array elements with value separators between them. */
  function Elements(enc: Encoding, ts: seq<Target>): Bytes {
    if ts == [] then []
    else
      var init := ts[..|ts| - 1];
      Elements(enc, init) + (if init == [] then [] else [COMMA]) + enc(ts[|ts| - 1])
  }

  function ArrayText(enc: Encoding, ts: seq<Target>): Bytes {
    [OPEN] + Elements(enc, ts) + [CLOSE]
  }

  lemma ElementsSnoc(enc: Encoding, ts: seq<Target>, t: Target)
    ensures Elements(enc, ts + [t]) == Elements(enc, ts) + (if ts == [] then [] else [COMMA]) + enc(t)
  {
    assert (ts + [t])[..|ts|] == ts;
  }

  /** The elements read from the front. */
  lemma {:induction false} ElementsCons(enc: Encoding, t: Target, ts: seq<Target>)
    ensures Elements(enc, [t] + ts) == enc(t) + (if ts == [] then [] else [COMMA] + Elements(enc, ts))
  {
    if ts == [] {
      ElementsSnoc(enc, [], t);
      assert [] + [t] == [t] + ts;
    } else {
      hide Elements;
      var init, last := ts[..|ts| - 1], ts[|ts| - 1];
      assert init + [last] == ts && ([t] + init) + [last] == [t] + ts;
      ElementsCons(enc, t, init);
      ElementsSnoc(enc, [t] + init, last);
      ElementsSnoc(enc, init, last);
      NoElements(enc);
      Regroup(enc(t), Elements(enc, init), enc(last));
    }
  }

  lemma Regroup(a: Bytes, b: Bytes, c: Bytes)
    ensures (a + ([COMMA] + b)) + [COMMA] + c == a + ([COMMA] + (b + [COMMA] + c))
    ensures (a + []) + [COMMA] + c == a + ([COMMA] + ([] + [] + c))
  {
  }

  lemma NoElements(enc: Encoding)
    ensures Elements(enc, []) == []
  {
  }

  /** What follows the first element. */
  function Tail(enc: Encoding, ts: seq<Target>, x: Bytes): Bytes {
    (if ts == [] then [] else [COMMA] + Elements(enc, ts)) + [CLOSE] + x
  }

  lemma TailReads(enc: Encoding, ts: seq<Target>, x: Bytes)
    ensures Tail(enc, ts, x)[0] == if ts == [] then CLOSE else COMMA
    ensures ts != [] ==> Tail(enc, ts, x)[1..] == Elements(enc, ts) + [CLOSE] + x
  {
  }

  lemma FirstAndTail(enc: Encoding, a: seq<Target>, x: Bytes)
    requires a != []
    ensures Elements(enc, a) + [CLOSE] + x == enc(a[0]) + Tail(enc, a[1..], x)
  {
    hide Elements;
    ElementsCons(enc, a[0], a[1..]);
    assert a == [a[0]] + a[1..];
    var mid := if a[1..] == [] then [] else [COMMA] + Elements(enc, a[1..]);
    assert enc(a[0]) + mid + [CLOSE] + x == enc(a[0]) + (mid + [CLOSE] + x);
  }

  lemma SameFirst(enc: Encoding, t: Target, u: Target, x: Bytes, y: Bytes)
    requires SelfDelimiting(enc) && enc(t) + x == enc(u) + y
    ensures t == u && x == y
  {
    assert x == (enc(t) + x)[|enc(t)|..] && y == (enc(u) + y)[|enc(u)|..];
  }

  /** An array text followed by anything is read in one way only. */
  lemma {:induction false} ReadOneWay(enc: Encoding, a: seq<Target>, b: seq<Target>, x: Bytes, y: Bytes)
    requires SelfDelimiting(enc) && Elements(enc, a) + [CLOSE] + x == Elements(enc, b) + [CLOSE] + y
    ensures a == b
  {
    hide Elements, Tail, SelfDelimiting;
    if a == [] || b == [] {
      StartsRight(enc, a, x);
      StartsRight(enc, b, y);
    } else {
      var ra, rb := a[1..], b[1..];
      FirstAndTail(enc, a, x);
      FirstAndTail(enc, b, y);
      SameFirst(enc, a[0], b[0], Tail(enc, ra, x), Tail(enc, rb, y));
      TailReads(enc, ra, x);
      TailReads(enc, rb, y);
      if ra != [] && rb != [] {
        ReadOneWay(enc, ra, rb, x, y);
      }
      assert a == [a[0]] + ra && b == [b[0]] + rb;
    }
  }

  lemma StartsRight(enc: Encoding, a: seq<Target>, x: Bytes)
    requires SelfDelimiting(enc)
    ensures (Elements(enc, a) + [CLOSE] + x)[0] == CLOSE <==> a == []
  {
    if a != [] {
      ElementsCons(enc, a[0], a[1..]);
      assert a == [a[0]] + a[1..];
    }
  }

  /** An order in which a map may be walked. */
  ghost predicate Walks(order: seq<ServiceId>, t: Targets) {
    && (forall id :: id in order <==> id in t)
    && (forall i, j :: 0 <= i < j < |order| ==> order[i] != order[j])
  }

  function Listed(order: seq<ServiceId>, t: Targets): seq<Target>
    requires forall id :: id in order ==> id in t
  {
    seq(|order|, i requires 0 <= i < |order| => t[order[i]])
  }

  /** Part of a walk: these services have been visited, in this order, and the rest have not. */
  ghost predicate Visited(order: seq<ServiceId>, rest: set<ServiceId>, t: Targets) {
    && (forall id :: id in t <==> id in order || id in rest)
    && (forall id :: id in rest ==> id !in order)
    && (forall i, j :: 0 <= i < j < |order| ==> order[i] != order[j])
  }

  lemma VisitNext(order: seq<ServiceId>, rest: set<ServiceId>, t: Targets, id: ServiceId)
    requires Visited(order, rest, t) && id in rest
    ensures Visited(order + [id], rest - {id}, t) && id in t && forall x :: x in order + [id] ==> x in t
  {
    assert forall x :: x in order + [id] <==> x in order || x == id;
  }

  /** One more service listed, one more element written. */
  lemma ListedNext(enc: Encoding, order: seq<ServiceId>, id: ServiceId, t: Targets)
    requires (forall x :: x in order ==> x in t) && id in t
    ensures Elements(enc, Listed(order + [id], t))
         == Elements(enc, Listed(order, t)) + (if order == [] then [] else [COMMA]) + enc(t[id])
  {
    hide Elements;
    assert Listed(order + [id], t) == Listed(order, t) + [t[id]];
    ElementsSnoc(enc, Listed(order, t), t[id]);
  }

  /** The text is an array of exactly the current targets, each once, in some order. */
  ghost predicate Renders(text: Bytes, t: Targets, enc: Encoding) {
    exists order :: Walks(order, t) && text == ArrayText(enc, Listed(order, t))
  }

  /** The services with a target. */
  function Having(t: Targets, v: Target): set<ServiceId> {
    set id | id in t && t[id] == v
  }

  lemma WalkSnoc(order: seq<ServiceId>, last: ServiceId, t: Targets)
    requires Walks(order + [last], t)
    ensures last in t && Walks(order, t - {last})
    ensures Listed(order + [last], t) == Listed(order, t - {last}) + [t[last]]
  {
    var whole := order + [last];
    assert whole[|order|] == last;
    forall id ensures id in order <==> id in t - {last} {
      if id in order {
        var i :| 0 <= i < |order| && order[i] == id;
        assert whole[i] == id;
      }
    }
    forall i, j | 0 <= i < j < |order| ensures order[i] != order[j] {
      assert whole[i] == order[i] && whole[j] == order[j];
    }
  }

  /** A listing has each target as often as services have it. */
  lemma {:induction false} ListedCounts(order: seq<ServiceId>, t: Targets, v: Target)
    requires Walks(order, t)
    ensures multiset(Listed(order, t))[v] == |Having(t, v)|
  {
    if order == [] {
      assert Having(t, v) == {};
    } else {
      hide Having;
      var init, last := order[..|order| - 1], order[|order| - 1];
      assert order == init + [last];
      var rest := t - {last};
      WalkSnoc(init, last, t);
      hide Walks, Listed;
      ListedCounts(init, rest, v);
      OneMore(t, last, v);
      assert multiset(Listed(init, rest) + [t[last]]) == multiset(Listed(init, rest)) + multiset{t[last]};
    }
  }

  lemma OneMore(t: Targets, last: ServiceId, v: Target)
    requires last in t
    ensures |Having(t, v)| == |Having(t - {last}, v)| + if t[last] == v then 1 else 0
    ensures |t| == |t - {last}| + 1
  {
    assert Having(t, v) == Having(t - {last}, v) + if t[last] == v then {last} else {};
    assert t.Keys == (t - {last}).Keys + {last};
  }

  lemma SameArray(enc: Encoding, a: seq<Target>, b: seq<Target>)
    requires SelfDelimiting(enc) && ArrayText(enc, a) == ArrayText(enc, b)
    ensures a == b
  {
    assert ArrayText(enc, a)[1..] == Elements(enc, a) + [CLOSE] + [];
    assert ArrayText(enc, b)[1..] == Elements(enc, b) + [CLOSE] + [];
    ReadOneWay(enc, a, b, [], []);
  }

  /** The file tells the targets: two maps rendered alike have each target equally often. */
  lemma FileTellsTargets(text: Bytes, t: Targets, u: Targets, enc: Encoding)
    requires SelfDelimiting(enc) && Renders(text, t, enc) && Renders(text, u, enc)
    ensures forall v :: |Having(t, v)| == |Having(u, v)|
    ensures t.Values == u.Values && |t| == |u|
  {
    var p :| Walks(p, t) && text == ArrayText(enc, Listed(p, t));
    var q :| Walks(q, u) && text == ArrayText(enc, Listed(q, u));
    hide ArrayText, SelfDelimiting, Having;
    SameArray(enc, Listed(p, t), Listed(q, u));
    forall v ensures |Having(t, v)| == |Having(u, v)| {
      ListedCounts(p, t, v);
      ListedCounts(q, u, v);
    }
    WalkLength(p, t);
    WalkLength(q, u);
    ListedValues(p, t);
    ListedValues(q, u);
  }

  lemma {:induction false} WalkLength(order: seq<ServiceId>, t: Targets)
    requires Walks(order, t)
    ensures |order| == |t|
  {
    if order == [] {
      assert t == map[];
    } else {
      var init, last := order[..|order| - 1], order[|order| - 1];
      assert order == init + [last];
      WalkSnoc(init, last, t);
      hide Walks, Listed, Having;
      WalkLength(init, t - {last});
      OneMore(t, last, t[last]);
    }
  }

  lemma ListedValues(order: seq<ServiceId>, t: Targets)
    requires Walks(order, t)
    ensures forall v :: v in t.Values <==> v in Listed(order, t)
  {
    forall v | v in t.Values ensures v in Listed(order, t) {
      var id :| id in t && t[id] == v;
      var i :| 0 <= i < |order| && order[i] == id;
      assert Listed(order, t)[i] == v;
    }
  }

  lemma WalkBegins(enc: Encoding, t: Targets)
    ensures Visited([], t.Keys, t) && Elements(enc, Listed([], t)) == []
  {
  }

  lemma WalkEnds(enc: Encoding, order: seq<ServiceId>, t: Targets)
    requires Visited(order, {}, t) && forall id :: id in order ==> id in t
    ensures Renders([OPEN] + Elements(enc, Listed(order, t)) + [CLOSE], t, enc)
  {
    assert Walks(order, t);
    assert [OPEN] + Elements(enc, Listed(order, t)) + [CLOSE] == ArrayText(enc, Listed(order, t));
  }

  /** What an array looks like: brackets around its elements, and commas between them. */
  lemma ArrayForm(enc: Encoding, t: Target, ts: seq<Target>)
    ensures ArrayText(enc, []) == Text("[]")
    ensures ArrayText(enc, [t]) == Text("[") + enc(t) + Text("]")
    ensures ts != [] ==> ArrayText(enc, [t] + ts) == Text("[") + enc(t) + Text(",") + ArrayText(enc, ts)[1..]
  {
    assert [OPEN] == Text("[") && [CLOSE] == Text("]") && [COMMA] == Text(",") && [OPEN] + [] + [CLOSE] == Text("[]");
    NoElements(enc);
    ElementsCons(enc, t, []);
    ElementsCons(enc, t, ts);
    assert [t] + [] == [t];
    hide Elements, Text;
    assert ArrayText(enc, ts)[1..] == Elements(enc, ts) + [CLOSE];
  }
}
