/** agent/dns.go: cluster names become discovery requests, and what the answers rest on. */
module Dns {
  import opened ByteStrings
  import opened Wrappers
  import opened Keys
  import opened Etcd
  import opened Protocol
  import opened Runs
  import opened Discover
  import opened Scopes

  const MAX_LABELS: nat := 5
  const TYPE_A: nat := 1
  const TYPE_AAAA: nat := 28
  const NAME_ERROR: nat := 3

  /** A question: the labels before the cluster suffix, whether the suffix was there, and the class field. */
  datatype Question = Question(labels: seq<Bytes>, inCluster: bool, classField: nat)

  predicate Asks(q: Question) {
    q.classField == TYPE_A || q.classField == TYPE_AAAA
  }

  /** A question that raises no error code. */
  predicate Fine(q: Question, answered: bool) {
    q.inCluster && (q.classField in {1, 28} ==> |q.labels| <= 5 && answered)
  }

  /** A question after which no other is looked at. */
  predicate Stops(q: Question, answered: bool) {
    q.classField in {1, 28} && (|q.labels| > 5 || !answered)
  }

  /** The questions looked at are the first n: all, or those up to the first that stops. */
  ghost predicate LookedAt(questions: seq<Question>, answered: seq<bool>, n: nat)
    requires |answered| == |questions|
  {
    && n <= |questions|
    && (forall i :: 0 <= i < n - 1 ==> !Stops(questions[i], answered[i]))
    && (n < |questions| ==> n > 0 && Stops(questions[n - 1], answered[n - 1]))
  }

  ghost predicate AllFine(questions: seq<Question>, answered: seq<bool>, n: nat)
    requires n <= |questions| == |answered|
  {
    forall i :: 0 <= i < n ==> Fine(questions[i], answered[i])
  }

  /** The request for a list of labels, outermost scope last but one, service last. */
  function RequestOf(labels: seq<Bytes>): DiscoverRequest
    requires labels != []
  {
    var last := |labels| - 1;
    DiscoverRequest(
      labels[last],
      if last > 0 then Some(labels[last - 1]) else None,
      if last > 1 then Some(labels[last - 2]) else None,
      if last > 3 then Some(labels[last - 3]) else None,
      if last > 4 then Some(labels[last - 4]) else None)
  }

  /** The requests for all questions of an address class with at most five labels. */
  function Wanted(questions: seq<Question>): seq<DiscoverRequest>
    requires forall q :: q in questions ==> q.labels != []
  {
    if questions == [] then []
    else
      var init, q := questions[..|questions| - 1], questions[|questions| - 1];
      Wanted(init) + if Asks(q) && |q.labels| <= MAX_LABELS then [RequestOf(q.labels)] else []
  }

  lemma NothingWanted()
    ensures Wanted([]) == []
  {
  }

  lemma WantedNext(questions: seq<Question>, i: nat)
    requires i < |questions| && forall q :: q in questions ==> q.labels != []
    ensures Wanted(questions[..i + 1]) ==
              Wanted(questions[..i])
              + if Asks(questions[i]) && |questions[i].labels| <= MAX_LABELS then [RequestOf(questions[i].labels)] else []
  {
    hide RequestOf;
    assert questions[..i + 1][..i] == questions[..i];
  }

  /** Which requests these are. */
  lemma {:induction false} WantedExactly(questions: seq<Question>, req: DiscoverRequest)
    requires forall q :: q in questions ==> q.labels != []
    ensures req in Wanted(questions) <==>
              exists q :: q in questions && q.classField in {1, 28} && |q.labels| <= 5 && req == RequestOf(q.labels)
  {
    hide RequestOf;
    if questions != [] {
      var init, q := questions[..|questions| - 1], questions[|questions| - 1];
      WantedExactly(init, req);
      assert questions == init + [q];
    }
  }

  /**
   * The loop over the questions; answered says of each question whether Discover answered it.
   * The questions of an address class are asked in order, up to one that stops the loop. The message is
   * used again for the answer, so the code starts as received.
   */
  method ServeDNS(questions: seq<Question>, answered: seq<bool>, received: nat)
      returns (requests: seq<DiscoverRequest>, rcode: nat)
    requires |answered| == |questions| && forall q :: q in questions ==> q.labels != []
    ensures forall req :: req in requests ==> Hierarchical(req) && req.instance.None?
    ensures exists n: nat :: LookedAt(questions, answered, n) && requests == Wanted(questions[..n])
    ensures rcode == if AllFine(questions, answered, |questions|) then received else NAME_ERROR
    ensures AllFine(questions, answered, |questions|) ==> requests == Wanted(questions)
  {
    hide RequestOf, Wanted, Hierarchical;
    NothingWanted();
    requests, rcode := [], received;
    ghost var n := 0;
    for i := 0 to |questions|
      invariant forall req :: req in requests ==> Hierarchical(req) && req.instance.None?
      invariant n == i && requests == Wanted(questions[..i])
      invariant forall j :: 0 <= j < i ==> !Stops(questions[j], answered[j])
      invariant rcode == if AllFine(questions, answered, i) then received else NAME_ERROR
    {
      var q := questions[i];
      WantedNext(questions, i);
      if |q.labels| <= 5 {
        LabelsReach(q.labels, []);
      }
      n := i + 1;
      if !q.inCluster {
        rcode := NAME_ERROR;
      }
      if !Asks(q) {
        continue;
      }
      if |q.labels| < 1 || |q.labels| > MAX_LABELS {
        rcode := NAME_ERROR;
        break;
      }
      requests := requests + [RequestOf(q.labels)];
      if !answered[i] {
        rcode := NAME_ERROR;
        break;
      }
    }
    assert questions[..|questions|] == questions;
    assert LookedAt(questions, answered, n) && requests == Wanted(questions[..n]);
  }

  /**
   * What the labels reach, exactly: the location from two labels on, the datacenter from three on, a node
   * only with five, an instance never. With four labels, and with five, the first label has no influence.
   */
  lemma LabelsReach(labels: seq<Bytes>, other: Bytes)
    requires 1 <= |labels| <= 5
    ensures var req, n := RequestOf(labels), |labels|;
            && req.service == labels[n - 1]
            && req.location == (if n >= 2 then Some(labels[n - 2]) else None)
            && req.datacenter == (if n >= 3 then Some(labels[n - 3]) else None)
            && req.node == (if n == 5 then Some(labels[1]) else None)
            && req.instance == None && Hierarchical(req)
    ensures |labels| >= 4 ==> RequestOf(labels[0 := other]) == RequestOf(labels)
    ensures |labels| == 4 ==> RequestOf(labels) == RequestOf(labels[1..])
  {
  }

  /**
   * Every cluster name that is looked up: for any caller, and with the searches made at any moments of a
   * run, whatever Discover finds for the name's request is within every scope the name spells out.
   */
  lemma NamesFindWhatTheySay(ws: seq<World>, acts: seq<Action>, moments: seq<nat>, node: NodeSchema, labels: seq<Bytes>,
                             svcs: Found, k: Bytes)
    requires CleanRun(ws, acts) && CleanNode(node) && |moments| == 4 && forall i :: i in moments ==> i < |ws|
    requires 1 <= |labels| <= MAX_LABELS && AllSlashFree(labels)
    requires FoundIn(Searches(StoresAt(ws, moments), RequestOf(labels), node), svcs) && k in svcs
    ensures var last, sp := |labels| - 1, svcs[k];
            && sp.service == labels[last]
            && (last > 0 ==> sp.location == labels[last - 1])
            && (last > 1 ==> sp.datacenter == labels[last - 2])
            && (last == 4 ==> sp.node == labels[1])
  {
    StoresAreWellKeyed(ws, acts, moments);
    LabelsReach(labels, []);
    FoundMatch(StoresAt(ws, moments), svcs, RequestOf(labels), node, k);
  }

  /** The stored services of a name's service that are where its labels say. */
  function Spelled(m: Entries, labels: seq<Bytes>): set<Bytes>
    requires 1 <= |labels| <= 5
  {
    var n := |labels|;
    set k | k in m && Offers(m, k, labels[n - 1])
      && var sp := m[k].value.spec;
         && (n >= 2 ==> sp.location == labels[n - 2])
         && (n >= 3 ==> sp.datacenter == labels[n - 3])
         && (n == 5 ==> sp.node == labels[1])
  }

  /** The depth that a name's labels reach. */
  function DepthOf(n: nat): nat {
    if n <= 3 then n - (if n == 0 then 0 else 1) else if n == 4 then 2 else 3
  }

  lemma SpelledIsNear(m: Entries, labels: seq<Bytes>, caller: NodeSchema)
    requires 1 <= |labels| <= 5
    ensures Outermost(RequestOf(labels), DepthOf(|labels|))
    ensures Near(m, RequestOf(labels), caller, DepthOf(|labels|)) == Spelled(m, labels)
  {
    LabelsReach(labels, []);
    hide RequestOf, Offers;
    var req := RequestOf(labels);
    assert Searched(req, DepthOf(|labels|));
    forall k | k in m
      ensures k in Near(m, req, caller, DepthOf(|labels|)) <==> k in Spelled(m, labels)
    {
    }
  }

  /**
   * And as many as there are, up to three: over the store at any moment of a run, what Discover finds for
   * the name's request are services that the labels spell out, three of them or all if there are fewer.
   */
  lemma NamesFindExactly(ws: seq<World>, acts: seq<Action>, i: nat, caller: NodeSchema, labels: seq<Bytes>, found: set<Bytes>)
    requires CleanRun(ws, acts) && i < |ws| && CleanNode(caller)
    requires 1 <= |labels| <= 5 && AllSlashFree(labels)
    requires var m := ws[i].s.entries; NearestFirst(found, Searches([m, m, m, m], RequestOf(labels), caller))
    ensures var all := Spelled(ws[i].s.entries, labels);
            found <= all && |found| == if |all| < 3 then |all| else 3
  {
    hide NearestFirst, Searches, Near, Searched, RequestOf, Spelled, WellKeyed;
    var m, req := ws[i].s.entries, RequestOf(labels);
    ReachableIsWellKeyed(ws, acts, i);
    NameIsClean(labels, caller);
    NearestAreFound(m, req, caller, found);
    SpelledIsNear(m, labels, caller);
    var all := Near(m, req, caller, DepthOf(|labels|));
    assert found * all == found;
  }

  lemma NameIsClean(labels: seq<Bytes>, caller: NodeSchema)
    requires CleanNode(caller) && 1 <= |labels| <= 5 && AllSlashFree(labels)
    ensures CleanRequest(RequestOf(labels), caller)
  {
    LabelsReach(labels, []);
  }
}
