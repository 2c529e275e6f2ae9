/** When the observer's targets agree with the store, and when they cannot. */
module Convergence {
  import opened ByteStrings
  import opened Wrappers
  import opened Keys
  import opened Etcd
  import opened Observer

  /** Some event in the stretch is on the key. */
  ghost predicate Touched(log: seq<Event>, a: nat, b: nat, k: Bytes)
    requires b <= |log|
  {
    exists p :: a <= p < b && log[p].key == k
  }

  /** A watched put of a service without a port, over one with a port: the case the observer skips. */
  predicate Downgrades(log: seq<Event>, dc: Bytes, p: nat)
    requires p < |log|
  {
    && log[p].Put? && log[p].value.Service? && !Ported(log[p].value.spec)
    && Watched(dc, log[p].key) && PortedAt(At(log, p), log[p].key).Some?
  }

  ghost predicate NeverDowngrades(log: seq<Event>, dc: Bytes) {
    forall p :: 0 <= p < |log| ==> !Downgrades(log, dc, p)
  }

  /** Across an untouched stretch nothing changes for a key. */
  lemma {:induction false} Untouched(log: seq<Event>, a: nat, b: nat, k: Bytes, init: Option<ServiceSpec>)
    requires a <= b <= |log| && !Touched(log, a, b, k) && (init.Some? ==> Ported(init.value))
    ensures Heard(log, a, b, k, init) == init
    ensures PortedAt(At(log, b), k) == PortedAt(At(log, a), k)
    ensures k in At(log, b) <==> k in At(log, a)
    decreases b
  {
    if a < b {
      assert forall p :: a <= p < b - 1 ==> log[p].key != k;
      Untouched(log, a, b - 1, k, init);
      AtNext(log, b - 1);
      assert log[b - 1].key != k;
    }
  }

  /** The store tells of the key that it is gone or can be scraped. */
  predicate GoneOrPorted(m: Contents, k: Bytes) {
    k !in m || PortedAt(m, k).Some?
  }

  /** An event on another key changes nothing for this one; one on it that leaves it gone or ported tells so. */
  lemma TouchOne(log: seq<Event>, b: nat, k: Bytes, before: Option<ServiceSpec>)
    requires b < |log| && EventOk(log[b]) && GoneOrPorted(At(log, b + 1), k) && (before.Some? ==> Ported(before.value))
    ensures log[b].key == k ==> HeardOne(log[b], k, before) == PortedAt(At(log, b + 1), k)
    ensures log[b].key != k ==>
              && HeardOne(log[b], k, before) == before && GoneOrPorted(At(log, b), k)
              && PortedAt(At(log, b), k) == PortedAt(At(log, b + 1), k)
  {
    AtNext(log, b);
  }

  /** Once touched, a key that is gone or can be scraped is known for what it is. */
  lemma {:induction false} TouchedIsKnown(log: seq<Event>, a: nat, b: nat, k: Bytes, init: Option<ServiceSpec>)
    requires LogOk(log) && a <= b <= |log| && Touched(log, a, b, k) && (init.Some? ==> Ported(init.value))
    requires GoneOrPorted(At(log, b), k)
    ensures Heard(log, a, b, k, init) == PortedAt(At(log, b), k)
    decreases b
  {
    hide PortedAt, HeardOne, At, EventOk, GoneOrPorted;
    var p :| a <= p < b && log[p].key == k;
    TouchOne(log, b - 1, k, Heard(log, a, b - 1, k, init));
    if log[b - 1].key != k {
      assert p < b - 1;
      TouchedIsKnown(log, a, b - 1, k, init);
    }
  }

  /**
   * Unconditionally, for a bulk taken no earlier than it is applied: services that are gone have no
   * target, and services that can be scraped have the right one. Only one stored without a port may
   * have a stale target.
   */
  lemma GoneOrPortedIsExact(log: seq<Event>, dc: Bytes, w: nat, e: nat, r: nat, m: nat, keys: seq<Bytes>, id: ServiceId)
    requires LogOk(log) && SlashFree(dc) && CleanId(id) && w <= e <= r <= m <= |log|
    requires Snapshot(At(log, r), dc, keys)
    requires KeyOf(dc, id) !in At(log, m) || PortedAt(At(log, m), KeyOf(dc, id)).Some?
    ensures Look(Observed(log, dc, w, e, r, m, keys), id) == AsTarget(PortedAt(At(log, m), KeyOf(dc, id)))
  {
    var k := KeyOf(dc, id);
    var known := Known(log, w, e, r, k);
    ObservedTargets(log, dc, w, e, r, m, keys, id);
    if Touched(log, e, m, k) {
      TouchedIsKnown(log, e, m, k, known);
    } else {
      assert !Touched(log, e, r, k) && !Touched(log, r, m, k);
      Untouched(log, e, m, k, known);
      Untouched(log, e, r, k, known);
      Untouched(log, r, m, k, known);
      if PortedAt(At(log, r), k).None? {
        if Touched(log, w, e, k) {
          TouchedIsKnown(log, w, e, k, None);
        } else {
          Untouched(log, w, e, k, None);
        }
      }
    }
  }

  // ---------- without downgrades ----------

  lemma WatchedPut(dc: Bytes, ev: Event)
    requires SlashFree(dc) && EventOk(ev) && Watched(dc, ev.key)
    ensures ev.Put? ==> ev.value.Service?
  {
    WatchedKeys(dc, ev.key);
  }

  /** One event that is no downgrade: knowledge stays right, and what was right or nothing stays so. */
  lemma HearOne(log: seq<Event>, dc: Bytes, b: nat, k: Bytes, before: Option<ServiceSpec>)
    requires LogOk(log) && SlashFree(dc) && Watched(dc, k) && b < |log| && !Downgrades(log, dc, b)
    requires before.Some? ==> Ported(before.value)
    ensures var after := HeardOne(log[b], k, before);
            && (before == PortedAt(At(log, b), k) ==> after == PortedAt(At(log, b + 1), k))
            && (before.None? && after.Some? ==> after == PortedAt(At(log, b + 1), k))
  {
    AtNext(log, b);
    assert EventOk(log[b]);
    if log[b].key == k {
      WatchedPut(dc, log[b]);
    }
  }

  /** From the right knowledge, events that never downgrade lead to the right knowledge. */
  lemma {:induction false} HeardIsCurrent(log: seq<Event>, dc: Bytes, a: nat, b: nat, k: Bytes)
    requires LogOk(log) && SlashFree(dc) && NeverDowngrades(log, dc) && Watched(dc, k) && a <= b <= |log|
    ensures Heard(log, a, b, k, PortedAt(At(log, a), k)) == PortedAt(At(log, b), k)
    decreases b
  {
    hide PortedAt, Watched, HeardOne, At, EventOk, Downgrades;
    if a < b {
      HeardIsCurrent(log, dc, a, b - 1, k);
      HearOne(log, dc, b - 1, k, Heard(log, a, b - 1, k, PortedAt(At(log, a), k)));
    }
  }

  /** What is heard from the start of the watch is current, or nothing. */
  lemma {:induction false} HeardIsNeverStale(log: seq<Event>, dc: Bytes, w: nat, b: nat, k: Bytes)
    requires LogOk(log) && SlashFree(dc) && NeverDowngrades(log, dc) && Watched(dc, k) && w <= b <= |log|
    ensures Heard(log, w, b, k, None).Some? ==> Heard(log, w, b, k, None) == PortedAt(At(log, b), k)
    decreases b
  {
    hide PortedAt, Watched, HeardOne, At, EventOk, Downgrades;
    if w < b {
      HeardIsNeverStale(log, dc, w, b - 1, k);
      HearOne(log, dc, b - 1, k, Heard(log, w, b - 1, k, None));
    }
  }

  lemma ConvergesForOne(log: seq<Event>, dc: Bytes, w: nat, e: nat, r: nat, m: nat, k: Bytes)
    requires LogOk(log) && SlashFree(dc) && NeverDowngrades(log, dc) && Watched(dc, k) && w <= e <= r <= m <= |log|
    ensures Heard(log, e, m, k, Known(log, w, e, r, k)) == PortedAt(At(log, m), k)
  {
    var known := Known(log, w, e, r, k);
    HeardInTwo(log, e, r, m, k, known);
    HeardIsCurrent(log, dc, r, m, k);
    if PortedAt(At(log, r), k).Some? {
      if Touched(log, e, r, k) {
        TouchedIsKnown(log, e, r, k, known);
      } else {
        Untouched(log, e, r, k, known);
      }
    } else {
      HeardInTwo(log, w, e, r, k, None);
      HeardIsNeverStale(log, dc, w, r, k);
    }
  }

  lemma Converges(log: seq<Event>, dc: Bytes, w: nat, e: nat, r: nat, m: nat, keys: seq<Bytes>)
    requires LogOk(log) && SlashFree(dc) && NeverDowngrades(log, dc) && w <= e <= r <= m <= |log|
    requires Snapshot(At(log, r), dc, keys)
    ensures Agrees(Observed(log, dc, w, e, r, m, keys), At(log, m), dc)
  {
    ObservedClean(log, dc, w, e, r, m, keys);
    forall id | CleanId(id)
      ensures Look(Observed(log, dc, w, e, r, m, keys), id) == AsTarget(PortedAt(At(log, m), KeyOf(dc, id)))
    {
      DeleteParsingInvertsPutPrinting(dc, id);
      ObservedTargets(log, dc, w, e, r, m, keys, id);
      ConvergesForOne(log, dc, w, e, r, m, KeyOf(dc, id));
    }
  }

  /** An observer that watches from the start keeps the target of a service that loses its port. */
  lemma DowngradeLeavesStaleTarget(log: seq<Event>, dc: Bytes, p: nat)
    requires LogOk(log) && SlashFree(dc) && p < |log| && Downgrades(log, dc, p)
    ensures Snapshot(At(log, 0), dc, [])
    ensures !Agrees(Observed(log, dc, 0, 0, 0, p + 1, []), At(log, p + 1), dc)
  {
    assert log[..0] == [] && At(log, 0) == map[];
    MessageNamesKey(dc, log[p]);
    var id, k := IdOf(log[p].value.spec), log[p].key;
    ObservedTargets(log, dc, 0, 0, 0, p + 1, [], id);
    DowngradeIsNotHeard(log, dc, p);
    assert Look(Observed(log, dc, 0, 0, 0, p + 1, []), id).Some?;
  }

  /** At a downgrade the stream still tells of the spec with a port, the store no longer holds it. */
  lemma DowngradeIsNotHeard(log: seq<Event>, dc: Bytes, p: nat)
    requires LogOk(log) && p < |log| && Downgrades(log, dc, p)
    ensures Heard(log, 0, p + 1, log[p].key, None).Some?
    ensures PortedAt(At(log, p + 1), log[p].key).None?
  {
    var k := log[p].key;
    AtNext(log, p);
    assert log[..0] == [] && At(log, 0) == map[];
    if !Touched(log, 0, p, k) {
      Untouched(log, 0, p, k, None);
    }
    TouchedIsKnown(log, 0, p, k, None);
  }

  /**
   * For a snapshot taken no earlier than it is applied, whatever the positions: the targets agree with
   * the store if and only if no service is ever put without a port over itself with one.
   */
  lemma ConvergesIffNeverDowngrades(log: seq<Event>, dc: Bytes)
    requires LogOk(log) && SlashFree(dc)
    ensures NeverDowngrades(log, dc) <==>
            forall w: nat, e: nat, r: nat, m: nat, keys: seq<Bytes> ::
              w <= e <= r <= m <= |log| && Snapshot(At(log, r), dc, keys) ==>
                Agrees(Observed(log, dc, w, e, r, m, keys), At(log, m), dc)
  {
    if NeverDowngrades(log, dc) {
      forall w: nat, e: nat, r: nat, m: nat, keys: seq<Bytes>
        | w <= e <= r <= m <= |log| && Snapshot(At(log, r), dc, keys)
        ensures Agrees(Observed(log, dc, w, e, r, m, keys), At(log, m), dc)
      {
        Converges(log, dc, w, e, r, m, keys);
      }
    } else {
      var p :| 0 <= p < |log| && Downgrades(log, dc, p);
      DowngradeLeavesStaleTarget(log, dc, p);
    }
  }

  // ---------- bulk and watch in any order ----------

  /** A deletion of the key, or a put of a service with a port, in the stretch. */
  ghost predicate Settled(log: seq<Event>, a: nat, b: nat, k: Bytes)
    requires b <= |log|
  {
    exists p :: a <= p < b && Settles(log[p], k)
  }

  predicate Settles(ev: Event, k: Bytes) {
    ev.key == k && (ev.Delete? || (ev.value.Service? && Ported(ev.value.spec)))
  }

  /** The last event of the stretch that settles the key is a deletion. */
  ghost predicate LastDeletes(log: seq<Event>, a: nat, b: nat, k: Bytes)
    requires b <= |log|
  {
    exists p: nat :: a <= p < b && log[p].key == k && log[p].Delete? && !Settled(log, p + 1, b, k)
  }

  /** The stream leaves nothing known of the key, unless something was known before. */
  ghost predicate Forgotten(log: seq<Event>, a: nat, b: nat, k: Bytes)
    requires b <= |log|
  {
    !Settled(log, a, b, k) || LastDeletes(log, a, b, k)
  }

  /**
   * When the order of watch, snapshot and bulk does a service no harm. If the service is gone or can be
   * scraped: an event after the bulk settles it; or the snapshot has it as it was when the bulk was applied;
   * or the snapshot lacks it, and the stream settled it before the bulk or there was nothing to scrape. If it
   * is stored without a port: the last event to settle it is a deletion, or nothing was ever known of it.
   */
  ghost predicate Unharmed(log: seq<Event>, w: nat, e: nat, r: nat, m: nat, k: Bytes)
    requires r <= |log| && e <= m <= |log|
  {
    if GoneOrPorted(At(log, m), k) then
      Settled(log, e, m, k) ||
      if PortedAt(At(log, r), k).Some?
      then AsTarget(PortedAt(At(log, r), k)) == AsTarget(PortedAt(At(log, e), k))
      else PortedAt(At(log, e), k).Some? ==> Settled(log, w, e, k)
    else
      LastDeletes(log, e, m, k)
      || (!Settled(log, e, m, k) && PortedAt(At(log, r), k).None? && Forgotten(log, w, e, k))
  }

  lemma SettledSnoc(log: seq<Event>, a: nat, b: nat, k: Bytes)
    requires a < b <= |log|
    ensures Settled(log, a, b, k) <==> Settled(log, a, b - 1, k) || Settles(log[b - 1], k)
  {
  }

  lemma LastDeletesSnoc(log: seq<Event>, a: nat, b: nat, k: Bytes)
    requires a < b <= |log|
    ensures LastDeletes(log, a, b, k) <==>
              if Settles(log[b - 1], k) then log[b - 1].Delete? else LastDeletes(log, a, b - 1, k)
  {
    hide Settled;
    forall p: nat {:trigger log[p]} | a <= p < b - 1
      ensures Settled(log, p + 1, b, k) <==> Settled(log, p + 1, b - 1, k) || Settles(log[b - 1], k)
    {
      SettledSnoc(log, p + 1, b, k);
    }
    assert !Settled(log, b, b, k) by { NothingSettled(log, b, k); }
    if LastDeletes(log, a, b, k) {
      var p: nat :| a <= p < b && log[p].key == k && log[p].Delete? && !Settled(log, p + 1, b, k);
      assert p == b - 1 || !Settles(log[b - 1], k);
    }
    if Settles(log[b - 1], k) && log[b - 1].Delete? {
      assert !Settled(log, (b - 1) + 1, b, k);
    }
  }

  lemma NothingSettled(log: seq<Event>, b: nat, k: Bytes)
    requires b <= |log|
    ensures !Settled(log, b, b, k)
  {
  }

  /** What the stream leaves known: the same as before if no event settles the key, and nothing after a deletion. */
  lemma {:induction false} HeardIfSettled(log: seq<Event>, a: nat, b: nat, k: Bytes, init: Option<ServiceSpec>)
    requires a <= b <= |log| && (init.Some? ==> Ported(init.value))
    ensures !Settled(log, a, b, k) ==> Heard(log, a, b, k, init) == init
    ensures Settled(log, a, b, k) ==> (Heard(log, a, b, k, init).None? <==> LastDeletes(log, a, b, k))
    decreases b
  {
    hide Settled, LastDeletes;
    if a < b {
      HeardIfSettled(log, a, b - 1, k, init);
      SettledSnoc(log, a, b, k);
      LastDeletesSnoc(log, a, b, k);
    } else {
      NothingSettled(log, b, k);
    }
  }

  /** A key that is gone or can be scraped has been settled by whatever touched it. */
  lemma {:induction false} TouchedIsSettled(log: seq<Event>, dc: Bytes, a: nat, b: nat, k: Bytes)
    requires LogOk(log) && SlashFree(dc) && Watched(dc, k) && a <= b <= |log|
    requires Touched(log, a, b, k) && GoneOrPorted(At(log, b), k)
    ensures Settled(log, a, b, k)
    decreases b
  {
    hide PortedAt, Watched, At, EventOk, Settled, GoneOrPorted;
    var p :| a <= p < b && log[p].key == k;
    SettledSnoc(log, a, b, k);
    SettlingTouch(log, dc, b - 1, k);
    if log[b - 1].key != k {
      assert p < b - 1;
      TouchedIsSettled(log, dc, a, b - 1, k);
    }
  }

  lemma SettlingTouch(log: seq<Event>, dc: Bytes, b: nat, k: Bytes)
    requires LogOk(log) && SlashFree(dc) && Watched(dc, k) && b < |log| && GoneOrPorted(At(log, b + 1), k)
    ensures if log[b].key == k then Settles(log[b], k) else GoneOrPorted(At(log, b), k)
  {
    AtNext(log, b);
    assert EventOk(log[b]);
    if log[b].key == k {
      WatchedPut(dc, log[b]);
    }
  }

  /** For a key that is gone or can be scraped at the end of a stretch. */
  lemma Exactly(log: seq<Event>, dc: Bytes, a: nat, b: nat, k: Bytes, init: Option<ServiceSpec>)
    requires LogOk(log) && SlashFree(dc) && Watched(dc, k) && a <= b <= |log|
    requires (init.Some? ==> Ported(init.value)) && GoneOrPorted(At(log, b), k)
    ensures Settled(log, a, b, k) ==> Heard(log, a, b, k, init) == PortedAt(At(log, b), k)
    ensures !Settled(log, a, b, k) ==>
              && Heard(log, a, b, k, init) == init && PortedAt(At(log, a), k) == PortedAt(At(log, b), k)
              && GoneOrPorted(At(log, a), k)
  {
    hide PortedAt, Watched, At, EventOk, Heard;
    if Touched(log, a, b, k) {
      TouchedIsSettled(log, dc, a, b, k);
      TouchedIsKnown(log, a, b, k, init);
    } else {
      Untouched(log, a, b, k, init);
    }
  }

  lemma AgreesForOne(log: seq<Event>, dc: Bytes, w: nat, e: nat, r: nat, m: nat, k: Bytes)
    requires LogOk(log) && SlashFree(dc) && Watched(dc, k) && w <= e <= m <= |log| && r <= |log|
    ensures AsTarget(Heard(log, e, m, k, Known(log, w, e, r, k))) == AsTarget(PortedAt(At(log, m), k)) <==>
            Unharmed(log, w, e, r, m, k)
  {
    hide PortedAt, Watched, Heard, At, EventOk, Settled, LastDeletes;
    if GoneOrPorted(At(log, m), k) {
      Exactly(log, dc, e, m, k, Known(log, w, e, r, k));
      if !Settled(log, e, m, k) {
        Exactly(log, dc, w, e, k, None);
      }
    } else {
      HeardIfSettled(log, e, m, k, Known(log, w, e, r, k));
      HeardIfSettled(log, w, e, k, None);
      LastDeletesSettles(log, e, m, k);
    }
  }

  lemma LastDeletesSettles(log: seq<Event>, a: nat, b: nat, k: Bytes)
    requires b <= |log|
    ensures LastDeletes(log, a, b, k) ==> Settled(log, a, b, k)
  {
  }

  /**
   * For every history and every order of watch start, snapshot and bulk: the targets agree with the store
   * if and only if the order does no service harm.
   */
  lemma AgreesIffUnharmed(log: seq<Event>, dc: Bytes, w: nat, e: nat, r: nat, m: nat, keys: seq<Bytes>)
    requires LogOk(log) && SlashFree(dc) && w <= e <= m <= |log| && r <= |log|
    requires Snapshot(At(log, r), dc, keys)
    ensures Agrees(Observed(log, dc, w, e, r, m, keys), At(log, m), dc) <==>
            forall id :: CleanId(id) ==> Unharmed(log, w, e, r, m, KeyOf(dc, id))
  {
    hide PortedAt, Watched, Heard, At, EventOk, Settled, Print, Unharmed;
    ObservedClean(log, dc, w, e, r, m, keys);
    forall id | CleanId(id)
      ensures Look(Observed(log, dc, w, e, r, m, keys), id) == AsTarget(PortedAt(At(log, m), KeyOf(dc, id))) <==>
              Unharmed(log, w, e, r, m, KeyOf(dc, id))
    {
      DeleteParsingInvertsPutPrinting(dc, id);
      ObservedTargets(log, dc, w, e, r, m, keys, id);
      AgreesForOne(log, dc, w, e, r, m, KeyOf(dc, id));
    }
  }
}
