/** registry/utils/utils.go, PrefixEnd: the range end used for every prefix search. */
module PrefixRange {
  import opened ByteStrings

  /** The highest index holding a byte below 0xff, or -1. */
  function LastBelowMax(p: Bytes): (i: int)
    ensures -1 <= i < |p|
    ensures i >= 0 ==> p[i] < 255
    ensures forall j :: i < j < |p| ==> p[j] == 255
  {
    if p == [] then -1
    else if p[|p| - 1] < 255 then |p| - 1
    else LastBelowMax(p[..|p| - 1])
  }

  /** The value PrefixEnd returns: one byte incremented, nothing cut off. */
  function PrefixEndOf(p: Bytes): Bytes {
    var i := LastBelowMax(p);
    if i < 0 then p else p[i := p[i] + 1]
  }

  /** The first len bytes of a buffer are the prefix. Works on a copy: the buffer is never written. */
  method PrefixEnd(buf: array<byte>, len: nat) returns (end: array<byte>)
    requires len <= buf.Length
    ensures fresh(end)
    ensures end[..] == PrefixEndOf(buf[..len])
  {
    end := new byte[len](i requires 0 <= i < len <= buf.Length reads buf => buf[i]);
    var i := len;
    while i > 0
      invariant 0 <= i <= len
      invariant end[..] == buf[..len]
      invariant forall j :: i <= j < len ==> buf[j] == 255
    {
      i := i - 1;
      if buf[i] < 255 {
        end[i] := end[i] + 1;
        assert LastBelowMax(buf[..len]) == i;
        return;
      }
    }
    assert LastBelowMax(buf[..len]) == -1;
  }

  /** The prefix around its last incrementable byte. */
  lemma Decompose(p: Bytes)
    requires LastBelowMax(p) >= 0
    ensures var i := LastBelowMax(p);
            && p == p[..i] + ([p[i]] + p[i + 1..])
            && PrefixEndOf(p) == p[..i] + ([p[i] + 1] + p[i + 1..])
  {
    hide LastBelowMax;
    var i := LastBelowMax(p);
    var q := p[i := p[i] + 1];
    assert q[..i] == p[..i] && q[i + 1..] == p[i + 1..];
  }

  /** The interval holds every key with the prefix, unless the prefix has no byte below 0xff. */
  lemma {:induction false} PrefixRangeCovers(p: Bytes, key: Bytes)
    requires p <= key && exists j :: 0 <= j < |p| && p[j] < 255
    ensures InRange(key, p, PrefixEndOf(p))
  {
    hide PrefixEndOf;
    var i := LastBelowMax(p);
    var q, rest, end := p[..i], key[i..], [p[i] + 1] + p[i + 1..];
    Decompose(p);
    ExtensionNotLess(p, key);
    assert rest[0] == p[i] && end[0] == p[i] + 1;
    assert Less(rest, end);
    LessCancel(q, rest, end);
    assert key == q + rest;
  }

  /** Between q·x and q·(x+1) lie only keys that start with q·x. */
  lemma {:induction false} BetweenSuccessors(q: Bytes, x: byte, key: Bytes)
    requires x < 255
    requires InRange(key, q + [x], q + [x + 1])
    ensures q + [x] <= key
  {
    var lo, hi := q + [x], q + [x + 1];
    assert key != [];
    if q != [] {
      assert lo[1..] == q[1..] + [x] && hi[1..] == q[1..] + [x + 1];
      BetweenSuccessors(q[1..], x, key[1..]);
      assert key == [key[0]] + key[1..];
      assert lo == [q[0]] + (q[1..] + [x]);
    } else {
      assert lo == [x] && hi == [x + 1] && hi[1..] == [];
      assert !Less(key[1..], hi[1..]);
      assert !(key[0] < lo[0]) && key[0] < hi[0];
    }
  }

  /** The interval searched for a prefix is exactly the set of keys with that prefix. */
  ghost predicate SearchIsExact(p: Bytes) {
    forall key: Bytes :: InRange(key, p, PrefixEndOf(p)) <==> p <= key
  }

  lemma Beyond(q: Bytes, x: byte, m: Bytes)
    requires x < 255 && m != []
    ensures InRange(q + [x + 1], q + ([x] + m), q + ([x + 1] + m))
  {
    var key := q + [x + 1];
    LessCancel(q, [x + 1], [x] + m);
    LessCancel(key, [], m);
    assert key + [] == key && key + m == q + ([x + 1] + m);
  }

  /** With bytes 0xff at the end, a key past the prefix lies in the range without having the prefix. */
  lemma BeyondPrefix(p: Bytes)
    requires 0 <= LastBelowMax(p) < |p| - 1
    ensures !SearchIsExact(p)
  {
    hide LastBelowMax, PrefixEndOf, InRange;
    var i := LastBelowMax(p);
    var key := p[..i] + [p[i] + 1];
    Decompose(p);
    Beyond(p[..i], p[i], p[i + 1..]);
    assert key[i] != p[i];
  }

  /** PrefixEnd is exact for a prefix if and only if the last byte of the prefix is below 0xff. */
  lemma {:induction false} PrefixEndExact(p: Bytes)
    ensures SearchIsExact(p) <==> p != [] && p[|p| - 1] < 255
  {
    var i := LastBelowMax(p);
    if i < 0 {
      LessIrreflexive(p);
      assert !InRange(p, p, PrefixEndOf(p)) && p <= p;
    } else if i < |p| - 1 {
      BeyondPrefix(p);
    } else {
      Decompose(p);
      forall key: Bytes
        ensures InRange(key, p, PrefixEndOf(p)) <==> p <= key
      {
        assert p == p[..i] + [p[i]] && PrefixEndOf(p) == p[..i] + [p[i] + 1];
        if p <= key {
          PrefixRangeCovers(p, key);
        } else if InRange(key, p, PrefixEndOf(p)) {
          BetweenSuccessors(p[..i], p[i], key);
        }
      }
    }
  }
}
