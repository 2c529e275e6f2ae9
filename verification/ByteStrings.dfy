/** Byte strings and their lexicographic order, the order in which etcd keeps its keys. */
module ByteStrings {

  newtype byte = x: int | 0 <= x < 256

  /** A Go string or byte slice read as a value. */
  type Bytes = seq<byte>

  /** The bytes of an ASCII text. */
  function Text(s: string): Bytes
    requires forall i :: 0 <= i < |s| ==> s[i] < 128 as char
  {
    seq(|s|, i requires 0 <= i < |s| => s[i] as byte)
  }

  /** Strict lexicographic order. */
  predicate Less(a: Bytes, b: Bytes) {
    b != [] && (a == [] || a[0] < b[0] || (a[0] == b[0] && Less(a[1..], b[1..])))
  }

  /** The half-open key interval that a range request with a range end selects. */
  predicate InRange(key: Bytes, lo: Bytes, hi: Bytes) {
    !Less(key, lo) && Less(key, hi)
  }

  lemma {:induction false} LessIrreflexive(a: Bytes)
    ensures !Less(a, a)
  {
    if a != [] {
      LessIrreflexive(a[1..]);
    }
  }

  lemma {:induction false} LessTransitive(a: Bytes, b: Bytes, c: Bytes)
    requires Less(a, b) && Less(b, c)
    ensures Less(a, c)
  {
    if a != [] && a[0] == b[0] && b[0] == c[0] {
      LessTransitive(a[1..], b[1..], c[1..]);
    }
  }

  lemma {:induction false} LessTotal(a: Bytes, b: Bytes)
    ensures a == b || Less(a, b) || Less(b, a)
  {
    if a != [] && b != [] && a[0] == b[0] {
      LessTotal(a[1..], b[1..]);
      assert a == [a[0]] + a[1..] && b == [b[0]] + b[1..];
    }
  }

  /** A common prefix does not take part in a comparison. */
  lemma {:induction false} LessCancel(q: Bytes, a: Bytes, b: Bytes)
    ensures Less(q + a, q + b) <==> Less(a, b)
  {
    if q == [] {
      assert q + a == a && q + b == b;
    } else {
      LessCancel(q[1..], a, b);
      assert (q + a)[1..] == q[1..] + a && (q + b)[1..] == q[1..] + b;
    }
  }

  /** Nothing that extends a string comes before it. */
  lemma {:induction false} ExtensionNotLess(p: Bytes, key: Bytes)
    requires p <= key
    ensures !Less(key, p)
  {
    if p != [] {
      ExtensionNotLess(p[1..], key[1..]);
    }
  }
}
