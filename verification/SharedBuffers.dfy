/**
 * Discover builds its four prefixes by chained appends, which may all write into one buffer. This is
 * the slice semantics of Go: an append writes past the end of its operand if the buffer has room, and
 * otherwise copies to a new buffer of any larger size.
 */
module SharedBuffers {
  import opened ByteStrings
  import opened PrefixRange
  import opened Keys
  import opened Discover

  /** The first len bytes of a buffer; its capacity is the buffer's length. */
  datatype Slice = Slice(buf: array<byte>, len: nat) {
    ghost predicate Valid() {
      len <= buf.Length
    }

    ghost function Read(): Bytes
      reads buf
      requires Valid()
    {
      buf[..len]
    }
  }

  /** Slices that share the operand's buffer reach no further than it does. */
  ghost predicate Behind(older: seq<Slice>, s: Slice) {
    forall i :: 0 <= i < |older| ==> older[i].Valid() && (older[i].buf == s.buf ==> older[i].len <= s.len)
  }

  /** Nothing below the operand's end changes, so no slice behind it reads differently. */
  method Append(s: Slice, more: Bytes, ghost older: seq<Slice>) returns (t: Slice)
    requires s.Valid() && Behind(older, s)
    modifies s.buf
    ensures t.Valid() && t.Read() == old(s.Read()) + more
    ensures t.buf == s.buf || fresh(t.buf)
    ensures s.Read() == old(s.Read())
    ensures forall i :: 0 <= i < |older| ==> older[i].Read() == old(older[i].Read())
    ensures Behind(older, t)
  {
    var n := s.len + |more|;
    var buf := s.buf;
    if n > s.buf.Length {
      var capacity: nat :| capacity >= n;
      buf := new byte[capacity](i reads s.buf => if 0 <= i < s.len <= s.buf.Length then s.buf[i] else 0);
    }
    ghost var start := buf[..s.len];
    assert start == old(s.Read());
    for i := 0 to |more|
      invariant s.len + i <= buf.Length && buf[..s.len] == start
      invariant buf[s.len..s.len + i] == more[..i]
      invariant buf != s.buf ==> s.buf[..] == old(s.buf[..])
    {
      buf[s.len + i] := more[i];
    }
    assert buf[..n] == start + buf[s.len..n];
    assert buf != s.buf ==> s.Read() == s.buf[..][..s.len];
    t := Slice(buf, n);
    forall i | 0 <= i < |older| ensures older[i].Read() == old(older[i].Read()) {
      if older[i].buf == s.buf {
        assert older[i].Read() == s.Read()[..older[i].len];
        assert old(older[i].Read()) == old(s.Read())[..older[i].len];
      }
    }
  }

  /** The four chained appends. */
  method FourPrefixes(service: Bytes, at: Place) returns (svc: Slice, loc: Slice, dc: Slice, name: Slice)
    ensures fresh(name.buf) && svc.Valid() && loc.Valid() && dc.Valid() && name.Valid()
    ensures Behind([svc, loc, dc], name)
    ensures svc.Read() == ServicePrefix(service)
    ensures loc.Read() == LocationPrefix(service, at.location)
    ensures dc.Read() == DatacenterPrefix(service, at.location, at.datacenter)
    ensures name.Read() == NodePrefix(service, at.location, at.datacenter, at.name)
  {
    PrefixesExtend(service, at);
    hide ServicePrefix, LocationPrefix, DatacenterPrefix, NodePrefix;
    var nothing := new byte[0];
    svc := Append(Slice(nothing, 0), ServicePrefix(service), []);
    ghost var o1 := [svc];
    assert o1[0] == svc;
    loc := Append(svc, at.location + [SLASH], o1);
    ghost var o2 := [svc, loc];
    assert o2[0] == svc && o2[1] == loc;
    dc := Append(loc, at.datacenter + [SLASH], o2);
    ghost var o3 := [svc, loc, dc];
    assert o3[0] == svc && o3[1] == loc && o3[2] == dc;
    name := Append(dc, at.name + [SLASH], o3);
  }

  /**
   * All appends and range ends of Discover, in its order: afterwards each prefix still reads as it was
   * first built, and each range end is the one for that prefix.
   */
  method BuildPrefixes(service: Bytes, at: Place, pointer: Bytes, withInstance: bool)
      returns (svc: Slice, loc: Slice, dc: Slice, name: Slice, key: Slice, ends: seq<Bytes>)
    ensures svc.Valid() && svc.Read() == ServicePrefix(service)
    ensures loc.Valid() && loc.Read() == LocationPrefix(service, at.location)
    ensures dc.Valid() && dc.Read() == DatacenterPrefix(service, at.location, at.datacenter)
    ensures name.Valid() && name.Read() == NodePrefix(service, at.location, at.datacenter, at.name)
    ensures key.Valid() && key.Read() == if withInstance then name.Read() + pointer else name.Read()
    ensures ends == [PrefixEndOf(key.Read()), PrefixEndOf(dc.Read()), PrefixEndOf(loc.Read()), PrefixEndOf(svc.Read())]
  {
    hide ServicePrefix, LocationPrefix, DatacenterPrefix, NodePrefix, PrefixEndOf;
    svc, loc, dc, name := FourPrefixes(service, at);
    key := name;
    if withInstance {
      ghost var older := [svc, loc, dc];
      assert older[0] == svc && older[1] == loc && older[2] == dc;
      key := Append(name, pointer, older);
    }
    var e0 := PrefixEnd(key.buf, key.len);
    var e1 := PrefixEnd(dc.buf, dc.len);
    var e2 := PrefixEnd(loc.buf, loc.len);
    var e3 := PrefixEnd(svc.buf, svc.len);
    ends := [e0[..], e1[..], e2[..], e3[..]];
  }
}
