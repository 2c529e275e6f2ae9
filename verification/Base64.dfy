/** Base64 as in section 4 of RFC 4648: the standard alphabet, with padding. */
module Base64 {
  import opened ByteStrings
  import opened Wrappers

  const PAD: byte := 0x3d  // =

  function Char(i: nat): byte
    requires i < 64
  {
    if i < 26 then (0x41 + i) as byte
    else if i < 52 then (0x61 + i - 26) as byte
    else if i < 62 then (0x30 + i - 52) as byte
    else if i == 62 then 0x2b else 0x2f
  }

  function Index(c: byte): (i: Option<nat>)
    ensures i.Some? ==> i.value < 64 && Char(i.value) == c
  {
    var x := c as int;
    if 0x41 <= x < 0x5b then Some(x - 0x41)
    else if 0x61 <= x < 0x7b then Some(x - 0x61 + 26)
    else if 0x30 <= x < 0x3a then Some(x - 0x30 + 52)
    else if x == 0x2b then Some(62) else if x == 0x2f then Some(63) else None
  }

  lemma IndexChar(i: nat)
    requires i < 64
    ensures Index(Char(i)) == Some(i) && Char(i) != PAD
  {
  }

  /** Three bytes at a time; one or two left over are padded. */
  function Encode(s: Bytes): Bytes {
    if s == [] then []
    else
      var a := s[0] as int;
      if |s| == 1 then [Char(a / 4), Char(a % 4 * 16), PAD, PAD]
      else
        var b := s[1] as int;
        if |s| == 2 then [Char(a / 4), Char(a % 4 * 16 + b / 16), Char(b % 16 * 4), PAD]
        else
          var c := s[2] as int;
          [Char(a / 4), Char(a % 4 * 16 + b / 16), Char(b % 16 * 4 + c / 64), Char(c % 64)] + Encode(s[3..])
  }

  function Two(v0: nat, v1: nat): byte
    requires v0 < 64 && v1 < 64
  {
    (v0 * 4 + v1 / 16) as byte
  }

  function Mid(v1: nat, v2: nat): byte
    requires v1 < 64 && v2 < 64
  {
    (v1 % 16 * 16 + v2 / 4) as byte
  }

  function Low(v2: nat, v3: nat): byte
    requires v2 < 64 && v3 < 64
  {
    (v2 % 4 * 64 + v3) as byte
  }

  /** Four characters at a time; padding only at the very end, leftover bits ignored. */
  function Decode(t: Bytes): Option<Bytes> {
    if t == [] then Some([])
    else if |t| < 4 then None
    else
      var v0, v1, v2, v3 := Index(t[0]), Index(t[1]), Index(t[2]), Index(t[3]);
      if v0.None? || v1.None? then None
      else if t[2] == PAD then
        if t[3] == PAD && |t| == 4 then Some([Two(v0.value, v1.value)]) else None
      else if v2.None? then None
      else if t[3] == PAD then
        if |t| == 4 then Some([Two(v0.value, v1.value), Mid(v1.value, v2.value)]) else None
      else if v3.None? then None
      else
        var rest := Decode(t[4..]);
        if rest.None? then None
        else Some([Two(v0.value, v1.value), Mid(v1.value, v2.value), Low(v2.value, v3.value)] + rest.value)
  }

  lemma BitsTwo(a: nat, low: nat)
    requires a < 256 && low < 16
    ensures Two(a / 4, a % 4 * 16 + low) == a as byte
    ensures (a % 4 * 16 + low) % 16 == low
  {
  }

  lemma BitsMid(v1: nat, b: nat, low: nat)
    requires v1 < 64 && b < 256 && v1 % 16 == b / 16 && low < 4
    ensures Mid(v1, b % 16 * 4 + low) == b as byte
    ensures (b % 16 * 4 + low) % 4 == low
  {
  }

  lemma BitsLow(v2: nat, c: nat)
    requires v2 < 64 && c < 256 && v2 % 4 == c / 64
    ensures Low(v2, c % 64) == c as byte
  {
  }

  /** Decoding undoes encoding, for every byte string. */
  lemma {:induction false} RoundTrip(s: Bytes)
    ensures Decode(Encode(s)) == Some(s)
  {
    hide Char, Index, Two, Mid, Low;
    if s != [] {
      var a := s[0] as int;
      var b := if |s| > 1 then s[1] as int else 0;
      var c := if |s| > 2 then s[2] as int else 0;
      IndexChar(a / 4);
      IndexChar(a % 4 * 16 + b / 16);
      IndexChar(b % 16 * 4 + c / 64);
      IndexChar(c % 64);
      BitsTwo(a, b / 16);
      BitsMid(a % 4 * 16 + b / 16, b, c / 64);
      BitsLow(b % 16 * 4 + c / 64, c);
      if |s| == 1 {
        assert Encode(s) == [Char(a / 4), Char(a % 4 * 16), PAD, PAD];
        assert s == [s[0]];
      } else if |s| == 2 {
        assert Encode(s) == [Char(a / 4), Char(a % 4 * 16 + b / 16), Char(b % 16 * 4), PAD];
        assert s == [s[0], s[1]];
      } else {
        RoundTrip(s[3..]);
        var group := [Char(a / 4), Char(a % 4 * 16 + b / 16), Char(b % 16 * 4 + c / 64), Char(c % 64)];
        assert Encode(s) == group + Encode(s[3..]);
        assert Encode(s)[4..] == Encode(s[3..]);
        assert s == [s[0], s[1], s[2]] + s[3..];
      }
    }
  }

  // ---------- the text is the one section 4 prescribes ----------

  /** The value of a character; padding counts as zero. */
  function Sextet(c: byte): nat {
    if Index(c).Some? then Index(c).value else 0
  }

  /** Missing bytes count as zero. */
  function Octet(s: Bytes, i: nat): nat {
    if i < |s| then s[i] as nat else 0
  }

  /** The length the encoder's buffer is made for. */
  lemma {:induction false} EncodedLength(s: Bytes)
    ensures |Encode(s)| == (|s| + 2) / 3 * 4
  {
    if |s| >= 3 {
      EncodedLength(s[3..]);
    }
  }

  /** The first four characters spell the 24 bits of the first three bytes, padded where bytes are missing. */
  predicate Spells(t: Bytes, s: Bytes) {
    && |t| >= 4
    && ((Sextet(t[0]) * 64 + Sextet(t[1])) * 64 + Sextet(t[2])) * 64 + Sextet(t[3])
       == (Octet(s, 0) * 256 + Octet(s, 1)) * 256 + Octet(s, 2)
    && t[0] != PAD && t[1] != PAD && (t[2] == PAD <==> |s| < 2) && (t[3] == PAD <==> |s| < 3)
  }

  /** The sextets of three octets, put together, are the octets put together. */
  lemma Regroup(a: nat, b: nat, c: nat)
    requires a < 256 && b < 256 && c < 256
    ensures ((a / 4 * 64 + (a % 4 * 16 + b / 16)) * 64 + (b % 16 * 4 + c / 64)) * 64 + c % 64 == (a * 256 + b) * 256 + c
  {
  }

  lemma FirstGroup(s: Bytes)
    requires s != []
    ensures Spells(Encode(s), s)
  {
    hide Index, Char;
    var a, b, c := Octet(s, 0), Octet(s, 1), Octet(s, 2);
    IndexChar(a / 4);
    IndexChar(a % 4 * 16 + b / 16);
    IndexChar(b % 16 * 4 + c / 64);
    IndexChar(c % 64);
    PadIsNoSextet();
    Regroup(a, b, c);
    assert |s| >= 3 ==> Encode(s)[..4] == [Char(a / 4), Char(a % 4 * 16 + b / 16), Char(b % 16 * 4 + c / 64), Char(c % 64)];
  }

  lemma PadIsNoSextet()
    ensures Index(PAD).None?
  {
  }

  lemma EncodeTail(s: Bytes)
    requires |s| > 3
    ensures |Encode(s)| >= 4 && Encode(s)[4..] == Encode(s[3..])
  {
    hide Char;
  }

  lemma DropTwice(s: Bytes, a: nat, b: nat)
    requires a + b <= |s|
    ensures s[a..][b..] == s[a + b..]
  {
  }

  /** Every group of four characters spells its three bytes. */
  lemma {:induction false} EncodeSpells(s: Bytes, g: nat)
    requires 3 * g < |s|
    ensures 4 * g < |Encode(s)| && Spells(Encode(s)[4 * g..], s[3 * g..])
  {
    hide Spells, Encode;
    if g == 0 {
      FirstGroup(s);
      EncodedLength(s);
      assert Encode(s)[0..] == Encode(s) && s[0..] == s;
    } else {
      EncodeSpells(s[3..], g - 1);
      EncodeTail(s);
      DropTwice(Encode(s), 4, 4 * (g - 1));
      DropTwice(s, 3, 3 * (g - 1));
    }
  }

  /** Table 1, by rows of sixteen. */
  const ALPHABET: seq<string> := ["ABCDEFGHIJKLMNOP", "QRSTUVWXYZabcdef", "ghijklmnopqrstuv", "wxyz0123456789+/"]

  /** The characters are those of the table. */
  lemma AlphabetIs(row: nat, column: nat)
    requires row < 4 && column < 16
    ensures |ALPHABET| == 4 && |ALPHABET[row]| == 16 && ALPHABET[row][column] as int == Char(16 * row + column) as int
    ensures [PAD] == Text("=")
  {
  }

  /** A multiple of four characters of the alphabet, the last one or two of which may be padding. */
  predicate WellFormed(t: Bytes) {
    && |t| % 4 == 0
    && forall i :: 0 <= i < |t| ==>
         Index(t[i]).Some? || (t[i] == PAD && (i == |t| - 1 || (i == |t| - 2 && t[|t| - 1] == PAD)))
  }

  function Pads(t: Bytes): nat {
    if t == [] || t[|t| - 1] != PAD then 0 else if |t| > 1 && t[|t| - 2] == PAD then 2 else 1
  }

  lemma PadHasNoIndex()
    ensures Index(PAD).None?
  {
  }

  lemma WellFormedTail(t: Bytes)
    requires |t| > 4
    ensures WellFormed(t) <==> (forall i :: 0 <= i < 4 ==> Index(t[i]).Some?) && WellFormed(t[4..])
    ensures Pads(t[4..]) == Pads(t) || |t| < 6
  {
    hide Index;
    PadHasNoIndex();
    var u := t[4..];
    assert forall i :: 4 <= i < |t| ==> t[i] == u[i - 4];
    assert forall i :: 0 <= i < |u| ==> u[i] == t[i + 4];
    if WellFormed(t) {
      assert |t| >= 8;
    }
    if WellFormed(u) {
      assert |u| >= 4;
    }
  }

  /** Exactly the well-formed texts decode, to three bytes for each four characters but for the padding. */
  lemma {:induction false} DecodeExact(t: Bytes)
    ensures Decode(t).Some? <==> WellFormed(t)
    ensures Decode(t).Some? ==> |Decode(t).value| == |t| / 4 * 3 - Pads(t)
  {
    hide Index, Two, Mid, Low;
    PadHasNoIndex();
    if |t| > 4 {
      DecodeExact(t[4..]);
      WellFormedTail(t);
    } else if |t| == 4 {
      assert t[4..] == [];
    }
  }

  /** The first bytes are the bits of the first four characters; bits left over at the end do not matter. */
  predicate Carries(s: Bytes, t: Bytes) {
    && |t| >= 4 && s != []
    && var bits := ((Sextet(t[0]) * 64 + Sextet(t[1])) * 64 + Sextet(t[2])) * 64 + Sextet(t[3]);
       && s[0] as nat == bits / 65536 && (|s| > 1 ==> s[1] as nat == bits / 256 % 256)
       && (|s| > 2 ==> s[2] as nat == bits % 256)
  }

  lemma ThreeBytes(x: nat, y: nat, z: nat)
    requires y < 256 && z < 256
    ensures var n := x * 65536 + y * 256 + z; n / 65536 == x && n / 256 % 256 == y && n % 256 == z
  {
    var n := x * 65536 + y * 256 + z;
    assert n / 256 == x * 256 + y;
  }

  lemma Bits24(v0: nat, v1: nat, v2: nat, v3: nat)
    requires v0 < 64 && v1 < 64 && v2 < 64 && v3 < 64
    ensures var bits := ((v0 * 64 + v1) * 64 + v2) * 64 + v3;
            && Two(v0, v1) as nat == bits / 65536 && Mid(v1, v2) as nat == bits / 256 % 256 && Low(v2, v3) as nat == bits % 256
  {
    var a, b, c, d := v1 / 16, v1 % 16, v2 / 4, v2 % 4;
    assert v1 == 16 * a + b && v2 == 4 * c + d;
    ThreeBytes(v0 * 4 + a, b * 16 + c, d * 64 + v3);
  }

  lemma FirstCarried(t: Bytes)
    requires Decode(t).Some? && t != []
    ensures Decode(t).value != [] && Carries(Decode(t).value, t)
  {
    hide Index, Two, Mid, Low;
    PadHasNoIndex();
    Bits24(Sextet(t[0]), Sextet(t[1]), Sextet(t[2]), Sextet(t[3]));
  }

  /** Every group of four characters is decoded to the bytes it carries. */
  lemma {:induction false} DecodeCarries(t: Bytes, g: nat)
    requires Decode(t).Some? && 4 * g < |t|
    ensures 3 * g < |Decode(t).value| && Carries(Decode(t).value[3 * g..], t[4 * g..])
  {
    hide Carries, Decode;
    if g == 0 {
      FirstCarried(t);
      assert Decode(t).value[0..] == Decode(t).value && t[0..] == t;
    } else {
      DecodeTail(t);
      DecodeCarries(t[4..], g - 1);
      DropTwice(t, 4, 4 * (g - 1));
      DropTwice(Decode(t).value, 3, 3 * (g - 1));
    }
  }

  lemma DecodeTail(t: Bytes)
    requires Decode(t).Some? && |t| > 4
    ensures Decode(t[4..]).Some? && |Decode(t).value| >= 3 && Decode(t).value[3..] == Decode(t[4..]).value
  {
    hide Index, Two, Mid, Low;
  }

  /** Whatever decodes fits the buffer made for it: three bytes for each four characters, up to two fewer. */
  lemma {:induction false} DecodedLength(t: Bytes)
    requires Decode(t).Some?
    ensures |t| % 4 == 0 && |Decode(t).value| <= |t| / 4 * 3 <= |Decode(t).value| + 2
  {
    hide Index, Two, Mid, Low;
    if t != [] && t[2] != PAD && t[3] != PAD {
      DecodedLength(t[4..]);
      assert |Decode(t).value| == 3 + |Decode(t[4..]).value|;
    }
  }
}
