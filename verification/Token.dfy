/** registry/state/state.go: the join token, its text, and the file that keeps it. */
module Token {
  import opened ByteStrings
  import opened Wrappers
  import opened Base64

  const COLON: byte := 0x3a
  const MINUS: byte := 0x2d
  const PLUS: byte := 0x2b
  const MIN_INT64: int := -0x8000_0000_0000_0000
  const MAX_INT64: int := 0x7fff_ffff_ffff_ffff
  const NANOS_PER_MILLI: int := 1_000_000

  predicate Int64(n: int) {
    MIN_INT64 <= n <= MAX_INT64
  }

  // ---------- decimal numbers ----------

  function Digits(n: nat): Bytes {
    if n < 10 then [(0x30 + n) as byte] else Digits(n / 10) + [(0x30 + n % 10) as byte]
  }

  /** The text of "%d". */
  function Decimal(n: int): Bytes {
    if n < 0 then [MINUS] + Digits(-n) else Digits(n)
  }

  function ParseDigits(ds: Bytes): Option<nat> {
    if ds == [] then None
    else
      var last := ds[|ds| - 1] as int;
      if !(0x30 <= last < 0x3a) then None
      else if |ds| == 1 then Some(last - 0x30)
      else
        var rest := ParseDigits(ds[..|ds| - 1]);
        if rest.None? then None else Some(rest.value * 10 + last - 0x30)
  }

  /** strconv.ParseInt(s, 10, 64): an optional sign, digits, and a value in range. */
  function ParseInt(s: Bytes): Option<int> {
    if s == [] then None
    else
      var signed := s[0] == MINUS || s[0] == PLUS;
      var digits := ParseDigits(if signed then s[1..] else s);
      if digits.None? then None
      else
        var n: int := if s[0] == MINUS then 0 - digits.value else digits.value;
        if Int64(n) then Some(n) else None
  }

  function Pow10(n: nat): nat {
    if n == 0 then 1 else 10 * Pow10(n - 1)
  }

  predicate AllDigits(ds: Bytes) {
    forall i :: 0 <= i < |ds| ==> 0x30 <= ds[i] <= 0x39
  }

  /** What digits are worth, read from the front: each its value times a power of ten. */
  function Worth(ds: Bytes): nat
    requires AllDigits(ds)
  {
    if ds == [] then 0 else (ds[0] as nat - 0x30) * Pow10(|ds| - 1) + Worth(ds[1..])
  }

  lemma TenTimes(first: nat, power: nat, rest: nat, d: nat)
    ensures first * (10 * power) + (10 * rest + d) == 10 * (first * power + rest) + d
  {
  }

  lemma {:induction false} WorthSnoc(ds: Bytes, d: byte)
    requires AllDigits(ds) && 0x30 <= d <= 0x39
    ensures AllDigits(ds + [d]) && Worth(ds + [d]) == 10 * Worth(ds) + (d as nat - 0x30)
  {
    var all := ds + [d];
    if ds == [] {
      assert all == [d] && all[1..] == [];
    } else {
      assert all[1..] == ds[1..] + [d];
      WorthSnoc(ds[1..], d);
      TenTimes(ds[0] as nat - 0x30, Pow10(|ds| - 1), Worth(ds[1..]), d as nat - 0x30);
    }
  }

  lemma AllDigitsSnoc(ds: Bytes, d: byte)
    ensures AllDigits(ds + [d]) <==> AllDigits(ds) && 0x30 <= d <= 0x39
  {
    var all := ds + [d];
    assert all[|ds|] == d;
    assert forall i :: 0 <= i < |ds| ==> ds[i] == all[i];
  }

  /** Digits are read in base ten, and nothing else is read. */
  lemma {:induction false} ParseDigitsExact(ds: Bytes)
    ensures ParseDigits(ds).Some? <==> ds != [] && AllDigits(ds)
    ensures ParseDigits(ds).Some? ==> ParseDigits(ds).value == Worth(ds)
  {
    hide Worth, AllDigits;
    if ds != [] {
      var init, last := ds[..|ds| - 1], ds[|ds| - 1];
      assert ds == init + [last];
      ParseDigitsExact(init);
      AllDigitsSnoc(init, last);
      NoDigits();
      if AllDigits(ds) {
        WorthSnoc(init, last);
      }
    }
  }

  lemma NoDigits()
    ensures AllDigits([]) && Worth([]) == 0
  {
  }

  /** An optional sign and digits: the text of a number, and the number. */
  predicate Reads(s: Bytes, n: int) {
    || (s != [] && AllDigits(s) && n == Worth(s))
    || (|s| > 1 && s[0] == 0x2b && AllDigits(s[1..]) && n == Worth(s[1..]))
    || (|s| > 1 && s[0] == 0x2d && AllDigits(s[1..]) && n == 0 - Worth(s[1..]))
  }

  /** ParseInt gives a number exactly for its decimal texts, if it fits into 64 bits. */
  lemma ParseIntExact(s: Bytes, n: int)
    ensures ParseInt(s) == Some(n) <==> Reads(s, n) && -0x8000_0000_0000_0000 <= n < 0x8000_0000_0000_0000
  {
    ParseDigitsExact(s);
    if s != [] {
      ParseDigitsExact(s[1..]);
      assert s[0] == 0x2b || s[0] == 0x2d ==> !AllDigits(s);
    }
  }

  lemma {:induction false} DigitsParse(n: nat)
    ensures ParseDigits(Digits(n)) == Some(n)
    ensures Digits(n) != [] && forall i :: 0 <= i < |Digits(n)| ==> 0x30 <= Digits(n)[i] < 0x3a
  {
    if n >= 10 {
      DigitsParse(n / 10);
      var ds := Digits(n);
      assert ds[..|ds| - 1] == Digits(n / 10);
    }
  }

  lemma DecimalParse(n: int)
    requires Int64(n)
    ensures ParseInt(Decimal(n)) == Some(n)
    ensures forall i :: 0 <= i < |Decimal(n)| ==> Decimal(n)[i] != COLON
  {
    DigitsParse(if n < 0 then -n else n);
    if n < 0 {
      assert Decimal(n)[1..] == Digits(-n);
    }
  }

  // ---------- the token text ----------

  datatype TokenError = BadTime | NoSeparator | BadBase64

  predicate SeparatesAt(t: Bytes, i: nat)
    requires i + 2 <= |t|
  {
    t[i] == COLON && t[i + 1] == COLON
  }

  /** The index of the first "::", or the length. */
  function Separator(t: Bytes): (i: nat)
    ensures i == |t| || (i + 2 <= |t| && SeparatesAt(t, i))
    ensures forall j :: 0 <= j < i && j + 2 <= |t| ==> !SeparatesAt(t, j)
  {
    if |t| < 2 then |t|
    else if SeparatesAt(t, 0) then 0
    else
      var rest := Separator(t[1..]);
      assert forall j :: 0 < j < 1 + rest && j + 2 <= |t| ==> SeparatesAt(t, j) == SeparatesAt(t[1..], j - 1);
      assert rest + 2 < |t| ==> SeparatesAt(t, rest + 1) == SeparatesAt(t[1..], rest);
      1 + rest
  }

  /** decodeToken: the time in milliseconds before the first "::", the token in Base64 after it. */
  function DecodeToken(t: Bytes): Result<(Bytes, int), TokenError> {
    var i := Separator(t);
    var millis := ParseInt(t[..i]);
    if millis.None? then Err(BadTime)
    else if i == |t| then Err(NoSeparator)
    else
      var token := Decode(t[i + 2..]);
      if token.None? then Err(BadBase64) else Ok((token.value, millis.value))
  }

  lemma NumberHasNoColon(s: Bytes, n: int)
    requires Reads(s, n)
    ensures COLON !in s
  {
    assert |s| > 1 ==> s == [s[0]] + s[1..];
  }

  /** At i a double colon separates a number of milliseconds from a token in Base64. */
  predicate TokenAt(t: Bytes, i: nat, token: Bytes, millis: int) {
    && i + 2 <= |t| && t[i] == 0x3a && t[i + 1] == 0x3a
    && Reads(t[..i], millis) && Int64(millis) && Decode(t[i + 2..]) == Some(token)
  }

  /** A token text decodes exactly if it is a number, a double colon and Base64, and then to those. */
  lemma DecodeTokenExact(t: Bytes, token: Bytes, millis: int)
    ensures DecodeToken(t) == Ok((token, millis)) <==> exists i :: TokenAt(t, i, token, millis)
  {
    hide Decode, ParseInt, Reads;
    var i := Separator(t);
    ParseIntExact(t[..i], millis);
    if DecodeToken(t) == Ok((token, millis)) {
      assert TokenAt(t, i, token, millis);
    }
    if j: nat :| TokenAt(t, j, token, millis) {
      assert SeparatesAt(t, j);
      assert i < j ==> t[..j][i] == t[i];
      NumberHasNoColon(t[..j], millis);
      assert i == j;
    }
  }

  /** The text shared between servers and kept in the token file. */
  function ShareToken(token: Bytes, millis: int): Bytes {
    Decimal(millis) + [COLON, COLON] + Encode(token)
  }

  lemma {:induction false} SeparatorAfter(head: Bytes, rest: Bytes)
    requires COLON !in head
    ensures Separator(head + [COLON, COLON] + rest) == |head|
  {
    var t := head + [COLON, COLON] + rest;
    if head != [] {
      assert t[0] != COLON;
      assert t[1..] == head[1..] + [COLON, COLON] + rest;
      SeparatorAfter(head[1..], rest);
    }
  }

  /** For every token and every time that fits: reading the text gives both back. */
  lemma TokenRoundTrip(token: Bytes, millis: int)
    requires Int64(millis)
    ensures DecodeToken(ShareToken(token, millis)) == Ok((token, millis))
  {
    var t, n := ShareToken(token, millis), |Decimal(millis)|;
    DecimalParse(millis);
    SeparatorAfter(Decimal(millis), Encode(token));
    RoundTrip(token);
    assert t[..n] == Decimal(millis) && t[n + 2..] == Encode(token);
  }

  lemma ParsedFits(s: Bytes)
    requires ParseInt(s).Some?
    ensures Int64(ParseInt(s).value)
  {
  }

  // ---------- the token file ----------

  /** Time.UnixMilli of a time in nanoseconds: rounded down. */
  function ToMillis(nanos: int): (m: int)
    ensures m * 1_000_000 <= nanos < (m + 1) * 1_000_000
  {
    nanos / NANOS_PER_MILLI
  }

  lemma WholeMillis(nanos: int)
    ensures nanos == ToMillis(nanos) * NANOS_PER_MILLI <==> nanos % NANOS_PER_MILLI == 0
  {
  }

  class TokenDir {
    var file: Option<Bytes>

    constructor ()
      ensures file.None?
    {
      file := None;
    }

    /**
     * loadStateToken: an existing file decides; otherwise the initial token or a random one is taken and
     * kept. Times are in nanoseconds.
     */
    method LoadStateToken(initialToken: Bytes, random: Bytes, now: int)
        returns (r: Result<(Bytes, int), TokenError>)
      requires Int64(ToMillis(now))
      modifies this
      ensures old(file.Some?) ==> file == old(file)
      ensures r.Ok? ==> file.Some? && DecodeToken(file.value) == Ok((r.value.0, ToMillis(r.value.1)))
      ensures old(file.Some?) ==> (r.Ok? <==> DecodeToken(old(file).value).Ok?)
      ensures old(file.Some?) && r.Ok? ==> r.value.1 == ToMillis(r.value.1) * NANOS_PER_MILLI
      ensures old(file.None?) && initialToken == [] ==> r == Ok((random, now))
      ensures old(file.None?) && initialToken != [] ==>
                match DecodeToken(initialToken)
                case Ok((token, millis)) => r == Ok((token, millis * NANOS_PER_MILLI))
                case Err(e) => r == Err(e) && file.None?
    {
      var token, start;
      if file.None? {
        if initialToken == [] {
          token, start := random, now;
        } else {
          var decoded := DecodeToken(initialToken);
          if decoded.Err? {
            return Err(decoded.error);
          }
          token, start := decoded.value.0, decoded.value.1 * NANOS_PER_MILLI;
          ParsedFits(initialToken[..Separator(initialToken)]);
        }
        file := Some(ShareToken(token, ToMillis(start)));
        TokenRoundTrip(token, ToMillis(start));
      } else {
        var decoded := DecodeToken(file.value);
        if decoded.Err? {
          return Err(decoded.error);
        }
        token, start := decoded.value.0, decoded.value.1 * NANOS_PER_MILLI;
      }
      return Ok((token, start));
    }
  }

  /** What a start of the server finds: its initial token, fresh random bytes, and the time. */
  datatype Boot = Boot(initialToken: Bytes, random: Bytes, now: int)

  /**
   * Any number of loads after the first: always its token, and its start rounded down to milliseconds,
   * which is the same start if and only if it was a whole number of them.
   */
  method LoadAgain(dir: TokenDir, boot: Boot, later: seq<Boot>)
      returns (first: (Bytes, int), loads: seq<(Bytes, int)>)
    requires Int64(ToMillis(boot.now)) && forall b :: b in later ==> Int64(ToMillis(b.now))
    requires dir.file.Some? ==> DecodeToken(dir.file.value).Ok?
    requires dir.file.None? && boot.initialToken != [] ==> DecodeToken(boot.initialToken).Ok?
    modifies dir
    ensures |loads| == |later|
    ensures forall i :: 0 <= i < |loads| ==> loads[i] == (first.0, ToMillis(first.1) * NANOS_PER_MILLI)
    ensures forall i :: 0 <= i < |loads| ==> (loads[i] == first <==> first.1 % NANOS_PER_MILLI == 0)
  {
    hide DecodeToken, ToMillis;
    var r := dir.LoadStateToken(boot.initialToken, boot.random, boot.now);
    first := r.value;
    WholeMillis(first.1);
    loads := [];
    for i := 0 to |later|
      invariant |loads| == i
      invariant dir.file.Some? && DecodeToken(dir.file.value) == Ok((first.0, ToMillis(first.1)))
      invariant forall j :: 0 <= j < i ==> loads[j] == (first.0, ToMillis(first.1) * NANOS_PER_MILLI)
    {
      r := dir.LoadStateToken(later[i].initialToken, later[i].random, later[i].now);
      loads := loads + [r.value];
    }
  }
}
