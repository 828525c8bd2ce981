/** The text form of a device secret: unpadded base64url (section 5 of RFC 4648), through a 32-bit accumulator. */
module SecretText {
  import opened Bytes
  import opened Options

  const SECRET_BYTES: nat := 32

  /** The alphabet of section 5. */
  function Letter(v: nat): char
    requires v < 64
  {
    if v < 26 then ('A' as int + v) as char
    else if v < 52 then ('a' as int + (v - 26)) as char
    else if v < 62 then ('0' as int + (v - 52)) as char
    else if v == 62 then '-'
    else '_'
  }

  /** The value of a character, by the comparisons of the decoder. */
  function ValueOf(c: char): Option<nat> {
    if 'A' <= c <= 'Z' then Some((c - 'A') as int)
    else if 'a' <= c <= 'z' then Some((c - 'a') as int + 26)
    else if '0' <= c <= '9' then Some((c - '0') as int + 52)
    else if c == '-' then Some(62)
    else if c == '_' then Some(63)
    else None
  }

  lemma LetterValue(v: nat)
    requires v < 64
    ensures ValueOf(Letter(v)) == Some(v)
  {}

  lemma ValueBound(c: char)
    ensures ValueOf(c).Some? ==> ValueOf(c).value < 64
  {}

  predicate IsSecretText(s: string) {
    forall i :: 0 <= i < |s| ==> ValueOf(s[i]).Some?
  }

  /** The number a text denotes, six bits a character. */
  function FromText(s: string): nat
    requires IsSecretText(s)
  {
    if s == "" then 0 else FromText(s[..|s| - 1]) * 64 + ValueOf(s[|s| - 1]).value
  }

  lemma FromTextExtend(s: string, c: char)
    requires IsSecretText(s) && ValueOf(c).Some?
    ensures IsSecretText(s + [c]) && FromText(s + [c]) == FromText(s) * 64 + ValueOf(c).value
  {
    assert (s + [c])[..|s|] == s;
  }

  lemma FromBigEndianExtend(s: seq<byte>, b: byte)
    ensures FromBigEndian(s + [b]) == FromBigEndian(s) * 256 + b
  {
    assert (s + [b])[..|s|] == s;
  }

  // ---- The accumulator ----

  lemma {:induction false} Pow2Add(m: nat, n: nat)
    ensures Pow2(m + n) == Pow2(m) * Pow2(n)
  {
    if m > 0 {
      Pow2Add(m - 1, n);
    }
  }

  lemma SmallPowers()
    ensures Pow2(0) == 1 && Pow2(6) == 64 && Pow2(8) == 256 && Pow2(32) == TWO_32
  {
    assert Pow2(4) == 16 && Pow2(8) == 256;
    Pow2Add(8, 8);
    Pow2Add(16, 16);
  }

  lemma Split(q: nat, k: nat, d: nat, r: nat)
    requires d > 0
    ensures (q * (k * d) + r) / d == q * k + r / d
  {
    var t := q * k;
    assert q * (k * d) == d * t;
    UniqueQuotient(q * (k * d) + r, d, t + r / d, r % d);
  }

  lemma MultipleVanishes(q: nat, m: nat, size: nat, x: nat)
    requires size > 0
    ensures (q * (m * size) + x) % size == x % size
  {
    var t := q * m;
    assert q * (m * size) == size * t;
    UniqueRemainder(q * (m * size) + x, size, t + x / size, x % size);
  }

  /** A shift that drops what leaves the 32 bits keeps the low bits of the whole number. */
  lemma Accumulate(v: nat, w: nat, x: nat)
    ensures (v % TWO_32 * w + x) % TWO_32 == (v * w + x) % TWO_32
  {
    var q, r := v / TWO_32, v % TWO_32;
    assert v == q * TWO_32 + r;
    Distribute(q, TWO_32, r, w);
    MultipleVanishes(q, w, TWO_32, r * w + x);
  }

  lemma Distribute(q: nat, m: nat, r: nat, w: nat)
    ensures (q * m + r) * w == q * (w * m) + r * w
  {}

  /** What a window into the accumulator shows, it would show of the whole number. */
  lemma LowBits(v: nat, a: nat, s: nat)
    requires a + s <= 32
    ensures v % TWO_32 / Pow2(a) % Pow2(s) == v / Pow2(a) % Pow2(s)
  {
    hide Pow2;
    SmallPowers();
    Pow2Add(32 - a, a);
    Pow2Add(32 - a - s, s);
    LowBitsOf(v, Pow2(a), Pow2(32 - a), Pow2(32 - a - s), Pow2(s));
  }

  lemma LowBitsOf(v: nat, d: nat, k: nat, m: nat, e: nat)
    requires d > 0 && e > 0 && k * d == TWO_32 && k == m * e
    ensures v % TWO_32 / d % e == v / d % e
  {
    var q, r := v / TWO_32, v % TWO_32;
    var wide := q * (k * d);
    assert v == wide + r;
    Split(q, k, d, r);
    assert v / d == q * k + r / d;
    MultipleVanishes(q, m, e, r / d);
  }

  /** The next window continues what the windows before it have shown. */
  lemma NextWindow(v: nat, a: nat, s: nat)
    ensures v / Pow2(a + s) * Pow2(s) + v / Pow2(a) % Pow2(s) == v / Pow2(a)
  {
    Pow2Add(a, s);
    var d, e := Pow2(a), Pow2(s);
    var y := v / d;
    QuotientTwice(v, d, e);
    assert y == e * (y / e) + y % e;
  }

  lemma QuotientTwice(x: nat, a: nat, b: nat)
    requires a > 0 && b > 0
    ensures a * b > 0 && x / a / b == x / (a * b)
  {
    var q, r := x / a / b, x / a % b;
    var p := b * q;
    assert x / a == p + r;
    assert x == a * p + a * r + x % a;
    assert (a * b) * q == a * p;
    assert a * r <= a * (b - 1);
    assert a * (b - 1) == a * b - a;
    UniqueQuotient(x, a * b, q, a * r + x % a);
  }

  /** Shifting new low bits in leaves what stands above them. */
  lemma ShiftIn(v: nat, a: nat, s: nat, x: nat)
    requires x < Pow2(s)
    ensures (v * Pow2(s) + x) / Pow2(a + s) == v / Pow2(a)
  {
    Pow2Add(s, a);
    UniqueQuotient(v * Pow2(s) + x, Pow2(s), v, x);
    QuotientTwice(v * Pow2(s) + x, Pow2(s), Pow2(a));
  }

  // ---- Encoding ----

  /** Bits of padding in the text of `n` octets. */
  function Padding(n: nat): nat { if n % 3 == 0 then 0 else if n % 3 == 1 then 4 else 2 }

  /** The text written so far shows all but the last `available` bits of the octets taken so far. */
  ghost predicate Encoding(taken: seq<byte>, bits: nat, available: nat, output: string) {
    && bits == FromBigEndian(taken) % TWO_32
    && IsSecretText(output) && 6 * |output| + available == 8 * |taken|
    && FromText(output) == FromBigEndian(taken) / Pow2(available)
  }

  /** One octet enters the accumulator; full groups of six bits leave it as text. */
  method EncodeOctet(ghost taken: seq<byte>, octet: byte, bits: nat, available: nat, output: string)
      returns (bits': nat, available': nat, output': string)
    requires Encoding(taken, bits, available, output) && available < 6
    ensures Encoding(taken + [octet], bits', available', output') && available' < 6
  {
    hide Pow2;
    ghost var v := FromBigEndian(taken);
    ghost var all := taken + [octet];
    FromBigEndianExtend(taken, octet);
    Accumulate(v, 256, octet);
    SmallPowers();
    ShiftIn(v, available, 8, octet);
    bits' := (bits * 256 + octet) % TWO_32;
    available' := available + 8;
    output' := output;
    while available' >= 6
      invariant Encoding(all, bits', available', output') && available' < 14
    {
      available' := available' - 6;
      LowBits(FromBigEndian(all), available', 6);
      NextWindow(FromBigEndian(all), available', 6);
      var letter := bits' / Pow2(available') % 64;
      LetterValue(letter);
      FromTextExtend(output', Letter(letter));
      output' := output' + [Letter(letter)];
    }
  }

  lemma PaddingOf(n: nat, length: nat, available: nat)
    requires 6 * length + available == 8 * n && available < 6
    ensures Padding(n) == if available == 0 then 0 else 6 - available
    ensures n == SECRET_BYTES ==> Padding(n) == 2
  {
    var k, r := n / 3, n % 3;
    assert 8 * n == 6 * (4 * k) + 8 * r;
  }

  /** The secret as text: its bits, padded with zeros to whole characters. */
  method GenerateSecret(raw: seq<byte>) returns (output: string, ok: bool)
    ensures IsSecretText(output) && 6 * |output| == 8 * |raw| + Padding(|raw|)
    ensures FromText(output) == FromBigEndian(raw) * Pow2(Padding(|raw|))
    ensures ok <==> |output| == 43
    ensures |raw| == SECRET_BYTES ==> ok
  {
    hide Pow2, FromText, FromBigEndian, Padding;
    SmallPowers();
    output := "";
    var bits, available := 0, 0;
    assert raw[..0] == [];
    NothingYet();
    for i := 0 to |raw|
      invariant Encoding(raw[..i], bits, available, output) && available < 6
    {
      bits, available, output := EncodeOctet(raw[..i], raw[i], bits, available, output);
      assert raw[..i + 1] == raw[..i] + [raw[i]];
    }
    assert raw[..|raw|] == raw;
    PaddingOf(|raw|, |output|, available);
    if available > 0 {
      output := EncodeRest(raw, bits, available, output);
    }
    ok := |output| == 43;
  }

  /** The bits left over fill the high end of one more character. */
  method EncodeRest(ghost raw: seq<byte>, bits: nat, available: nat, output: string) returns (output': string)
    requires Encoding(raw, bits, available, output) && 0 < available < 6
    ensures IsSecretText(output') && |output'| == |output| + 1
    ensures FromText(output') == FromBigEndian(raw) * Pow2(6 - available)
  {
    hide Pow2;
    SmallPowers();
    ghost var v := FromBigEndian(raw);
    var shift := Pow2(6 - available);
    Accumulate(v, shift, 0);
    LowBits(v * shift, 0, 6);
    LowBits(bits * shift, 0, 6);
    NextWindow(v * shift, 0, 6);
    ShiftIn(v, available, 6 - available, 0);
    var letter := bits * shift % TWO_32 % 64;
    LetterValue(letter);
    FromTextExtend(output, Letter(letter));
    output' := output + [Letter(letter)];
  }

  lemma NothingYet()
    ensures Encoding([], 0, 0, "") && Decoding("", 0, 0, [])
  {}

  // ---- Decoding ----

  /** The octets written so far show all but the last `available` bits of the text taken so far. */
  ghost predicate Decoding(taken: string, bits: nat, available: nat, out: seq<byte>) {
    && IsSecretText(taken)
    && bits == FromText(taken) % TWO_32
    && 8 * |out| + available == 6 * |taken|
    && FromBigEndian(out) == FromText(taken) / Pow2(available)
  }

  method DecodeCharacter(ghost taken: string, c: char, bits: nat, available: nat, out: seq<byte>, size: nat)
      returns (ok: bool, bits': nat, available': nat, out': seq<byte>)
    requires Decoding(taken, bits, available, out) && available < 8 && |out| <= size
    ensures ok <==> ValueOf(c).Some? && 6 * (|taken| + 1) < 8 * (size + 1)
    ensures ok ==> Decoding(taken + [c], bits', available', out') && available' < 8 && |out'| <= size
  {
    hide Pow2;
    ok, bits', available', out' := false, bits, available, out;
    var value := ValueOf(c);
    if value.None? {
      return;
    }
    ghost var v := FromText(taken);
    ghost var all := taken + [c];
    FromTextExtend(taken, c);
    ValueBound(c);
    Accumulate(v, 64, value.value);
    SmallPowers();
    ShiftIn(v, available, 6, value.value);
    bits' := (bits * 64 + value.value) % TWO_32;
    available' := available + 6;
    while available' >= 8
      invariant Decoding(all, bits', available', out') && available' < 14 && |out'| <= size
      invariant available' < 8 || out' == out
    {
      available' := available' - 8;
      if |out'| >= size {
        return;
      }
      LowBits(FromText(all), available', 8);
      NextWindow(FromText(all), available', 8);
      var octet := bits' / Pow2(available') % 256;
      FromBigEndianExtend(out', octet);
      out' := out' + [octet];
    }
    ok := true;
  }

  /**
   Reads a secret of `size` octets: exactly the texts over the alphabet whose whole
   octets are that many, bits beyond the last whole octet being passed over.
   */
  method DecodeSecret(text: string, size: nat) returns (secret: Option<seq<byte>>)
    ensures secret.Some? <==> IsSecretText(text) && 8 * size <= 6 * |text| < 8 * (size + 1)
    ensures secret.Some? ==>
              |secret.value| == size && FromBigEndian(secret.value) == FromText(text) / Pow2(6 * |text| - 8 * size)
  {
    hide Pow2;
    SmallPowers();
    var bits, available, out := 0, 0, [];
    assert text[..0] == "";
    for i := 0 to |text|
      invariant Decoding(text[..i], bits, available, out) && available < 8 && |out| <= size
    {
      assert text[..i + 1] == text[..i] + [text[i]];
      var ok;
      ok, bits, available, out := DecodeCharacter(text[..i], text[i], bits, available, out, size);
      if !ok {
        return None;
      }
    }
    assert text[..|text|] == text;
    secret := if |out| == size then Some(out) else None;
  }

  // ---- Together ----

  lemma SameOctets(r: seq<byte>, s: seq<byte>)
    requires |r| == |s| && FromBigEndian(r) == FromBigEndian(s)
    ensures r == s
  {
    FromBigEndianRoundTrip(r);
    FromBigEndianRoundTrip(s);
  }

  /** A text that denotes the padded secret denotes no other. */
  lemma TextOf(raw: seq<byte>, text: string, secret: seq<byte>)
    requires IsSecretText(text) && 6 * |text| == 8 * |raw| + Padding(|raw|) && |secret| == |raw|
    requires FromText(text) == FromBigEndian(raw) * Pow2(Padding(|raw|))
    requires FromBigEndian(secret) == FromText(text) / Pow2(Padding(|raw|))
    ensures secret == raw
  {
    hide Pow2, FromText, FromBigEndian, Padding;
    var d := Pow2(Padding(|raw|));
    UniqueQuotient(FromText(text), d, FromBigEndian(raw), 0);
    SameOctets(secret, raw);
  }

  /** The decoder undoes the generator, for secrets of any length. */
  method RoundTrip(raw: seq<byte>) returns (secret: Option<seq<byte>>)
    ensures secret == Some(raw)
  {
    hide Pow2;
    var text, ok := GenerateSecret(raw);
    secret := DecodeSecret(text, |raw|);
    TextOf(raw, text, secret.value);
  }
}
