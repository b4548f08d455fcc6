/**
  Peer identifiers (internal/api/peerid.go): a provider's public key, which is standard base64 for
  WireGuard and a plain name otherwise, travels in URLs as "b." or "s." followed by unpadded URL-safe
  base64. The decoder follows Go's encoding/base64: CR and LF are skipped, and the unused bits of a last
  partial group are not checked.
*/
module PeerId {
  import opened Prelude

  type Digit = d: int | 0 <= d < 64

  datatype Alphabet = Std | Url // sections 4 and 5 of RFC 4648

  const DOT: Byte := 46
  const PAD: Byte := 61
  const CR: Byte := 13
  const LF: Byte := 10
  const TAG_B: Byte := 98
  const TAG_S: Byte := 115

  // ---------------------------------------------------------------- 3 octets <-> 4 sextets

  // The four sextets of an octet triple, and the three octets of a sextet quadruple.
  function Sextet0(x: Byte): Digit { x / 4 }
  function Sextet1(x: Byte, y: Byte): Digit { x % 4 * 16 + y / 16 }
  function Sextet2(y: Byte, z: Byte): Digit { y % 16 * 4 + z / 64 }
  function Sextet3(z: Byte): Digit { z % 64 }
  function Octet0(p: Digit, q: Digit): Byte { var i: int := p; i * 4 + q / 16 }
  function Octet1(q: Digit, r: Digit): Byte { var i: int := q % 16; i * 16 + r / 4 }
  function Octet2(r: Digit, t: Digit): Byte { var i: int := r % 4; i * 64 + t }

  lemma OctetInverse(x: Byte, y: Byte, z: Byte)
    ensures Octet0(Sextet0(x), Sextet1(x, y)) == x
    ensures Octet1(Sextet1(x, y), Sextet2(y, z)) == y
    ensures Octet2(Sextet2(y, z), Sextet3(z)) == z
  {
  }

  lemma SextetInverse(p: Digit, q: Digit, r: Digit, t: Digit)
    ensures Sextet0(Octet0(p, q)) == p
    ensures Sextet1(Octet0(p, q), Octet1(q, r)) == q
    ensures Sextet2(Octet1(q, r), Octet2(r, t)) == r
    ensures Sextet3(Octet2(r, t)) == t
    ensures Sextet1(Octet0(p, q), 0) == q <==> q % 16 == 0
    ensures Sextet2(Octet1(q, r), 0) == r <==> r % 4 == 0
  {
  }

  function Sextets(b: Bytes): (d: seq<Digit>)
    ensures |d| == 4 * (|b| / 3) + (if |b| % 3 == 0 then 0 else |b| % 3 + 1)
  {
    if |b| == 0 then []
    else if |b| == 1 then [Sextet0(b[0]), Sextet1(b[0], 0)]
    else if |b| == 2 then [Sextet0(b[0]), Sextet1(b[0], b[1]), Sextet2(b[1], 0)]
    else [Sextet0(b[0]), Sextet1(b[0], b[1]), Sextet2(b[1], b[2]), Sextet3(b[2])] + Sextets(b[3..])
  }

  function Octets(d: seq<Digit>): (r: Option<Bytes>)
    ensures r.None? <==> |d| % 4 == 1
    ensures r.Some? ==> |r.value| == 3 * (|d| / 4) + (if |d| % 4 == 0 then 0 else |d| % 4 - 1)
  {
    if |d| == 0 then Some([])
    else if |d| == 1 then None
    else if |d| == 2 then Some([Octet0(d[0], d[1])])
    else if |d| == 3 then Some([Octet0(d[0], d[1]), Octet1(d[1], d[2])])
    else
      assert |d| % 4 == |d[4..]| % 4 && |d| / 4 == |d[4..]| / 4 + 1;
      var rest := Octets(d[4..]);
      if rest.None? then None
      else Some([Octet0(d[0], d[1]), Octet1(d[1], d[2]), Octet2(d[2], d[3])] + rest.value)
  }

  /** The bits of the last sextet that no octet uses are zero (section 3.5 of RFC 4648). */
  predicate SpareBitsZero(d: seq<Digit>) {
    && (|d| % 4 == 2 ==> d[|d| - 1] % 16 == 0)
    && (|d| % 4 == 3 ==> d[|d| - 1] % 4 == 0)
  }

  lemma OctetsOfTwo(x: Byte, y: Byte)
    ensures Octets(Sextets([x, y])) == Some([x, y])
  {
    OctetInverse(x, y, 0);
    assert Sextets([x, y]) == [Sextet0(x), Sextet1(x, y), Sextet2(y, 0)];
  }

  lemma OctetsOfOne(x: Byte)
    ensures Octets(Sextets([x])) == Some([x])
  {
    var d := Sextets([x]);
    assert d == [Sextet0(x), Sextet1(x, 0)];
    assert Octets(d) == Some([Octet0(d[0], d[1])]);
    assert Octet0(d[0], d[1]) == x by { OctetInverse(x, 0, 0); }
  }

  lemma {:induction false} OctetsOfSextets(b: Bytes)
    ensures Octets(Sextets(b)) == Some(b)
  {
    if |b| == 1 {
      OctetsOfOne(b[0]);
      assert b == [b[0]];
    } else if |b| == 2 {
      OctetsOfTwo(b[0], b[1]);
      assert b == [b[0], b[1]];
    } else if |b| > 2 {
      OctetsOfSextets(b[3..]);
      OctetInverse(b[0], b[1], b[2]);
      assert Sextets(b)[4..] == Sextets(b[3..]);
      assert b == [b[0], b[1], b[2]] + b[3..];
    }
  }

  lemma ShortSextetsOfOctets(d: seq<Digit>)
    requires |d| < 4 && |d| != 1
    ensures Sextets(Octets(d).value) == d <==> SpareBitsZero(d)
  {
    if |d| == 3 {
      SextetInverse(d[0], d[1], d[2], 0);
      assert d == [d[0], d[1], d[2]];
    } else if |d| == 2 {
      SextetInverse(d[0], d[1], 0, 0);
      assert d == [d[0], d[1]];
    }
  }

  lemma SpareBitsOfTail(d: seq<Digit>)
    requires |d| >= 4
    ensures SpareBitsZero(d) <==> SpareBitsZero(d[4..])
  {
    assert |d| > 4 ==> d[4..][|d| - 5] == d[|d| - 1];
  }

  lemma SextetsOfTriple(x: Byte, y: Byte, z: Byte, rest: Bytes)
    ensures Sextets([x, y, z] + rest) == [Sextet0(x), Sextet1(x, y), Sextet2(y, z), Sextet3(z)] + Sextets(rest)
  {
    assert ([x, y, z] + rest)[3..] == rest;
  }

  // A whole group goes there and back by itself.
  lemma FirstFour(d: seq<Digit>)
    requires |d| >= 4 && |d| % 4 != 1
    ensures |d[4..]| % 4 != 1 && Sextets(Octets(d).value) == d[..4] + Sextets(Octets(d[4..]).value)
  {
    var x, y, z := Octet0(d[0], d[1]), Octet1(d[1], d[2]), Octet2(d[2], d[3]);
    assert Octets(d).value == [x, y, z] + Octets(d[4..]).value;
    SextetsOfTriple(x, y, z, Octets(d[4..]).value);
    assert [Sextet0(x), Sextet1(x, y), Sextet2(y, z), Sextet3(z)] == d[..4] by {
      SextetInverse(d[0], d[1], d[2], d[3]);
    }
  }

  lemma {:induction false} SextetsOfOctets(d: seq<Digit>)
    requires |d| % 4 != 1
    ensures Sextets(Octets(d).value) == d <==> SpareBitsZero(d)
  {
    if |d| < 4 {
      ShortSextetsOfOctets(d);
    } else {
      SextetsOfOctets(d[4..]);
      SpareBitsOfTail(d);
      FirstFour(d);
      var rest := Sextets(Octets(d[4..]).value);
      assert d == d[..4] + d[4..];
      assert (d[..4] + rest)[4..] == rest;
    }
  }

  // ---------------------------------------------------------------- alphabets

  function Char(a: Alphabet, d: Digit): Byte {
    if d < 26 then 65 + d
    else if d < 52 then 97 + d - 26
    else if d < 62 then 48 + d - 52
    else if d == 62 then (if a == Std then 43 else 45)
    else (if a == Std then 47 else 95)
  }

  function DigitOf(a: Alphabet, c: Byte): (r: Option<Digit>)
    ensures r.Some? ==> Char(a, r.value) == c
    ensures forall d: Digit | Char(a, d) == c :: r == Some(d)
  {
    if 65 <= c < 91 then Some(c - 65)
    else if 97 <= c < 123 then Some(c - 97 + 26)
    else if 48 <= c < 58 then Some(c - 48 + 52)
    else if c == (if a == Std then 43 else 45) then Some(62)
    else if c == (if a == Std then 47 else 95) then Some(63)
    else None
  }

  function Chars(a: Alphabet, d: seq<Digit>): Bytes {
    seq(|d|, i requires 0 <= i < |d| => Char(a, d[i]))
  }

  function Digits(a: Alphabet, s: Bytes): (r: Option<seq<Digit>>)
    ensures r.Some? <==> forall c | c in s :: DigitOf(a, c).Some?
    ensures r.Some? ==> Chars(a, r.value) == s
  {
    if s == [] then Some([])
    else
      var rest := Digits(a, s[1..]);
      var d := DigitOf(a, s[0]);
      assert forall c | c in s :: c == s[0] || c in s[1..];
      if d.Some? && rest.Some? then
        assert Chars(a, [d.value] + rest.value) == [s[0]] + Chars(a, rest.value);
        Some([d.value] + rest.value)
      else None
  }

  lemma DigitsOfChars(a: Alphabet, d: seq<Digit>)
    ensures Digits(a, Chars(a, d)) == Some(d)
  {
    var s := Chars(a, d);
    forall c | c in s ensures DigitOf(a, c).Some? {
      var i :| 0 <= i < |s| && s[i] == c;
      assert Char(a, d[i]) == c;
    }
    var d' := Digits(a, s).value;
    assert |Chars(a, d')| == |s|;
    forall i | 0 <= i < |d| ensures d'[i] == d[i] {
      assert Char(a, d'[i]) == Chars(a, d')[i] == s[i] == Char(a, d[i]);
    }
    assert d' == d;
  }

  // ---------------------------------------------------------------- Go's base64 codecs

  function Strip(s: Bytes): (t: Bytes)
    ensures CR !in t && LF !in t
    ensures CR !in s && LF !in s ==> t == s
  {
    if s == [] then []
    else if s[0] == CR || s[0] == LF then Strip(s[1..])
    else [s[0]] + Strip(s[1..])
  }

  function RawEncode(a: Alphabet, b: Bytes): Bytes {
    Chars(a, Sextets(b))
  }

  function RawDecode(a: Alphabet, s: Bytes): Option<Bytes> {
    var d := Digits(a, Strip(s));
    if d.None? then None else Octets(d.value)
  }

  function Padding(n: nat): Bytes {
    if n % 3 == 1 then [PAD, PAD] else if n % 3 == 2 then [PAD] else []
  }

  function StdEncode(b: Bytes): Bytes {
    RawEncode(Std, b) + Padding(|b|)
  }

  // The text without its trailing padding.
  function Unpadded(t: Bytes): Bytes {
    if |t| >= 2 && t[|t| - 2..] == [PAD, PAD] then t[..|t| - 2]
    else if |t| >= 1 && t[|t| - 1] == PAD then t[..|t| - 1]
    else t
  }

  // A padded text: whole groups of four, '=' only as the last one or two characters.
  function PaddedDigits(s: Bytes): Option<seq<Digit>> {
    var t := Strip(s);
    if |t| % 4 != 0 then None else Digits(Std, Unpadded(t))
  }

  function StdDecode(s: Bytes): Option<Bytes> {
    var d := PaddedDigits(s);
    if d.None? then None else Octets(d.value)
  }

  lemma CharsAreTame(a: Alphabet, d: seq<Digit>)
    ensures forall c | c in Chars(a, d) :: c != CR && c != LF && c != PAD && c != DOT
  {
  }

  lemma RawRoundTrip(a: Alphabet, b: Bytes)
    ensures RawDecode(a, RawEncode(a, b)) == Some(b)
  {
    CharsAreTame(a, Sextets(b));
    DigitsOfChars(a, Sextets(b));
    OctetsOfSextets(b);
  }

  lemma UnpaddedOf(core: Bytes, n: nat)
    requires PAD !in core && (n % 3 != 0 ==> |core| > 0)
    ensures Unpadded(core + Padding(n)) == core
  {
    var t := core + Padding(n);
    assert |core| > 0 ==> core[|core| - 1] != PAD;
    if n % 3 == 1 {
      assert t[|t| - 2..] == [PAD, PAD];
      assert t[..|t| - 2] == core;
    } else if n % 3 == 2 {
      assert t[|t| - 2..][0] == t[|t| - 2] == core[|core| - 1];
      assert t[..|t| - 1] == core;
    } else {
      assert t == core;
      assert |t| >= 2 ==> t[|t| - 2..][1] == core[|core| - 1];
    }
  }

  lemma PaddedLength(n: nat)
    ensures (4 * (n / 3) + (if n % 3 == 0 then 0 else n % 3 + 1) + |Padding(n)|) % 4 == 0
  {
  }

  lemma StdEncodeShape(b: Bytes)
    ensures CR !in StdEncode(b) && LF !in StdEncode(b)
    ensures |StdEncode(b)| % 4 == 0
  {
    CharsAreTame(Std, Sextets(b));
    PaddedLength(|b|);
  }

  lemma PaddedDigitsOfStdEncode(b: Bytes)
    ensures PaddedDigits(StdEncode(b)) == Some(Sextets(b))
  {
    StdEncodeShape(b);
    var core := Chars(Std, Sextets(b));
    assert Unpadded(core + Padding(|b|)) == core by {
      CharsAreTame(Std, Sextets(b));
      UnpaddedOf(core, |b|);
    }
    DigitsOfChars(Std, Sextets(b));
  }

  // ---------------------------------------------------------------- peer ids

  function EncodePeerId(publicKey: Bytes): Bytes {
    var raw := StdDecode(publicKey);
    if raw.Some? then [TAG_B, DOT] + RawEncode(Url, raw.value)
    else [TAG_S, DOT] + RawEncode(Url, publicKey)
  }

  // strings.Cut(s, "."): the position of the first dot, or the length.
  function CutAt(s: Bytes): (n: nat)
    ensures n <= |s| && DOT !in s[..n]
    ensures n < |s| ==> s[n] == DOT
  {
    if s == [] then 0 else if s[0] == DOT then 0 else
      assert s[..1 + CutAt(s[1..])] == [s[0]] + s[1..][..CutAt(s[1..])];
      1 + CutAt(s[1..])
  }

  function DecodePeerId(id: Bytes): Option<Bytes> {
    var n := CutAt(id);
    var scheme := if n == |id| then [TAG_B] else id[..n];
    var rest := if n == |id| then id else id[n + 1..];
    var raw := RawDecode(Url, rest);
    if raw.None? then None
    else if scheme == [TAG_B] then Some(StdEncode(raw.value))
    else if scheme == [TAG_S] then Some(raw.value)
    else None
  }

  // A letter, a digit, '-' or '_'.
  predicate UrlSafe(c: Byte) {
    65 <= c <= 90 || 97 <= c <= 122 || 48 <= c <= 57 || c == 45 || c == 95
  }

  /** An id is "b." for a key that is base64 and "s." for any other, followed by characters that need no escaping in a
      URL. */
  lemma IdsAreUrlSafe(k: Bytes)
    ensures var id := EncodePeerId(k);
            |id| >= 2 && id[..2] == (if StdDecode(k).Some? then [98, 46] else [115, 46])
            && forall i | 2 <= i < |id| :: UrlSafe(id[i])
  {
    var id := EncodePeerId(k);
    var body := if StdDecode(k).Some? then StdDecode(k).value else k;
    assert id[2..] == Chars(Url, Sextets(body));
    forall i | 2 <= i < |id| ensures UrlSafe(id[i]) { assert id[i] == Char(Url, Sextets(body)[i - 2]); }
  }

  /** The test vectors of section 10 of RFC 4648, and one for the last two letters of each alphabet. */
  lemma TestVectors()
    ensures StdEncode([]) == []
    ensures StdEncode([102]) == [90, 103, 61, 61] // "f" "Zg=="
    ensures StdEncode([102, 111]) == [90, 109, 56, 61] // "fo" "Zm8="
    ensures StdEncode([102, 111, 111]) == [90, 109, 57, 118] // "foo" "Zm9v"
    ensures StdEncode([251, 255]) == [43, 47, 56, 61] // "+/8="
    ensures RawEncode(Url, [251, 255]) == [45, 95, 56] // "-_8"
  {
    assert Sextets([102]) == [25, 32];
    assert Sextets([102, 111]) == [25, 38, 60];
    assert Sextets([251, 255]) == [62, 63, 60];
    var foo: Bytes := [102, 111, 111];
    assert foo[3..] == [];
    assert Sextets(foo) == [25, 38, 61, 47] + Sextets(foo[3..]);
  }

  /** The keys that survive the trip: not base64 at all, or base64 without line breaks and with zero spare
      bits. */
  predicate Clean(publicKey: Bytes) {
    StdDecode(publicKey).Some? ==>
      CR !in publicKey && LF !in publicKey && SpareBitsZero(PaddedDigits(publicKey).value)
  }

  lemma DecodeTagged(tag: Byte, body: Bytes)
    requires tag != DOT
    ensures CutAt([tag, DOT] + body) == 1
    ensures ([tag, DOT] + body)[2..] == body && ([tag, DOT] + body)[..1] == [tag]
  {
    var s := [tag, DOT] + body;
    assert s[1..] == [DOT] + body;
  }

  lemma PaddingRestored(t: Bytes, n: nat)
    requires |t| % 4 == 0 && |Unpadded(t)| == 4 * (n / 3) + (if n % 3 == 0 then 0 else n % 3 + 1)
    ensures t == Unpadded(t) + Padding(n)
  {
    var core := Unpadded(t);
    if |core| == |t| - 2 {
      assert t == core + t[|t| - 2..];
    } else if |core| == |t| - 1 {
      assert t == core + [t[|t| - 1]];
    }
  }

  lemma StdReencode(k: Bytes)
    requires StdDecode(k).Some?
    ensures StdEncode(StdDecode(k).value) == k <==> Clean(k)
  {
    var d := PaddedDigits(k).value;
    var raw := StdDecode(k).value;
    SextetsOfOctets(d);
    if Clean(k) {
      PaddingRestored(k, |raw|);
      assert Chars(Std, d) == Unpadded(k);
    }
    if StdEncode(raw) == k {
      StdEncodeShape(raw);
      PaddedDigitsOfStdEncode(raw);
    }
  }

  /** Encoding then decoding gives the key back exactly for the clean keys. */
  lemma RoundTripExactly(k: Bytes)
    ensures DecodePeerId(EncodePeerId(k)) == Some(k) <==> Clean(k)
  {
    var raw := StdDecode(k);
    if raw.Some? {
      DecodeTagged(TAG_B, RawEncode(Url, raw.value));
      RawRoundTrip(Url, raw.value);
      StdReencode(k);
    } else {
      DecodeTagged(TAG_S, RawEncode(Url, k));
      RawRoundTrip(Url, k);
    }
  }

  lemma EncodedIsClean(raw: Bytes)
    ensures Clean(StdEncode(raw))
  {
    StdEncodeShape(raw);
    PaddedDigitsOfStdEncode(raw);
    OctetsOfSextets(raw);
    SextetsOfOctets(Sextets(raw));
  }

  /** Every key without '=', CR and LF, and every canonical base64 text, survives. */
  lemma OrdinaryKeysAreClean(k: Bytes, raw: Bytes)
    ensures PAD !in k && CR !in k && LF !in k ==> Clean(k)
    ensures Clean(StdEncode(raw))
  {
    EncodedIsClean(raw);
    if PAD !in k && CR !in k && LF !in k && |k| > 0 {
      assert k[|k| - 1] in k;
      assert Unpadded(k) == k;
    }
  }

  lemma EncodingIsInjective(k1: Bytes, k2: Bytes)
    requires Clean(k1) && Clean(k2) && EncodePeerId(k1) == EncodePeerId(k2)
    ensures k1 == k2
  {
    RoundTripExactly(k1);
    RoundTripExactly(k2);
  }

  lemma BothSpellOneByte(q: Digit)
    requires q == 16 || q == 17
    ensures StdDecode([89, 65 + q, PAD, PAD]) == Some([97])
  {
    var k: Bytes := [89, 65 + q, PAD, PAD];
    assert k[2..] == [PAD, PAD] && Unpadded(k) == k[..2] == [89, 65 + q];
    assert Chars(Std, [24, q]) == [89, 65 + q];
    DigitsOfChars(Std, [24, q]);
    assert Octets([24, q]) == Some([Octet0(24, q)]);
  }

  /** "YR==" and "YQ==" spell the same byte, get the same id, and so cannot both come back. */
  lemma SpareBitsAreLost(k: Bytes, k': Bytes)
    requires k == [89, 82, PAD, PAD] && k' == [89, 81, PAD, PAD]
    ensures k != k' && EncodePeerId(k) == EncodePeerId(k')
  {
    assert k[1] != k'[1];
    BothSpellOneByte(16);
    BothSpellOneByte(17);
  }

  /** An id issued before tags existed decodes as the same id tagged "b.". */
  lemma LegacyIds(id: Bytes)
    requires DOT !in id
    ensures DecodePeerId(id) == DecodePeerId([TAG_B, DOT] + id)
  {
    DecodeTagged(TAG_B, id);
    assert CutAt(id) == |id|;
  }
}
