/**
  Addresses and CIDR blocks as Go's net package keeps them: byte strings, most significant byte first, with
  bytewise masks (section 3.1 of RFC 4632). `Value` gives an address its number; the central fact is that
  the bytewise containment test is membership in one aligned interval of numbers.
*/
module Cidr {
  import opened Prelude

  // ---------------------------------------------------------------- powers of two

  function Pow2(n: nat): (r: nat)
    ensures r >= 1
  {
    if n == 0 then 1 else 2 * Pow2(n - 1)
  }

  lemma {:induction false} Pow2Adds(a: nat, b: nat)
    ensures Pow2(a + b) == Pow2(a) * Pow2(b)
  {
    if b > 0 {
      Pow2Adds(a, b - 1);
      assert Pow2(a + b) == 2 * (Pow2(a) * Pow2(b - 1));
    }
  }

  lemma {:induction false} Pow2Grows(a: nat, b: nat)
    requires a <= b
    ensures Pow2(a) <= Pow2(b) && (a < b ==> Pow2(a) < Pow2(b))
  {
    if a < b { Pow2Grows(a, b - 1); }
  }

  lemma Pow2Bytes()
    ensures Pow2(0) == 1 && Pow2(1) == 2 && Pow2(2) == 4 && Pow2(3) == 8 && Pow2(4) == 16
    ensures Pow2(5) == 32 && Pow2(6) == 64 && Pow2(7) == 128 && Pow2(8) == 256
  {
  }

  lemma MulGrows(a: int, b: int, m: int)
    requires a <= b && 0 <= m
    ensures a * m <= b * m
  {
  }

  lemma DivModUnique(v: int, m: int, q: int, r: int)
    requires 0 <= r < m && v == q * m + r
    ensures v / m == q && v % m == r
  {
    var d, e := v / m, v % m;
    assert v == d * m + e;
    assert (d + 1) * m == d * m + m && (q + 1) * m == q * m + m;
    if d < q { MulGrows(d + 1, q, m); }
    if q < d { MulGrows(q + 1, d, m); }
  }

  // ---------------------------------------------------------------- numbers of addresses

  function Value(ip: Bytes): nat {
    if ip == [] then 0 else Value(ip[..|ip| - 1]) * 256 + ip[|ip| - 1]
  }

  lemma {:induction false} ValueBound(ip: Bytes)
    ensures Value(ip) < Pow2(8 * |ip|)
  {
    if ip != [] {
      ValueBound(ip[..|ip| - 1]);
      Pow2Adds(8 * (|ip| - 1), 8);
      Pow2Bytes();
    }
  }

  lemma {:induction false} ValueInjective(a: Bytes, b: Bytes)
    requires |a| == |b| && Value(a) == Value(b)
    ensures a == b
  {
    if a != [] {
      ValueInjective(a[..|a| - 1], b[..|b| - 1]);
      assert a == a[..|a| - 1] + [a[|a| - 1]] && b == b[..|b| - 1] + [b[|b| - 1]];
    }
  }

  lemma {:induction false} PrefixCancels(p: Bytes, a: Bytes, b: Bytes)
    requires |a| == |b|
    ensures Value(p + a) - Value(p + b) == Value(a) - Value(b)
  {
    if a == [] {
      assert p + a == p + b;
    } else {
      var n := |a| - 1;
      PrefixCancels(p, a[..n], b[..n]);
      assert (p + a)[..|p| + n] == p + a[..n] && (p + b)[..|p| + n] == p + b[..n];
    }
  }

  // The number v as n bytes.
  function OfValue(v: nat, n: nat): (ip: Bytes)
    requires v < Pow2(8 * n)
    ensures |ip| == n && Value(ip) == v
    decreases n
  {
    if n == 0 then []
    else
      Pow2Adds(8 * (n - 1), 8);
      Pow2Bytes();
      var init := OfValue(v / 256, n - 1);
      assert (init + [v % 256])[..n - 1] == init;
      init + [v % 256]
  }

  // ---------------------------------------------------------------- masks

  // How many of the first `ones` bits fall into byte i.
  function BitsAt(ones: nat, i: nat): (k: nat)
    ensures k <= 8
  {
    if ones >= 8 * (i + 1) then 8 else if ones <= 8 * i then 0 else ones - 8 * i
  }

  // b AND (k leading one bits).
  function MaskByte(b: Byte, k: nat): Byte
    requires k <= 8
  {
    if k == 0 then 0
    else if k == 1 then b / 128 * 128
    else if k == 2 then b / 64 * 64
    else if k == 3 then b / 32 * 32
    else if k == 4 then b / 16 * 16
    else if k == 5 then b / 8 * 8
    else if k == 6 then b / 4 * 4
    else if k == 7 then b / 2 * 2
    else b
  }

  function Masked(ip: Bytes, ones: nat): Bytes {
    seq(|ip|, i requires 0 <= i < |ip| => MaskByte(ip[i], BitsAt(ones, i)))
  }

  // The number of bits the mask leaves free.
  function HostBits(n: nat, ones: nat): nat {
    if ones >= 8 * n then 0 else 8 * n - ones
  }

  lemma PartialByte(v0: nat, b: Byte, k: nat)
    requires 0 < k < 8
    ensures v0 * 256 + MaskByte(b, k) == (v0 * 256 + b) - (v0 * 256 + b) % Pow2(8 - k)
  {
    Pow2Bytes();
    if k == 1 {
      DivModUnique(v0 * 256 + b, 128, v0 * 2 + b / 128, b % 128);
    } else if k == 2 {
      DivModUnique(v0 * 256 + b, 64, v0 * 4 + b / 64, b % 64);
    } else if k == 3 {
      DivModUnique(v0 * 256 + b, 32, v0 * 8 + b / 32, b % 32);
    } else if k == 4 {
      DivModUnique(v0 * 256 + b, 16, v0 * 16 + b / 16, b % 16);
    } else if k == 5 {
      DivModUnique(v0 * 256 + b, 8, v0 * 32 + b / 8, b % 8);
    } else if k == 6 {
      DivModUnique(v0 * 256 + b, 4, v0 * 64 + b / 4, b % 4);
    } else {
      DivModUnique(v0 * 256 + b, 2, v0 * 128 + b / 2, b % 2);
    }
  }

  lemma WholeByte(v0: nat, b: Byte, p: nat)
    requires p >= 1
    ensures (v0 * 256 + b) % (p * 256) == (v0 % p) * 256 + b
  {
    var q, r := v0 / p, v0 % p;
    assert v0 == q * p + r;
    assert (q * p) * 256 == q * (p * 256);
    assert r * 256 + b < p * 256;
    DivModUnique(v0 * 256 + b, p * 256, q, r * 256 + b);
  }

  lemma MaskWholeByte(v0: nat, b: Byte, h0: nat)
    ensures (v0 - v0 % Pow2(h0)) * 256 == (v0 * 256 + b) - (v0 * 256 + b) % Pow2(h0 + 8)
  {
    Pow2Adds(h0, 8);
    Pow2Bytes();
    WholeByte(v0, b, Pow2(h0));
  }

  /** Masking bytewise clears the low HostBits of the number. */
  lemma {:induction false} MaskedValue(ip: Bytes, ones: nat)
    ensures Value(Masked(ip, ones)) == Value(ip) - Value(ip) % Pow2(HostBits(|ip|, ones))
  {
    if ip != [] {
      var n := |ip|;
      var init, last := ip[..n - 1], ip[n - 1];
      MaskedValue(init, ones);
      assert Masked(ip, ones)[..n - 1] == Masked(init, ones);
      var v0, h := Value(init), HostBits(n, ones);
      var k := BitsAt(ones, n - 1);
      assert Value(Masked(ip, ones)) == Value(Masked(init, ones)) * 256 + MaskByte(last, k);
      if k == 8 {
        assert HostBits(n - 1, ones) == 0 && h == 0;
      } else if k == 0 {
        var h0 := HostBits(n - 1, ones);
        assert h == h0 + 8;
        MaskWholeByte(v0, last, h0);
      } else {
        assert HostBits(n - 1, ones) == 0 && h == 8 - k;
        PartialByte(v0, last, k);
      }
    }
  }

  // ---------------------------------------------------------------- IPv4 inside IPv6

  predicate IsMapped(ip: Bytes) {
    |ip| == 16 && (forall i | 0 <= i < 10 :: ip[i] == 0) && ip[10] == 255 && ip[11] == 255
  }

  // An address with net.IP.To4 applied where it succeeds: the form Contains, Equal and String work on.
  function Norm(ip: Bytes): Bytes {
    if IsMapped(ip) then ip[12..] else ip
  }

  function To16(ip: Bytes): Bytes {
    if |ip| == 4 then [0, 0, 0, 0, 0, 0, 0, 0, 0, 0, 255, 255] + ip else ip
  }

  // ---------------------------------------------------------------- networks

  datatype Net = Net(base: Bytes, ones: nat)

  predicate Valid(net: Net) {
    (|net.base| == 4 || (|net.base| == 16 && !IsMapped(net.base)))
    && net.ones <= 8 * |net.base| && Masked(net.base, net.ones) == net.base
  }

  // net.IPNet.Contains.
  predicate Contains(net: Net, ip: Bytes) {
    |Norm(ip)| == |net.base| && Masked(Norm(ip), net.ones) == Masked(net.base, net.ones)
  }

  function Size(net: Net): nat {
    Pow2(HostBits(|net.base|, net.ones))
  }

  // net.ParseCIDR: the network of an address and a prefix length.
  function NetOf(ip: Bytes, ones: nat): Net {
    Net(Masked(ip, ones), ones)
  }

  lemma ClearedIsAligned(v: nat, p: nat)
    requires p >= 1
    ensures 0 <= v - v % p && (v - v % p) % p == 0
  {
    assert v == (v / p) * p + v % p;
    MulGrows(0, v / p, p);
    DivModUnique(v - v % p, p, v / p, 0);
  }

  lemma MaskTwice(ip: Bytes, ones: nat)
    ensures Masked(Masked(ip, ones), ones) == Masked(ip, ones)
  {
    var v, p := Value(ip), Pow2(HostBits(|ip|, ones));
    MaskedValue(ip, ones);
    MaskedValue(Masked(ip, ones), ones);
    ClearedIsAligned(v, p);
    ValueInjective(Masked(Masked(ip, ones), ones), Masked(ip, ones));
  }

  lemma AlignedBase(net: Net)
    requires Valid(net)
    ensures Value(net.base) % Size(net) == 0
  {
    MaskedValue(net.base, net.ones);
  }

  lemma SameBlock(v: nat, b: nat, s: nat)
    requires s >= 1 && b % s == 0
    ensures v - v % s == b <==> b <= v < b + s
  {
    assert b == (b / s) * s;
    if b <= v < b + s { DivModUnique(v, s, b / s, v - b); }
  }

  /** The addresses of a network are the Size(net) numbers from its base on. */
  lemma ContainsIsInterval(net: Net, ip: Bytes)
    requires Valid(net) && |Norm(ip)| == |net.base|
    ensures Contains(net, ip) <==> Value(net.base) <= Value(Norm(ip)) < Value(net.base) + Size(net)
  {
    var m := Masked(Norm(ip), net.ones);
    MaskedValue(Norm(ip), net.ones);
    AlignedBase(net);
    SameBlock(Value(Norm(ip)), Value(net.base), Size(net));
    if Value(m) == Value(net.base) { ValueInjective(m, net.base); }
  }

  lemma AlignedBelow(b: nat, s: nat, p: nat)
    requires s >= 1 && b % s == 0 && b < p * s
    ensures b + s <= p * s
  {
    var q := b / s;
    assert b == q * s;
    if q >= p { MulGrows(p, q, s); }
    MulGrows(q + 1, p, s);
    assert (q + 1) * s == q * s + s;
  }

  lemma BlockFits(net: Net)
    requires Valid(net)
    ensures Value(net.base) + Size(net) <= Pow2(8 * |net.base|)
  {
    var h := HostBits(|net.base|, net.ones);
    ValueBound(net.base);
    AlignedBase(net);
    Pow2Adds(8 * |net.base| - h, h);
    AlignedBelow(Value(net.base), Size(net), Pow2(8 * |net.base| - h));
  }

  /** The network, if IPv6, reaches no IPv4-mapped address (net.IP would turn those into IPv4). */
  ghost predicate Plain(net: Net) {
    Valid(net) && (|net.base| == 16 ==> forall x: Bytes | IsMapped(x) :: Masked(x, net.ones) != net.base)
  }

  // One past the last number of the network.
  function Top(net: Net): nat {
    Value(net.base) + Size(net)
  }

  lemma BaseIsInside(net: Net)
    requires Valid(net)
    ensures Norm(net.base) == net.base && Contains(net, net.base)
  {
  }

  /** Every number of a plain network is the number of one of its addresses. */
  lemma AddressAt(net: Net, v: nat) returns (x: Bytes)
    requires Plain(net) && Value(net.base) <= v < Top(net)
    ensures Norm(x) == x && Contains(net, x) && Value(x) == v
  {
    BlockFits(net);
    x := OfValue(v, |net.base|);
    MaskedValue(x, net.ones);
    AlignedBase(net);
    SameBlock(v, Value(net.base), Size(net));
    ValueInjective(Masked(x, net.ones), net.base);
  }
}
