/**
  Address allocation (internal/vpn/ipam.go): a scan upwards from the network or range start, incrementing
  the byte string in place, until a free address, the range end or the end of the network.

  A network is `Option`: None stands for a text net.ParseCIDR rejects. Range bounds are parsed by
  net.ParseIP, which yields 16 bytes for IPv4 too (the IPv4-mapped form).
*/
module Ipam {
  import opened Prelude
  import opened Cidr

  datatype Bound = Unset | Malformed | At(ip: Bytes)

  datatype Failure = BadCidr | BadStart | StartOutside | BadEnd | EndOutside | Exhausted

  // ---------------------------------------------------------------- incIP and bytesAfter

  // Adding one, with carry, dropping the carry out of the first byte.
  function Inc(ip: Bytes): (r: Bytes)
    ensures |r| == |ip|
  {
    if ip == [] then []
    else if ip[|ip| - 1] < 255 then ip[..|ip| - 1] + [ip[|ip| - 1] + 1]
    else Inc(ip[..|ip| - 1]) + [0]
  }

  /** incIP adds one modulo 256^n. */
  lemma {:induction false} IncIsSuccessor(ip: Bytes)
    ensures Value(Inc(ip)) == if Value(ip) + 1 == Pow2(8 * |ip|) then 0 else Value(ip) + 1
  {
    if ip != [] {
      var init, last := ip[..|ip| - 1], ip[|ip| - 1];
      ValueBound(ip);
      ValueBound(init);
      Pow2Adds(8 * |init|, 8);
      Pow2Bytes();
      if last < 255 {
        assert (init + [last + 1])[..|init|] == init;
      } else {
        IncIsSuccessor(init);
        assert (Inc(init) + [0])[..|init|] == Inc(init);
      }
    }
  }

  method IncIP(ip: array<Byte>)
    modifies ip
    ensures ip[..] == Inc(old(ip[..]))
  {
    ghost var was := ip[..];
    var i := ip.Length - 1;
    assert was[..i + 1] == was;
    while i >= 0
      invariant -1 <= i < ip.Length
      invariant forall k | 0 <= k <= i :: ip[k] == was[k]
      invariant forall k | i < k < ip.Length :: ip[k] == 0
      invariant Inc(was) == Inc(was[..i + 1]) + seq(ip.Length - 1 - i, _ => 0)
    {
      assert was[..i + 1][..i] == was[..i];
      ip[i] := if ip[i] == 255 then 0 else ip[i] + 1;
      if ip[i] != 0 {
        assert ip[..] == Inc(was);
        return;
      }
      assert Inc(was[..i + 1]) == Inc(was[..i]) + [0];
      i := i - 1;
    }
    assert was[..0] == [];
    assert ip[..] == Inc(was);
  }

  lemma {:induction false} FirstDifferenceDecides(a: Bytes, b: Bytes, i: nat)
    requires |a| == |b| && i < |a| && a[..i] == b[..i] && a[i] > b[i]
    ensures Value(a) > Value(b)
  {
    var n := |a| - 1;
    if i < n {
      assert a[..n][..i] == a[..i] && b[..n][..i] == b[..i];
      FirstDifferenceDecides(a[..n], b[..n], i);
    }
  }

  /** bytesAfter is numeric order of the 16 byte forms. */
  method BytesAfter(a: Bytes, b: Bytes) returns (r: bool)
    requires |To16(a)| == |To16(b)|
    ensures r <==> Value(To16(a)) > Value(To16(b))
  {
    var x, y := To16(a), To16(b);
    for i := 0 to |x|
      invariant x[..i] == y[..i]
    {
      if x[i] != y[i] {
        if x[i] > y[i] { FirstDifferenceDecides(x, y, i); } else { FirstDifferenceDecides(y, x, i); }
        return x[i] > y[i];
      }
    }
    assert x[..|x|] == x && y[..|y|] == y;
    return false;
  }

  // ---------------------------------------------------------------- one step of the scan

  lemma {:induction false} IncOfSuffix(p: Bytes, s: Bytes)
    ensures Inc(p + s) == if Value(s) + 1 == Pow2(8 * |s|) then Inc(p) + Inc(s) else p + Inc(s)
  {
    if s == [] {
      assert p + s == p && Inc(p) + Inc(s) == Inc(p);
    } else {
      var init, last := s[..|s| - 1], s[|s| - 1];
      var ps := p + s;
      assert ps[..|ps| - 1] == p + init;
      IncOfSuffix(p, init);
      ValueBound(init);
      Pow2Adds(8 * |init|, 8);
      Pow2Bytes();
    }
  }

  lemma WholeFamily(net: Net)
    requires Valid(net)
    ensures Top(net) == Pow2(8 * |net.base|) && Value(net.base) == 0 <==> net.ones == 0
  {
    BlockFits(net);
    var n, h := |net.base|, HostBits(|net.base|, net.ones);
    if net.ones > 0 { Pow2Grows(h, 8 * n); }
  }

  lemma ShortStep(net: Net, cur: Bytes)
    requires Valid(net) && |cur| == 4 && Contains(net, cur)
    ensures if Value(cur) + 1 < Top(net) then Contains(net, Inc(cur)) && Value(Inc(cur)) == Value(cur) + 1
            else Contains(net, Inc(cur)) <==> net.ones == 0
  {
    IncIsSuccessor(cur);
    ValueBound(cur);
    BlockFits(net);
    WholeFamily(net);
    ContainsIsInterval(net, cur);
    ContainsIsInterval(net, Inc(cur));
  }

  const MAPPED_PREFIX: Bytes := [0, 0, 0, 0, 0, 0, 0, 0, 0, 0, 255, 255]

  lemma MappedForm(ip: Bytes)
    ensures IsMapped(ip) <==> |ip| == 16 && ip[..12] == MAPPED_PREFIX
    ensures IsMapped(ip) ==> ip == MAPPED_PREFIX + Norm(ip) && |Norm(ip)| == 4
  {
    if IsMapped(ip) {
      assert ip == ip[..12] + ip[12..];
    }
  }

  lemma PrefixOverflows()
    ensures Inc(MAPPED_PREFIX) != MAPPED_PREFIX
  {
    var p := MAPPED_PREFIX;
    var r := Inc(p[..11]) + [0];
    assert p[11] == 255 && Inc(p) == r;
    assert r[11] == 0;
  }

  lemma MappedStep(net: Net, cur: Bytes)
    requires Valid(net) && IsMapped(cur) && Contains(net, cur)
    ensures if Value(Norm(cur)) + 1 < Top(net)
            then Contains(net, Inc(cur)) && Value(Norm(Inc(cur))) == Value(Norm(cur)) + 1
            else !Contains(net, Inc(cur))
  {
    var low, next := Norm(cur), Inc(cur);
    MappedForm(cur);
    MappedForm(next);
    IncOfSuffix(MAPPED_PREFIX, low);
    IncIsSuccessor(low);
    ValueBound(low);
    BlockFits(net);
    ContainsIsInterval(net, cur);
    if Value(low) + 1 == Pow2(32) {
      assert next[..12] == Inc(MAPPED_PREFIX);
      PrefixOverflows();
    } else {
      assert next[..12] == MAPPED_PREFIX && next[12..] == Inc(low);
      ContainsIsInterval(net, next);
    }
  }

  lemma SomePrefix(net: Net)
    requires Plain(net) && |net.base| == 16
    ensures net.ones > 0
  {
    var x := To16([1, 2, 3, 4]);
    assert IsMapped(x);
    assert Masked(x, 0) == Masked(net.base, 0);
  }

  lemma LongStep(net: Net, cur: Bytes)
    requires Plain(net) && |net.base| == 16 && |cur| == 16 && Contains(net, cur)
    ensures if Value(Norm(cur)) + 1 < Top(net)
            then Contains(net, Inc(cur)) && Value(Norm(Inc(cur))) == Value(Norm(cur)) + 1
            else !Contains(net, Inc(cur))
  {
    var next := Inc(cur);
    MappedForm(cur);
    IncIsSuccessor(cur);
    ValueBound(cur);
    BlockFits(net);
    SomePrefix(net);
    WholeFamily(net);
    ContainsIsInterval(net, cur);
    if IsMapped(next) {
      MappedForm(next);
      MaskedValue(next, net.ones);
      AlignedBase(net);
      SameBlock(Value(next), Value(net.base), Size(net));
      if Value(Masked(next, net.ones)) == Value(net.base) { ValueInjective(Masked(next, net.ones), net.base); }
    } else {
      ContainsIsInterval(net, next);
    }
  }

  /** Inside the network the scan moves to the next number; past its end it leaves the network, except that
      a 4 byte scan of 0.0.0.0/0 wraps around. */
  lemma ScanStep(net: Net, cur: Bytes)
    requires Plain(net) && (|cur| == 4 || |cur| == 16) && Contains(net, cur)
    ensures if Value(Norm(cur)) + 1 < Top(net)
            then Contains(net, Inc(cur)) && Value(Norm(Inc(cur))) == Value(Norm(cur)) + 1
            else Contains(net, Inc(cur)) <==> |cur| == 4 && net.ones == 0
  {
    if |cur| == 4 {
      ShortStep(net, cur);
    } else if IsMapped(cur) {
      MappedForm(cur);
      MappedStep(net, cur);
    } else {
      LongStep(net, cur);
    }
  }

  lemma OrderOf16(a: Bytes, b: Bytes)
    requires (|a| == 4 || |a| == 16) && (|b| == 4 || |b| == 16) && |Norm(a)| == |Norm(b)|
    ensures |To16(a)| == |To16(b)| == 16
    ensures Value(To16(a)) > Value(To16(b)) <==> Value(Norm(a)) > Value(Norm(b))
  {
    MappedForm(a);
    MappedForm(b);
    if |Norm(a)| == 4 {
      assert To16(a) == MAPPED_PREFIX + Norm(a) && To16(b) == MAPPED_PREFIX + Norm(b);
      PrefixCancels(MAPPED_PREFIX, Norm(a), Norm(b));
    }
  }

  // ---------------------------------------------------------------- the search

  /** An address the allocator may hand out: in the network, not its network address, not in use, and
      between lo and hi. */
  ghost predicate Candidate(net: Net, lo: int, hi: int, used: set<Bytes>, x: Bytes) {
    Norm(x) == x && Contains(net, x) && x != net.base && x !in used && lo <= Value(x) <= hi
  }

  ghost predicate NoCandidate(net: Net, lo: int, hi: int, used: set<Bytes>) {
    forall x: Bytes :: !Candidate(net, lo, hi, used, x)
  }

  ghost predicate IsLeastFree(net: Net, lo: int, hi: int, used: set<Bytes>, r: Option<Bytes>) {
    match r
    case Some(a) => Candidate(net, lo, hi, used, a)
                    && forall x: Bytes | Candidate(net, lo, hi, used, x) :: Value(a) <= Value(x)
    case None => NoCandidate(net, lo, hi, used)
  }

  /** The specification determines the answer. */
  lemma LeastFreeIsUnique(net: Net, lo: int, hi: int, used: set<Bytes>, r: Option<Bytes>, r': Option<Bytes>)
    requires IsLeastFree(net, lo, hi, used, r) && IsLeastFree(net, lo, hi, used, r')
    ensures r == r'
  {
    if r.Some? && r'.Some? { ValueInjective(r.value, r'.value); }
  }

  function Low(net: Net, start: Bound): int {
    if start.At? then Value(Norm(start.ip)) else Value(net.base)
  }

  function High(net: Net, end: Bound): int {
    if end.At? then Value(Norm(end.ip)) else Top(net) - 1
  }

  /** An address that may be handed out, told from the configuration and the addresses in use: it lies in the network
      and within the bounds that are set, and is neither the network's own address nor in use. */
  ghost predicate Eligible(net: Net, start: Bound, end: Bound, used: set<Bytes>, x: Bytes) {
    && Norm(x) == x && Contains(net, x) && x != net.base && x !in used
    && (start.At? ==> Value(Norm(start.ip)) <= Value(x)) && (end.At? ==> Value(x) <= Value(Norm(end.ip)))
  }

  /** The answer is the least such address, and there is none only if no address is left. */
  lemma LeastFreeExactly(net: Net, start: Bound, end: Bound, used: set<Bytes>, r: Option<Bytes>)
    requires Valid(net) && IsLeastFree(net, Low(net, start), High(net, end), used, r)
    ensures r.Some? ==> Eligible(net, start, end, used, r.value)
    ensures forall x: Bytes | Eligible(net, start, end, used, x) :: r.Some? && Value(r.value) <= Value(x)
  {
    forall x: Bytes | Eligible(net, start, end, used, x)
      ensures Candidate(net, Low(net, start), High(net, end), used, x)
    {
      ContainsIsInterval(net, x);
    }
  }

  /** The one family of inputs on which the scan goes round for ever: 0.0.0.0/0 scanned in 4 byte form up to
      255.255.255.255 with nothing free. */
  ghost predicate Endless(net: Net, start: Bound, end: Bound, used: set<Bytes>) {
    |net.base| == 4 && net.ones == 0 && start.Unset? && High(net, end) == Top(net) - 1
    && NoCandidate(net, Low(net, start), High(net, end), used)
  }

  predicate ParsedBound(b: Bound) {
    b.At? ==> |b.ip| == 16
  }

  lemma FoundAt(net: Net, lo: int, hi: int, used: set<Bytes>, cur: Bytes)
    requires Contains(net, cur) && Norm(cur) != net.base && Norm(cur) !in used && lo <= Value(Norm(cur)) <= hi
    ensures Candidate(net, lo, hi, used, Norm(cur))
  {
    MappedForm(cur);
  }

  /** The scan stands at number `pos`, or has left the network; no candidate lies below `pos`. */
  ghost predicate ScanAt(net: Net, lo: int, hi: int, used: set<Bytes>, cur: Bytes, pos: int) {
    && lo <= pos
    && (if Contains(net, cur) then Value(Norm(cur)) == pos < Top(net) else Top(net) <= pos)
    && forall x: Bytes | Candidate(net, lo, hi, used, x) :: pos <= Value(x) < Top(net)
  }

  lemma ScanBegins(net: Net, hi: int, used: set<Bytes>, from: Bytes)
    requires Valid(net) && Contains(net, from)
    ensures ScanAt(net, Value(Norm(from)), hi, used, from, Value(Norm(from)))
  {
    ContainsIsInterval(net, from);
    forall x: Bytes | Candidate(net, Value(Norm(from)), hi, used, x) ensures Value(x) < Top(net) {
      ContainsIsInterval(net, x);
    }
  }

  lemma NobodyHere(net: Net, lo: int, hi: int, used: set<Bytes>, cur: Bytes, pos: int)
    requires ScanAt(net, lo, hi, used, cur, pos) && Contains(net, cur)
    requires Norm(cur) == net.base || Norm(cur) in used
    ensures forall x: Bytes | Candidate(net, lo, hi, used, x) :: pos + 1 <= Value(x) < Top(net)
  {
    forall x: Bytes | Candidate(net, lo, hi, used, x) ensures pos + 1 <= Value(x) < Top(net) {
      if Value(x) == pos { ValueInjective(x, Norm(cur)); }
    }
  }

  /** Passing over an address that may not be handed out. Only a wrap-around of 0.0.0.0/0 breaks the
      scan, and then nothing is free at all. */
  lemma ScanAdvances(net: Net, lo: int, hi: int, used: set<Bytes>, cur: Bytes, pos: int)
    requires Plain(net) && (|cur| == 4 || |cur| == 16)
    requires ScanAt(net, lo, hi, used, cur, pos) && Contains(net, cur)
    requires Norm(cur) == net.base || Norm(cur) in used
    ensures ScanAt(net, lo, hi, used, Inc(cur), pos + 1)
            || (|cur| == 4 && net.ones == 0 && pos == Top(net) - 1 && NoCandidate(net, lo, hi, used))
  {
    NobodyHere(net, lo, hi, used, cur, pos);
    ScanStep(net, cur);
  }

  method PastEnd(cur: Bytes, last: Option<Bytes>) returns (past: bool)
    requires |cur| == 4 || |cur| == 16
    requires last.Some? ==> |last.value| == 16 && |Norm(last.value)| == |Norm(cur)|
    ensures past <==> last.Some? && Value(Norm(cur)) > Value(Norm(last.value))
  {
    if last.None? { return false; }
    OrderOf16(cur, last.value);
    past := BytesAfter(cur, last.value);
  }

  /** The loop itself, from an address of the network up to an optional last one. */
  method Scan(net: Net, from: Bytes, last: Option<Bytes>, used: set<Bytes>) returns (r: Option<Bytes>)
    requires Plain(net) && (|from| == 4 || |from| == 16) && Contains(net, from)
    requires last.Some? ==> |last.value| == 16 && Contains(net, last.value)
    requires |from| == 4 && net.ones == 0 && (last.None? || Value(Norm(last.value)) == Top(net) - 1) ==>
               !NoCandidate(net, Value(from), Top(net) - 1, used)
    ensures IsLeastFree(net, Value(Norm(from)), if last.Some? then Value(Norm(last.value)) else Top(net) - 1, used, r)
  {
    ghost var lo: int, hi: int := Value(Norm(from)), if last.Some? then Value(Norm(last.value)) else Top(net) - 1;
    if last.Some? { ContainsIsInterval(net, last.value); }
    var cur := new Byte[|from|](i requires 0 <= i < |from| => from[i]);
    assert cur[..] == from;
    ScanBegins(net, hi, used, from);
    ghost var pos := lo;
    while Contains(net, cur[..])
      invariant cur.Length == |from|
      invariant ScanAt(net, lo, hi, used, cur[..], pos)
      decreases Top(net) - pos
    {
      var past := PastEnd(cur[..], last);
      if past { return None; }
      var here := Norm(cur[..]);
      if here != net.base && here !in used {
        FoundAt(net, lo, hi, used, cur[..]);
        return Some(here);
      }
      ScanAdvances(net, lo, hi, used, cur[..], pos);
      IncIP(cur);
      pos := pos + 1;
    }
    r := None;
  }

  method NextFreeIPInRange(network: Option<Net>, start: Bound, end: Bound, used: set<Bytes>)
    returns (r: Result<(Bytes, nat), Failure>)
    requires network.Some? ==> Plain(network.value)
    requires ParsedBound(start) && ParsedBound(end)
    requires network.Some? ==> !Endless(network.value, start, end, used)
    ensures network.None? ==> r == Err(BadCidr)
    ensures network.Some? && start.Malformed? ==> r == Err(BadStart)
    ensures network.Some? && start.At? && !Contains(network.value, start.ip) ==> r == Err(StartOutside)
    ensures network.Some? && (start.Unset? || (start.At? && Contains(network.value, start.ip))) ==>
              && (end.Malformed? ==> r == Err(BadEnd))
              && (end.At? && !Contains(network.value, end.ip) ==> r == Err(EndOutside))
              && (end.Unset? || (end.At? && Contains(network.value, end.ip)) ==>
                    && (r.Ok? || r == Err(Exhausted))
                    && (r.Ok? ==> r.value.1 == 8 * |network.value.base|)
                    && IsLeastFree(network.value, Low(network.value, start), High(network.value, end), used,
                                   if r.Ok? then Some(r.value.0) else None))
  {
    if network.None? { return Err(BadCidr); }
    var net := network.value;
    var from := net.base;
    if start.Malformed? { return Err(BadStart); }
    if start.At? {
      if !Contains(net, start.ip) { return Err(StartOutside); }
      from := start.ip;
    }
    if end.Malformed? { return Err(BadEnd); }
    if end.At? && !Contains(net, end.ip) { return Err(EndOutside); }
    BaseIsInside(net);
    MappedForm(from);
    var found := Scan(net, from, if end.At? then Some(end.ip) else None, used);
    r := if found.Some? then Ok((found.value, 8 * |net.base|)) else Err(Exhausted);
  }

  /** NextFreeIP is the same search without bounds. */
  method NextFreeIP(network: Option<Net>, used: set<Bytes>) returns (r: Result<(Bytes, nat), Failure>)
    requires network.Some? ==> Plain(network.value) && !Endless(network.value, Unset, Unset, used)
    ensures network.None? ==> r == Err(BadCidr)
    ensures network.Some? ==>
              && (r.Ok? || r == Err(Exhausted))
              && (r.Ok? ==> r.value.1 == 8 * |network.value.base|)
              && IsLeastFree(network.value, Low(network.value, Unset), High(network.value, Unset), used,
                             if r.Ok? then Some(r.value.0) else None)
  {
    if network.None? { return Err(BadCidr); }
    var net := network.value;
    ghost var lo, hi := Low(net, Unset), High(net, Unset);
    BaseIsInside(net);
    var cur := new Byte[|net.base|](i requires 0 <= i < |net.base| => net.base[i]);
    assert cur[..] == net.base;
    ScanBegins(net, hi, used, net.base);
    ghost var pos := lo;
    while Contains(net, cur[..])
      invariant cur.Length == |net.base|
      invariant ScanAt(net, lo, hi, used, cur[..], pos)
      decreases Top(net) - pos
    {
      var here := Norm(cur[..]);
      if here != net.base && here !in used {
        FoundAt(net, lo, hi, used, cur[..]);
        return Ok((here, 8 * |net.base|));
      }
      ScanAdvances(net, lo, hi, used, cur[..], pos);
      IncIP(cur);
      pos := pos + 1;
    }
    r := Err(Exhausted);
  }

  // ---------------------------------------------------------------- the excluded inputs

  function Iterate(ip: Bytes, k: nat): (r: Bytes)
    ensures |r| == |ip|
  {
    if k == 0 then ip else Inc(Iterate(ip, k - 1))
  }

  lemma {:induction false} IterateStays(net: Net, start: Bound, end: Bound, used: set<Bytes>, k: nat)
    requires Plain(net) && ParsedBound(end) && Endless(net, start, end, used)
    requires end.At? ==> Contains(net, end.ip)
    ensures Contains(net, Iterate(net.base, k))
  {
    BaseIsInside(net);
    if k > 0 {
      IterateStays(net, start, end, used, k - 1);
      ScanStep(net, Iterate(net.base, k - 1));
    }
  }

  /** On them every address the scan ever visits lies in the network, is not past the range end, and is the
      network address or in use: none of the loop's exits is ever taken. */
  lemma EndlessNeverStops(net: Net, start: Bound, end: Bound, used: set<Bytes>, k: nat)
    requires Plain(net) && ParsedBound(end) && Endless(net, start, end, used)
    requires end.At? ==> Contains(net, end.ip)
    ensures var x := Iterate(net.base, k);
            Contains(net, x) && Value(Norm(x)) <= High(net, end) && (Norm(x) == net.base || Norm(x) in used)
  {
    var x := Iterate(net.base, k);
    IterateStays(net, start, end, used, k);
    ContainsIsInterval(net, x);
    assert !Candidate(net, Low(net, start), High(net, end), used, x);
  }
}
