/**
  Classifying a peer's AllowedIPs against the tunnel network (internal/vpn/classify.go): which entry is the
  peer's own address, which are networks behind it, and which need a human.
*/
module Classify {
  import opened Prelude
  import opened Cidr

  // An entry after trimming; `parsed` is what net.ParseCIDR makes of it.
  datatype Entry = Entry(text: string, parsed: Option<(Bytes, nat)>)

  datatype Anomaly =
    | NoTunnel(text: string)
    | Unparsable(text: string)
    | SecondOwn(own: string, text: string)
    | InsideTunnel(text: string)

  datatype RouteClass = RouteClass(ownAddress: string, siteSubnets: seq<string>, fullTunnel: bool,
                                   anomalies: seq<Anomaly>)

  // ---------------------------------------------------------------- containment of whole blocks

  ghost predicate Inside(a: Net, b: Net) {
    forall x: Bytes | Contains(a, x) :: Contains(b, x)
  }

  // The code's test: the entry's address lies in the tunnel and its mask is at least as long.
  predicate Contained(tunnel: Net, ip: Bytes, ones: nat) {
    Contains(tunnel, ip) && ones >= tunnel.ones
  }

  /** An address and its block, as ParseCIDR gives them. */
  ghost predicate Proper(ip: Bytes, ones: nat) {
    Norm(ip) == ip && Plain(NetOf(ip, ones))
  }

  lemma NestedBlocks(b: nat, s: nat, t: nat, k: nat, v: nat)
    requires s >= 1 && k >= 1 && b % s == 0 && t % (k * s) == 0
    requires b <= v < b + s && t <= v < t + k * s
    ensures t <= b && b + s <= t + k * s
  {
    var q, r := b / s, t / (k * s);
    assert b == q * s && t == r * (k * s);
    assert r * (k * s) == (r * k) * s;
    assert t + k * s == (r * k + k) * s;
    assert b + s == (q + 1) * s;
    if q < r * k { MulGrows(q + 1, r * k, s); }
    if q >= r * k + k { MulGrows(r * k + k, q, s); }
    MulGrows(r * k, q, s);
    MulGrows(q + 1, r * k + k, s);
  }

  lemma LongerMaskIsInside(tunnel: Net, ip: Bytes, ones: nat)
    requires Plain(tunnel) && Proper(ip, ones) && Contained(tunnel, ip, ones)
    ensures Inside(NetOf(ip, ones), tunnel)
  {
    var net := NetOf(ip, ones);
    var h, ht := HostBits(|ip|, ones), HostBits(|ip|, tunnel.ones);
    MaskTwice(ip, ones);
    ContainsIsInterval(net, ip);
    ContainsIsInterval(tunnel, ip);
    AlignedBase(net);
    AlignedBase(tunnel);
    Pow2Adds(ht - h, h);
    NestedBlocks(Value(net.base), Size(net), Value(tunnel.base), Pow2(ht - h), Value(ip));
    forall x: Bytes | Contains(net, x) ensures Contains(tunnel, x) {
      ContainsIsInterval(net, x);
      ContainsIsInterval(tunnel, x);
    }
  }

  lemma InsideIsLongerMask(tunnel: Net, ip: Bytes, ones: nat)
    requires Plain(tunnel) && Proper(ip, ones) && Inside(NetOf(ip, ones), tunnel)
    ensures Contained(tunnel, ip, ones)
  {
    var net := NetOf(ip, ones);
    MaskTwice(ip, ones);
    assert Contains(net, ip);
    assert Contains(tunnel, ip);
    var last := AddressAt(net, Top(net) - 1);
    var first := AddressAt(net, Value(net.base));
    assert Contains(tunnel, last) && Contains(tunnel, first);
    ContainsIsInterval(tunnel, last);
    ContainsIsInterval(tunnel, first);
    if ones < tunnel.ones { Pow2Grows(HostBits(|ip|, tunnel.ones), HostBits(|ip|, ones)); }
  }

  /** The code's containment test is inclusion of the entry's whole block in the tunnel. */
  lemma ContainedExactly(tunnel: Net, ip: Bytes, ones: nat)
    requires Plain(tunnel) && Proper(ip, ones)
    ensures Contained(tunnel, ip, ones) <==> Inside(NetOf(ip, ones), tunnel)
  {
    if Contained(tunnel, ip, ones) { LongerMaskIsInside(tunnel, ip, ones); }
    if Inside(NetOf(ip, ones), tunnel) { InsideIsLongerMask(tunnel, ip, ones); }
  }

  lemma MaskFixed(a: Net)
    requires Valid(a)
    ensures NetOf(a.base, a.ones) == a
  {
  }

  /** Two networks are written the same if and only if they have the same addresses. */
  lemma SameAddressesSameNet(a: Net, b: Net)
    requires Plain(a) && Plain(b)
    ensures a == b <==> Inside(a, b) && Inside(b, a)
  {
    if Inside(a, b) && Inside(b, a) {
      BaseIsInside(a);
      BaseIsInside(b);
      assert Contains(b, a.base) && Contains(a, b.base);
      MaskFixed(a);
      MaskFixed(b);
      ContainedExactly(b, a.base, a.ones);
      ContainedExactly(a, b.base, b.ones);
      assert a.ones == b.ones;
    }
  }

  // ---------------------------------------------------------------- what each entry is

  datatype Kind = Blank | Everything | Bad | Own | Wide | Site

  function KindOf(tunnel: Net, e: Entry): Kind {
    if e.text == "" then Blank
    else if e.text == "0.0.0.0/0" || e.text == "::/0" then Everything
    else if e.parsed.None? then Bad
    else
      var (ip, ones) := e.parsed.value;
      if !Contained(tunnel, ip, ones) then Site
      else if ones == 8 * |ip| then Own
      else Wide
  }

  function Select(tunnel: Net, es: seq<Entry>, k: Kind): seq<Entry> {
    if es == [] then []
    else
      var rest := Select(tunnel, es[..|es| - 1], k);
      if KindOf(tunnel, es[|es| - 1]) == k then rest + [es[|es| - 1]] else rest
  }

  function Texts(es: seq<Entry>): seq<string> {
    seq(|es|, i requires 0 <= i < |es| => es[i].text)
  }

  // The entries left for a human, in order: unparsable, wide, and every own candidate after the first.
  function Leftover(tunnel: Net, es: seq<Entry>): seq<Entry> {
    if es == [] then []
    else
      var init, e := es[..|es| - 1], es[|es| - 1];
      var rest := Leftover(tunnel, init);
      match KindOf(tunnel, e)
      case Bad => rest + [e]
      case Wide => rest + [e]
      case Own => if Select(tunnel, init, Own) == [] then rest else rest + [e]
      case _ => rest
  }

  ghost predicate Explains(tunnel: Net, own: string, a: Anomaly, e: Entry) {
    match KindOf(tunnel, e)
    case Bad => a == Unparsable(e.text)
    case Wide => a == InsideTunnel(e.text)
    case _ => a == SecondOwn(own, e.text)
  }

  ghost predicate Right(tunnel: Net, es: seq<Entry>, c: RouteClass) {
    && (c.fullTunnel <==> Select(tunnel, es, Everything) != [])
    && c.siteSubnets == Texts(Select(tunnel, es, Site))
    && c.ownAddress == (if Select(tunnel, es, Own) == [] then "" else Select(tunnel, es, Own)[0].text)
    && |c.anomalies| == |Leftover(tunnel, es)|
    && forall i | 0 <= i < |c.anomalies| :: Explains(tunnel, c.ownAddress, c.anomalies[i], Leftover(tunnel, es)[i])
  }

  // What one more entry does to the classification, given its kind.
  function Place(c: RouteClass, k: Kind, text: string): RouteClass {
    match k
    case Blank => c
    case Everything => c.(fullTunnel := true)
    case Bad => c.(anomalies := c.anomalies + [Unparsable(text)])
    case Own => if c.ownAddress == "" then c.(ownAddress := text)
                else c.(anomalies := c.anomalies + [SecondOwn(c.ownAddress, text)])
    case Wide => c.(anomalies := c.anomalies + [InsideTunnel(text)])
    case Site => c.(siteSubnets := c.siteSubnets + [text])
  }

  lemma {:induction false} OwnIsWritten(tunnel: Net, es: seq<Entry>)
    ensures forall e | e in Select(tunnel, es, Own) :: e.text != ""
    ensures Select(tunnel, es, Own) == [] ==> forall e | e in Leftover(tunnel, es) :: KindOf(tunnel, e) in {Bad, Wide}
  {
    if es != [] { OwnIsWritten(tunnel, es[..|es| - 1]); }
  }

  lemma FirstOwn(tunnel: Net, done: seq<Entry>, c: RouteClass, own: string)
    requires Right(tunnel, done, c) && Select(tunnel, done, Own) == []
    ensures forall i | 0 <= i < |c.anomalies| :: Explains(tunnel, own, c.anomalies[i], Leftover(tunnel, done)[i])
  {
    OwnIsWritten(tunnel, done);
    forall i | 0 <= i < |c.anomalies| ensures Explains(tunnel, own, c.anomalies[i], Leftover(tunnel, done)[i]) {
      assert Leftover(tunnel, done)[i] in Leftover(tunnel, done);
      assert Explains(tunnel, c.ownAddress, c.anomalies[i], Leftover(tunnel, done)[i]);
    }
  }

  lemma SelectOneMore(tunnel: Net, done: seq<Entry>, e: Entry, k: Kind)
    ensures Select(tunnel, done + [e], k) ==
              if KindOf(tunnel, e) == k then Select(tunnel, done, k) + [e] else Select(tunnel, done, k)
  {
    assert (done + [e])[..|done|] == done;
  }

  lemma LeftoverOneMore(tunnel: Net, done: seq<Entry>, e: Entry)
    ensures var k := KindOf(tunnel, e);
            Leftover(tunnel, done + [e]) ==
            if k == Bad || k == Wide || (k == Own && Select(tunnel, done, Own) != []) then Leftover(tunnel, done) + [e]
            else Leftover(tunnel, done)
  {
    assert (done + [e])[..|done|] == done;
  }

  lemma PlaceIsRight(tunnel: Net, done: seq<Entry>, c: RouteClass, e: Entry)
    requires Right(tunnel, done, c)
    ensures Right(tunnel, done + [e], Place(c, KindOf(tunnel, e), e.text))
  {
    var own := Select(tunnel, done, Own);
    OwnIsWritten(tunnel, done);
    assert own != [] ==> own[0] in own;
    assert own == [] <==> c.ownAddress == "";
    if own == [] { FirstOwn(tunnel, done, c, e.text); }
    SelectOneMore(tunnel, done, e, Everything);
    SelectOneMore(tunnel, done, e, Own);
    SelectOneMore(tunnel, done, e, Site);
    LeftoverOneMore(tunnel, done, e);
    assert Texts(Select(tunnel, done, Site) + [e]) == Texts(Select(tunnel, done, Site)) + [e.text];
  }

  /** One turn of the loop: the entries so far, then one more. */
  method ClassifyEntry(tunnel: Net, done: seq<Entry>, c: RouteClass, e: Entry) returns (c': RouteClass)
    requires Right(tunnel, done, c)
    ensures Right(tunnel, done + [e], c')
  {
    c' := c;
    if e.text == "" {
    } else if e.text == "0.0.0.0/0" || e.text == "::/0" {
      c' := c.(fullTunnel := true);
    } else if e.parsed.None? {
      c' := c.(anomalies := c.anomalies + [Unparsable(e.text)]);
    } else {
      var (ip, ones) := e.parsed.value;
      var isHost := ones == 8 * |ip|;
      var contained := Contains(tunnel, ip) && ones >= tunnel.ones;
      if isHost && contained {
        if c.ownAddress == "" {
          c' := c.(ownAddress := e.text);
        } else {
          c' := c.(anomalies := c.anomalies + [SecondOwn(c.ownAddress, e.text)]);
        }
      } else if contained {
        c' := c.(anomalies := c.anomalies + [InsideTunnel(e.text)]);
      } else {
        c' := c.(siteSubnets := c.siteSubnets + [e.text]);
      }
    }
    assert c' == Place(c, KindOf(tunnel, e), e.text);
    assert Right(tunnel, done + [e], c') by { PlaceIsRight(tunnel, done, c, e); }
  }

  function NoTunnelFor(es: seq<Entry>): seq<Anomaly> {
    if es == [] then []
    else
      var rest := NoTunnelFor(es[..|es| - 1]);
      if es[|es| - 1].text == "" then rest else rest + [NoTunnel(es[|es| - 1].text)]
  }

  predicate NotBlank(e: Entry) { e.text != "" }

  /** Without a tunnel every entry that is not blank is reported, once each. */
  lemma {:induction false} NoTunnelExactly(es: seq<Entry>)
    ensures forall a :: a in NoTunnelFor(es) <==> exists e | e in es :: e.text != "" && a == NoTunnel(e.text)
    ensures |NoTunnelFor(es)| == |Where(es, NotBlank)|
  {
    if es != [] {
      var init, e := es[..|es| - 1], es[|es| - 1];
      assert es == init + [e];
      NoTunnelExactly(init);
      WhereOneMore(init, e, NotBlank);
      assert forall x :: x in es <==> x in init || x == e;
    }
  }

  method ClassifyPeerRoutes(tunnel: Option<Net>, es: seq<Entry>) returns (c: RouteClass)
    ensures tunnel.Some? ==> Right(tunnel.value, es, c)
    ensures tunnel.None? ==> c.ownAddress == "" && c.siteSubnets == [] && !c.fullTunnel
    ensures tunnel.None? ==> c.anomalies == NoTunnelFor(es)
  {
    c := RouteClass("", [], false, []);
    if tunnel.None? {
      for n := 0 to |es|
        invariant c == RouteClass("", [], false, NoTunnelFor(es[..n]))
      {
        assert es[..n + 1][..n] == es[..n];
        if es[n].text == "" { continue; }
        c := c.(anomalies := c.anomalies + [NoTunnel(es[n].text)]);
      }
      assert es[..|es|] == es;
      return;
    }
    for n := 0 to |es|
      invariant Right(tunnel.value, es[..n], c)
    {
      assert es[..n + 1] == es[..n] + [es[n]];
      c := ClassifyEntry(tunnel.value, es[..n], c, es[n]);
    }
    assert es[..|es|] == es;
  }

  // ---------------------------------------------------------------- what the classification guarantees

  lemma {:induction false} KindsPartition(tunnel: Net, es: seq<Entry>)
    ensures |es| == |Select(tunnel, es, Blank)| + |Select(tunnel, es, Everything)| + |Select(tunnel, es, Bad)|
                    + |Select(tunnel, es, Own)| + |Select(tunnel, es, Wide)| + |Select(tunnel, es, Site)|
    ensures |Leftover(tunnel, es)| == |Select(tunnel, es, Bad)| + |Select(tunnel, es, Wide)|
                    + (if Select(tunnel, es, Own) == [] then 0 else |Select(tunnel, es, Own)| - 1)
  {
    if es != [] { KindsPartition(tunnel, es[..|es| - 1]); }
  }

  /** Every non-blank entry is accounted for exactly once. */
  lemma EveryEntryOnce(tunnel: Net, es: seq<Entry>, c: RouteClass)
    requires Right(tunnel, es, c)
    ensures |es| - |Select(tunnel, es, Blank)| ==
            |Select(tunnel, es, Everything)| + |c.siteSubnets| + |c.anomalies| + (if c.ownAddress == "" then 0 else 1)
  {
    KindsPartition(tunnel, es);
    OwnIsWritten(tunnel, es);
    var own := Select(tunnel, es, Own);
    assert own != [] ==> own[0] in own;
  }

  /** A site subnet is never inside the tunnel network; the own address and every wide entry are. */
  lemma SitesAreOutside(tunnel: Net, e: Entry)
    requires Plain(tunnel) && e.parsed.Some? && Proper(e.parsed.value.0, e.parsed.value.1)
    ensures KindOf(tunnel, e) == Site ==> !Inside(NetOf(e.parsed.value.0, e.parsed.value.1), tunnel)
    ensures KindOf(tunnel, e) in {Own, Wide} ==> Inside(NetOf(e.parsed.value.0, e.parsed.value.1), tunnel)
  {
    ContainedExactly(tunnel, e.parsed.value.0, e.parsed.value.1);
  }

  // The network has one address and no other.
  ghost predicate SingleAddress(net: Net) {
    forall x: Bytes, y: Bytes | Contains(net, x) && Contains(net, y) :: Norm(x) == Norm(y)
  }

  lemma SingleExactly(ip: Bytes, ones: nat)
    requires Proper(ip, ones)
    ensures SingleAddress(NetOf(ip, ones)) <==> ones == 8 * |ip|
  {
    var net := NetOf(ip, ones);
    if ones == 8 * |ip| {
      assert Size(net) == 1;
      forall x: Bytes, y: Bytes | Contains(net, x) && Contains(net, y) ensures Norm(x) == Norm(y) {
        ContainsIsInterval(net, x);
        ContainsIsInterval(net, y);
        ValueInjective(Norm(x), Norm(y));
      }
    } else {
      Pow2Grows(1, HostBits(|ip|, ones));
      Pow2Bytes();
      var x := AddressAt(net, Value(net.base));
      var y := AddressAt(net, Value(net.base) + 1);
      assert Norm(x) != Norm(y);
    }
  }

  /** What an entry is: everything if it is written "0.0.0.0/0" or "::/0"; else a site if some of its addresses are
      outside the tunnel, an own address if it is a single address inside, and wide if it is several. */
  lemma KindExactly(tunnel: Net, e: Entry)
    requires Plain(tunnel) && (e.parsed.Some? ==> Proper(e.parsed.value.0, e.parsed.value.1))
    ensures KindOf(tunnel, e) == Blank <==> e.text == ""
    ensures KindOf(tunnel, e) == Everything <==> e.text in {"0.0.0.0/0", "::/0"}
    ensures KindOf(tunnel, e) == Bad <==> e.text !in {"", "0.0.0.0/0", "::/0"} && e.parsed.None?
    ensures e.text !in {"", "0.0.0.0/0", "::/0"} && e.parsed.Some? ==>
              var net := NetOf(e.parsed.value.0, e.parsed.value.1);
              && (KindOf(tunnel, e) == Site <==> !Inside(net, tunnel))
              && (KindOf(tunnel, e) == Own <==> Inside(net, tunnel) && SingleAddress(net))
              && (KindOf(tunnel, e) == Wide <==> Inside(net, tunnel) && !SingleAddress(net))
  {
    if e.parsed.Some? {
      var (ip, ones) := e.parsed.value;
      ContainedExactly(tunnel, ip, ones);
      SingleExactly(ip, ones);
    }
  }

  lemma SelectMembers(tunnel: Net, es: seq<Entry>, k: Kind, e: Entry)
    ensures e in Select(tunnel, es, k) <==> e in es && KindOf(tunnel, e) == k
  {
    SelectCounts(tunnel, es, k, e);
    assert e in es <==> multiset(es)[e] > 0;
    assert e in Select(tunnel, es, k) <==> multiset(Select(tunnel, es, k))[e] > 0;
  }

  /** The full-tunnel flag, the sites and the own address, told from the entries. */
  lemma ClassExactly(tunnel: Net, es: seq<Entry>, c: RouteClass)
    requires Right(tunnel, es, c)
    ensures c.fullTunnel <==> exists e | e in es :: e.text == "0.0.0.0/0" || e.text == "::/0"
    ensures forall t :: t in c.siteSubnets <==> exists e | e in es :: KindOf(tunnel, e) == Site && e.text == t
    ensures c.ownAddress != "" ==> exists e | e in es :: KindOf(tunnel, e) == Own && e.text == c.ownAddress
    ensures c.ownAddress == "" ==> forall e | e in es :: KindOf(tunnel, e) != Own
  {
    forall e, k { SelectMembers(tunnel, es, k, e); }
    var all, sites, own := Select(tunnel, es, Everything), Select(tunnel, es, Site), Select(tunnel, es, Own);
    if all != [] {
      var e := all[0];
      assert e in all && e in es && KindOf(tunnel, e) == Everything;
    }
    forall e | e in es && (e.text == "0.0.0.0/0" || e.text == "::/0") ensures all != [] { assert e in all; }
    forall t | t in c.siteSubnets ensures exists e | e in es :: KindOf(tunnel, e) == Site && e.text == t {
      var i :| 0 <= i < |sites| && Texts(sites)[i] == t;
      assert sites[i] in sites;
    }
    forall e | e in sites ensures e.text in c.siteSubnets {
      var i :| 0 <= i < |sites| && sites[i] == e;
      assert Texts(sites)[i] == e.text;
    }
    OwnIsWritten(tunnel, es);
    if own != [] { assert own[0] in own; }
  }

  lemma {:induction false} SelectCounts(tunnel: Net, es: seq<Entry>, k: Kind, e: Entry)
    ensures multiset(Select(tunnel, es, k))[e] == if KindOf(tunnel, e) == k then multiset(es)[e] else 0
  {
    if es != [] {
      SelectCounts(tunnel, es[..|es| - 1], k, e);
      assert es == es[..|es| - 1] + [es[|es| - 1]];
    }
  }

  lemma SelectPermutes(tunnel: Net, es: seq<Entry>, es': seq<Entry>, k: Kind)
    requires multiset(es) == multiset(es')
    ensures multiset(Select(tunnel, es, k)) == multiset(Select(tunnel, es', k))
    ensures |Select(tunnel, es, k)| == |Select(tunnel, es', k)|
  {
    forall e ensures multiset(Select(tunnel, es, k))[e] == multiset(Select(tunnel, es', k))[e] {
      SelectCounts(tunnel, es, k, e);
      SelectCounts(tunnel, es', k, e);
    }
    assert |multiset(Select(tunnel, es, k))| == |Select(tunnel, es, k)|;
  }

  function Without<T>(s: seq<T>, i: nat): seq<T>
    requires i < |s|
  {
    s[..i] + s[i + 1..]
  }

  lemma WithoutCounts<T>(s: seq<T>, i: nat)
    requires i < |s|
    ensures multiset(s) == multiset(Without(s, i)) + multiset{s[i]}
  {
    assert s == s[..i] + [s[i]] + s[i + 1..];
  }

  lemma TextsWithout(s: seq<Entry>, i: nat)
    requires i < |s|
    ensures Texts(Without(s, i)) == Without(Texts(s), i)
  {
  }

  lemma {:induction false} TextsPermute(s: seq<Entry>, t: seq<Entry>)
    requires multiset(s) == multiset(t)
    ensures multiset(Texts(s)) == multiset(Texts(t))
    decreases |s|
  {
    if s == [] {
      assert |multiset(t)| == 0;
    } else {
      assert s[0] in multiset(t);
      var i :| 0 <= i < |t| && t[i] == s[0];
      var s1, t1 := Without(s, 0), Without(t, i);
      assert multiset(s1) == multiset(t1) by {
        WithoutCounts(s, 0);
        WithoutCounts(t, i);
        assert multiset(s1) == multiset(s) - multiset{s[0]} && multiset(t1) == multiset(t) - multiset{s[0]};
      }
      TextsPermute(s1, t1);
      TextsWithout(s, 0);
      TextsWithout(t, i);
      WithoutCounts(Texts(s), 0);
      WithoutCounts(Texts(t), i);
    }
  }

  // The entries named by the anomalies of one kind, in order.
  function Reported(anomalies: seq<Anomaly>, k: Kind): seq<string> {
    if anomalies == [] then []
    else
      var rest, a := Reported(anomalies[..|anomalies| - 1], k), anomalies[|anomalies| - 1];
      match a
      case Unparsable(text) => if k == Bad then rest + [text] else rest
      case InsideTunnel(text) => if k == Wide then rest + [text] else rest
      case SecondOwn(_, text) => if k == Own then rest + [text] else rest
      case NoTunnel(_) => rest
  }

  lemma TextsOneMore(s: seq<Entry>, e: Entry)
    ensures Texts(s + [e]) == Texts(s) + [e.text]
  {
  }

  lemma {:induction false} ReportedOf(tunnel: Net, own: string, anomalies: seq<Anomaly>, left: seq<Entry>, k: Kind)
    requires |anomalies| == |left| && k in {Bad, Wide, Own}
    requires forall i | 0 <= i < |left| :: KindOf(tunnel, left[i]) in {Bad, Wide, Own}
    requires forall i | 0 <= i < |left| :: Explains(tunnel, own, anomalies[i], left[i])
    ensures Reported(anomalies, k) == Texts(Select(tunnel, left, k))
    decreases |left|
  {
    if left != [] {
      var n := |left| - 1;
      ReportedOf(tunnel, own, anomalies[..n], left[..n], k);
      assert Explains(tunnel, own, anomalies[n], left[n]);
      TextsOneMore(Select(tunnel, left[..n], k), left[n]);
    }
  }

  lemma {:induction false} LeftoverKinds(tunnel: Net, es: seq<Entry>)
    ensures forall e | e in Leftover(tunnel, es) :: KindOf(tunnel, e) in {Bad, Wide, Own}
  {
    if es != [] { LeftoverKinds(tunnel, es[..|es| - 1]); }
  }

  // The entries of one kind that are left over: all of them, or all but the first candidate.
  function Kept(chosen: seq<Entry>, k: Kind): seq<Entry> {
    if k == Own && chosen != [] then chosen[1..] else chosen
  }

  lemma KeptOneMore(chosen: seq<Entry>, e: Entry, k: Kind)
    ensures Kept(chosen + [e], k) == if k == Own && chosen == [] then [] else Kept(chosen, k) + [e]
  {
  }

  lemma {:induction false} SelectLeftover(tunnel: Net, es: seq<Entry>, k: Kind)
    requires k in {Bad, Wide, Own}
    ensures Select(tunnel, Leftover(tunnel, es), k) == Kept(Select(tunnel, es, k), k)
    decreases |es|
  {
    if es != [] {
      var init, e := es[..|es| - 1], es[|es| - 1];
      var left, chosen := Leftover(tunnel, init), Select(tunnel, init, k);
      assert es == init + [e];
      assert Select(tunnel, left, k) == Kept(chosen, k) by { SelectLeftover(tunnel, init, k); }
      KeptOneMore(chosen, e, k);
      assert Select(tunnel, es, k) == if KindOf(tunnel, e) == k then chosen + [e] else chosen by {
        SelectOneMore(tunnel, init, e, k);
      }
      LeftoverOneMore(tunnel, init, e);
      SelectOneMore(tunnel, left, e, k);
    }
  }

  lemma ReportedIs(tunnel: Net, es: seq<Entry>, c: RouteClass, k: Kind)
    requires Right(tunnel, es, c) && k in {Bad, Wide, Own}
    ensures Reported(c.anomalies, k) == Texts(Kept(Select(tunnel, es, k), k))
  {
    var left := Leftover(tunnel, es);
    LeftoverKinds(tunnel, es);
    forall i | 0 <= i < |left| ensures KindOf(tunnel, left[i]) in {Bad, Wide, Own} { assert left[i] in left; }
    ReportedOf(tunnel, c.ownAddress, c.anomalies, left, k);
    SelectLeftover(tunnel, es, k);
  }

  /** The anomalies name exactly the unparsable entries, the wide ones, and the candidates that are not the own
      address. */
  lemma AnomaliesName(tunnel: Net, es: seq<Entry>, c: RouteClass)
    requires Right(tunnel, es, c)
    ensures Reported(c.anomalies, Bad) == Texts(Select(tunnel, es, Bad))
    ensures Reported(c.anomalies, Wide) == Texts(Select(tunnel, es, Wide))
    ensures var own := Select(tunnel, es, Own);
            if own == [] then Reported(c.anomalies, Own) == []
            else [c.ownAddress] + Reported(c.anomalies, Own) == Texts(own)
  {
    ReportedIs(tunnel, es, c, Bad);
    ReportedIs(tunnel, es, c, Wide);
    ReportedIs(tunnel, es, c, Own);
    var own := Select(tunnel, es, Own);
    assert own != [] ==> Texts(own) == [own[0].text] + Texts(own[1..]);
    assert Texts([]) == [];
  }

  lemma KindPermutes(tunnel: Net, es: seq<Entry>, es': seq<Entry>, k: Kind)
    requires multiset(es) == multiset(es')
    ensures multiset(Texts(Select(tunnel, es, k))) == multiset(Texts(Select(tunnel, es', k)))
    ensures Select(tunnel, es, k) == [] <==> Select(tunnel, es', k) == []
  {
    SelectPermutes(tunnel, es, es', k);
    TextsPermute(Select(tunnel, es, k), Select(tunnel, es', k));
  }

  lemma HeadAndRest(x: string, xs: seq<string>, y: string, ys: seq<string>)
    requires multiset([x] + xs) == multiset([y] + ys)
    ensures multiset(xs) + multiset{x} == multiset(ys) + multiset{y}
  {
    assert multiset([x] + xs) == multiset{x} + multiset(xs) && multiset([y] + ys) == multiset{y} + multiset(ys);
    assert multiset{x} + multiset(xs) == multiset(xs) + multiset{x};
    assert multiset{y} + multiset(ys) == multiset(ys) + multiset{y};
  }

  lemma OwnPermutes(tunnel: Net, es: seq<Entry>, es': seq<Entry>, c: RouteClass, c': RouteClass)
    requires multiset(es) == multiset(es') && Right(tunnel, es, c) && Right(tunnel, es', c')
    ensures multiset(Reported(c.anomalies, Own)) + multiset{c.ownAddress} ==
            multiset(Reported(c'.anomalies, Own)) + multiset{c'.ownAddress}
  {
    KindPermutes(tunnel, es, es', Own);
    AnomaliesName(tunnel, es, c);
    AnomaliesName(tunnel, es', c');
    if Select(tunnel, es, Own) != [] {
      HeadAndRest(c.ownAddress, Reported(c.anomalies, Own), c'.ownAddress, Reported(c'.anomalies, Own));
    }
  }

  lemma OwnStays(tunnel: Net, es: seq<Entry>, es': seq<Entry>, c: RouteClass, c': RouteClass)
    requires multiset(es) == multiset(es') && Right(tunnel, es, c) && Right(tunnel, es', c')
    ensures |c.anomalies| == |c'.anomalies|
    ensures c.ownAddress == "" <==> c'.ownAddress == ""
    ensures c'.ownAddress != "" ==> exists e :: e in Select(tunnel, es, Own) && e.text == c'.ownAddress
  {
    forall k { SelectPermutes(tunnel, es, es', k); }
    KindsPartition(tunnel, es);
    KindsPartition(tunnel, es');
    OwnIsWritten(tunnel, es);
    OwnIsWritten(tunnel, es');
    var own, own' := Select(tunnel, es, Own), Select(tunnel, es', Own);
    assert own != [] ==> own[0] in own;
    assert own' != [] ==> own'[0] in own' && own'[0] in multiset(own);
  }

  /** Reordering the entries changes only which candidate is the own address, the order of the sites, and the
      order and wording of the anomalies: the same entries are reported as unparsable, as wide, and as candidates. */
  lemma OrderHardlyMatters(tunnel: Net, es: seq<Entry>, es': seq<Entry>, c: RouteClass, c': RouteClass)
    requires multiset(es) == multiset(es') && Right(tunnel, es, c) && Right(tunnel, es', c')
    ensures c.fullTunnel == c'.fullTunnel
    ensures multiset(c.siteSubnets) == multiset(c'.siteSubnets)
    ensures multiset(Reported(c.anomalies, Bad)) == multiset(Reported(c'.anomalies, Bad))
    ensures multiset(Reported(c.anomalies, Wide)) == multiset(Reported(c'.anomalies, Wide))
    ensures multiset(Reported(c.anomalies, Own)) + multiset{c.ownAddress} ==
            multiset(Reported(c'.anomalies, Own)) + multiset{c'.ownAddress}
    ensures |c.anomalies| == |c'.anomalies|
    ensures c.ownAddress == "" <==> c'.ownAddress == ""
    ensures c'.ownAddress != "" ==> exists e :: e in Select(tunnel, es, Own) && e.text == c'.ownAddress
  {
    assert c.fullTunnel == c'.fullTunnel by { KindPermutes(tunnel, es, es', Everything); }
    assert multiset(c.siteSubnets) == multiset(c'.siteSubnets) by { KindPermutes(tunnel, es, es', Site); }
    assert multiset(Reported(c.anomalies, Bad)) == multiset(Reported(c'.anomalies, Bad)) by {
      KindPermutes(tunnel, es, es', Bad);
      AnomaliesName(tunnel, es, c);
      AnomaliesName(tunnel, es', c');
    }
    assert multiset(Reported(c.anomalies, Wide)) == multiset(Reported(c'.anomalies, Wide)) by {
      KindPermutes(tunnel, es, es', Wide);
      AnomaliesName(tunnel, es, c);
      AnomaliesName(tunnel, es', c');
    }
    OwnPermutes(tunnel, es, es', c, c');
    OwnStays(tunnel, es, es', c, c');
  }
}
