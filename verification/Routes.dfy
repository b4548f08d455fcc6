/**
  The routing policy (computeRoutes of internal/api/mesh.go): the normalised tunnels, then subnets, then
  the default route if there is egress, without those the peer owns and without repeats. A text is
  represented by the network net.ParseCIDR finds in it, if any; printing a network is injective.
*/
module Routes {
  import opened Prelude
  import opened Cidr
  import Classify

  const DEFAULT_ROUTE: Net := Net([0, 0, 0, 0], 0)

  function Wanted(tunnels: seq<Option<Net>>, subnets: seq<Option<Net>>, egress: bool): seq<Option<Net>> {
    tunnels + subnets + (if egress then [Some(DEFAULT_ROUTE)] else [])
  }

  function OwnSet(allowed: seq<Option<Net>>): set<Net> {
    set a | a in allowed && a.Some? :: a.value
  }

  function Keep(own: set<Net>, wanted: seq<Option<Net>>): seq<Net> {
    if wanted == [] then []
    else
      var routes, w := Keep(own, wanted[..|wanted| - 1]), wanted[|wanted| - 1];
      if w.None? || w.value in own || w.value in routes then routes else routes + [w.value]
  }

  /** The `add` closure over a list, after the texts in `before` have been added. */
  method AddAll(own: set<Net>, before: seq<Option<Net>>, cidrs: seq<Option<Net>>, routes0: seq<Net>, seen0: set<Net>)
    returns (routes: seq<Net>, seen: set<Net>)
    requires routes0 == Keep(own, before) && (forall r :: r in seen0 <==> r in routes0)
    ensures routes == Keep(own, before + cidrs) && (forall r :: r in seen <==> r in routes)
  {
    routes, seen := routes0, seen0;
    assert before + cidrs[..0] == before;
    for i := 0 to |cidrs|
      invariant routes == Keep(own, before + cidrs[..i]) && (forall r :: r in seen <==> r in routes)
    {
      ghost var next := before + cidrs[..i + 1];
      assert next[..|next| - 1] == before + cidrs[..i] && next[|next| - 1] == cidrs[i];
      if cidrs[i].None? { continue; }
      var norm := cidrs[i].value;
      if norm in own || norm in seen { continue; }
      seen := seen + {norm};
      routes := routes + [norm];
    }
    assert cidrs[..|cidrs|] == cidrs;
  }

  method ComputeRoutes(allowed: seq<Option<Net>>, tunnels: seq<Option<Net>>, subnets: seq<Option<Net>>, egress: bool)
    returns (routes: seq<Net>)
    ensures routes == Keep(OwnSet(allowed), Wanted(tunnels, subnets, egress))
  {
    var own: set<Net> := {};
    for i := 0 to |allowed|
      invariant own == OwnSet(allowed[..i])
    {
      assert allowed[..i + 1] == allowed[..i] + [allowed[i]];
      if allowed[i].Some? { own := own + {allowed[i].value}; }
    }
    assert allowed[..|allowed|] == allowed;
    ghost var wanted := Wanted(tunnels, subnets, egress);
    var seen: set<Net> := {};
    routes := [];
    assert wanted[..0] == [];
    routes, seen := AddAll(own, [], tunnels, routes, seen);
    assert [] + tunnels == tunnels;
    routes, seen := AddAll(own, tunnels, subnets, routes, seen);
    if egress {
      routes, seen := AddAll(own, tunnels + subnets, [Some(DEFAULT_ROUTE)], routes, seen);
    } else {
      assert tunnels + subnets + [] == tunnels + subnets;
    }
  }

  // ---------------------------------------------------------------- what is returned

  /** `i` is the first place where its network is asked for. */
  ghost predicate FirstAt(wanted: seq<Option<Net>>, i: nat) {
    i < |wanted| && wanted[i].Some? && forall j | 0 <= j < i :: wanted[j] != wanted[i]
  }

  /** The routes are the first occurrences, in order, of the wanted networks the peer does not own. */
  ghost predicate FirstOccurrences(own: set<Net>, wanted: seq<Option<Net>>, routes: seq<Net>, at: seq<nat>) {
    && |at| == |routes|
    && (forall k | 0 <= k < |at| :: FirstAt(wanted, at[k]) && wanted[at[k]] == Some(routes[k]) && routes[k] !in own)
    && (forall k, l | 0 <= k < l < |at| :: at[k] < at[l])
    && (forall i | 0 <= i < |wanted| && wanted[i].Some? && wanted[i].value !in own :: wanted[i].value in routes)
  }

  lemma {:induction false} KeepIsFirstOccurrences(own: set<Net>, wanted: seq<Option<Net>>) returns (at: seq<nat>)
    ensures FirstOccurrences(own, wanted, Keep(own, wanted), at)
    ensures forall k | 0 <= k < |at| :: at[k] < |wanted|
  {
    if wanted == [] {
      at := [];
    } else {
      var n := |wanted| - 1;
      var init, w := wanted[..n], wanted[n];
      var routes := Keep(own, init);
      at := KeepIsFirstOccurrences(own, init);
      assert forall i | 0 <= i < n :: init[i] == wanted[i];
      assert forall k | 0 <= k < |at| :: FirstAt(init, at[k]) && FirstAt(wanted, at[k]);
      if w.Some? && w.value !in own && w.value !in routes {
        assert FirstAt(wanted, n);
        at := at + [n];
      }
    }
  }

  /** A network is returned exactly if it is a tunnel, a subnet or, with egress, 0.0.0.0/0, and the peer does not have
      it among its AllowedIPs. */
  lemma RoutesExactly(allowed: seq<Option<Net>>, tunnels: seq<Option<Net>>, subnets: seq<Option<Net>>, egress: bool,
                      n: Net)
    ensures n in Keep(OwnSet(allowed), Wanted(tunnels, subnets, egress)) <==>
            && (Some(n) in tunnels || Some(n) in subnets || (egress && n == Net([0, 0, 0, 0], 0)))
            && Some(n) !in allowed
  {
    var own, wanted := OwnSet(allowed), Wanted(tunnels, subnets, egress);
    assert n in own <==> Some(n) in allowed;
    assert Some(n) in wanted <==> Some(n) in tunnels || Some(n) in subnets || (egress && n == Net([0, 0, 0, 0], 0));
    NoRepeats(own, wanted);
    var at := KeepIsFirstOccurrences(own, wanted);
    if Some(n) in wanted && n !in own {
      var i :| 0 <= i < |wanted| && wanted[i] == Some(n);
    }
  }

  /** Tunnels come before subnets and both before the default route: a network returned earlier is asked for first at
      an earlier place of the three lists in this order. */
  lemma RoutesInOrder(allowed: seq<Option<Net>>, tunnels: seq<Option<Net>>, subnets: seq<Option<Net>>, egress: bool,
                      k: nat, l: nat)
    requires k < l < |Keep(OwnSet(allowed), Wanted(tunnels, subnets, egress))|
    ensures var routes := Keep(OwnSet(allowed), Wanted(tunnels, subnets, egress));
            && (Some(routes[l]) in tunnels ==> Some(routes[k]) in tunnels)
            && (Some(routes[l]) in tunnels + subnets ==> Some(routes[k]) in tunnels + subnets)
  {
    var own, wanted := OwnSet(allowed), Wanted(tunnels, subnets, egress);
    var at := KeepIsFirstOccurrences(own, wanted);
    var i, j := at[k], at[l];
    assert FirstAt(wanted, i) && FirstAt(wanted, j) && i < j;
    if wanted[j] in tunnels {
      var m :| 0 <= m < |tunnels| && tunnels[m] == wanted[j];
      assert wanted[m] == wanted[j] && i < |tunnels| && wanted[i] == tunnels[i];
    }
    var both := tunnels + subnets;
    assert forall m | 0 <= m < |both| :: wanted[m] == both[m];
    if wanted[j] in both {
      var m :| 0 <= m < |both| && both[m] == wanted[j];
      assert wanted[m] == wanted[j] && i < |both| && wanted[i] == both[i];
    }
  }

  lemma {:induction false} NoRepeats(own: set<Net>, wanted: seq<Option<Net>>)
    ensures forall i, j | 0 <= i < j < |Keep(own, wanted)| :: Keep(own, wanted)[i] != Keep(own, wanted)[j]
    ensures forall r | r in Keep(own, wanted) :: r !in own && Some(r) in wanted
  {
    if wanted != [] {
      NoRepeats(own, wanted[..|wanted| - 1]);
      assert wanted == wanted[..|wanted| - 1] + [wanted[|wanted| - 1]];
    }
  }

  /** No two routes have the same addresses. */
  lemma NoAddressSetTwice(own: set<Net>, wanted: seq<Option<Net>>, i: nat, j: nat)
    requires forall w | w in wanted && w.Some? :: Plain(w.value)
    requires i < j < |Keep(own, wanted)|
    ensures !(Classify.Inside(Keep(own, wanted)[i], Keep(own, wanted)[j])
            && Classify.Inside(Keep(own, wanted)[j], Keep(own, wanted)[i]))
  {
    NoRepeats(own, wanted);
    var a, b := Keep(own, wanted)[i], Keep(own, wanted)[j];
    assert a in Keep(own, wanted) && b in Keep(own, wanted);
    assert Some(a) in wanted && Some(b) in wanted;
    Classify.SameAddressesSameNet(a, b);
  }

  function Lift(routes: seq<Net>): seq<Option<Net>> {
    seq(|routes|, i requires 0 <= i < |routes| => Some(routes[i]))
  }

  lemma {:induction false} KeepFixes(own: set<Net>, routes: seq<Net>)
    requires forall r | r in routes :: r !in own
    requires forall i, j | 0 <= i < j < |routes| :: routes[i] != routes[j]
    ensures Keep(own, Lift(routes)) == routes
  {
    if routes != [] {
      var n := |routes| - 1;
      KeepFixes(own, routes[..n]);
      assert Lift(routes)[..n] == Lift(routes[..n]);
      assert routes == routes[..n] + [routes[n]];
      assert routes[n] in routes;
    }
  }

  /** Running the policy on its own output, with the same egress, gives that output back. */
  lemma RerunIsIdentity(allowed: seq<Option<Net>>, tunnels: seq<Option<Net>>, subnets: seq<Option<Net>>, egress: bool)
    ensures var routes := Keep(OwnSet(allowed), Wanted(tunnels, subnets, egress));
            Keep(OwnSet(allowed), Wanted(Lift(routes), [], egress)) == routes
  {
    var own, wanted := OwnSet(allowed), Wanted(tunnels, subnets, egress);
    var routes := Keep(own, wanted);
    NoRepeats(own, wanted);
    KeepFixes(own, routes);
    assert Lift(routes) + [] == Lift(routes);
    if egress {
      var again := Lift(routes) + [Some(DEFAULT_ROUTE)];
      assert again[..|again| - 1] == Lift(routes);
      assert wanted[|wanted| - 1] == Some(DEFAULT_ROUTE);
      assert DEFAULT_ROUTE in own || DEFAULT_ROUTE in routes;
    }
  }
}
