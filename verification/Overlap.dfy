/**
  Overlap checks (internal/vpn/overlap.go) and the subnet catalogue they guard (internal/api/api_subnets.go,
  meshAddressSpace of internal/api/mesh.go): creations are checked against every tunnel and every catalogued
  network.
*/
module Overlap {
  import opened Prelude
  import opened Cidr

  // What net.ParseCIDR returns for a text: the address and the prefix length, or nothing.
  datatype Parsed = Parsed(ip: Bytes, ones: nat)

  predicate CidrOverlap(a: Net, b: Net) {
    Contains(a, b.base) || Contains(b, a.base)
  }

  ghost predicate ShareAddress(a: Net, b: Net) {
    exists x: Bytes :: Contains(a, x) && Contains(b, x)
  }

  /** Two networks share an address if and only if one contains the other's base. */
  lemma OverlapExactly(a: Net, b: Net)
    requires Valid(a) && Valid(b)
    ensures CidrOverlap(a, b) <==> ShareAddress(a, b)
  {
    BaseIsInside(a);
    BaseIsInside(b);
    if Contains(a, b.base) { assert Contains(b, b.base); }
    if Contains(b, a.base) { assert Contains(a, a.base); }
    if ShareAddress(a, b) {
      var x :| Contains(a, x) && Contains(b, x);
      ContainsIsInterval(a, x);
      ContainsIsInterval(b, x);
      ContainsIsInterval(a, b.base);
      ContainsIsInterval(b, a.base);
    }
  }

  datatype Verdict = Free | BadCandidate | Overlaps(entry: nat)

  method CheckNoOverlap(candidate: Option<Net>, existing: seq<Option<Net>>) returns (v: Verdict)
    requires candidate.Some? ==> Valid(candidate.value)
    requires forall e | e in existing && e.Some? :: Valid(e.value)
    ensures v.BadCandidate? <==> candidate.None?
    ensures v.Free? <==> (candidate.Some? &&
              forall i | 0 <= i < |existing| && existing[i].Some? :: !ShareAddress(candidate.value, existing[i].value))
    ensures v.Overlaps? ==>
              v.entry < |existing| && existing[v.entry].Some? && ShareAddress(candidate.value, existing[v.entry].value)
    ensures v.Overlaps? ==>
              forall i | 0 <= i < v.entry && existing[i].Some? :: !ShareAddress(candidate.value, existing[i].value)
  {
    if candidate.None? { return BadCandidate; }
    for k := 0 to |existing|
      invariant forall i | 0 <= i < k && existing[i].Some? :: !ShareAddress(candidate.value, existing[i].value)
    {
      if existing[k].None? { continue; }
      assert existing[k] in existing;
      OverlapExactly(candidate.value, existing[k].value);
      if CidrOverlap(candidate.value, existing[k].value) { return Overlaps(k); }
    }
    v := Free;
  }

  // ---------------------------------------------------------------- the catalogue

  // A creation sees the tunnels that are up at that moment; a deletion names a row.
  datatype Op = Create(cidr: Option<Parsed>, tunnels: seq<Option<Net>>) | Delete(row: nat)

  predicate WellParsed(op: Op) {
    op.Create? ==>
      && (op.cidr.Some? ==> Valid(NetOf(op.cidr.value.ip, op.cidr.value.ones)))
      && (forall t | t in op.tunnels && t.Some? :: Valid(t.value))
  }

  ghost predicate Accepted(subnets: seq<Net>, op: Op)
    requires op.Create?
  {
    && op.cidr.Some?
    && op.cidr.value.ip == Masked(op.cidr.value.ip, op.cidr.value.ones) // the cidr column rejects host bits
    && var net := NetOf(op.cidr.value.ip, op.cidr.value.ones);
    && (forall t | t in op.tunnels && t.Some? :: !ShareAddress(net, t.value))
    && (forall s | s in subnets :: !ShareAddress(net, s))
  }

  ghost function Step(subnets: seq<Net>, op: Op): seq<Net> {
    match op
    case Create(cidr, _) => if Accepted(subnets, op) then subnets + [NetOf(cidr.value.ip, cidr.value.ones)] else subnets
    case Delete(row) => if row < |subnets| then subnets[..row] + subnets[row + 1..] else subnets
  }

  ghost function Run(subnets: seq<Net>, ops: seq<Op>): seq<Net> {
    if ops == [] then subnets else Step(Run(subnets, ops[..|ops| - 1]), ops[|ops| - 1])
  }

  ghost predicate Disjoint(subnets: seq<Net>) {
    && (forall s | s in subnets :: Valid(s))
    && (forall i, j | 0 <= i < j < |subnets| :: !ShareAddress(subnets[i], subnets[j]))
  }

  lemma StepKeepsDisjoint(subnets: seq<Net>, op: Op)
    requires Disjoint(subnets) && WellParsed(op)
    ensures Disjoint(Step(subnets, op))
  {
    var s' := Step(subnets, op);
    if op.Create? && Accepted(subnets, op) {
      var net := NetOf(op.cidr.value.ip, op.cidr.value.ones);
      forall i | 0 <= i < |subnets| ensures !ShareAddress(subnets[i], net) {
        assert subnets[i] in subnets;
        assert !ShareAddress(net, subnets[i]);
      }
    }
  }

  /** Over any run of guarded creations and deletions from the empty catalogue, a destination matches at most
      one entry. */
  lemma {:induction false} RunKeepsDisjoint(ops: seq<Op>)
    requires forall op | op in ops :: WellParsed(op)
    ensures Disjoint(Run([], ops))
  {
    if ops != [] {
      assert forall op | op in ops[..|ops| - 1] :: op in ops;
      RunKeepsDisjoint(ops[..|ops| - 1]);
      assert ops[|ops| - 1] in ops;
      StepKeepsDisjoint(Run([], ops[..|ops| - 1]), ops[|ops| - 1]);
    }
  }

  lemma {:induction false} RunOneMore(subnets: seq<Net>, ops: seq<Op>, op: Op)
    ensures Run(subnets, ops + [op]) == Step(Run(subnets, ops), op)
  {
    assert (ops + [op])[..|ops|] == ops;
  }

  // The network holds the address.
  ghost predicate Covers(nets: seq<Option<Net>>, x: Bytes) {
    exists n | n in nets :: n.Some? && Contains(n.value, x)
  }

  /** A creation adds its network, as the last row, exactly if the text is a network without host bits none of whose
      addresses is in a tunnel or in a catalogued network; otherwise nothing changes. */
  lemma CreateExactly(ops: seq<Op>, cidr: Option<Parsed>, tunnels: seq<Option<Net>>)
    ensures var before := Run([], ops);
            Run([], ops + [Create(cidr, tunnels)]) == before +
            if cidr.Some? && Masked(cidr.value.ip, cidr.value.ones) == cidr.value.ip
               && forall x: Bytes | Contains(Net(cidr.value.ip, cidr.value.ones), x) ::
                    !Covers(tunnels, x) && forall s | s in before :: !Contains(s, x)
            then [Net(cidr.value.ip, cidr.value.ones)] else []
  {
    var before, op := Run([], ops), Create(cidr, tunnels);
    RunOneMore([], ops, op);
    if cidr.Some? && Masked(cidr.value.ip, cidr.value.ones) == cidr.value.ip {
      var net := Net(cidr.value.ip, cidr.value.ones);
      assert NetOf(cidr.value.ip, cidr.value.ones) == net;
      if Accepted(before, op) {
        forall x: Bytes | Contains(net, x) ensures !Covers(tunnels, x) && forall s | s in before :: !Contains(s, x) {
          forall t | t in tunnels && t.Some? ensures !Contains(t.value, x) { assert !ShareAddress(net, t.value); }
          forall s | s in before ensures !Contains(s, x) { assert !ShareAddress(net, s); }
        }
      } else if t :| t in tunnels && t.Some? && ShareAddress(net, t.value) {
        var x :| Contains(net, x) && Contains(t.value, x);
        assert Covers(tunnels, x);
      } else {
        var s :| s in before && ShareAddress(net, s);
        var x :| Contains(net, x) && Contains(s, x);
      }
    }
  }

  lemma AtMostOneRoute(ops: seq<Op>, dst: Bytes, i: nat, j: nat)
    requires forall op | op in ops :: WellParsed(op)
    requires i < |Run([], ops)| && j < |Run([], ops)|
    requires Contains(Run([], ops)[i], dst) && Contains(Run([], ops)[j], dst)
    ensures i == j
  {
    RunKeepsDisjoint(ops);
  }

  method MeshAddressSpace(tunnels: seq<Option<Net>>, subnets: seq<Net>) returns (space: seq<Option<Net>>)
    ensures forall e :: e in space <==> e in tunnels || (e.Some? && e.value in subnets)
  {
    space := tunnels;
    for i := 0 to |subnets|
      invariant forall e :: e in space <==> e in tunnels || (e.Some? && e.value in subnets[..i])
    {
      assert subnets[..i + 1] == subnets[..i] + [subnets[i]];
      space := space + [Some(subnets[i])];
    }
    assert subnets[..|subnets|] == subnets;
  }

  /** The handler and its table. */
  class Catalogue {
    var subnets: seq<Net>

    constructor ()
      ensures subnets == []
    {
      subnets := [];
    }

    method Add(cidr: Option<Parsed>, tunnels: seq<Option<Net>>) returns (ok: bool)
      requires WellParsed(Create(cidr, tunnels)) && Disjoint(subnets)
      modifies this
      ensures subnets == Step(old(subnets), Create(cidr, tunnels)) && Disjoint(subnets)
      ensures ok <==> Accepted(old(subnets), Create(cidr, tunnels))
    {
      ghost var op := Create(cidr, tunnels);
      StepKeepsDisjoint(subnets, op);
      if cidr.None? { return false; }
      var net := NetOf(cidr.value.ip, cidr.value.ones);
      var space := MeshAddressSpace(tunnels, subnets);
      var v := CheckNoOverlap(Some(net), space);
      SpaceFree(tunnels, subnets, space, net);
      if !v.Free? || cidr.value.ip != Masked(cidr.value.ip, cidr.value.ones) { return false; }
      subnets := subnets + [net];
      ok := true;
    }

    method Remove(row: nat)
      requires Disjoint(subnets)
      modifies this
      ensures subnets == Step(old(subnets), Delete(row)) && Disjoint(subnets)
    {
      StepKeepsDisjoint(subnets, Delete(row));
      if row < |subnets| { subnets := subnets[..row] + subnets[row + 1..]; }
    }
  }

  lemma SpaceFree(tunnels: seq<Option<Net>>, subnets: seq<Net>, space: seq<Option<Net>>, net: Net)
    requires forall e :: e in space <==> e in tunnels || (e.Some? && e.value in subnets)
    ensures (forall i | 0 <= i < |space| && space[i].Some? :: !ShareAddress(net, space[i].value)) <==>
            (forall t | t in tunnels && t.Some? :: !ShareAddress(net, t.value))
            && (forall s | s in subnets :: !ShareAddress(net, s))
  {
    if forall i | 0 <= i < |space| && space[i].Some? :: !ShareAddress(net, space[i].value) {
      forall s | s in subnets ensures !ShareAddress(net, s) { assert Some(s) in space; }
      forall t | t in tunnels && t.Some? ensures !ShareAddress(net, t.value) { assert t in space; }
    } else {
      var i :| 0 <= i < |space| && space[i].Some? && ShareAddress(net, space[i].value);
      assert space[i] in space;
    }
  }
}
