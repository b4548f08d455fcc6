/**
  Automatic peer creation (autoProvisionPeer of internal/api/api_access_requests.go): collect the addresses in
  use, allocate the least free one in the configured range, add the peer, store its sealed key, and remove the
  peer again when that fails. Other peers, with any AllowedIPs, come and go between the calls.
*/
module AutoProvision {
  import opened Prelude
  import opened Cidr
  import opened Ipam

  // The server's own address and prefix, and the configured range.
  datatype Pool = Pool(server: Bytes, ones: nat, start: Bound, end: Bound)

  // `allowed`: the address in each AllowedIPs entry, if it parses. `granted`: set by auto-provisioning.
  datatype Peer = Peer(allowed: seq<Option<Bytes>>, granted: Option<Bytes>)

  type Peers = map<string, Peer>

  datatype Fault = NoStatus | Allocation(why: Ipam.Failure) | AddFailed | NoIdentifier | SealFailed

  function Network(pool: Pool): Net {
    NetOf(pool.server, pool.ones)
  }

  function AddressesOf(p: Peer): set<Bytes> {
    set a | a in p.allowed && a.Some? :: a.value
  }

  ghost function Used(pool: Pool, peers: Peers): set<Bytes> {
    (set k, a | k in peers && a in AddressesOf(peers[k]) :: a) + {pool.server}
  }

  ghost predicate Usable(pool: Pool) {
    && Norm(pool.server) == pool.server && Plain(Network(pool))
    && ParsedBound(pool.start) && ParsedBound(pool.end)
  }

  // ---------------------------------------------------------------- the invariant

  ghost predicate GoodAddress(pool: Pool, p: Peer)
    requires p.granted.Some?
  {
    var x, net := p.granted.value, Network(pool);
    && Some(x) in p.allowed
    && Contains(net, x) && x != net.base && x != pool.server
    && Low(net, pool.start) <= Value(x) <= High(net, pool.end)
  }

  /** Granted addresses lie in the range, are neither the network's nor the server's, and are distinct. */
  ghost predicate Good(pool: Pool, peers: Peers) {
    && (forall k | k in peers && peers[k].granted.Some? :: GoodAddress(pool, peers[k]))
    && (forall k, l | k in peers && l in peers && k != l && peers[k].granted.Some? && peers[l].granted.Some? ::
          peers[k].granted != peers[l].granted)
  }

  datatype Op = Provision(key: string) | Manual(key: string, allowed: seq<Option<Bytes>>) | Remove(key: string)

  ghost predicate Added(pool: Pool, peers: Peers, key: string, x: Bytes, peers': Peers) {
    && key !in peers
    && IsLeastFree(Network(pool), Low(Network(pool), pool.start), High(Network(pool), pool.end), Used(pool, peers),
                   Some(x))
    && peers' == peers[key := Peer([Some(x)], Some(x))]
  }

  /** What one operation may do. A failed provisioning may also leave the peer behind, when its clean-up fails. */
  ghost predicate Step(pool: Pool, peers: Peers, op: Op, peers': Peers) {
    match op
    case Provision(key) => peers' == peers || exists x: Bytes :: Added(pool, peers, key, x, peers')
    case Manual(key, allowed) => key !in peers && peers' == peers[key := Peer(allowed, None)]
    case Remove(key) => peers' == peers - {key}
  }

  lemma StepKeepsGood(pool: Pool, peers: Peers, op: Op, peers': Peers)
    requires Good(pool, peers) && Step(pool, peers, op, peers')
    ensures Good(pool, peers')
  {
    if op.Provision? && peers' != peers {
      var x: Bytes :| Added(pool, peers, op.key, x, peers');
      assert GoodAddress(pool, peers'[op.key]);
      forall k | k in peers && peers[k].granted.Some? ensures peers[k].granted.value != x {
        assert GoodAddress(pool, peers[k]);
        assert peers[k].granted.value in AddressesOf(peers[k]);
        assert peers[k].granted.value in Used(pool, peers);
      }
    }
    forall k | k in peers' && peers'[k].granted.Some? ensures GoodAddress(pool, peers'[k]) {
      assert k in peers ==> peers[k].granted.Some? ==> GoodAddress(pool, peers[k]);
    }
  }

  ghost predicate IsRun(pool: Pool, states: seq<Peers>, ops: seq<Op>) {
    |states| == |ops| + 1 && states[0] == map[]
    && forall i | 0 <= i < |ops| :: Step(pool, states[i], ops[i], states[i + 1])
  }

  /** Over every run from an empty server, at every moment. */
  lemma {:induction false} RunKeepsGood(pool: Pool, states: seq<Peers>, ops: seq<Op>, n: nat)
    requires IsRun(pool, states, ops) && n < |states|
    ensures Good(pool, states[n])
  {
    if n > 0 {
      RunKeepsGood(pool, states, ops, n - 1);
      StepKeepsGood(pool, states[n - 1], ops[n - 1], states[n]);
    }
  }

  /** A granted address is nobody's: no peer, granted or manual, has it among its AllowedIPs; it is the least such
      address of the configured range that is neither the network's nor the server's. */
  lemma GrantExactly(pool: Pool, peers: Peers, key: string, x: Bytes, peers': Peers)
    requires Usable(pool) && Added(pool, peers, key, x, peers')
    ensures forall k | k in peers :: Some(x) !in peers[k].allowed
    ensures Eligible(Network(pool), pool.start, pool.end, {pool.server}, x)
    ensures forall y: Bytes | Eligible(Network(pool), pool.start, pool.end, {pool.server}, y) && Value(y) < Value(x) ::
              exists k :: k in peers && Some(y) in peers[k].allowed
  {
    var used := Used(pool, peers);
    LeastFreeExactly(Network(pool), pool.start, pool.end, used, Some(x));
    forall k | k in peers ensures Some(x) !in peers[k].allowed {
      assert Some(x) in peers[k].allowed ==> x in AddressesOf(peers[k]);
    }
    forall y: Bytes | Eligible(Network(pool), pool.start, pool.end, {pool.server}, y) && Value(y) < Value(x)
      ensures exists k :: k in peers && Some(y) in peers[k].allowed
    {
      assert y in used;
    }
  }

  // ---------------------------------------------------------------- the handler

  ghost predicate InRange(net: Net, b: Bound) {
    b.Unset? || (b.At? && Contains(net, b.ip))
  }

  // The range is one of the network and has an address left.
  ghost predicate CanGrant(pool: Pool, peers: Peers) {
    && InRange(Network(pool), pool.start) && InRange(Network(pool), pool.end)
    && exists x: Bytes :: Eligible(Network(pool), pool.start, pool.end, Used(pool, peers), x)
  }

  class Instance {
    const pool: Pool
    var peers: Peers

    constructor (pool: Pool)
      ensures this.pool == pool && peers == map[] && Good(pool, peers)
    {
      this.pool := pool;
      peers := map[];
    }

    method UsedAddresses() returns (used: set<Bytes>)
      ensures used == Used(pool, peers)
    {
      used := {};
      var keys := peers.Keys;
      while keys != {}
        invariant keys <= peers.Keys
        invariant forall a :: a in used <==> exists k :: k in peers && k !in keys && a in AddressesOf(peers[k])
        decreases keys
      {
        var k :| k in keys;
        used := used + AddressesOf(peers[k]);
        keys := keys - {k};
      }
      used := used + {pool.server};
    }

    /** `key` is how the provider knows the new peer; the flags are the outcomes of the calls that can fail.
        `unnamed`: the provider adds the peer but does not say under which identifier, and it is not removed. */
    method AutoProvision(key: string, statusFails: bool, addFails: bool, unnamed: bool, storeFails: bool,
                         removeFails: bool)
      returns (r: Result<Bytes, Fault>)
      requires Usable(pool) && key !in peers
      requires !Endless(Network(pool), pool.start, pool.end, Used(pool, peers))
      modifies this
      ensures Step(pool, old(peers), Provision(key), peers)
      ensures r.Ok? ==> Added(pool, old(peers), key, r.value, peers)
      ensures r.Ok? <==> !statusFails && CanGrant(pool, old(peers)) && !addFails && !unnamed && !storeFails
      ensures r == Err(NoStatus) <==> statusFails
      ensures r.Err? && r.error.Allocation? <==> !statusFails && !CanGrant(pool, old(peers))
      ensures r == Err(AddFailed) <==> !statusFails && CanGrant(pool, old(peers)) && addFails
      ensures r == Err(NoIdentifier) <==> !statusFails && CanGrant(pool, old(peers)) && !addFails && unnamed
      ensures r.Err? && !(r.error.NoIdentifier? || (r.error.SealFailed? && removeFails)) ==> peers == old(peers)
      ensures r.Err? && (r.error.NoIdentifier? || (r.error.SealFailed? && removeFails)) ==>
                exists x :: Added(pool, old(peers), key, x, peers)
      ensures r == Err(Allocation(Exhausted)) ==>
                NoCandidate(Network(pool), Low(Network(pool), pool.start), High(Network(pool), pool.end),
                            Used(pool, old(peers)))
    {
      if statusFails { return Err(NoStatus); }
      var used := UsedAddresses();
      var net := Network(pool);
      var free := NextFreeIPInRange(Some(net), pool.start, pool.end, used);
      assert CanGrant(pool, peers) <==> free.Ok? by {
        if InRange(net, pool.start) && InRange(net, pool.end) {
          LeastFreeExactly(net, pool.start, pool.end, used, if free.Ok? then Some(free.value.0) else None);
        }
      }
      if free.Err? { return Err(Allocation(free.error)); }
      var x := free.value.0;
      if addFails { return Err(AddFailed); }
      peers := peers[key := Peer([Some(x)], Some(x))];
      assert Added(pool, old(peers), key, x, peers);
      if unnamed { return Err(NoIdentifier); }
      if storeFails {
        if !removeFails {
          peers := peers - {key};
          assert peers == old(peers);
        }
        return Err(SealFailed);
      }
      r := Ok(x);
    }

    method RemovePeer(key: string)
      modifies this
      ensures Step(pool, old(peers), Remove(key), peers)
    {
      peers := peers - {key};
    }
  }
}
