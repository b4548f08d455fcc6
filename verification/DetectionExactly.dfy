/**
  Exactly when re-applying a network detection changes nothing, told from the tables and the batch before the first run.
*/
module DetectionExactly {
  import opened Prelude
  import opened NetworkDetect
  import opened DetectionReapply
  import opened DetectionSpent

  // ---------------------------------------------------------------- quiet batches, flattened

  // The siblings of the decisions that act, in order.
  function ActingLinks(f: Db, p: string, ds: seq<Decision>): seq<string> {
    if ds == [] then []
    else ActingLinks(f, p, ds[..|ds| - 1]) + if Acts(f, p, ds[|ds| - 1]) then ds[|ds| - 1].meshWith else []
  }

  lemma DoneAfterJoins(done: set<string>, p: string, a: seq<string>, b: seq<string>)
    ensures DoneAfter(DoneAfter(done, p, a), p, b) == DoneAfter(done, p, a + b)
  {
    assert forall s :: s in a + b <==> s in a || s in b;
  }

  lemma {:induction false} DoneAllIs(f: Db, p: string, ds: seq<Decision>)
    ensures DoneAll(f, p, ds) == DoneAfter({}, p, ActingLinks(f, p, ds))
  {
    if ds != [] {
      var init, d := ds[..|ds| - 1], ds[|ds| - 1];
      DoneAllIs(f, p, init);
      DoneAfterJoins({}, p, ActingLinks(f, p, init), d.meshWith);
      assert ActingLinks(f, p, init) + [] == ActingLinks(f, p, init);
    }
  }

  lemma {:induction false} QuietSibsJoin(f: Db, done: set<string>, p: string, a: seq<string>, b: seq<string>)
    ensures QuietSibs(f, done, p, a + b) <==> QuietSibs(f, done, p, a) && QuietSibs(f, DoneAfter(done, p, a), p, b)
    decreases |b|
  {
    if b == [] {
      assert a + b == a;
    } else {
      var n := |b| - 1;
      assert (a + b)[..|a + b| - 1] == a + b[..n] && (a + b)[|a + b| - 1] == b[n];
      QuietSibsJoin(f, done, p, a, b[..n]);
      DoneAfterJoins(done, p, a, b[..n]);
    }
  }

  ghost predicate LinkedAt(f: Db, p: string, links: seq<string>, i: nat)
    requires i < |links|
  {
    First(p, links, i) ==> Linked(f, p, links[i])
  }

  lemma {:induction false} QuietSibsAt(f: Db, p: string, links: seq<string>)
    ensures QuietSibs(f, {}, p, links) <==> forall i | 0 <= i < |links| :: LinkedAt(f, p, links, i)
    decreases |links|
  {
    if links != [] {
      var n := |links| - 1;
      var init, s := links[..n], links[n];
      assert links == init + [s];
      QuietSibsAt(f, p, init);
      forall i | 0 <= i < n ensures LinkedAt(f, p, links, i) <==> LinkedAt(f, p, init, i) {
        EarlierIsFirst(p, init, s, i);
      }
      assert LinkedAt(f, p, links, n) <==> MeshPairKey(p, s) in DoneAfter({}, p, init) || Linked(f, p, s);
    }
  }

  predicate Provided(f: Db, p: string, d: Decision) {
    Acts(f, p, d) ==>
      && PeerKey(p, d.peerId) in f.owners && (|d.subnets| > 0 ==> Grouped(f, p))
      && forall sn | sn in d.subnets :: Trim(sn.cidr) == "" || Trim(sn.cidr) in Cidrs(f)
  }

  lemma QuietOneFlat(f: Db, p: string, init: seq<Decision>, d: Decision)
    ensures QuietSibs(f, {}, p, ActingLinks(f, p, init + [d])) && Provided(f, p, d) <==>
            QuietSibs(f, {}, p, ActingLinks(f, p, init)) && QuietOne(f, p, d, DoneAll(f, p, init))
  {
    var links := ActingLinks(f, p, init);
    assert (init + [d])[..|init|] == init;
    assert links + [] == links;
    DoneAllIs(f, p, init);
    QuietSibsJoin(f, {}, p, links, d.meshWith);
  }

  /** A batch is quiet exactly if its acting decisions have their owners, group and networks and each pair is linked. */
  lemma {:induction false} QuietFlat(f: Db, p: string, ds: seq<Decision>)
    ensures QuietAll(f, p, ds) <==>
            (forall d | d in ds :: Provided(f, p, d)) && QuietSibs(f, {}, p, ActingLinks(f, p, ds))
  {
    if ds != [] {
      var init, d := ds[..|ds| - 1], ds[|ds| - 1];
      QuietFlat(f, p, init);
      assert ds == init + [d];
      assert forall x | x in ds :: x in init || x == d;
      assert d in ds && forall x | x in init :: x in ds;
      QuietOneFlat(f, p, init, d);
    }
  }

  // ---------------------------------------------------------------- who is owned after a run

  lemma {:induction false} SubnetsKeepOwners(acc: Acc, p: string, owner: int, g: Option<int>, sns: seq<NewSubnet>,
                                             canon: Canon)
    ensures SubnetAll(acc, p, owner, g, sns, canon).db.owners == acc.db.owners
  {
    if sns != [] { SubnetsKeepOwners(acc, p, owner, g, sns[..|sns| - 1], canon); }
  }

  lemma EnrichKeepsOwners(acc: Acc, p: string, d: Decision, owner: int, canon: Canon)
    ensures Enrich(acc, p, d, owner, canon).db.owners == acc.db.owners
  {
    var g := EnsureProviderGroup(acc.db, p);
    if |d.subnets| == 0 || g.Some? {
      var acc1 := if |d.subnets| > 0 then acc.(db := g.value.0) else acc;
      var gid := if |d.subnets| > 0 then Some(g.value.1) else None;
      var acc2 := SubnetAll(acc1, p, owner, gid, d.subnets, canon);
      SubnetsKeepOwners(acc1, p, owner, gid, d.subnets, canon);
      LinksFrame(acc2, acc2, p, d.meshWith);
    }
  }

  lemma ActingOwns(acc: Acc, p: string, d: Decision, pubKey: Bytes, canon: Canon)
    requires d.action.CreateNode? && (PeerKey(p, d.peerId) in acc.db.owners || Trim(d.nodeName) != "")
    ensures Decide(acc, p, d, pubKey, canon).db.owners.Keys == acc.db.owners.Keys + {PeerKey(p, d.peerId)}
  {
    var key := PeerKey(p, d.peerId);
    if key in acc.db.owners {
      var acc1 := acc.(sum := acc.sum.(alreadyHandled := acc.sum.alreadyHandled + 1));
      assert Decide(acc, p, d, pubKey, canon) == Enrich(acc1, p, d, acc.db.owners[key], canon);
      EnrichKeepsOwners(acc1, p, d, acc.db.owners[key], canon);
    } else {
      var acc1 := OwnPeer(acc, p, d, pubKey);
      assert Decide(acc, p, d, pubKey, canon) == Enrich(acc1, p, d, acc.db.nextNode, canon);
      assert acc1.db.owners.Keys == acc.db.owners.Keys + {key};
      EnrichKeepsOwners(acc1, p, d, acc.db.nextNode, canon);
    }
  }

  lemma OneOwns(acc: Acc, p: string, d: Decision, canon: Canon)
    requires !acc.failed
    ensures ApplyOne(acc, p, d, canon).db.owners.Keys ==
            acc.db.owners.Keys + if Acts(acc.db, p, d) then {PeerKey(p, d.peerId)} else {}
  {
    if Acts(acc.db, p, d) {
      ActingOwns(acc, p, d, PeerId.DecodePeerId(d.peerId).value, canon);
    } else {
      IdleOnlyLinks(acc, acc, p, d, canon);
    }
  }

  /** After a run that did not stop before its last decision, exactly the peers owned before and the named ones are
      owned. */
  lemma {:induction false} OwnersForeseen(db: Db, p: string, ds: seq<Decision>, canon: Canon)
    requires ds == [] || !Apply(db, p, ds[..|ds| - 1], canon).failed
    ensures Apply(db, p, ds, canon).db.owners.Keys == db.owners.Keys + Claimed(p, ds)
    decreases |ds|
  {
    if ds != [] {
      var init, d := ds[..|ds| - 1], ds[|ds| - 1];
      assert ds == init + [d];
      OwnersForeseen(db, p, init, canon);
      OneOwns(Apply(db, p, init, canon), p, d, canon);
      ActsIsForeseen(db, Apply(db, p, init, canon).db, p, init, d);
      ApplyAppends(db, p, init, d, canon);
    }
  }

  // ---------------------------------------------------------------- the same decisions act again

  lemma {:induction false} ClaimedBy(p: string, ds: seq<Decision>, key: PeerKey) returns (j: nat)
    requires key in Claimed(p, ds)
    ensures j < |ds| && Naming(ds[j]) && key == PeerKey(p, ds[j].peerId)
    decreases |ds|
  {
    var n := |ds| - 1;
    if Naming(ds[n]) && key == PeerKey(p, ds[n].peerId) { j := n; } else { j := ClaimedBy(p, ds[..n], key); }
  }

  lemma {:induction false} ClaimedHas(p: string, ds: seq<Decision>, j: nat)
    requires j < |ds| && Naming(ds[j])
    ensures PeerKey(p, ds[j].peerId) in Claimed(p, ds)
    decreases |ds|
  {
    if j < |ds| - 1 { ClaimedHas(p, ds[..|ds| - 1], j); }
  }

  lemma {:induction false} ClaimedBefore(p: string, ds: seq<Decision>, i: nat, m: nat)
    requires i <= m <= |ds|
    ensures Claimed(p, ds[..i]) <= Claimed(p, ds[..m])
    decreases m
  {
    if i < m {
      ClaimedBefore(p, ds, i, m - 1);
      assert ds[..m][..m - 1] == ds[..m - 1];
    }
  }

  // Without late naming, a nameless decision on an unowned peer is claimed before it or not at all.
  lemma NeverClaimedLate(db: Db, p: string, ds: seq<Decision>, i: nat, m: nat)
    requires NoLateNaming(db, p, ds) && i < m <= |ds|
    requires var key := PeerKey(p, ds[i].peerId);
             ds[i].action.CreateNode? && Trim(ds[i].nodeName) == "" && key !in db.owners && key in Claimed(p, ds[..m])
    ensures PeerKey(p, ds[i].peerId) in Claimed(p, ds[..i])
  {
    var j := ClaimedBy(p, ds[..m], PeerKey(p, ds[i].peerId));
    assert ds[j].peerId == ds[i].peerId && Trim(ds[j].nodeName) != "" && ds[j].action.CreateNode?;
    assert j < i;
    ClaimedHas(p, ds[..i], j);
  }

  lemma ActsAgain(db: Db, f: Db, p: string, ds: seq<Decision>, i: nat, m: nat)
    requires NoLateNaming(db, p, ds) && i < m <= |ds|
    requires f.owners.Keys == db.owners.Keys + Claimed(p, ds[..m])
    ensures ActsAfter(db, p, ds[..i], ds[i]) <==> Acts(f, p, ds[i])
    ensures ActsAfter(f, p, ds[..i], ds[i]) <==> Acts(f, p, ds[i])
  {
    var d, key := ds[i], PeerKey(p, ds[i].peerId);
    assert key in f.owners <==> key in db.owners || key in Claimed(p, ds[..m]) by {
      assert key in f.owners <==> key in f.owners.Keys;
    }
    ClaimedBefore(p, ds, i, m);
    if d.action.CreateNode? && Trim(d.nodeName) == "" && key !in db.owners && key in Claimed(p, ds[..m]) {
      NeverClaimedLate(db, p, ds, i, m);
    }
  }

  /** The links foreseen before the first run are those of the decisions that act afterwards, and of a second run. */
  lemma {:induction false} LinksForeseen(db: Db, f: Db, p: string, ds: seq<Decision>, k: nat, m: nat)
    requires NoLateNaming(db, p, ds) && k <= m <= |ds| && !AsksForGroup(db, p, ds[..k])
    requires f.owners.Keys == db.owners.Keys + Claimed(p, ds[..m])
    ensures ActingLinks(f, p, ds[..k]) == OpenLinks(db, p, ds[..k])
    ensures OpenLinks(f, p, ds[..k]) == OpenLinks(db, p, ds[..k]) && !AsksForGroup(f, p, ds[..k])
    ensures forall d | d in ds[..k] && Acts(f, p, d) :: |d.subnets| == 0
    decreases k
  {
    if k > 0 {
      var init, d := ds[..k - 1], ds[k - 1];
      assert ds[..k] == init + [d] && ds[..k][..|ds[..k]| - 1] == init;
      OpenOneMore(db, p, init, d);
      OpenOneMore(f, p, init, d);
      LinksForeseen(db, f, p, ds, k - 1, m);
      ActsAgain(db, f, p, ds, k - 1, m);
      assert OpenLinks(db, p, init) + [] == OpenLinks(db, p, init);
    }
  }

  // ---------------------------------------------------------------- where a batch stops

  lemma {:induction false} StopsAt(db: Db, p: string, ds: seq<Decision>)
    ensures var k := StopAt(db, p, ds);
            && !AsksForGroup(db, p, ds[..k]) && OpenLinks(db, p, ds[..k]) == OpenLinks(db, p, ds)
            && (AsksForGroup(db, p, ds) <==> k < |ds|)
            && (k < |ds| ==> ActsAfter(db, p, ds[..k], ds[k]) && |ds[k].subnets| > 0)
    decreases |ds|
  {
    if !AsksForGroup(db, p, ds) {
      assert ds[..|ds|] == ds;
    } else {
      var init, d := ds[..|ds| - 1], ds[|ds| - 1];
      assert ds == init + [d];
      OpenOneMore(db, p, init, d);
      StopsAt(db, p, init);
      assert ds[..StopAt(db, p, ds)] == init[..StopAt(db, p, ds)];
    }
  }

  // ---------------------------------------------------------------- the provider ends without a group

  lemma StopFails(acc: Acc, p: string, d: Decision, canon: Canon)
    requires !acc.failed && Acts(acc.db, p, d) && |d.subnets| > 0 && !HasRoom(acc.db, p)
    ensures var r := ApplyOne(acc, p, d, canon);
            && r.failed && SameNet(r.db, acc.db) && r.db.subnets == acc.db.subnets && r.db.dismissed == acc.db.dismissed
            && (PeerKey(p, d.peerId) in acc.db.owners ==> r.db == acc.db)
  {
  }

  ghost predicate SameAll(a: Db, b: Db) {
    SameTables(a, b) && a.dismissed == b.dismissed
  }

  lemma {:induction false} SubsetIsSmaller<K>(a: set<K>, b: set<K>)
    requires a <= b
    ensures |a| <= |b|
    decreases |a|
  {
    if a != {} {
      var x :| x in a;
      SubsetIsSmaller(a - {x}, b - {x});
    }
  }

  lemma {:induction false} SubsetOfSameSize<K>(a: set<K>, b: set<K>)
    requires a <= b && |a| == |b|
    ensures a == b
  {
    if a != b {
      var x :| x in b && x !in a;
      assert a <= b - {x};
      SubsetIsSmaller(a, b - {x});
    }
  }

  lemma SameSize<K, V>(a: map<K, V>, b: map<K, V>)
    requires Submap(a, b) && |a| == |b|
    ensures a == b
  {
    assert a.Keys <= b.Keys;
    assert |a.Keys| == |a| && |b.Keys| == |b|;
    SubsetOfSameSize(a.Keys, b.Keys);
  }

  lemma GrownSame(a: Acc, b: Acc)
    requires Progress(a, b) && a.db.owners.Keys == b.db.owners.Keys && a.db.subnets == b.db.subnets
             && SameNet(a.db, b.db)
    ensures SameTables(a.db, b.db)
  {
    assert a.db.owners == b.db.owners;
    assert |a.db.owners| == |b.db.owners|;
    SameSize(a.db.nodes, b.db.nodes);
  }

  ghost predicate Left(f: Db, net: Db, subnets: seq<Subnet>, owned: set<PeerKey>, dismissed: set<PeerKey>) {
    SameNet(f, net) && f.subnets == subnets && f.owners.Keys == owned && f.dismissed == dismissed
  }

  // The tables a first run leaves when it only made nodes and linked.
  ghost predicate LeftBy(db: Db, f: Db, p: string, ds: seq<Decision>, k: nat, m: nat)
    requires k <= |ds| && m <= |ds|
  {
    Left(f, MeshAll(Begin(db), p, OpenLinks(db, p, ds[..k])).db, db.subnets,
         db.owners.Keys + Claimed(p, ds[..m]), DismissAll(db.dismissed, p, ds[..k]))
  }

  lemma AllSettledWithout(db: Db, f: Db, p: string, links: seq<string>)
    requires !HasRoom(db, p) && Adopter(db, p, links) == |links| && SameNet(f, MeshAll(Begin(db), p, links).db)
    ensures AllSettled(f, p, links) && !HasRoom(f, p)
  {
    var acc := MeshAll(Begin(db), p, links);
    LinkageHolds(db, p, links);
    FullStays(db, f);
    assert forall q :: SettingsOf(f, q) == SettingsOf(acc.db, q);
    forall i | 0 <= i < |links| ensures SettledAt(f, p, links, i) { assert LinkAt(db, acc.db, p, links, i); }
  }

  // A run whose links are settled and whose peers are owned.
  lemma IdleRun(f: Db, p: string, ds: seq<Decision>, canon: Canon)
    requires Sound(f) && !AsksForGroup(f, p, ds) && Claimed(p, ds) <= f.owners.Keys
    requires MeshAll(Begin(f), p, OpenLinks(f, p, ds)).db == f
    ensures var acc := Apply(f, p, ds, canon);
            !acc.failed && SameTables(f, acc.db) && SameNet(f, acc.db) && f.subnets == acc.db.subnets
            && f.owners == acc.db.owners
  {
    var acc := Apply(f, p, ds, canon);
    assert OnlyLinked(f, acc, p, ds) by { OpenRun(f, p, ds, canon); }
    assert acc.db.owners.Keys == f.owners.Keys;
    assert Progress(Begin(f), acc) by { ApplyProgress(Begin(f), p, ds, canon); }
    GrownSame(Begin(f), acc);
  }

  lemma DismissedAgain(f: Db, s: set<PeerKey>, p: string, ds: seq<Decision>, canon: Canon)
    requires Sound(f) && f.dismissed == DismissAll(s, p, ds) && !Apply(f, p, ds, canon).failed
    ensures Apply(f, p, ds, canon).db.dismissed == f.dismissed
  {
    ApplyDismisses(Begin(f), p, ds, canon);
    DismissTwice(s, p, ds);
  }

  /** The second run, up to where the first one stopped or ended. */
  lemma AgainWithout(db: Db, f: Db, p: string, ds: seq<Decision>, k: nat, m: nat, canon: Canon)
    requires Sound(f) && !HasRoom(db, p) && NoLateNaming(db, p, ds) && k <= m <= |ds| && !AsksForGroup(db, p, ds[..k])
    requires Adopter(db, p, OpenLinks(db, p, ds[..k])) == |OpenLinks(db, p, ds[..k])| && LeftBy(db, f, p, ds, k, m)
    ensures var acc := Apply(f, p, ds[..k], canon);
            !acc.failed && SameAll(f, acc.db) && SameNet(f, acc.db) && f.owners == acc.db.owners
  {
    LinksForeseen(db, f, p, ds, k, m);
    assert MeshAll(Begin(f), p, OpenLinks(f, p, ds[..k])).db == f by {
      AllSettledWithout(db, f, p, OpenLinks(db, p, ds[..k]));
      SettledLinks(f, p, OpenLinks(db, p, ds[..k]));
    }
    assert Claimed(p, ds[..k]) <= f.owners.Keys by { ClaimedBefore(p, ds, k, m); }
    IdleRun(f, p, ds[..k], canon);
    DismissedAgain(f, db.dismissed, p, ds[..k], canon);
  }

  lemma RunStops(db: Db, p: string, ds: seq<Decision>, k: nat, canon: Canon)
    requires k < |ds| && ApplyOne(Apply(db, p, ds[..k], canon), p, ds[k], canon).failed
    ensures Apply(db, p, ds, canon) == ApplyOne(Apply(db, p, ds[..k], canon), p, ds[k], canon)
  {
    assert ds[..k + 1] == ds[..k] + [ds[k]];
    ApplyAppends(db, p, ds[..k], ds[k], canon);
    FailureStops(Begin(db), p, ds, k + 1, canon);
  }

  // The run up to the stop, from tables without room.
  lemma UpToStop(db: Db, p: string, ds: seq<Decision>, k: nat, canon: Canon)
    requires Sound(db) && !HasRoom(db, p) && k <= |ds| && !AsksForGroup(db, p, ds[..k])
    requires Adopter(db, p, OpenLinks(db, p, ds[..k])) == |OpenLinks(db, p, ds[..k])|
    ensures var acc := Apply(db, p, ds[..k], canon);
            !acc.failed && LeftBy(db, acc.db, p, ds, k, k) && !HasRoom(acc.db, p) && Sound(acc.db)
  {
    var acc := Apply(db, p, ds[..k], canon);
    OpenRun(db, p, ds[..k], canon);
    ApplyDismisses(Begin(db), p, ds[..k], canon);
    AllSettledWithout(db, acc.db, p, OpenLinks(db, p, ds[..k]));
    ApplyProgress(Begin(db), p, ds[..k], canon);
  }

  lemma LeftWithOwner(f: Db, f': Db, net: Db, subnets: seq<Subnet>, owned: set<PeerKey>, dismissed: set<PeerKey>,
                      key: PeerKey)
    requires Left(f, net, subnets, owned, dismissed) && f'.owners.Keys == f.owners.Keys + {key}
    requires SameNet(f', f) && f'.subnets == f.subnets && f'.dismissed == f.dismissed
    ensures Left(f', net, subnets, owned + {key}, dismissed) && key in f'.owners
  {
    assert key in f'.owners.Keys;
  }

  lemma StopLeaves(acc: Acc, p: string, d: Decision, canon: Canon, net: Db, subnets: seq<Subnet>, owned: set<PeerKey>,
                   dismissed: set<PeerKey>)
    requires !acc.failed && Acts(acc.db, p, d) && |d.subnets| > 0 && !HasRoom(acc.db, p)
    requires Left(acc.db, net, subnets, owned, dismissed)
    ensures var r := ApplyOne(acc, p, d, canon);
            r.failed && Left(r.db, net, subnets, owned + {PeerKey(p, d.peerId)}, dismissed)
            && PeerKey(p, d.peerId) in r.db.owners
  {
    var r := ApplyOne(acc, p, d, canon);
    assert r.failed && SameNet(r.db, acc.db) && r.db.subnets == acc.db.subnets
           && r.db.dismissed == acc.db.dismissed by {
      StopFails(acc, p, d, canon);
    }
    assert r.db.owners.Keys == acc.db.owners.Keys + {PeerKey(p, d.peerId)} by { OneOwns(acc, p, d, canon); }
    LeftWithOwner(acc.db, r.db, net, subnets, owned, dismissed, PeerKey(p, d.peerId));
  }

  lemma OwnedAtStop(db: Db, f: Db, p: string, ds: seq<Decision>, k: nat)
    requires k < |ds| && f.owners.Keys == db.owners.Keys + Claimed(p, ds[..k]) && ActsAfter(db, p, ds[..k], ds[k])
    ensures Acts(f, p, ds[k])
    ensures db.owners.Keys + Claimed(p, ds[..k]) + {PeerKey(p, ds[k].peerId)} ==
              db.owners.Keys + Claimed(p, ds[..k + 1])
  {
    assert ds[..k + 1] == ds[..k] + [ds[k]];
    ActsIsForeseen(db, f, p, ds[..k], ds[k]);
  }

  // The decision that stops the run.
  lemma AtStop(db: Db, p: string, ds: seq<Decision>, k: nat, canon: Canon)
    requires Sound(db) && !HasRoom(db, p) && k < |ds| && !AsksForGroup(db, p, ds[..k])
    requires Adopter(db, p, OpenLinks(db, p, ds[..k])) == |OpenLinks(db, p, ds[..k])|
    requires ActsAfter(db, p, ds[..k], ds[k]) && |ds[k].subnets| > 0
    ensures LeftBy(db, Apply(db, p, ds, canon).db, p, ds, k, k + 1)
            && PeerKey(p, ds[k].peerId) in Apply(db, p, ds, canon).db.owners
  {
    var acc, key, owned := Apply(db, p, ds[..k], canon), PeerKey(p, ds[k].peerId), db.owners.Keys + Claimed(p, ds[..k]);
    var net, dismissed := MeshAll(Begin(db), p, OpenLinks(db, p, ds[..k])).db, DismissAll(db.dismissed, p, ds[..k]);
    var r := ApplyOne(acc, p, ds[k], canon);
    assert !acc.failed && Left(acc.db, net, db.subnets, owned, dismissed) && !HasRoom(acc.db, p) by {
      UpToStop(db, p, ds, k, canon);
    }
    assert Acts(acc.db, p, ds[k]) && owned + {key} == db.owners.Keys + Claimed(p, ds[..k + 1]) by {
      OwnedAtStop(db, acc.db, p, ds, k);
    }
    assert r.failed && Left(r.db, net, db.subnets, owned + {key}, dismissed) && key in r.db.owners by {
      StopLeaves(acc, p, ds[k], canon, net, db.subnets, owned, dismissed);
    }
    assert Apply(db, p, ds, canon) == r by { RunStops(db, p, ds, k, canon); }
  }

  lemma StopsAgain(db: Db, f: Db, p: string, ds: seq<Decision>, k: nat, canon: Canon)
    requires Sound(f) && !HasRoom(db, p) && NoLateNaming(db, p, ds) && k < |ds| && !AsksForGroup(db, p, ds[..k])
    requires Adopter(db, p, OpenLinks(db, p, ds[..k])) == |OpenLinks(db, p, ds[..k])| && LeftBy(db, f, p, ds, k, k + 1)
    requires ActsAfter(db, p, ds[..k], ds[k]) && |ds[k].subnets| > 0 && PeerKey(p, ds[k].peerId) in f.owners
    ensures SameAll(f, Apply(f, p, ds, canon).db)
  {
    var acc, d := Apply(f, p, ds[..k], canon), ds[k];
    AgainWithout(db, f, p, ds, k, k + 1, canon);
    assert !HasRoom(acc.db, p) by {
      AllSettledWithout(db, f, p, OpenLinks(db, p, ds[..k]));
      FullStays(f, acc.db);
    }
    StopFails(acc, p, d, canon);
    RunStops(f, p, ds, k, canon);
  }

  /** If the provider finds no group to adopt, re-applying changes nothing, whether the batch was stopped or not. */
  lemma WithoutAdoption(db: Db, p: string, ds: seq<Decision>, canon: Canon)
    requires Sound(db) && !HasRoom(db, p) && NoLateNaming(db, p, ds)
    requires Adopter(db, p, OpenLinks(db, p, ds)) == |OpenLinks(db, p, ds)|
    ensures var r := Apply(db, p, ds, canon); SameAll(r.db, Apply(r.db, p, ds, canon).db)
  {
    var k := StopAt(db, p, ds);
    StopsAt(db, p, ds);
    var r := Apply(db, p, ds, canon);
    assert Sound(r.db) by { ApplyProgress(Begin(db), p, ds, canon); }
    if k == |ds| {
      assert ds[..k] == ds;
      UpToStop(db, p, ds, k, canon);
      AgainWithout(db, r.db, p, ds, k, k, canon);
    } else {
      AtStop(db, p, ds, k, canon);
      StopsAgain(db, r.db, p, ds, k, canon);
    }
  }

  // ---------------------------------------------------------------- the provider adopts a group

  // The run up to the first decision with networks, the provider having adopted a group on the way.
  ghost predicate Adopted(db: Db, acc: Acc, p: string, ds: seq<Decision>, k: nat)
    requires k <= |ds|
  {
    var links := OpenLinks(db, p, ds[..k]);
    && Clean(acc, p) && Grouped(acc.db, p) && Submap(db.owners, acc.db.owners)
    && acc.db.owners.Keys == db.owners.Keys + Claimed(p, ds[..k]) && acc.meshDone == DoneAfter({}, p, links)
    && forall i | 0 <= i < |links| :: LinkAt(db, acc.db, p, links, i)
  }

  lemma SameNetLinkAt(db: Db, f: Db, f': Db, p: string, links: seq<string>, i: nat)
    requires i < |links| && LinkAt(db, f, p, links, i) && SameNet(f, f')
    ensures LinkAt(db, f', p, links, i)
  {
    assert forall q :: SettingsOf(f, q) == SettingsOf(f', q);
  }

  lemma UpToAdoption(db: Db, p: string, ds: seq<Decision>, k: nat, canon: Canon)
    requires Sound(db) && !HasRoom(db, p) && k <= |ds| && !AsksForGroup(db, p, ds[..k])
    requires Adopter(db, p, OpenLinks(db, p, ds[..k])) < |OpenLinks(db, p, ds[..k])|
    ensures Adopted(db, Apply(db, p, ds[..k], canon), p, ds, k)
  {
    var acc, links := Apply(db, p, ds[..k], canon), OpenLinks(db, p, ds[..k]);
    OpenRun(db, p, ds[..k], canon);
    LinkageHolds(db, p, links);
    forall i | 0 <= i < |links| ensures LinkAt(db, acc.db, p, links, i) {
      SameNetLinkAt(db, MeshAll(Begin(db), p, links).db, acc.db, p, links, i);
    }
    ApplyProgress(Begin(db), p, ds[..k], canon);
    assert Cidrs(acc.db) == Cidrs(db);
  }

  lemma OwnedIfActing(db: Db, f: Db, p: string, ds: seq<Decision>, d: Decision)
    requires f.owners.Keys == db.owners.Keys + Claimed(p, ds) && d in ds && Acts(f, p, d)
    ensures PeerKey(p, d.peerId) in f.owners
  {
    if Trim(d.nodeName) != "" {
      var j :| 0 <= j < |ds| && ds[j] == d;
      ClaimedHas(p, ds, j);
      assert PeerKey(p, d.peerId) in f.owners.Keys;
    }
  }

  /** No sibling was refused before: then everything is linked, and the run goes on as with room. */
  lemma AdoptedQuiet(db: Db, acc: Acc, p: string, ds: seq<Decision>, k: nat)
    requires NoLateNaming(db, p, ds) && k <= |ds| && !AsksForGroup(db, p, ds[..k]) && Adopted(db, acc, p, ds, k)
    requires var links := OpenLinks(db, p, ds[..k]);
             forall i | 0 <= i < Adopter(db, p, links) && First(p, links, i) :: links[i] == p
    ensures GoodSoFar(db, acc, p, ds[..k])
  {
    var links := OpenLinks(db, p, ds[..k]);
    LinksForeseen(db, acc.db, p, ds, k, k);
    forall i | 0 <= i < |links| ensures LinkedAt(acc.db, p, links, i) { assert LinkAt(db, acc.db, p, links, i); }
    QuietSibsAt(acc.db, p, links);
    forall d | d in ds[..k] ensures Provided(acc.db, p, d) {
      if Acts(acc.db, p, d) { OwnedIfActing(db, acc.db, p, ds[..k], d); }
    }
    QuietFlat(acc.db, p, ds[..k]);
    DoneAllIs(acc.db, p, ds[..k]);
  }

  lemma WithAdoption(db: Db, p: string, ds: seq<Decision>, canon: Canon)
    requires Sound(db) && AllCanonical(ds, canon) && !HasRoom(db, p) && NoLateNaming(db, p, ds)
    requires var links := OpenLinks(db, p, ds);
             && Adopter(db, p, links) < |links|
             && forall i | 0 <= i < Adopter(db, p, links) && First(p, links, i) :: links[i] == p
    ensures var r := Apply(db, p, ds, canon); SameAll(r.db, Apply(r.db, p, ds, canon).db)
  {
    var k := StopAt(db, p, ds);
    StopsAt(db, p, ds);
    UpToAdoption(db, p, ds, k, canon);
    AdoptedQuiet(db, Apply(db, p, ds[..k], canon), p, ds, k);
    RestWithRoom(db, p, ds, k, canon);
    QuietReapplies(db, p, ds, canon);
  }

  // ---------------------------------------------------------------- a refused sibling stays behind

  /** The sibling has no group, and its pair is not taken again in this run. */
  ghost predicate Behind(acc: Acc, p: string, q: string) {
    q != p && !Grouped(acc.db, q) && MeshPairKey(p, q) in acc.meshDone
  }

  lemma PairTouchesTwo(f: Db, p: string, s: string, q: string)
    requires q != p && q != s
    ensures Grouped(EnableMeshPair(f, p, s).0, q) <==> Grouped(f, q)
  {
    var r := ReconcileMeshGroups(f, p, s);
    FlagsOnly(if r.Some? then r.value else f, p, s, q);
  }

  lemma {:induction false} LinksLeaveBehind(acc: Acc, p: string, sibs: seq<string>, q: string)
    requires Behind(acc, p, q)
    ensures Behind(MeshAll(acc, p, sibs), p, q)
  {
    if sibs != [] {
      var init, s := sibs[..|sibs| - 1], sibs[|sibs| - 1];
      LinksLeaveBehind(acc, p, init, q);
      if s != q { PairTouchesTwo(MeshAll(acc, p, init).db, p, s, q); }
    }
  }

  lemma {:induction false} SubnetsLeaveBehind(acc: Acc, p: string, owner: int, g: Option<int>, sns: seq<NewSubnet>,
                                              canon: Canon, q: string)
    requires Behind(acc, p, q)
    ensures Behind(SubnetAll(acc, p, owner, g, sns, canon), p, q)
  {
    if sns != [] { SubnetsLeaveBehind(acc, p, owner, g, sns[..|sns| - 1], canon, q); }
  }

  lemma EnrichLeavesBehind(acc: Acc, p: string, d: Decision, owner: int, canon: Canon, q: string)
    requires Behind(acc, p, q)
    ensures Behind(Enrich(acc, p, d, owner, canon), p, q)
  {
    var g := EnsureProviderGroup(acc.db, p);
    if |d.subnets| == 0 || g.Some? {
      var acc1 := if |d.subnets| > 0 then acc.(db := g.value.0) else acc;
      var gid := if |d.subnets| > 0 then Some(g.value.1) else None;
      var acc2 := SubnetAll(acc1, p, owner, gid, d.subnets, canon);
      SubnetsLeaveBehind(acc1, p, owner, gid, d.subnets, canon, q);
      LinksLeaveBehind(acc2, p, d.meshWith, q);
    }
  }

  lemma NewOwnerLeavesBehind(acc: Acc, p: string, d: Decision, pubKey: Bytes, canon: Canon, q: string)
    requires Behind(acc, p, q)
    ensures Behind(Enrich(OwnPeer(acc, p, d, pubKey), p, d, acc.db.nextNode, canon), p, q)
  {
    EnrichLeavesBehind(OwnPeer(acc, p, d, pubKey), p, d, acc.db.nextNode, canon, q);
  }

  lemma CreateLeavesBehind(acc: Acc, p: string, d: Decision, pubKey: Bytes, canon: Canon, q: string)
    requires Behind(acc, p, q) && d.action.CreateNode?
    ensures Behind(Decide(acc, p, d, pubKey, canon), p, q)
  {
    var key := PeerKey(p, d.peerId);
    if key in acc.db.owners {
      var acc1 := acc.(sum := acc.sum.(alreadyHandled := acc.sum.alreadyHandled + 1));
      assert Decide(acc, p, d, pubKey, canon) == Enrich(acc1, p, d, acc.db.owners[key], canon);
      EnrichLeavesBehind(acc1, p, d, acc.db.owners[key], canon, q);
    } else if Trim(d.nodeName) != "" {
      var acc1 := OwnPeer(acc, p, d, pubKey);
      assert Decide(acc, p, d, pubKey, canon) == Enrich(acc1, p, d, acc.db.nextNode, canon);
      NewOwnerLeavesBehind(acc, p, d, pubKey, canon, q);
    }
  }

  lemma OneLeavesBehind(acc: Acc, p: string, d: Decision, canon: Canon, q: string)
    requires Behind(acc, p, q)
    ensures Behind(ApplyOne(acc, p, d, canon), p, q)
  {
    var pubKey := PeerId.DecodePeerId(d.peerId);
    if !acc.failed && pubKey.Some? {
      assert Behind(Decide(acc, p, d, pubKey.value, canon), p, q) by {
        if d.action.CreateNode? {
          CreateLeavesBehind(acc, p, d, pubKey.value, canon, q);
        } else {
          OnlyDismisses(acc, p, d, pubKey.value, canon);
        }
      }
    }
  }

  // After the adoption: the run stays clean, and the sibling behind.
  ghost predicate Lagging(acc: Acc, p: string, q: string) {
    Clean(acc, p) && Grouped(acc.db, p) && Behind(acc, p, q)
  }

  lemma RestStep(acc: Acc, p: string, d: Decision, canon: Canon, q: string)
    requires Canonical(d, canon) && Lagging(acc, p, q)
    ensures Lagging(ApplyOne(acc, p, d, canon), p, q)
  {
    OneHasRoom(acc, p, d, canon);
    OneLeavesBehind(acc, p, d, canon, q);
    OneProgress(acc, p, d, canon);
    assert SettingsGrow(SettingsOf(acc.db, p), SettingsOf(ApplyOne(acc, p, d, canon).db, p));
  }

  lemma {:induction false} RestLeavesBehind(db: Db, p: string, ds: seq<Decision>, k: nat, canon: Canon, q: string)
    requires AllCanonical(ds, canon) && k <= |ds| && Lagging(Apply(db, p, ds[..k], canon), p, q)
    ensures Lagging(Apply(db, p, ds, canon), p, q)
    decreases |ds|
  {
    if k == |ds| {
      assert ds[..k] == ds;
    } else {
      var init, d := ds[..|ds| - 1], ds[|ds| - 1];
      assert ds == init + [d] && init[..k] == ds[..k];
      assert d in ds && forall x | x in init :: x in ds;
      RestLeavesBehind(db, p, init, k, canon, q);
      RestStep(Apply(db, p, init, canon), p, d, canon, q);
      ApplyAppends(db, p, init, d, canon);
    }
  }

  lemma {:induction false} ActingPrefix(f: Db, p: string, ds: seq<Decision>, k: nat)
    requires k <= |ds|
    ensures ActingLinks(f, p, ds[..k]) <= ActingLinks(f, p, ds)
    decreases |ds|
  {
    if k == |ds| {
      assert ds[..k] == ds;
    } else {
      assert ds[..|ds| - 1][..k] == ds[..k];
      ActingPrefix(f, p, ds[..|ds| - 1], k);
    }
  }

  lemma FirstInLonger(p: string, a: seq<string>, b: seq<string>, i: nat)
    requires a <= b && i < |a|
    ensures First(p, a, i) <==> First(p, b, i)
  {
    assert a[..i] == b[..i];
  }

  // A sibling without a group among the pairs taken keeps a batch from being quiet.
  lemma UngroupedIsNotQuiet(f: Db, p: string, ds: seq<Decision>, links: seq<string>, i: nat)
    requires i < |links| && links <= ActingLinks(f, p, ds) && First(p, links, i) && !Grouped(f, links[i])
    ensures !QuietAll(f, p, ds)
  {
    var all := ActingLinks(f, p, ds);
    QuietFlat(f, p, ds);
    QuietSibsAt(f, p, all);
    FirstInLonger(p, links, all, i);
    assert !LinkedAt(f, p, all, i);
  }

  // The links of a run that did not stop are those foreseen.
  lemma LinksOfRun(db: Db, p: string, ds: seq<Decision>, k: nat, canon: Canon)
    requires NoLateNaming(db, p, ds) && k <= |ds| && !AsksForGroup(db, p, ds[..k]) && !Apply(db, p, ds, canon).failed
    ensures OpenLinks(db, p, ds[..k]) <= ActingLinks(Apply(db, p, ds, canon).db, p, ds)
  {
    var f := Apply(db, p, ds, canon).db;
    assert ds[..|ds|] == ds;
    assert ds != [] ==> !Apply(db, p, ds[..|ds| - 1], canon).failed;
    OwnersForeseen(db, p, ds, canon);
    LinksForeseen(db, f, p, ds, k, |ds|);
    ActingPrefix(f, p, ds, k);
  }

  lemma RefusedIsBehind(db: Db, acc: Acc, p: string, ds: seq<Decision>, k: nat, i: nat)
    requires k <= |ds| && Adopted(db, acc, p, ds, k)
    requires var links := OpenLinks(db, p, ds[..k]);
             i < Adopter(db, p, links) && First(p, links, i) && links[i] != p
    ensures Lagging(acc, p, OpenLinks(db, p, ds[..k])[i])
  {
    var links := OpenLinks(db, p, ds[..k]);
    assert LinkAt(db, acc.db, p, links, i);
    assert links[i] in links;
  }

  lemma RefusedThenAdopted(db: Db, p: string, ds: seq<Decision>, i: nat, canon: Canon)
    requires Sound(db) && AllCanonical(ds, canon) && !HasRoom(db, p) && NoLateNaming(db, p, ds)
    requires var links := OpenLinks(db, p, ds);
             Adopter(db, p, links) < |links| && i < Adopter(db, p, links) && First(p, links, i) && links[i] != p
    ensures var r := Apply(db, p, ds, canon); !r.failed && !SameTables(r.db, Apply(r.db, p, ds, canon).db)
  {
    var k := StopAt(db, p, ds);
    StopsAt(db, p, ds);
    var q, r := OpenLinks(db, p, ds)[i], Apply(db, p, ds, canon);
    assert Lagging(r, p, q) by {
      UpToAdoption(db, p, ds, k, canon);
      RefusedIsBehind(db, Apply(db, p, ds[..k], canon), p, ds, k, i);
      RestLeavesBehind(db, p, ds, k, canon, q);
    }
    assert !QuietAll(r.db, p, ds) by {
      LinksOfRun(db, p, ds, k, canon);
      UngroupedIsNotQuiet(r.db, p, ds, OpenLinks(db, p, ds), i);
    }
    RoomIsEnough(r.db, p, ds, canon);
    NothingToDoExactly(r.db, p, ds, canon);
  }

  // ---------------------------------------------------------------- the theorem

  /** No group name is free, the provider has no group, and it finds one to adopt only after another sibling was
      refused: told from the tables and the batch before the call. */
  ghost predicate AdoptsAfterRefusal(db: Db, p: string, ds: seq<Decision>) {
    var links := OpenLinks(db, p, ds);
    && !HasRoom(db, p) && Adopter(db, p, links) < |links|
    && exists i | 0 <= i < Adopter(db, p, links) :: First(p, links, i) && links[i] != p
  }

  /** For every state and every batch without late naming: the second run leaves the tables and the dismissals of the
      first exactly if the provider did not adopt a group after a refusal. */
  lemma ReapplyExactly(db: Db, p: string, ds: seq<Decision>, canon: Canon)
    requires Sound(db) && AllCanonical(ds, canon) && NoLateNaming(db, p, ds)
    ensures var r := Apply(db, p, ds, canon);
            SameAll(r.db, Apply(r.db, p, ds, canon).db) <==> !AdoptsAfterRefusal(db, p, ds)
  {
    var links := OpenLinks(db, p, ds);
    if HasRoom(db, p) {
      ReapplyIsIdentity(db, p, ds, canon);
    } else if Adopter(db, p, links) == |links| {
      WithoutAdoption(db, p, ds, canon);
    } else if i: nat :| i < Adopter(db, p, links) && First(p, links, i) && links[i] != p {
      RefusedThenAdopted(db, p, ds, i, canon);
    } else {
      WithAdoption(db, p, ds, canon);
    }
  }

  lemma {:induction false} NoFreeName(names: set<GroupName>, n: nat, attempts: nat)
    requires forall i | n <= i < n + attempts :: Auto(i) in names
    ensures FreeAuto(names, n, attempts) == None
    decreases attempts
  {
    if attempts > 0 { NoFreeName(names, n + 1, attempts - 1); }
  }

  // Groups 1 to n, named from "Auto 21" on.
  function Taken(n: nat): map<int, GroupName> {
    if n == 0 then map[] else Taken(n - 1)[n := Auto(20 + n)]
  }

  lemma {:induction false} TakenNames(n: nat)
    ensures |Taken(n)| == n
    ensures forall i :: i in Taken(n) <==> 1 <= i <= n
    ensures forall i | 1 <= i <= n :: Taken(n)[i] == Auto(20 + i)
  {
    if n > 0 {
      TakenNames(n - 1);
      assert Taken(n).Keys == Taken(n - 1).Keys + {n};
    }
  }

  // Twenty groups, named so that the next twenty names are theirs; only "b" is in one of them.
  function SpentDb(n: nat): Db {
    Db(map[], 1, map[], map[], [], Taken(n), n + 1, map["b" := Settings(false, false, "", "", Some(1))], {})
  }

  lemma FullGroups(groups: map<int, GroupName>, n: nat)
    requires n == 20 && forall i | 1 <= i <= n :: i in groups && groups[i] == Auto(20 + i)
    ensures FreeAuto(groups.Values, n + 1, NAME_ATTEMPTS) == None
  {
    forall i | n + 1 <= i < n + 21 ensures Auto(i) in groups.Values {
      assert i - 20 in groups && groups[i - 20] == Auto(i);
    }
    NoFreeName(groups.Values, n + 1, NAME_ATTEMPTS);
  }

  lemma SpentGroups(db: Db, n: nat)
    requires n == 20 && db.groups == Taken(n) && db.nextGroup == n + 1
    ensures CreateNextAutoNamedGroup(db).None? && forall id | id in db.groups :: id < db.nextGroup
    ensures forall a, b | a in db.groups && b in db.groups && db.groups[a] == db.groups[b] :: a == b
  {
    TakenNames(n);
    FullGroups(db.groups, n);
  }

  lemma SpentSettings(db: Db)
    requires db.settings == map["b" := Settings(false, false, "", "", Some(1))]
    ensures !Grouped(db, "wg0") && !Grouped(db, "a") && Grouped(db, "b")
  {
    assert "wg0"[0] != "b"[0] && "a"[0] != "b"[0];
  }

  lemma SpentDbIsSpent(db: Db, n: nat)
    requires n == 20 && db == SpentDb(n)
    ensures Sound(db) && !HasRoom(db, "wg0") && !Grouped(db, "a") && Grouped(db, "b")
  {
    assert Sound(db) && CreateNextAutoNamedGroup(db).None? by { SpentGroups(db, n); }
    SpentSettings(db);
  }

  lemma TwoSiblings(db: Db, p: string, a: string, b: string)
    requires !Grouped(db, a) && Grouped(db, b) && MeshPairKey(p, a) != MeshPairKey(p, b)
    ensures Adopter(db, p, [a, b]) == 1 && First(p, [a, b], 0)
  {
    assert [a, b] == [a] + [b] && [a] == [] + [a] && [a, b][..1] == [a];
    AdopterOneMore(db, p, [], a);
    AdopterOneMore(db, p, [a], b);
  }

  lemma LinksOfOne(db: Db, p: string, d: Decision)
    requires Naming(d) && |d.subnets| == 0
    ensures OpenLinks(db, p, [d]) == d.meshWith
  {
    var none: seq<Decision>, links: seq<string> := [], [];
    assert none + [d] == [d] && links + d.meshWith == d.meshWith;
    assert OpenLinks(db, p, none) == links && !AsksForGroup(db, p, none) && ActsAfter(db, p, none, d);
    OpenOneMore(db, p, none, d);
  }

  lemma HubIsNamed(d: Decision)
    requires d.action.CreateNode? && d.peerId == [] && d.nodeName == "hub"
    ensures Naming(d)
  {
    EmptyIdDecodes();
    assert Trim("hub") == "hub";
  }

  /** The claim does fail when the names run out: one decision, no networks, two siblings of which only the second has a
      group. The first run refuses the first pair and is not stopped; the second run changes the tables. */
  lemma RefusedPairBreaksReapply(db: Db, p: string, a: string, b: string, d: Decision, canon: Canon)
    requires Sound(db) && !HasRoom(db, p) && !Grouped(db, a) && Grouped(db, b) && a != p
    requires MeshPairKey(p, a) != MeshPairKey(p, b) && Naming(d) && d.subnets == [] && d.meshWith == [a, b]
    ensures AllCanonical([d], canon) && NoLateNaming(db, p, [d])
    ensures var r := Apply(db, p, [d], canon); !r.failed && !SameTables(r.db, Apply(r.db, p, [d], canon).db)
  {
    LinksOfOne(db, p, d);
    TwoSiblings(db, p, a, b);
    RefusedThenAdopted(db, p, [d], 0, canon);
  }

  /** Such a database: twenty groups, made in an order that leaves the next twenty names taken. */
  lemma SpentNamesBreakReapply(db: Db, n: nat, d: Decision, canon: Canon)
    requires n == 20 && db == SpentDb(n) && d == Decision([], CreateNode, "hub", "", [], ["a", "b"])
    ensures var r := Apply(db, "wg0", [d], canon); !r.failed && !SameTables(r.db, Apply(r.db, "wg0", [d], canon).db)
  {
    SpentDbIsSpent(db, n);
    HubIsNamed(d);
    MeshPairKeyIdentifiesPairs("wg0", "a", "b");
    RefusedPairBreaksReapply(db, "wg0", "a", "b", d, canon);
  }
}
