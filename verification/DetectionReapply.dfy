/**
  Re-applying a network detection (internal/api/network_detect.go, network_groups.go) when the provider has a group or
  one can still be named. The code says a second run of a batch changes nothing: here it does so for every batch that
  leaves no decision to be woken by a later name.
*/
module DetectionReapply {
  import opened Prelude
  import opened NetworkDetect

  predicate Grouped(db: Db, q: string) {
    SettingsOf(db, q).group.Some?
  }

  predicate Meshed(db: Db, q: string) {
    SettingsOf(db, q).meshEnabled
  }

  /** The provider has a group, or one can still be named: checked before the call. */
  predicate HasRoom(db: Db, p: string) {
    Grouped(db, p) || CreateNextAutoNamedGroup(db).Some?
  }

  // ---------------------------------------------------------------- with room, a run is clean

  ghost predicate Clean(acc: Acc, p: string) {
    !acc.failed && acc.existing == Cidrs(acc.db) && Sound(acc.db) && HasRoom(acc.db, p)
  }

  // Clean, and no pair was refused on the way.
  ghost predicate StaysClean(acc: Acc, r: Acc, p: string) {
    Clean(r, p) && r.sum.groupErrors == acc.sum.groupErrors
  }

  lemma PairHasRoom(acc: Acc, p: string, sib: string)
    requires Clean(acc, p)
    ensures StaysClean(acc, MeshOne(acc, p, sib), p)
  {
    MeshOneLinks(acc, p, sib);
    EnablePairGrows(acc.db, p, sib);
    var r := MeshOne(acc, p, sib);
    assert Cidrs(r.db) == Cidrs(acc.db);
    assert r != acc ==> EnableMeshPair(acc.db, p, sib).1;
  }

  lemma {:induction false} LinksHaveRoom(acc: Acc, p: string, sibs: seq<string>)
    requires Clean(acc, p)
    ensures StaysClean(acc, MeshAll(acc, p, sibs), p)
  {
    if sibs != [] {
      LinksHaveRoom(acc, p, sibs[..|sibs| - 1]);
      PairHasRoom(MeshAll(acc, p, sibs[..|sibs| - 1]), p, sibs[|sibs| - 1]);
    }
  }

  lemma SubnetHasRoom(acc: Acc, p: string, owner: int, g: Option<int>, sn: NewSubnet, canon: Canon)
    requires Clean(acc, p) && (Trim(sn.cidr) == "" || canon(Trim(sn.cidr)) == Some(Trim(sn.cidr)))
    ensures StaysClean(acc, SubnetOne(acc, p, owner, g, sn, canon), p)
  {
    var r := SubnetOne(acc, p, owner, g, sn, canon);
    SubnetProgress(acc, p, owner, g, sn, canon);
    if r != acc {
      assert r.db.subnets[|acc.db.subnets|] in r.db.subnets;
      assert Cidrs(r.db) == Cidrs(acc.db) + {Trim(sn.cidr)};
    }
  }

  lemma {:induction false} SubnetsHaveRoom(acc: Acc, p: string, owner: int, g: Option<int>, sns: seq<NewSubnet>,
                                           canon: Canon)
    requires Clean(acc, p)
    requires forall sn | sn in sns :: Trim(sn.cidr) == "" || canon(Trim(sn.cidr)) == Some(Trim(sn.cidr))
    ensures StaysClean(acc, SubnetAll(acc, p, owner, g, sns, canon), p)
  {
    if sns != [] {
      var init, sn := sns[..|sns| - 1], sns[|sns| - 1];
      assert sn in sns && forall x | x in init :: x in sns;
      SubnetsHaveRoom(acc, p, owner, g, init, canon);
      SubnetHasRoom(SubnetAll(acc, p, owner, g, init, canon), p, owner, g, sn, canon);
    }
  }

  lemma GroupHasRoom(acc: Acc, p: string)
    requires Clean(acc, p)
    ensures EnsureProviderGroup(acc.db, p).Some?
    ensures StaysClean(acc, acc.(db := EnsureProviderGroup(acc.db, p).value.0), p)
  {
    EnsureGrows(acc.db, p);
    assert Cidrs(EnsureProviderGroup(acc.db, p).value.0) == Cidrs(acc.db);
  }

  lemma EnrichHasRoom(acc: Acc, p: string, d: Decision, owner: int, canon: Canon)
    requires Clean(acc, p) && Canonical(d, canon)
    ensures StaysClean(acc, Enrich(acc, p, d, owner, canon), p)
  {
    GroupHasRoom(acc, p);
    var g := EnsureProviderGroup(acc.db, p);
    var acc1 := if |d.subnets| > 0 then acc.(db := g.value.0) else acc;
    var gid := if |d.subnets| > 0 then Some(g.value.1) else None;
    SubnetsHaveRoom(acc1, p, owner, gid, d.subnets, canon);
    LinksHaveRoom(SubnetAll(acc1, p, owner, gid, d.subnets, canon), p, d.meshWith);
  }

  lemma OwnPeerHasRoom(acc: Acc, p: string, d: Decision, pubKey: Bytes)
    requires Clean(acc, p) && PeerKey(p, d.peerId) !in acc.db.owners
    ensures StaysClean(acc, OwnPeer(acc, p, d, pubKey), p)
  {
    OwnPeerProgress(acc, p, d, pubKey);
    assert Cidrs(OwnPeer(acc, p, d, pubKey).db) == Cidrs(acc.db);
  }

  lemma CreateHasRoom(acc: Acc, p: string, d: Decision, pubKey: Bytes, canon: Canon)
    requires Clean(acc, p) && Canonical(d, canon) && d.action.CreateNode?
    ensures StaysClean(acc, Decide(acc, p, d, pubKey, canon), p)
  {
    var key := PeerKey(p, d.peerId);
    if key in acc.db.owners {
      var acc1 := acc.(sum := acc.sum.(alreadyHandled := acc.sum.alreadyHandled + 1));
      EnrichHasRoom(acc1, p, d, acc.db.owners[key], canon);
    } else if Trim(d.nodeName) != "" {
      OwnPeerHasRoom(acc, p, d, pubKey);
      EnrichHasRoom(OwnPeer(acc, p, d, pubKey), p, d, acc.db.nextNode, canon);
    }
  }

  lemma DismissalHasRoom(acc: Acc, p: string, dismissed: set<PeerKey>)
    requires Clean(acc, p)
    ensures StaysClean(acc, acc.(db := acc.db.(dismissed := dismissed)), p)
  {
    assert Cidrs(acc.db.(dismissed := dismissed)) == Cidrs(acc.db);
  }

  lemma OneHasRoom(acc: Acc, p: string, d: Decision, canon: Canon)
    requires Clean(acc, p) && Canonical(d, canon)
    ensures StaysClean(acc, ApplyOne(acc, p, d, canon), p)
  {
    var pubKey := PeerId.DecodePeerId(d.peerId);
    if pubKey.Some? {
      if d.action.CreateNode? {
        CreateHasRoom(acc, p, d, pubKey.value, canon);
      } else {
        DismissalHasRoom(acc, p, Decide(acc, p, d, pubKey.value, canon).db.dismissed);
      }
    }
  }

  /** Canonical networks and room for a group: no batch stops and no pair is refused. */
  lemma {:induction false} RoomIsEnough(db: Db, p: string, ds: seq<Decision>, canon: Canon)
    requires Sound(db) && AllCanonical(ds, canon) && HasRoom(db, p)
    ensures StaysClean(Begin(db), Apply(db, p, ds, canon), p)
    decreases |ds|
  {
    if ds != [] {
      var init, d := ds[..|ds| - 1], ds[|ds| - 1];
      assert ds == init + [d] && d in ds && forall x | x in init :: x in ds;
      RoomIsEnough(db, p, init, canon);
      OneHasRoom(Apply(db, p, init, canon), p, d, canon);
      ApplyAppends(db, p, init, d, canon);
    }
  }

  /** A run so far, started on `db`, that is clean and has left everything its decisions ask for. */
  ghost predicate GoodSoFar(db: Db, acc: Acc, p: string, ds: seq<Decision>) {
    AllQuiet(acc, p, ds) && Clean(acc, p) && Submap(db.owners, acc.db.owners)
  }

  lemma OneMoreWithRoom(db: Db, acc: Acc, p: string, init: seq<Decision>, d: Decision, canon: Canon)
    requires GoodSoFar(db, acc, p, init) && Canonical(d, canon) && NoLateNaming(db, p, init + [d])
    ensures GoodSoFar(db, ApplyOne(acc, p, d, canon), p, init + [d])
  {
    OneHasRoom(acc, p, d, canon);
    OneMoreQuiet(db, acc, p, init, d, canon);
    OneProgress(acc, p, d, canon);
  }

  lemma NoLateNamingBefore(db: Db, p: string, ds: seq<Decision>, n: nat)
    requires NoLateNaming(db, p, ds) && n <= |ds|
    ensures NoLateNaming(db, p, ds[..n])
  {
  }

  lemma StepWithRoom(db: Db, p: string, init: seq<Decision>, d: Decision, canon: Canon)
    requires GoodSoFar(db, Apply(db, p, init, canon), p, init) && Canonical(d, canon) && NoLateNaming(db, p, init + [d])
    ensures GoodSoFar(db, Apply(db, p, init + [d], canon), p, init + [d])
  {
    OneMoreWithRoom(db, Apply(db, p, init, canon), p, init, d, canon);
    ApplyAppends(db, p, init, d, canon);
  }

  ghost function GoodAfter(db: Db, p: string, canon: Canon): seq<Decision> -> bool {
    (ds: seq<Decision>) => GoodSoFar(db, Apply(db, p, ds, canon), p, ds)
  }

  lemma GoodGoesOn(db: Db, p: string, ds: seq<Decision>, j: nat, canon: Canon)
    requires AllCanonical(ds, canon) && NoLateNaming(db, p, ds)
    ensures GoesOn(ds, j, GoodAfter(db, p, canon))
  {
    if j < |ds| && GoodAfter(db, p, canon)(ds[..j]) {
      assert ds[..j + 1] == ds[..j] + [ds[j]] && ds[j] in ds;
      NoLateNamingBefore(db, p, ds, j + 1);
      StepWithRoom(db, p, ds[..j], ds[j], canon);
    }
  }

  lemma RestWithRoom(db: Db, p: string, ds: seq<Decision>, k: nat, canon: Canon)
    requires AllCanonical(ds, canon) && NoLateNaming(db, p, ds) && k <= |ds| && GoodAfter(db, p, canon)(ds[..k])
    ensures GoodAfter(db, p, canon)(ds)
  {
    forall j: nat ensures GoesOn(ds, j, GoodAfter(db, p, canon)) { GoodGoesOn(db, p, ds, j, canon); }
    PassedOn(ds, k, |ds|, GoodAfter(db, p, canon));
    assert ds[..|ds|] == ds;
  }

  /** With room, everything a batch asks for is there afterwards: owners, networks, group and links. */
  lemma ApplyDoesItAll(db: Db, p: string, ds: seq<Decision>, canon: Canon)
    requires Sound(db) && AllCanonical(ds, canon) && NoLateNaming(db, p, ds) && HasRoom(db, p)
    ensures AllQuiet(Apply(db, p, ds, canon), p, ds) && Clean(Apply(db, p, ds, canon), p)
  {
    assert ds[..0] == [];
    assert GoodSoFar(db, Begin(db), p, []);
    RestWithRoom(db, p, ds, 0, canon);
  }

  lemma QuietReapplies(db: Db, p: string, ds: seq<Decision>, canon: Canon)
    requires Sound(db) && !Apply(db, p, ds, canon).failed && QuietAll(Apply(db, p, ds, canon).db, p, ds)
    ensures var r := Apply(db, p, ds, canon);
            var again := Apply(r.db, p, ds, canon);
            && again.db == r.db && !again.failed && again.sum.groupErrors == 0
            && again.sum.nodesCreated == 0 && again.sum.subnetsCreated == 0
  {
    var r := Apply(db, p, ds, canon);
    ApplyProgress(Begin(db), p, ds, canon);
    QuietChangesNothing(r.db, p, ds, canon);
    ApplyDismisses(Begin(db), p, ds, canon);
    ApplyDismisses(Begin(r.db), p, ds, canon);
    DismissTwice(db.dismissed, p, ds);
  }

  /** Re-running a batch returns the very same database, creates nothing and reports no failure. */
  lemma ReapplyIsIdentity(db: Db, p: string, ds: seq<Decision>, canon: Canon)
    requires Sound(db) && AllCanonical(ds, canon) && NoLateNaming(db, p, ds) && HasRoom(db, p)
    ensures var r := Apply(db, p, ds, canon);
            var again := Apply(r.db, p, ds, canon);
            && !r.failed && r.sum.groupErrors == 0
            && again.db == r.db && !again.failed && again.sum.groupErrors == 0
            && again.sum.nodesCreated == 0 && again.sum.subnetsCreated == 0
  {
    RoomIsEnough(db, p, ds, canon);
    ApplyDoesItAll(db, p, ds, canon);
    QuietReapplies(db, p, ds, canon);
  }

  /** The documented claim, for one decision per peer and networks as PostgreSQL writes them. */
  lemma DistinctBatchIsIdempotent(db: Db, p: string, ds: seq<Decision>, canon: Canon)
    requires Sound(db) && AllCanonical(ds, canon) && HasRoom(db, p)
    requires forall i, j | 0 <= i < j < |ds| :: ds[i].peerId != ds[j].peerId
    ensures var r := Apply(db, p, ds, canon);
            !r.failed && Apply(r.db, p, ds, canon).db == r.db && !Apply(r.db, p, ds, canon).failed
  {
    DistinctPeersAreNeverNamedLate(db, p, ds);
    ReapplyIsIdentity(db, p, ds, canon);
  }
}
