/**
  What a network detection does to the tables, exactly, and what a nameless decision that a later one names means for
  re-applying it (internal/api/network_detect.go). All conditions are told from the tables and the batch before the
  first run.
*/
module DetectionLateNaming {
  import opened Prelude
  import opened NetworkDetect
  import opened DetectionReapply
  import opened DetectionSpent
  import opened DetectionExactly

  // ---------------------------------------------------------------- what one decision does

  /** After the decision acts, the provider `q` has a group. */
  predicate Groups(p: string, d: Decision, q: string) {
    (q == p && (|d.subnets| > 0 || |d.meshWith| > 0)) || q in d.meshWith
  }

  predicate Meshes(p: string, d: Decision, q: string) {
    |d.meshWith| > 0 && (q == p || q in d.meshWith)
  }

  predicate Catalogues(d: Decision, cidr: string) {
    exists sn | sn in d.subnets :: Trim(sn.cidr) == cidr
  }

  lemma SetGroupIs(f: Db, p: string, g: Option<int>, q: string)
    ensures SettingsOf(SetGroup(f, p, g), q) == if q == p then SettingsOf(f, q).(group := g) else SettingsOf(f, q)
  {
  }

  lemma RoomReconcile(f: Db, p: string, s: string, q: string)
    requires HasRoom(f, p)
    ensures ReconcileMeshGroups(f, p, s).Some?
    ensures var f' := ReconcileMeshGroups(f, p, s).value;
            (Grouped(f', q) <==> Grouped(f, q) || q == p || q == s) && (Meshed(f', q) <==> Meshed(f, q))
  {
    var gp, gs := SettingsOf(f, p).group, SettingsOf(f, s).group;
    if gp.None? && gs.None? {
      var (f1, g) := CreateNextAutoNamedGroup(f).value;
      assert SettingsOf(f1, q) == SettingsOf(f, q);
      SetGroupIs(f1, p, Some(g), q);
      SetGroupIs(SetGroup(f1, p, Some(g)), s, Some(g), q);
    } else if gp.None? {
      SetGroupIs(f, p, gs, q);
    } else if gs.None? {
      SetGroupIs(f, s, gp, q);
    }
  }

  lemma RoomPair(f: Db, p: string, s: string, q: string)
    requires HasRoom(f, p)
    ensures var f' := EnableMeshPair(f, p, s).0;
            (Grouped(f', q) <==> Grouped(f, q) || q == p || q == s)
            && (Meshed(f', q) <==> Meshed(f, q) || q == p || q == s)
  {
    RoomReconcile(f, p, s, q);
    FlagsOnly(ReconcileMeshGroups(f, p, s).value, p, s, q);
  }

  // A pair whose key is taken is linked.
  ghost predicate TakenIsLinked(acc: Acc, p: string, s: string) {
    MeshPairKey(p, s) in acc.meshDone ==> Linked(acc.db, p, s)
  }

  lemma LinkEffect(acc: Acc, p: string, s: string, q: string)
    requires HasRoom(acc.db, p) && TakenIsLinked(acc, p, s)
    ensures var r := MeshOne(acc, p, s);
            && (Grouped(r.db, q) <==> Grouped(acc.db, q) || q == p || q == s)
            && (Meshed(r.db, q) <==> Meshed(acc.db, q) || q == p || q == s)
  {
    RoomPair(acc.db, p, s, q);
  }

  lemma LinkedIs(f: Db, p: string, s: string)
    ensures Linked(f, p, s) <==> Grouped(f, p) && Grouped(f, s) && Meshed(f, p) && Meshed(f, s)
  {
  }

  ghost predicate LinksDo(acc: Acc, r: Acc, p: string, sibs: seq<string>) {
    && (forall q :: Grouped(r.db, q) <==> Grouped(acc.db, q) || (sibs != [] && (q == p || q in sibs)))
    && (forall q :: Meshed(r.db, q) <==> Meshed(acc.db, q) || (sibs != [] && (q == p || q in sibs)))
    && r.meshDone == DoneAfter(acc.meshDone, p, sibs) && r.db.subnets == acc.db.subnets
  }

  lemma LinksStep(acc: Acc, acc1: Acc, p: string, init: seq<string>, s: string)
    requires LinksDo(acc, acc1, p, init) && Clean(acc1, p)
    requires TakenIsLinked(acc, p, s) && '|' !in p
    ensures LinksDo(acc, MeshOne(acc1, p, s), p, init + [s])
  {
    assert TakenIsLinked(acc1, p, s) by {
      if MeshPairKey(p, s) in acc1.meshDone && MeshPairKey(p, s) !in acc.meshDone {
        var b :| b in init && MeshPairKey(p, b) == MeshPairKey(p, s);
        MeshPairKeyIdentifiesPairs(p, b, s);
      }
      LinkedIs(acc.db, p, s);
      LinkedIs(acc1.db, p, s);
    }
    forall q { LinkEffect(acc1, p, s, q); }
    DoneAfterOneMore(acc.meshDone, p, init, s);
    MeshOneLinks(acc1, p, s);
    assert forall q :: q in init + [s] <==> q in init || q == s;
  }

  lemma {:induction false} LinksEffect(acc: Acc, p: string, sibs: seq<string>)
    requires Clean(acc, p) && '|' !in p && forall s | s in sibs :: TakenIsLinked(acc, p, s)
    ensures LinksDo(acc, MeshAll(acc, p, sibs), p, sibs)
    decreases |sibs|
  {
    if sibs == [] {
      assert DoneAfter(acc.meshDone, p, sibs) == acc.meshDone;
    } else {
      var init, s := sibs[..|sibs| - 1], sibs[|sibs| - 1];
      assert sibs == init + [s] && s in sibs && forall x | x in init :: x in sibs;
      LinksEffect(acc, p, init);
      LinksHaveRoom(acc, p, init);
      LinksStep(acc, MeshAll(acc, p, init), p, init, s);
    }
  }

  lemma SubnetEffect(acc: Acc, p: string, owner: int, g: Option<int>, sn: NewSubnet, canon: Canon)
    requires Clean(acc, p) && (Trim(sn.cidr) == "" || canon(Trim(sn.cidr)) == Some(Trim(sn.cidr)))
    ensures var r := SubnetOne(acc, p, owner, g, sn, canon);
            && r.db == acc.db.(subnets := r.db.subnets) && r.meshDone == acc.meshDone
            && forall c | c != "" :: c in Cidrs(r.db) <==> c in Cidrs(acc.db) || Trim(sn.cidr) == c
  {
    var r := SubnetOne(acc, p, owner, g, sn, canon);
    if r != acc {
      assert r.db.subnets[|acc.db.subnets|] in r.db.subnets;
      assert Cidrs(r.db) == Cidrs(acc.db) + {Trim(sn.cidr)};
    }
  }

  lemma {:induction false} SubnetsEffect(acc: Acc, p: string, owner: int, g: Option<int>, sns: seq<NewSubnet>,
                                         canon: Canon)
    requires Clean(acc, p)
    requires forall sn | sn in sns :: Trim(sn.cidr) == "" || canon(Trim(sn.cidr)) == Some(Trim(sn.cidr))
    ensures var r := SubnetAll(acc, p, owner, g, sns, canon);
            && r.db == acc.db.(subnets := r.db.subnets) && r.meshDone == acc.meshDone
            && forall c | c != "" ::
                 c in Cidrs(r.db) <==> c in Cidrs(acc.db) || exists sn | sn in sns :: Trim(sn.cidr) == c
    decreases |sns|
  {
    if sns != [] {
      var init, sn := sns[..|sns| - 1], sns[|sns| - 1];
      assert sns == init + [sn] && sn in sns && forall x | x in init :: x in sns;
      var acc1 := SubnetAll(acc, p, owner, g, init, canon);
      SubnetsEffect(acc, p, owner, g, init, canon);
      SubnetsHaveRoom(acc, p, owner, g, init, canon);
      SubnetEffect(acc1, p, owner, g, sn, canon);
    }
  }

  // What an acting decision does.
  ghost predicate Does(f: Db, f': Db, p: string, d: Decision) {
    && (forall q :: Grouped(f', q) <==> Grouped(f, q) || Groups(p, d, q))
    && (forall q :: Meshed(f', q) <==> Meshed(f, q) || Meshes(p, d, q))
    && (forall c | c != "" :: c in Cidrs(f') <==> c in Cidrs(f) || Catalogues(d, c))
  }

  lemma EnsureEffect(f: Db, p: string)
    requires HasRoom(f, p)
    ensures EnsureProviderGroup(f, p).Some?
    ensures var f' := EnsureProviderGroup(f, p).value.0;
            && (forall q :: Grouped(f', q) <==> Grouped(f, q) || q == p)
            && (forall q :: Meshed(f', q) <==> Meshed(f, q))
            && f'.subnets == f.subnets
  {
  }

  lemma EffectsJoin(acc: Acc, acc1: Acc, acc2: Acc, r: Acc, p: string, d: Decision)
    requires forall q :: Grouped(acc1.db, q) <==> Grouped(acc.db, q) || (|d.subnets| > 0 && q == p)
    requires forall q :: Meshed(acc1.db, q) <==> Meshed(acc.db, q)
    requires acc1.db.subnets == acc.db.subnets && acc1.meshDone == acc.meshDone == acc2.meshDone
    requires forall q :: SettingsOf(acc2.db, q) == SettingsOf(acc1.db, q)
    requires forall c | c != "" :: c in Cidrs(acc2.db) <==> c in Cidrs(acc1.db) || Catalogues(d, c)
    requires LinksDo(acc2, r, p, d.meshWith)
    ensures Does(acc.db, r.db, p, d) && r.meshDone == DoneAfter(acc.meshDone, p, d.meshWith)
  {
    assert Cidrs(r.db) == Cidrs(acc2.db) && Cidrs(acc1.db) == Cidrs(acc.db);
    forall q ensures Grouped(r.db, q) <==> Grouped(acc.db, q) || Groups(p, d, q) {
      assert Grouped(acc2.db, q) <==> Grouped(acc1.db, q);
    }
    forall q ensures Meshed(r.db, q) <==> Meshed(acc.db, q) || Meshes(p, d, q) {
      assert Meshed(acc2.db, q) <==> Meshed(acc1.db, q);
    }
  }

  lemma EnrichEffect(acc: Acc, p: string, d: Decision, owner: int, canon: Canon)
    requires Clean(acc, p) && Canonical(d, canon) && '|' !in p
    requires forall s | s in d.meshWith :: TakenIsLinked(acc, p, s)
    ensures var r := Enrich(acc, p, d, owner, canon);
            Does(acc.db, r.db, p, d) && r.meshDone == DoneAfter(acc.meshDone, p, d.meshWith)
  {
    GroupHasRoom(acc, p);
    EnsureEffect(acc.db, p);
    var g := EnsureProviderGroup(acc.db, p);
    var acc1 := if |d.subnets| > 0 then acc.(db := g.value.0) else acc;
    var gid := if |d.subnets| > 0 then Some(g.value.1) else None;
    var acc2 := SubnetAll(acc1, p, owner, gid, d.subnets, canon);
    SubnetsEffect(acc1, p, owner, gid, d.subnets, canon);
    SubnetsHaveRoom(acc1, p, owner, gid, d.subnets, canon);
    assert forall q :: SettingsOf(acc2.db, q) == SettingsOf(acc1.db, q);
    forall s | s in d.meshWith ensures TakenIsLinked(acc2, p, s) { assert TakenIsLinked(acc, p, s); }
    LinksEffect(acc2, p, d.meshWith);
    EffectsJoin(acc, acc1, acc2, MeshAll(acc2, p, d.meshWith), p, d);
  }

  // ---------------------------------------------------------------- what a batch does

  // The decisions that act, in order.
  function ActingOf(db: Db, p: string, ds: seq<Decision>): seq<Decision> {
    if ds == [] then []
    else
      var init, d := ds[..|ds| - 1], ds[|ds| - 1];
      ActingOf(db, p, init) + if ActsAfter(db, p, init, d) then [d] else []
  }

  ghost predicate WillGroup(db: Db, p: string, acting: seq<Decision>, q: string) {
    Grouped(db, q) || exists d | d in acting :: Groups(p, d, q)
  }

  ghost predicate WillMesh(db: Db, p: string, acting: seq<Decision>, q: string) {
    Meshed(db, q) || exists d | d in acting :: Meshes(p, d, q)
  }

  ghost predicate WillCatalogue(db: Db, acting: seq<Decision>, cidr: string) {
    cidr in Cidrs(db) || exists d | d in acting :: Catalogues(d, cidr)
  }

  ghost predicate WasTaken(p: string, acting: seq<Decision>, key: string) {
    exists d | d in acting :: exists s | s in d.meshWith :: MeshPairKey(p, s) == key
  }

  /** The tables are those foreseen. */
  ghost predicate AsForeseen(db: Db, acc: Acc, p: string, acting: seq<Decision>) {
    && (forall q :: Grouped(acc.db, q) <==> WillGroup(db, p, acting, q))
    && (forall q :: Meshed(acc.db, q) <==> WillMesh(db, p, acting, q))
    && (forall c | c != "" :: c in Cidrs(acc.db) <==> WillCatalogue(db, acting, c))
    && (forall k :: k in acc.meshDone <==> WasTaken(p, acting, k))
  }

  // One more acting decision.
  lemma ForeseenStep(db: Db, acc: Acc, r: Acc, p: string, acting: seq<Decision>, d: Decision)
    requires AsForeseen(db, acc, p, acting) && Does(acc.db, r.db, p, d)
    requires r.meshDone == DoneAfter(acc.meshDone, p, d.meshWith)
    ensures AsForeseen(db, r, p, acting + [d])
  {
    var all := acting + [d];
    assert d in all && forall x | x in acting :: x in all;
    assert forall x | x in all :: x in acting || x == d;
    forall q ensures Grouped(r.db, q) <==> WillGroup(db, p, all, q) {
      assert Grouped(acc.db, q) <==> WillGroup(db, p, acting, q);
    }
    forall q ensures Meshed(r.db, q) <==> WillMesh(db, p, all, q) {
      assert Meshed(acc.db, q) <==> WillMesh(db, p, acting, q);
    }
    forall c | c != "" ensures c in Cidrs(r.db) <==> WillCatalogue(db, all, c) {
      assert c in Cidrs(acc.db) <==> WillCatalogue(db, acting, c);
    }
    forall k ensures k in r.meshDone <==> WasTaken(p, all, k) {
      assert k in acc.meshDone <==> WasTaken(p, acting, k);
    }
  }

  lemma TakenByActing(db: Db, acc: Acc, p: string, acting: seq<Decision>, s: string)
    requires AsForeseen(db, acc, p, acting) && '|' !in p
    ensures TakenIsLinked(acc, p, s)
  {
    var k := MeshPairKey(p, s);
    if k in acc.meshDone {
      assert WasTaken(p, acting, k);
      var d :| d in acting && exists x | x in d.meshWith :: MeshPairKey(p, x) == k;
      var x :| x in d.meshWith && MeshPairKey(p, x) == k;
      MeshPairKeyIdentifiesPairs(p, x, s);
      assert Groups(p, d, p) && Groups(p, d, s) && Meshes(p, d, p) && Meshes(p, d, s);
      assert WillGroup(db, p, acting, p) && WillGroup(db, p, acting, s) && WillMesh(db, p, acting, p)
             && WillMesh(db, p, acting, s);
      LinkedIs(acc.db, p, s);
    }
  }

  // The same settings, networks and taken pairs.
  ghost predicate SameView(a: Acc, b: Acc) {
    SameNet(a.db, b.db) && a.db.subnets == b.db.subnets && a.meshDone == b.meshDone
  }

  lemma ForeseenView(db: Db, a: Acc, b: Acc, p: string, acting: seq<Decision>)
    requires AsForeseen(db, a, p, acting) && SameView(a, b)
    ensures AsForeseen(db, b, p, acting)
  {
    assert forall q :: SettingsOf(a.db, q) == SettingsOf(b.db, q);
    assert Cidrs(a.db) == Cidrs(b.db);
    forall q ensures Grouped(b.db, q) <==> WillGroup(db, p, acting, q) {
      assert Grouped(a.db, q) <==> WillGroup(db, p, acting, q);
    }
    forall q ensures Meshed(b.db, q) <==> WillMesh(db, p, acting, q) {
      assert Meshed(a.db, q) <==> WillMesh(db, p, acting, q);
    }
  }

  lemma EnrichForeseen(db: Db, acc: Acc, p: string, acting: seq<Decision>, d: Decision, owner: int,
                       canon: Canon)
    requires Clean(acc, p) && Canonical(d, canon) && AsForeseen(db, acc, p, acting) && '|' !in p
    ensures AsForeseen(db, Enrich(acc, p, d, owner, canon), p, acting + [d])
  {
    forall s | s in d.meshWith ensures TakenIsLinked(acc, p, s) { TakenByActing(db, acc, p, acting, s); }
    EnrichEffect(acc, p, d, owner, canon);
    ForeseenStep(db, acc, Enrich(acc, p, d, owner, canon), p, acting, d);
  }

  lemma OwnerForeseen(db: Db, acc: Acc, p: string, acting: seq<Decision>, d: Decision, pubKey: Bytes, canon: Canon)
    requires Clean(acc, p) && Canonical(d, canon) && AsForeseen(db, acc, p, acting) && '|' !in p
    requires d.action.CreateNode? && PeerKey(p, d.peerId) !in acc.db.owners
    ensures AsForeseen(db, Enrich(OwnPeer(acc, p, d, pubKey), p, d, acc.db.nextNode, canon), p, acting + [d])
  {
    var acc1 := OwnPeer(acc, p, d, pubKey);
    OwnPeerHasRoom(acc, p, d, pubKey);
    ForeseenView(db, acc, acc1, p, acting);
    EnrichForeseen(db, acc1, p, acting, d, acc.db.nextNode, canon);
  }

  lemma ActingForeseen(db: Db, acc: Acc, p: string, acting: seq<Decision>, d: Decision, pubKey: Bytes,
                       canon: Canon)
    requires Clean(acc, p) && Canonical(d, canon) && AsForeseen(db, acc, p, acting) && '|' !in p
    requires d.action.CreateNode? && (PeerKey(p, d.peerId) in acc.db.owners || Trim(d.nodeName) != "")
    ensures AsForeseen(db, Decide(acc, p, d, pubKey, canon), p, acting + [d])
  {
    var key := PeerKey(p, d.peerId);
    if key in acc.db.owners {
      var acc1 := acc.(sum := acc.sum.(alreadyHandled := acc.sum.alreadyHandled + 1));
      assert Decide(acc, p, d, pubKey, canon) == Enrich(acc1, p, d, acc.db.owners[key], canon);
      assert AsForeseen(db, Enrich(acc1, p, d, acc.db.owners[key], canon), p, acting + [d]) by {
        ForeseenView(db, acc, acc1, p, acting);
        EnrichForeseen(db, acc1, p, acting, d, acc.db.owners[key], canon);
      }
    } else {
      assert Decide(acc, p, d, pubKey, canon) == Enrich(OwnPeer(acc, p, d, pubKey), p, d, acc.db.nextNode, canon);
      OwnerForeseen(db, acc, p, acting, d, pubKey, canon);
    }
  }

  lemma OneForeseen(db: Db, acc: Acc, p: string, acting: seq<Decision>, d: Decision, canon: Canon)
    requires Clean(acc, p) && Canonical(d, canon) && AsForeseen(db, acc, p, acting) && '|' !in p
    ensures AsForeseen(db, ApplyOne(acc, p, d, canon), p, acting + if Acts(acc.db, p, d) then [d] else [])
  {
    if Acts(acc.db, p, d) {
      ActingForeseen(db, acc, p, acting, d, PeerId.DecodePeerId(d.peerId).value, canon);
    } else {
      IdleOnlyLinks(acc, acc, p, d, canon);
      ForeseenView(db, acc, ApplyOne(acc, p, d, canon), p, acting);
      assert acting + [] == acting;
    }
  }

  ghost predicate ExactSoFar(db: Db, acc: Acc, p: string, ds: seq<Decision>) {
    Clean(acc, p) && AsForeseen(db, acc, p, ActingOf(db, p, ds))
    && acc.db.owners.Keys == db.owners.Keys + Claimed(p, ds)
  }

  lemma ActingOneMore(db: Db, p: string, init: seq<Decision>, d: Decision)
    ensures ActingOf(db, p, init + [d]) == ActingOf(db, p, init) + if ActsAfter(db, p, init, d) then [d] else []
  {
    assert (init + [d])[..|init|] == init;
  }

  lemma ExactStep(db: Db, acc: Acc, p: string, init: seq<Decision>, d: Decision, canon: Canon)
    requires ExactSoFar(db, acc, p, init) && Canonical(d, canon) && '|' !in p
    ensures ExactSoFar(db, ApplyOne(acc, p, d, canon), p, init + [d])
  {
    ActsIsForeseen(db, acc.db, p, init, d);
    ActingOneMore(db, p, init, d);
    assert AsForeseen(db, ApplyOne(acc, p, d, canon), p, ActingOf(db, p, init + [d])) by {
      OneForeseen(db, acc, p, ActingOf(db, p, init), d, canon);
    }
    assert Clean(ApplyOne(acc, p, d, canon), p) by { OneHasRoom(acc, p, d, canon); }
    OneOwns(acc, p, d, canon);
  }

  lemma ExactBegin(db: Db, p: string)
    requires Sound(db) && HasRoom(db, p)
    ensures ExactSoFar(db, Begin(db), p, [])
  {
    assert ActingOf(db, p, []) == [] && Claimed(p, []) == {};
  }

  /** With room for a group: after a batch, exactly what its acting decisions ask for has been added - who is owned,
      which networks are catalogued, which providers are grouped and which are on. */
  lemma {:induction false} ApplyExactly(db: Db, p: string, ds: seq<Decision>, canon: Canon)
    requires Sound(db) && AllCanonical(ds, canon) && HasRoom(db, p) && '|' !in p
    ensures ExactSoFar(db, Apply(db, p, ds, canon), p, ds)
    decreases |ds|
  {
    if ds == [] {
      ExactBegin(db, p);
    } else {
      var init, d := ds[..|ds| - 1], ds[|ds| - 1];
      assert ds == init + [d] && d in ds && forall x | x in init :: x in ds;
      assert ExactSoFar(db, Apply(db, p, init, canon), p, init) by { ApplyExactly(db, p, init, canon); }
      ExactStep(db, Apply(db, p, init, canon), p, init, d, canon);
      ApplyAppends(db, p, init, d, canon);
    }
  }

  // ---------------------------------------------------------------- late naming

  /** A nameless decision, skipped for an unowned peer that a later decision of the batch names. */
  predicate Woken(db: Db, p: string, ds: seq<Decision>, i: nat)
    requires i < |ds|
  {
    ds[i].action.CreateNode? && !ActsAfter(db, p, ds[..i], ds[i]) && PeerKey(p, ds[i].peerId) in Claimed(p, ds)
  }

  /** What the decision asks for is there before, or asked for by one that acts. */
  ghost predicate InHand(db: Db, p: string, acting: seq<Decision>, d: Decision) {
    && (|d.subnets| > 0 ==> WillGroup(db, p, acting, p))
    && (forall sn | sn in d.subnets :: Trim(sn.cidr) == "" || WillCatalogue(db, acting, Trim(sn.cidr)))
    && (forall s | s in d.meshWith ::
          WillGroup(db, p, acting, p) && WillMesh(db, p, acting, p) && WillGroup(db, p, acting, s)
          && WillMesh(db, p, acting, s))
  }

  ghost predicate ProvidedAndLinked(f: Db, p: string, d: Decision) {
    Provided(f, p, d) && (Acts(f, p, d) ==> forall s | s in d.meshWith :: Linked(f, p, s))
  }

  lemma InHandIsThere(db: Db, acc: Acc, p: string, acting: seq<Decision>, d: Decision)
    requires AsForeseen(db, acc, p, acting) && Acts(acc.db, p, d) && PeerKey(p, d.peerId) in acc.db.owners
    ensures ProvidedAndLinked(acc.db, p, d) <==> InHand(db, p, acting, d)
  {
    assert Grouped(acc.db, p) <==> WillGroup(db, p, acting, p);
    assert Meshed(acc.db, p) <==> WillMesh(db, p, acting, p);
    forall s | s in d.meshWith
      ensures Linked(acc.db, p, s) <==> (WillGroup(db, p, acting, p) && WillMesh(db, p, acting, p)
                                         && WillGroup(db, p, acting, s)
                                         && WillMesh(db, p, acting, s)) {
      LinkedIs(acc.db, p, s);
      assert Grouped(acc.db, s) <==> WillGroup(db, p, acting, s);
      assert Meshed(acc.db, s) <==> WillMesh(db, p, acting, s);
    }
    forall sn | sn in d.subnets && Trim(sn.cidr) != ""
      ensures Trim(sn.cidr) in Cidrs(acc.db) <==> WillCatalogue(db, acting, Trim(sn.cidr)) {
    }
  }

  lemma ActingIsInHand(db: Db, p: string, acting: seq<Decision>, d: Decision)
    requires d in acting
    ensures InHand(db, p, acting, d)
  {
    forall s | s in d.meshWith
      ensures WillGroup(db, p, acting, p) && WillMesh(db, p, acting, p) && WillGroup(db, p, acting, s)
              && WillMesh(db, p, acting, s) {
      assert Groups(p, d, p) && Groups(p, d, s) && Meshes(p, d, p) && Meshes(p, d, s);
    }
    if |d.subnets| > 0 { assert Groups(p, d, p); }
    forall sn | sn in d.subnets && Trim(sn.cidr) != "" ensures WillCatalogue(db, acting, Trim(sn.cidr)) {
      assert Catalogues(d, Trim(sn.cidr));
    }
  }

  lemma LinkOfOneMore(f: Db, p: string, init: seq<Decision>, d: Decision, s: string)
    ensures (exists x | x in init + [d] :: Acts(f, p, x) && s in x.meshWith) <==>
            (exists x | x in init :: Acts(f, p, x) && s in x.meshWith) || (Acts(f, p, d) && s in d.meshWith)
  {
    assert d in init + [d] && forall x | x in init :: x in init + [d];
    assert forall x | x in init + [d] :: x in init || x == d;
  }

  lemma {:induction false} LinkOf(f: Db, p: string, ds: seq<Decision>, s: string)
    ensures s in ActingLinks(f, p, ds) <==> exists d | d in ds :: Acts(f, p, d) && s in d.meshWith
    decreases |ds|
  {
    if ds != [] {
      var init, d := ds[..|ds| - 1], ds[|ds| - 1];
      LinkOf(f, p, init, s);
      assert ds == init + [d];
      LinkOfOneMore(f, p, init, d, s);
      assert s in ActingLinks(f, p, ds) <==> s in ActingLinks(f, p, init) || (Acts(f, p, d) && s in d.meshWith);
    }
  }

  lemma {:induction false} FirstOf(p: string, links: seq<string>, j: nat) returns (i: nat)
    requires j < |links|
    ensures i <= j && First(p, links, i) && MeshPairKey(p, links[i]) == MeshPairKey(p, links[j])
    decreases j
  {
    if First(p, links, j) {
      i := j;
    } else {
      var s :| s in links[..j] && MeshPairKey(p, s) == MeshPairKey(p, links[j]);
      var k :| 0 <= k < j && links[k] == s;
      i := FirstOf(p, links, k);
    }
  }

  lemma LinkedIfQuiet(f: Db, p: string, links: seq<string>, s: string)
    requires QuietSibs(f, {}, p, links) && '|' !in p && s in links
    ensures Linked(f, p, s)
  {
    var j :| 0 <= j < |links| && links[j] == s;
    var i := FirstOf(p, links, j);
    MeshPairKeyIdentifiesPairs(p, links[i], s);
    QuietSibsAt(f, p, links);
    assert LinkedAt(f, p, links, i);
  }

  lemma QuietIfLinked(f: Db, p: string, links: seq<string>)
    requires forall s | s in links :: Linked(f, p, s)
    ensures QuietSibs(f, {}, p, links)
  {
    forall i | 0 <= i < |links| ensures LinkedAt(f, p, links, i) { assert links[i] in links; }
    QuietSibsAt(f, p, links);
  }

  // A batch is quiet exactly if each acting decision has all it asks for.
  lemma QuietIs(f: Db, p: string, ds: seq<Decision>)
    requires '|' !in p
    ensures QuietAll(f, p, ds) <==> forall d | d in ds :: ProvidedAndLinked(f, p, d)
  {
    var links := ActingLinks(f, p, ds);
    QuietFlat(f, p, ds);
    if QuietAll(f, p, ds) {
      forall d | d in ds ensures ProvidedAndLinked(f, p, d) {
        forall s | Acts(f, p, d) && s in d.meshWith ensures Linked(f, p, s) {
          LinkOf(f, p, ds, s);
          LinkedIfQuiet(f, p, links, s);
        }
      }
    }
    if forall d | d in ds :: ProvidedAndLinked(f, p, d) {
      forall s | s in links ensures Linked(f, p, s) {
        LinkOf(f, p, ds, s);
        var d :| d in ds && Acts(f, p, d) && s in d.meshWith;
        assert ProvidedAndLinked(f, p, d);
      }
      QuietIfLinked(f, p, links);
      forall d | d in ds ensures Provided(f, p, d) { assert ProvidedAndLinked(f, p, d); }
    }
  }

  lemma {:induction false} ActingHas(db: Db, p: string, ds: seq<Decision>, i: nat)
    requires i < |ds| && ActsAfter(db, p, ds[..i], ds[i])
    ensures ds[i] in ActingOf(db, p, ds)
    decreases |ds|
  {
    var init := ds[..|ds| - 1];
    if i < |init| {
      assert init[..i] == ds[..i];
      ActingHas(db, p, init, i);
    } else {
      assert ds[..i] == init;
    }
  }

  // One decision, looked at after the first run.
  lemma OneAfter(db: Db, r: Acc, p: string, ds: seq<Decision>, i: nat)
    requires i < |ds| && AsForeseen(db, r, p, ActingOf(db, p, ds))
             && r.db.owners.Keys == db.owners.Keys + Claimed(p, ds)
    ensures ProvidedAndLinked(r.db, p, ds[i]) <==> (Woken(db, p, ds, i) ==> InHand(db, p, ActingOf(db, p, ds), ds[i]))
  {
    var d, key, acting := ds[i], PeerKey(p, ds[i].peerId), ActingOf(db, p, ds);
    assert key in r.db.owners <==> key in db.owners || key in Claimed(p, ds) by {
      assert key in r.db.owners <==> key in r.db.owners.Keys;
    }
    if Acts(r.db, p, d) {
      OwnedIfActing(db, r.db, p, ds, d);
      InHandIsThere(db, r, p, acting, d);
      if ActsAfter(db, p, ds[..i], d) {
        ActingHas(db, p, ds, i);
        ActingIsInHand(db, p, acting, d);
      }
    } else if d.action.CreateNode? && key in Claimed(p, ds) {
      var j := ClaimedBy(p, ds, key);
      assert false;
    }
  }

  ghost predicate WokenInHand(db: Db, p: string, ds: seq<Decision>) {
    forall i | 0 <= i < |ds| :: Woken(db, p, ds, i) ==> InHand(db, p, ActingOf(db, p, ds), ds[i])
  }

  lemma DismissedTwice(db: Db, p: string, ds: seq<Decision>, canon: Canon)
    requires Sound(db) && !Apply(db, p, ds, canon).failed && !Apply(Apply(db, p, ds, canon).db, p, ds, canon).failed
    ensures var r := Apply(db, p, ds, canon); Apply(r.db, p, ds, canon).db.dismissed == r.db.dismissed
  {
    var r := Apply(db, p, ds, canon);
    ApplyProgress(Begin(db), p, ds, canon);
    ApplyDismisses(Begin(db), p, ds, canon);
    ApplyDismisses(Begin(r.db), p, ds, canon);
    DismissTwice(db.dismissed, p, ds);
  }

  // A second run after one that did exactly what its acting decisions ask for.
  lemma AfterExactRun(db: Db, p: string, ds: seq<Decision>, canon: Canon)
    requires Sound(db) && AllCanonical(ds, canon) && '|' !in p && ExactSoFar(db, Apply(db, p, ds, canon), p, ds)
    ensures var r := Apply(db, p, ds, canon); SameAll(r.db, Apply(r.db, p, ds, canon).db) <==> WokenInHand(db, p, ds)
  {
    var r := Apply(db, p, ds, canon);
    assert SameAll(r.db, Apply(r.db, p, ds, canon).db) <==> QuietAll(r.db, p, ds) by {
      RoomIsEnough(r.db, p, ds, canon);
      NothingToDoExactly(r.db, p, ds, canon);
      DismissedTwice(db, p, ds, canon);
    }
    QuietIs(r.db, p, ds);
    forall i | 0 <= i < |ds|
      ensures ProvidedAndLinked(r.db, p, ds[i]) <==>
                (Woken(db, p, ds, i) ==> InHand(db, p, ActingOf(db, p, ds), ds[i])) {
      OneAfter(db, r, p, ds, i);
    }
    assert (forall d | d in ds :: ProvidedAndLinked(r.db, p, d)) <==>
             (forall i | 0 <= i < |ds| :: ProvidedAndLinked(r.db, p, ds[i]));
  }

  /** For every state with room for a group and every batch: re-applying changes nothing exactly if everything asked for
      by a decision that a later one wakes is in hand anyway. */
  lemma LateNamingExactly(db: Db, p: string, ds: seq<Decision>, canon: Canon)
    requires Sound(db) && AllCanonical(ds, canon) && HasRoom(db, p) && '|' !in p
    ensures var r := Apply(db, p, ds, canon); SameAll(r.db, Apply(r.db, p, ds, canon).db) <==> WokenInHand(db, p, ds)
  {
    ApplyExactly(db, p, ds, canon);
    AfterExactRun(db, p, ds, canon);
  }
}
