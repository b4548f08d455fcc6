/**
  Re-applying a network detection, for every state and every batch: late naming also where no group name is free
  (internal/api/network_detect.go, internal/api/network_groups.go). All conditions are told from the tables and the
  batch before the first run.
*/
module DetectionWoken {
  import opened Prelude
  import opened NetworkDetect
  import opened DetectionReapply
  import opened DetectionSpent
  import opened DetectionExactly
  import opened DetectionLateNaming

  // ---------------------------------------------------------------- what links do to mesh flags

  /** The provider is on after these links. */
  predicate On(db: Db, p: string, links: seq<string>, q: string) {
    Meshed(db, q) || (links != [] && (q == p || q in links))
  }

  lemma PairMeshes(f: Db, p: string, s: string, q: string)
    ensures Meshed(EnableMeshPair(f, p, s).0, q) <==> Meshed(f, q) || q == p || q == s
  {
    var r := ReconcileMeshGroups(f, p, s);
    FlagsOnly(if r.Some? then r.value else f, p, s, q);
  }

  lemma {:induction false} LinksMesh(db: Db, p: string, links: seq<string>, q: string)
    requires '|' !in p
    ensures var r := MeshAll(Begin(db), p, links);
            r.meshDone == DoneAfter({}, p, links) && (Meshed(r.db, q) <==> On(db, p, links, q))
    decreases |links|
  {
    if links != [] {
      var init, s := links[..|links| - 1], links[|links| - 1];
      var acc := MeshAll(Begin(db), p, init);
      assert links == init + [s];
      LinksMesh(db, p, init, q);
      DoneAfterOneMore({}, p, init, s);
      PairMeshes(acc.db, p, s, q);
      if MeshPairKey(p, s) in acc.meshDone {
        var b :| b in init && MeshPairKey(p, b) == MeshPairKey(p, s);
        MeshPairKeyIdentifiesPairs(p, b, s);
      }
    }
  }

  lemma {:induction false} LinksLeaveOthers(acc: Acc, p: string, links: seq<string>, q: string)
    requires q != p && q !in links
    ensures SettingsOf(MeshAll(acc, p, links).db, q) == SettingsOf(acc.db, q)
    decreases |links|
  {
    if links != [] {
      var init, s := links[..|links| - 1], links[|links| - 1];
      assert s in links && forall x | x in init :: x in links;
      LinksLeaveOthers(acc, p, init, q);
      var f := MeshAll(acc, p, init).db;
      var r := ReconcileMeshGroups(f, p, s);
      FlagsOnly(if r.Some? then r.value else f, p, s, q);
    }
  }

  // ---------------------------------------------------------------- who adopts

  lemma {:induction false} AdopterIs(db: Db, p: string, links: seq<string>)
    ensures var g := Adopter(db, p, links); g < |links| ==> Grouped(db, links[g]) && First(p, links, g)
    decreases |links|
  {
    if links != [] {
      var init, s := links[..|links| - 1], links[|links| - 1];
      assert links == init + [s];
      AdopterIs(db, p, init);
      var g := Adopter(db, p, init);
      if g < |init| { EarlierIsFirst(p, init, s, g); }
    }
  }

  lemma {:induction false} AdopterIsLeast(db: Db, p: string, links: seq<string>, i: nat)
    requires i < |links| && First(p, links, i) && Grouped(db, links[i])
    ensures Adopter(db, p, links) <= i
    decreases |links|
  {
    var init, s := links[..|links| - 1], links[|links| - 1];
    assert links == init + [s];
    if i < |init| {
      EarlierIsFirst(p, init, s, i);
      AdopterIsLeast(db, p, init, i);
    }
  }

  /** Without adoption no sibling has a group, and conversely. */
  lemma NoAdopterExactly(db: Db, p: string, links: seq<string>)
    requires '|' !in p
    ensures Adopter(db, p, links) == |links| <==> forall s | s in links :: !Grouped(db, s)
  {
    AdopterIs(db, p, links);
    var g := Adopter(db, p, links);
    if g < |links| {
      assert links[g] in links;
    } else {
      forall s | s in links ensures !Grouped(db, s) {
        var j :| 0 <= j < |links| && links[j] == s;
        var i := FirstOf(p, links, j);
        MeshPairKeyIdentifiesPairs(p, links[i], s);
        if Grouped(db, s) { AdopterIsLeast(db, p, links, i); }
      }
    }
  }

  // ---------------------------------------------------------------- a group is adopted, nobody refused

  lemma OpenLinkOneMore(db: Db, p: string, ds: seq<Decision>, init: seq<Decision>, d: Decision, s: string)
    requires ds == init + [d] && s in OpenLinks(db, p, ds)
    ensures s in OpenLinks(db, p, init) || (ActsAfter(db, p, init, d) && s in d.meshWith)
  {
    OpenOneMore(db, p, init, d);
  }

  lemma {:induction false} OpenLinkBy(db: Db, p: string, ds: seq<Decision>, s: string) returns (i: nat)
    requires s in OpenLinks(db, p, ds)
    ensures i < |ds| && ActsAfter(db, p, ds[..i], ds[i]) && s in ds[i].meshWith
    decreases |ds|
  {
    var init, d := ds[..|ds| - 1], ds[|ds| - 1];
    assert ds == init + [d];
    OpenLinkOneMore(db, p, ds, init, d, s);
    if s in OpenLinks(db, p, init) {
      i := OpenLinkBy(db, p, init, s);
      assert ds[..i] == init[..i] && ds[i] == init[i];
    } else {
      i := |init|;
      assert ds[..i] == init;
    }
  }

  // Before the first decision that asks for networks: the open links are those of the acting decisions.
  lemma {:induction false} OpenLinkOf(db: Db, p: string, ds: seq<Decision>)
    requires !AsksForGroup(db, p, ds)
    ensures forall d | d in ActingOf(db, p, ds) ::
              |d.subnets| == 0 && forall s | s in d.meshWith :: s in OpenLinks(db, p, ds)
    decreases |ds|
  {
    if ds != [] {
      var init, d := ds[..|ds| - 1], ds[|ds| - 1];
      assert ds == init + [d];
      OpenOneMore(db, p, init, d);
      ActingOneMore(db, p, init, d);
      OpenLinkOf(db, p, init);
    }
  }

  lemma OpenLinkIsActing(db: Db, p: string, ds: seq<Decision>, s: string) returns (d: Decision)
    requires s in OpenLinks(db, p, ds)
    ensures d in ActingOf(db, p, ds) && s in d.meshWith
  {
    var i := OpenLinkBy(db, p, ds, s);
    ActingHas(db, p, ds, i);
    d := ds[i];
  }

  // The settings of one provider after the open links.
  lemma AdoptedSettings(db: Db, acc: Acc, p: string, ds: seq<Decision>, q: string)
    requires '|' !in p && !AsksForGroup(db, p, ds)
    requires var links := OpenLinks(db, p, ds);
             && Grouped(acc.db, p) && links != []
             && SettingsOf(acc.db, q) == SettingsOf(MeshAll(Begin(db), p, links).db, q)
             && forall i | 0 <= i < |links| && First(p, links, i) :: Grouped(acc.db, links[i])
    ensures Grouped(acc.db, q) <==> WillGroup(db, p, ActingOf(db, p, ds), q)
    ensures Meshed(acc.db, q) <==> WillMesh(db, p, ActingOf(db, p, ds), q)
  {
    var links, acting := OpenLinks(db, p, ds), ActingOf(db, p, ds);
    LinksMesh(db, p, links, q);
    OpenLinkOf(db, p, ds);
    if q == p {
      var d := OpenLinkIsActing(db, p, ds, links[0]);
      assert Groups(p, d, p) && Meshes(p, d, p);
    } else if q in links {
      var d := OpenLinkIsActing(db, p, ds, q);
      assert Groups(p, d, q) && Meshes(p, d, q);
      var j :| 0 <= j < |links| && links[j] == q;
      var i := FirstOf(p, links, j);
      MeshPairKeyIdentifiesPairs(p, links[i], q);
    } else {
      LinksLeaveOthers(Begin(db), p, links, q);
      forall d | d in acting ensures !Groups(p, d, q) && !Meshes(p, d, q) {}
    }
  }

  // No sibling but the provider itself comes, in a pair taken, before the adopter.
  ghost predicate NobodyRefused(db: Db, p: string, links: seq<string>) {
    forall i | 0 <= i < Adopter(db, p, links) && First(p, links, i) :: links[i] == p
  }

  lemma OpenIsTaken(db: Db, p: string, ds: seq<Decision>, k: string)
    requires !AsksForGroup(db, p, ds)
    ensures k in DoneAfter({}, p, OpenLinks(db, p, ds)) <==> WasTaken(p, ActingOf(db, p, ds), k)
  {
    OpenLinkOf(db, p, ds);
    if k in DoneAfter({}, p, OpenLinks(db, p, ds)) {
      var s :| s in OpenLinks(db, p, ds) && MeshPairKey(p, s) == k;
      var d := OpenLinkIsActing(db, p, ds, s);
    }
  }

  lemma AdoptedForeseen(db: Db, acc: Acc, p: string, ds: seq<Decision>)
    requires '|' !in p && !AsksForGroup(db, p, ds) && acc.db.subnets == db.subnets && OpenLinks(db, p, ds) != []
    requires var links := OpenLinks(db, p, ds);
             && Grouped(acc.db, p) && acc.meshDone == DoneAfter({}, p, links)
             && SameNet(acc.db, MeshAll(Begin(db), p, links).db)
             && forall i | 0 <= i < |links| && First(p, links, i) :: Grouped(acc.db, links[i])
    ensures AsForeseen(db, acc, p, ActingOf(db, p, ds))
  {
    var links, acting := OpenLinks(db, p, ds), ActingOf(db, p, ds);
    forall q
      ensures Grouped(acc.db, q) <==> WillGroup(db, p, acting, q)
      ensures Meshed(acc.db, q) <==> WillMesh(db, p, acting, q) {
      AdoptedSettings(db, acc, p, ds, q);
    }
    assert forall c | c != "" :: c in Cidrs(acc.db) <==> WillCatalogue(db, acting, c) by {
      OpenLinkOf(db, p, ds);
      assert Cidrs(acc.db) == Cidrs(db);
    }
    forall k ensures k in acc.meshDone <==> WasTaken(p, acting, k) { OpenIsTaken(db, p, ds, k); }
  }

  lemma UpToAdoptionExactly(db: Db, p: string, ds: seq<Decision>, k: nat, canon: Canon)
    requires Sound(db) && !HasRoom(db, p) && '|' !in p && k <= |ds| && !AsksForGroup(db, p, ds[..k])
    requires var links := OpenLinks(db, p, ds[..k]); Adopter(db, p, links) < |links| && NobodyRefused(db, p, links)
    ensures ExactSoFar(db, Apply(db, p, ds[..k], canon), p, ds[..k])
  {
    var acc, links := Apply(db, p, ds[..k], canon), OpenLinks(db, p, ds[..k]);
    assert Adopted(db, acc, p, ds, k) by { UpToAdoption(db, p, ds, k, canon); }
    forall i | 0 <= i < |links| && First(p, links, i) ensures Grouped(acc.db, links[i]) {
      assert LinkAt(db, acc.db, p, links, i);
    }
    assert acc.db.subnets == db.subnets && SameNet(acc.db, MeshAll(Begin(db), p, links).db) by {
      OpenRun(db, p, ds[..k], canon);
    }
    AdoptedForeseen(db, acc, p, ds[..k]);
  }

  lemma StepExactly(db: Db, p: string, init: seq<Decision>, d: Decision, canon: Canon)
    requires ExactSoFar(db, Apply(db, p, init, canon), p, init) && Canonical(d, canon) && '|' !in p
    ensures ExactSoFar(db, Apply(db, p, init + [d], canon), p, init + [d])
  {
    ExactStep(db, Apply(db, p, init, canon), p, init, d, canon);
    ApplyAppends(db, p, init, d, canon);
  }

  ghost function ExactAfter(db: Db, p: string, canon: Canon): seq<Decision> -> bool {
    (xs: seq<Decision>) => ExactSoFar(db, Apply(db, p, xs, canon), p, xs)
  }

  lemma ExactGoesOn(db: Db, p: string, ds: seq<Decision>, j: nat, canon: Canon)
    requires AllCanonical(ds, canon) && '|' !in p
    ensures GoesOn(ds, j, ExactAfter(db, p, canon))
  {
    if j < |ds| && ExactAfter(db, p, canon)(ds[..j]) {
      assert ds[j] in ds;
      StepExactly(db, p, ds[..j], ds[j], canon);
      assert ds[..j + 1] == ds[..j] + [ds[j]];
    }
  }

  lemma RestExactly(db: Db, p: string, ds: seq<Decision>, k: nat, canon: Canon)
    requires AllCanonical(ds, canon) && '|' !in p && k <= |ds|
    requires ExactSoFar(db, Apply(db, p, ds[..k], canon), p, ds[..k])
    ensures ExactSoFar(db, Apply(db, p, ds, canon), p, ds)
  {
    forall j: nat ensures GoesOn(ds, j, ExactAfter(db, p, canon)) { ExactGoesOn(db, p, ds, j, canon); }
    PassedOn(ds, k, |ds|, ExactAfter(db, p, canon));
    assert ds[..|ds|] == ds;
  }

  lemma AdoptionLasts(db: Db, p: string, ds: seq<Decision>, canon: Canon)
    requires Sound(db) && AllCanonical(ds, canon) && !HasRoom(db, p) && '|' !in p
    requires var links := OpenLinks(db, p, ds); Adopter(db, p, links) < |links| && NobodyRefused(db, p, links)
    ensures var r := Apply(db, p, ds, canon); SameAll(r.db, Apply(r.db, p, ds, canon).db) <==> WokenInHand(db, p, ds)
  {
    var k := StopAt(db, p, ds);
    StopsAt(db, p, ds);
    UpToAdoptionExactly(db, p, ds, k, canon);
    RestExactly(db, p, ds, k, canon);
    AfterExactRun(db, p, ds, canon);
  }

  // ---------------------------------------------------------------- a group is adopted after a refusal

  lemma StillActs(db: Db, f: Db, p: string, ds: seq<Decision>, i: nat)
    requires i < |ds| && ActsAfter(db, p, ds[..i], ds[i]) && f.owners.Keys == db.owners.Keys + Claimed(p, ds)
    ensures Acts(f, p, ds[i])
  {
    var key := PeerKey(p, ds[i].peerId);
    ClaimedBefore(p, ds, i, |ds|);
    assert ds[..|ds|] == ds;
    assert key in f.owners <==> key in f.owners.Keys;
  }

  lemma RefusedIsUnquiet(db: Db, f: Db, p: string, ds: seq<Decision>, q: string)
    requires '|' !in p && f.owners.Keys == db.owners.Keys + Claimed(p, ds)
    requires q in OpenLinks(db, p, ds) && !Grouped(f, q)
    ensures !QuietAll(f, p, ds)
  {
    var i := OpenLinkBy(db, p, ds, q);
    StillActs(db, f, p, ds, i);
    QuietIs(f, p, ds);
    assert ds[i] in ds && !ProvidedAndLinked(f, p, ds[i]);
  }

  lemma RefusalBreaks(db: Db, p: string, ds: seq<Decision>, i: nat, canon: Canon)
    requires Sound(db) && AllCanonical(ds, canon) && !HasRoom(db, p) && '|' !in p
    requires var links := OpenLinks(db, p, ds);
             Adopter(db, p, links) < |links| && i < Adopter(db, p, links) && First(p, links, i) && links[i] != p
    ensures var r := Apply(db, p, ds, canon); !SameTables(r.db, Apply(r.db, p, ds, canon).db)
  {
    var k := StopAt(db, p, ds);
    StopsAt(db, p, ds);
    var q, r := OpenLinks(db, p, ds)[i], Apply(db, p, ds, canon);
    assert Lagging(r, p, q) by {
      UpToAdoption(db, p, ds, k, canon);
      RefusedIsBehind(db, Apply(db, p, ds[..k], canon), p, ds, k, i);
      RestLeavesBehind(db, p, ds, k, canon, q);
    }
    assert !QuietAll(r.db, p, ds) by {
      assert ds != [] ==> !Apply(db, p, ds[..|ds| - 1], canon).failed;
      OwnersForeseen(db, p, ds, canon);
      RefusedIsUnquiet(db, r.db, p, ds, q);
    }
    RoomIsEnough(r.db, p, ds, canon);
    NothingToDoExactly(r.db, p, ds, canon);
  }

  // ---------------------------------------------------------------- no group at all

  /** The decisions a run looks at if the provider gets no group. */
  function Reached(db: Db, p: string, ds: seq<Decision>): nat {
    if StopAt(db, p, ds) < |ds| then StopAt(db, p, ds) + 1 else |ds|
  }

  /** The tables as a second run finds them, as far as ownership goes. */
  function Owning(db: Db, p: string, ds: seq<Decision>): Db {
    db.(owners := map k | k in db.owners.Keys + Claimed(p, ds[..Reached(db, p, ds)]) :: 0)
  }

  lemma {:induction false} LinksByKeys(f: Db, g: Db, p: string, ds: seq<Decision>)
    requires f.owners.Keys == g.owners.Keys
    ensures AsksForGroup(f, p, ds) == AsksForGroup(g, p, ds) && OpenLinks(f, p, ds) == OpenLinks(g, p, ds)
    ensures StopAt(f, p, ds) == StopAt(g, p, ds)
    decreases |ds|
  {
    if ds != [] {
      var init, d := ds[..|ds| - 1], ds[|ds| - 1];
      assert ds == init + [d];
      LinksByKeys(f, g, p, init);
      assert PeerKey(p, d.peerId) in f.owners.Keys <==> PeerKey(p, d.peerId) in g.owners.Keys;
      OpenOneMore(f, p, init, d);
      OpenOneMore(g, p, init, d);
    }
  }

  // What the first run leaves.
  ghost predicate Spent(db: Db, f: Db, p: string, ds: seq<Decision>) {
    && Sound(f) && !HasRoom(f, p) && f.owners.Keys == db.owners.Keys + Claimed(p, ds[..Reached(db, p, ds)])
    && f.dismissed == DismissAll(db.dismissed, p, ds[..StopAt(db, p, ds)])
    && (forall q :: Grouped(f, q) <==> Grouped(db, q))
    && (forall q :: Meshed(f, q) <==> On(db, p, OpenLinks(db, p, ds), q))
  }

  lemma SpentNet(db: Db, f: Db, p: string, links: seq<string>)
    requires '|' !in p && !HasRoom(db, p) && Adopter(db, p, links) == |links|
    requires SameNet(f, MeshAll(Begin(db), p, links).db)
    ensures !HasRoom(f, p) && f.groups == db.groups
    ensures forall q :: Grouped(f, q) <==> Grouped(db, q)
    ensures forall q :: Meshed(f, q) <==> On(db, p, links, q)
  {
    var acc := MeshAll(Begin(db), p, links);
    LinkageHolds(db, p, links);
    AllSettledWithout(db, f, p, links);
    forall q ensures (Grouped(f, q) <==> Grouped(db, q)) && (Meshed(f, q) <==> On(db, p, links, q)) {
      assert SettingsOf(f, q) == SettingsOf(acc.db, q);
      assert Grouped(acc.db, q) <==> Grouped(db, q);
      LinksMesh(db, p, links, q);
    }
  }

  lemma FirstRunSpends(db: Db, p: string, ds: seq<Decision>, canon: Canon)
    requires Sound(db) && !HasRoom(db, p) && '|' !in p
    requires Adopter(db, p, OpenLinks(db, p, ds)) == |OpenLinks(db, p, ds)|
    ensures Spent(db, Apply(db, p, ds, canon).db, p, ds)
  {
    var k, f, links := StopAt(db, p, ds), Apply(db, p, ds, canon).db, OpenLinks(db, p, ds);
    StopsAt(db, p, ds);
    assert Sound(f) by { ApplyProgress(Begin(db), p, ds, canon); }
    if k == |ds| {
      assert ds[..k] == ds;
      UpToStop(db, p, ds, k, canon);
    } else {
      AtStop(db, p, ds, k, canon);
    }
    assert LeftBy(db, f, p, ds, k, Reached(db, p, ds));
    SpentNet(db, f, p, links);
  }

  // ---- the second run

  lemma {:induction false} AskedEarly(f: Db, p: string, ds: seq<Decision>, n: nat)
    requires n <= |ds| && AsksForGroup(f, p, ds[..n])
    ensures StopAt(f, p, ds) < n
    decreases |ds|
  {
    if n == |ds| {
      assert ds[..n] == ds;
    } else {
      var init, d := ds[..|ds| - 1], ds[|ds| - 1];
      assert ds == init + [d] && init[..n] == ds[..n];
      AskedEarly(f, p, init, n);
      StopsAt(f, p, init);
      OpenOneMore(f, p, init, d);
    }
  }

  lemma ActsToo(db: Db, f: Db, p: string, init: seq<Decision>, d: Decision)
    requires db.owners.Keys <= f.owners.Keys && ActsAfter(db, p, init, d)
    ensures ActsAfter(f, p, init, d)
  {
    var key := PeerKey(p, d.peerId);
    assert key in db.owners.Keys ==> key in f.owners.Keys;
  }

  lemma AsksToo(f: Db, p: string, ds: seq<Decision>, k: nat)
    requires k < |ds| && ActsAfter(f, p, ds[..k], ds[k]) && |ds[k].subnets| > 0
    ensures AsksForGroup(f, p, ds[..k + 1])
  {
    assert ds[..k + 1] == ds[..k] + [ds[k]];
    OpenOneMore(f, p, ds[..k], ds[k]);
  }

  lemma StopsNoLater(db: Db, f: Db, p: string, ds: seq<Decision>)
    requires db.owners.Keys <= f.owners.Keys
    ensures StopAt(f, p, ds) <= StopAt(db, p, ds)
  {
    var k := StopAt(db, p, ds);
    StopsAt(db, p, ds);
    if k < |ds| {
      ActsToo(db, f, p, ds[..k], ds[k]);
      AsksToo(f, p, ds, k);
      AskedEarly(f, p, ds, k + 1);
    }
  }

  // The decision that stops the second run has its peer owned already.
  lemma StopperIsOwned(db: Db, f: Db, p: string, ds: seq<Decision>)
    requires f.owners.Keys == db.owners.Keys + Claimed(p, ds[..Reached(db, p, ds)]) && StopAt(f, p, ds) < |ds|
    ensures PeerKey(p, ds[StopAt(f, p, ds)].peerId) in f.owners
    ensures Claimed(p, ds[..StopAt(f, p, ds)]) <= f.owners.Keys
  {
    var k, m := StopAt(f, p, ds), Reached(db, p, ds);
    StopsAt(f, p, ds);
    StopsNoLater(db, f, p, ds);
    ClaimedBefore(p, ds, k, m);
    if Naming(ds[k]) { ClaimedHas(p, ds[..m], k); }
    assert PeerKey(p, ds[k].peerId) in f.owners.Keys;
  }

  // Where the second run stops, it writes nothing more.
  lemma StopsUnchanged(db: Db, f: Db, p: string, ds: seq<Decision>, canon: Canon)
    requires f.owners.Keys == db.owners.Keys + Claimed(p, ds[..Reached(db, p, ds)]) && StopAt(f, p, ds) < |ds|
    requires var acc := Apply(f, p, ds[..StopAt(f, p, ds)], canon);
             && !acc.failed && !HasRoom(acc.db, p)
             && acc.db.owners.Keys == f.owners.Keys + Claimed(p, ds[..StopAt(f, p, ds)])
    ensures var acc := Apply(f, p, ds[..StopAt(f, p, ds)], canon);
            Apply(f, p, ds, canon).db == acc.db && acc.db.owners.Keys == f.owners.Keys
  {
    var k := StopAt(f, p, ds);
    var acc := Apply(f, p, ds[..k], canon);
    StopsAt(f, p, ds);
    StopperIsOwned(db, f, p, ds);
    assert PeerKey(p, ds[k].peerId) in acc.db.owners.Keys;
    StopFails(acc, p, ds[k], canon);
    RunStops(f, p, ds, k, canon);
  }

  // What a run that stops at k leaves.
  ghost predicate Again(f: Db, r: Db, p: string, ds: seq<Decision>, k: nat)
    requires k <= |ds|
  {
    && r.owners.Keys == f.owners.Keys && r.subnets == f.subnets && r.groups == f.groups
    && r.dismissed == DismissAll(f.dismissed, p, ds[..k])
    && (forall q :: Grouped(r, q) <==> Grouped(f, q))
    && (forall q :: Meshed(r, q) <==> On(f, p, OpenLinks(f, p, ds), q))
  }

  lemma AgainBy(f: Db, r: Db, p: string, ds: seq<Decision>, k: nat)
    requires '|' !in p && k <= |ds| && !HasRoom(f, p) && OpenLinks(f, p, ds[..k]) == OpenLinks(f, p, ds)
    requires Adopter(f, p, OpenLinks(f, p, ds)) == |OpenLinks(f, p, ds)|
    requires LeftBy(f, r, p, ds, k, k) && r.owners.Keys == f.owners.Keys
    ensures Again(f, r, p, ds, k)
  {
    SpentNet(f, r, p, OpenLinks(f, p, ds));
  }

  // The second run when it adopts nothing either.
  lemma SecondRun(db: Db, f: Db, p: string, ds: seq<Decision>, canon: Canon)
    requires '|' !in p && Spent(db, f, p, ds)
    requires Adopter(f, p, OpenLinks(f, p, ds)) == |OpenLinks(f, p, ds)|
    ensures Again(f, Apply(f, p, ds, canon).db, p, ds, StopAt(f, p, ds))
  {
    var k := StopAt(f, p, ds);
    var acc := Apply(f, p, ds[..k], canon);
    StopsAt(f, p, ds);
    assert !acc.failed && LeftBy(f, acc.db, p, ds, k, k) && !HasRoom(acc.db, p) by { UpToStop(f, p, ds, k, canon); }
    if k == |ds| {
      assert ds[..k] == ds;
      assert ds[..Reached(db, p, ds)] == ds by { StopsNoLater(db, f, p, ds); }
      assert acc.db.owners.Keys == f.owners.Keys;
    } else {
      StopsUnchanged(db, f, p, ds, canon);
    }
    AgainBy(f, acc.db, p, ds, k);
  }

  lemma GrownSameNodes(a: Acc, b: Acc)
    requires Progress(a, b) && a.db.owners.Keys == b.db.owners.Keys
    ensures a.db.nodes == b.db.nodes && a.db.owners == b.db.owners && a.db.categories == b.db.categories
  {
    assert a.db.owners == b.db.owners;
    SameSize(a.db.nodes, b.db.nodes);
  }

  // A second run without adoption leaves everything exactly if its links find everyone on.
  lemma SecondRunSame(db: Db, f: Db, p: string, ds: seq<Decision>, canon: Canon)
    requires '|' !in p && Spent(db, f, p, ds)
    requires Adopter(f, p, OpenLinks(f, p, ds)) == |OpenLinks(f, p, ds)|
    ensures SameAll(f, Apply(f, p, ds, canon).db) <==>
            (forall s | s in OpenLinks(f, p, ds) :: Meshed(f, s) && Meshed(f, p))
            && DismissAll(f.dismissed, p, ds[..StopAt(f, p, ds)]) == f.dismissed
  {
    var links, r := OpenLinks(f, p, ds), Apply(f, p, ds, canon);
    SecondRun(db, f, p, ds, canon);
    assert Progress(Begin(f), r) by { ApplyProgress(Begin(f), p, ds, canon); }
    GrownSameNodes(Begin(f), r);
    forall q ensures SettingsOf(f, q) == SettingsOf(r.db, q) <==> Meshed(f, q) == Meshed(r.db, q) {
      assert SettingsGrow(SettingsOf(f, q), SettingsOf(r.db, q));
      assert Grouped(r.db, q) <==> Grouped(f, q);
    }
    assert (forall q :: SettingsOf(f, q) == SettingsOf(r.db, q)) <==>
             forall s | s in links :: Meshed(f, s) && Meshed(f, p) by {
      if forall q :: SettingsOf(f, q) == SettingsOf(r.db, q) {
        forall s | s in links ensures Meshed(f, s) && Meshed(f, p) {
          assert Meshed(r.db, s) && Meshed(r.db, p);
          assert SettingsOf(f, s) == SettingsOf(r.db, s) && SettingsOf(f, p) == SettingsOf(r.db, p);
        }
      }
      if forall s | s in links :: Meshed(f, s) && Meshed(f, p) {
        forall q ensures SettingsOf(f, q) == SettingsOf(r.db, q) {
          if links != [] { assert links[0] in links; }
          assert Meshed(r.db, q) <==> On(f, p, links, q);
        }
      }
    }
  }

  lemma GroupStaysOneMore(f: Db, p: string, init: seq<Decision>, d: Decision, canon: Canon)
    requires Sound(f) && Grouped(Apply(f, p, init, canon).db, p)
    ensures Grouped(Apply(f, p, init + [d], canon).db, p)
  {
    var acc := Apply(f, p, init, canon);
    ApplyProgress(Begin(f), p, init, canon);
    OneProgress(acc, p, d, canon);
    ApplyAppends(f, p, init, d, canon);
    assert SettingsGrow(SettingsOf(acc.db, p), SettingsOf(ApplyOne(acc, p, d, canon).db, p));
  }

  ghost function GroupedAfter(f: Db, p: string, canon: Canon): seq<Decision> -> bool {
    (ds: seq<Decision>) => Grouped(Apply(f, p, ds, canon).db, p)
  }

  lemma GroupGoesOn(f: Db, p: string, ds: seq<Decision>, j: nat, canon: Canon)
    requires Sound(f)
    ensures GoesOn(ds, j, GroupedAfter(f, p, canon))
  {
    if j < |ds| && Grouped(Apply(f, p, ds[..j], canon).db, p) {
      assert ds[..j + 1] == ds[..j] + [ds[j]];
      GroupStaysOneMore(f, p, ds[..j], ds[j], canon);
    }
  }

  lemma GroupStays(f: Db, p: string, ds: seq<Decision>, k: nat, canon: Canon)
    requires Sound(f) && k <= |ds| && GroupedAfter(f, p, canon)(ds[..k])
    ensures GroupedAfter(f, p, canon)(ds)
  {
    forall j: nat ensures GoesOn(ds, j, GroupedAfter(f, p, canon)) { GroupGoesOn(f, p, ds, j, canon); }
    PassedOn(ds, k, |ds|, GroupedAfter(f, p, canon));
    assert ds[..|ds|] == ds;
  }

  // A second run that adopts a group changes the tables.
  lemma SecondRunAdopts(f: Db, p: string, ds: seq<Decision>, canon: Canon)
    requires Sound(f) && !HasRoom(f, p) && Adopter(f, p, OpenLinks(f, p, ds)) < |OpenLinks(f, p, ds)|
    ensures !SameTables(f, Apply(f, p, ds, canon).db)
  {
    var k := StopAt(f, p, ds);
    StopsAt(f, p, ds);
    UpToAdoption(f, p, ds, k, canon);
    GroupStays(f, p, ds, k, canon);
    assert SettingsOf(f, p) != SettingsOf(Apply(f, p, ds, canon).db, p);
  }

  /** No group to be had in the first run: the siblings of the decisions that act in the second one have none either
      and are on with the provider, and where the second run stops earlier no dismissal is taken back. */
  ghost predicate StillIdle(db: Db, p: string, ds: seq<Decision>) {
    var links, again := OpenLinks(db, p, ds), OpenLinks(Owning(db, p, ds), p, ds);
    var dismissed := DismissAll(db.dismissed, p, ds[..StopAt(db, p, ds)]);
    && (forall s | s in again :: !Grouped(db, s) && On(db, p, links, s) && On(db, p, links, p))
    && DismissAll(dismissed, p, ds[..StopAt(Owning(db, p, ds), p, ds)]) == dismissed
  }

  lemma SpentLasts(db: Db, p: string, ds: seq<Decision>, canon: Canon)
    requires Sound(db) && !HasRoom(db, p) && '|' !in p
    requires Adopter(db, p, OpenLinks(db, p, ds)) == |OpenLinks(db, p, ds)|
    ensures var r := Apply(db, p, ds, canon); SameAll(r.db, Apply(r.db, p, ds, canon).db) <==> StillIdle(db, p, ds)
  {
    var f := Apply(db, p, ds, canon).db;
    assert Spent(db, f, p, ds) by { FirstRunSpends(db, p, ds, canon); }
    assert Owning(db, p, ds).owners.Keys == f.owners.Keys;
    LinksByKeys(Owning(db, p, ds), f, p, ds);
    var again := OpenLinks(f, p, ds);
    NoAdopterExactly(f, p, again);
    if Adopter(f, p, again) == |again| {
      SecondRunSame(db, f, p, ds, canon);
      assert forall s | s in again :: !Grouped(db, s);
    } else {
      SecondRunAdopts(f, p, ds, canon);
      var s :| s in again && Grouped(f, s);
      assert Grouped(db, s);
    }
  }

  // ---------------------------------------------------------------- the theorem

  /** Told before the first run: with a group, or one to be named or adopted, nobody is refused one and every woken
      decision finds all it asks for; without any, the second run finds nothing to do either. */
  ghost predicate Lasting(db: Db, p: string, ds: seq<Decision>) {
    if !HasRoom(db, p) && Adopter(db, p, OpenLinks(db, p, ds)) == |OpenLinks(db, p, ds)| then StillIdle(db, p, ds)
    else !AdoptsAfterRefusal(db, p, ds) && WokenInHand(db, p, ds)
  }

  /** For every state and every batch, late naming and spent group names included: re-applying changes nothing exactly
      if the batch is lasting. */
  lemma ReapplyLastsExactly(db: Db, p: string, ds: seq<Decision>, canon: Canon)
    requires Sound(db) && AllCanonical(ds, canon) && '|' !in p
    ensures var r := Apply(db, p, ds, canon); SameAll(r.db, Apply(r.db, p, ds, canon).db) <==> Lasting(db, p, ds)
  {
    var links := OpenLinks(db, p, ds);
    if HasRoom(db, p) {
      LateNamingExactly(db, p, ds, canon);
    } else if Adopter(db, p, links) == |links| {
      SpentLasts(db, p, ds, canon);
    } else if i: nat :| i < Adopter(db, p, links) && First(p, links, i) && links[i] != p {
      RefusalBreaks(db, p, ds, i, canon);
    } else {
      AdoptionLasts(db, p, ds, canon);
    }
  }
}
