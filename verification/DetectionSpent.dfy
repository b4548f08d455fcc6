/**
  Re-applying a network detection when the automatic group names have run out (internal/api/network_detect.go,
  internal/api/network_groups.go, CreateNextAutoNamedGroup in internal/store/network_groups.go): no group can be made,
  a decision with networks stops the batch, a pair without a group is refused one, and the only way to a group is to
  adopt a sibling's.
*/
module DetectionSpent {
  import opened Prelude
  import opened NetworkDetect
  import opened DetectionReapply

  // ---------------------------------------------------------------- a sequence of links, no group to be had

  // The pair is taken here, not skipped for an earlier one with its key.
  predicate First(p: string, links: seq<string>, i: nat)
    requires i < |links|
  {
    MeshPairKey(p, links[i]) !in DoneAfter({}, p, links[..i])
  }

  // Where the provider adopts a group: the first pair taken with a sibling that has one.
  function Adopter(db: Db, p: string, links: seq<string>): (g: nat)
    ensures g <= |links|
  {
    if links == [] then 0
    else
      var n := |links| - 1;
      var g := Adopter(db, p, links[..n]);
      if g < n then g else if Grouped(db, links[n]) && First(p, links, n) then n else n + 1
  }

  lemma FullStays(db: Db, f: Db)
    requires f.groups == db.groups
    ensures CreateNextAutoNamedGroup(f).None? <==> CreateNextAutoNamedGroup(db).None?
  {
  }

  lemma FlagsOnly(f: Db, a: string, b: string, q: string)
    ensures SettingsOf(SetMesh(SetMesh(f, a), b), q) ==
            if q == a || q == b then SettingsOf(f, q).(meshEnabled := true) else SettingsOf(f, q)
  {
  }

  lemma SpentReconcile(f: Db, p: string, s: string, q: string)
    requires CreateNextAutoNamedGroup(f).None?
    ensures var r := ReconcileMeshGroups(f, p, s);
            var f' := if r.Some? then r.value else f;
            && f'.groups == f.groups && f'.nextGroup == f.nextGroup
            && (Grouped(f', q) <==> if q == p || q == s then Grouped(f, p) || Grouped(f, s) else Grouped(f, q))
            && (q != p && q != s ==> SettingsOf(f', q) == SettingsOf(f, q))
            && (Meshed(f', q) <==> Meshed(f, q))
  {
  }

  // One pair when no group can be made, seen from one provider.
  lemma SpentPair(f: Db, p: string, s: string, q: string)
    requires CreateNextAutoNamedGroup(f).None?
    ensures var f' := EnableMeshPair(f, p, s).0;
            && f'.groups == f.groups && f'.nextGroup == f.nextGroup
            && (Grouped(f', q) <==> if q == p || q == s then Grouped(f, p) || Grouped(f, s) else Grouped(f, q))
            && (Meshed(f', q) <==> q == p || q == s || Meshed(f, q))
  {
    var r := ReconcileMeshGroups(f, p, s);
    SpentReconcile(f, p, s, q);
    FlagsOnly(if r.Some? then r.value else f, p, s, q);
  }

  // What the i-th link has come to.
  ghost predicate LinkAt(db: Db, f: Db, p: string, links: seq<string>, i: nat)
    requires i < |links|
  {
    First(p, links, i) ==>
      && Meshed(f, p) && Meshed(f, links[i])
      && (Grouped(f, links[i]) <==> Grouped(f, p) && (i >= Adopter(db, p, links) || links[i] == p))
  }

  ghost predicate Linkage(db: Db, acc: Acc, p: string, links: seq<string>) {
    && acc.meshDone == DoneAfter({}, p, links) && acc.db.groups == db.groups && acc.db.nextGroup == db.nextGroup
    && (Grouped(acc.db, p) <==> Adopter(db, p, links) < |links|)
    && (Adopter(db, p, links) == |links| ==> forall q :: Grouped(acc.db, q) <==> Grouped(db, q))
    && forall i | 0 <= i < |links| :: LinkAt(db, acc.db, p, links, i)
  }

  lemma EarlierIsFirst(p: string, links: seq<string>, s: string, i: nat)
    requires i < |links|
    ensures First(p, links + [s], i) <==> First(p, links, i)
    ensures MeshPairKey(p, links[i]) in DoneAfter({}, p, links)
  {
    assert (links + [s])[..i] == links[..i];
    assert links[i] in links;
  }

  lemma AdopterOneMore(db: Db, p: string, links: seq<string>, s: string)
    ensures var n, g := |links|, Adopter(db, p, links);
            Adopter(db, p, links + [s]) ==
            if g < n then g else if Grouped(db, s) && First(p, links + [s], n) then n else n + 1
  {
    assert (links + [s])[..|links|] == links;
  }

  lemma LinkAtStep(db: Db, acc: Acc, p: string, links: seq<string>, s: string, i: nat)
    requires !HasRoom(db, p) && Linkage(db, acc, p, links) && i < |links|
    ensures LinkAt(db, MeshOne(acc, p, s).db, p, links + [s], i)
  {
    var q := links[i];
    EarlierIsFirst(p, links, s, i);
    AdopterOneMore(db, p, links, s);
    assert LinkAt(db, acc.db, p, links, i);
    assert First(p, links + [s], |links|) <==> MeshPairKey(p, s) !in acc.meshDone by {
      assert (links + [s])[..|links|] == links;
    }
    FullStays(db, acc.db);
    SpentPair(acc.db, p, s, q);
    SpentPair(acc.db, p, s, p);
    if Adopter(db, p, links) == |links| { assert Grouped(acc.db, s) <==> Grouped(db, s); }
  }

  lemma LastLinkAt(db: Db, acc: Acc, p: string, links: seq<string>, s: string)
    requires !HasRoom(db, p) && Linkage(db, acc, p, links)
    ensures LinkAt(db, MeshOne(acc, p, s).db, p, links + [s], |links|)
    ensures var r, g := MeshOne(acc, p, s), Adopter(db, p, links + [s]);
            && r.db.groups == db.groups && r.db.nextGroup == db.nextGroup
            && (Grouped(r.db, p) <==> g < |links| + 1)
            && (g == |links| + 1 ==> forall q :: Grouped(r.db, q) <==> Grouped(db, q))
  {
    AdopterOneMore(db, p, links, s);
    assert First(p, links + [s], |links|) <==> MeshPairKey(p, s) !in acc.meshDone by {
      assert (links + [s])[..|links|] == links;
    }
    FullStays(db, acc.db);
    forall q {
      SpentPair(acc.db, p, s, q);
    }
    if Adopter(db, p, links) == |links| { assert Grouped(acc.db, s) <==> Grouped(db, s); }
  }

  lemma LinkageStep(db: Db, acc: Acc, p: string, links: seq<string>, s: string)
    requires !HasRoom(db, p) && Linkage(db, acc, p, links)
    ensures Linkage(db, MeshOne(acc, p, s), p, links + [s])
  {
    DoneAfterOneMore({}, p, links, s);
    LastLinkAt(db, acc, p, links, s);
    forall i | 0 <= i < |links + [s]| ensures LinkAt(db, MeshOne(acc, p, s).db, p, links + [s], i) {
      if i < |links| { LinkAtStep(db, acc, p, links, s, i); }
    }
  }

  lemma {:induction false} LinkageHolds(db: Db, p: string, links: seq<string>)
    requires !HasRoom(db, p)
    ensures Linkage(db, MeshAll(Begin(db), p, links), p, links)
    decreases |links|
  {
    if links != [] {
      var init, s := links[..|links| - 1], links[|links| - 1];
      assert links == init + [s];
      LinkageHolds(db, p, init);
      LinkageStep(db, MeshAll(Begin(db), p, init), p, init, s);
    }
  }

  // ---------------------------------------------------------------- links that have nothing left to do

  /** The pair is on, and neither side can still be given a group. */
  predicate Settled(f: Db, a: string, b: string) {
    Meshed(f, a) && Meshed(f, b) && Grouped(f, a) == Grouped(f, b) && HasRoom(f, a) == Grouped(f, a)
  }

  lemma SettledPair(f: Db, a: string, b: string)
    requires Settled(f, a, b)
    ensures EnableMeshPair(f, a, b).0 == f
  {
  }

  ghost predicate SettledAt(f: Db, p: string, links: seq<string>, i: nat)
    requires i < |links|
  {
    First(p, links, i) ==> Settled(f, p, links[i])
  }

  ghost predicate AllSettled(f: Db, p: string, links: seq<string>) {
    forall i | 0 <= i < |links| :: SettledAt(f, p, links, i)
  }

  lemma SettledBefore(f: Db, p: string, init: seq<string>, s: string)
    requires AllSettled(f, p, init + [s])
    ensures AllSettled(f, p, init) && SettledAt(f, p, init + [s], |init|)
  {
    forall i | 0 <= i < |init| ensures SettledAt(f, p, init, i) {
      EarlierIsFirst(p, init, s, i);
      assert SettledAt(f, p, init + [s], i);
    }
  }

  lemma SettledOne(f: Db, acc: Acc, p: string, init: seq<string>, s: string)
    requires acc.db == f && acc.meshDone == DoneAfter({}, p, init) && SettledAt(f, p, init + [s], |init|)
    ensures var r := MeshOne(acc, p, s); r.db == f && r.meshDone == DoneAfter({}, p, init + [s])
  {
    assert (init + [s])[..|init|] == init;
    DoneAfterOneMore({}, p, init, s);
    if MeshPairKey(p, s) !in acc.meshDone { SettledPair(f, p, s); }
  }

  lemma {:induction false} SettledLinks(f: Db, p: string, links: seq<string>)
    requires AllSettled(f, p, links)
    ensures var r := MeshAll(Begin(f), p, links); r.db == f && r.meshDone == DoneAfter({}, p, links)
    decreases |links|
  {
    if links != [] {
      var init, s := links[..|links| - 1], links[|links| - 1];
      assert links == init + [s];
      SettledBefore(f, p, init, s);
      SettledLinks(f, p, init);
      SettledOne(f, MeshAll(Begin(f), p, init), p, init, s);
    }
  }

  // ---------------------------------------------------------------- which decisions act, told beforehand

  predicate Naming(d: Decision) {
    d.action.CreateNode? && PeerId.DecodePeerId(d.peerId).Some? && Trim(d.nodeName) != ""
  }

  // The peers that the decisions name.
  function Claimed(p: string, ds: seq<Decision>): set<PeerKey> {
    if ds == [] then {}
    else Claimed(p, ds[..|ds| - 1]) + if Naming(ds[|ds| - 1]) then {PeerKey(p, ds[|ds| - 1].peerId)} else {}
  }

  /** The decision, coming after `init`, creates or extends a node. */
  predicate ActsAfter(db: Db, p: string, init: seq<Decision>, d: Decision) {
    d.action.CreateNode? && PeerId.DecodePeerId(d.peerId).Some?
    && (Trim(d.nodeName) != "" || PeerKey(p, d.peerId) in db.owners || PeerKey(p, d.peerId) in Claimed(p, init))
  }

  /** Some decision that acts asks for networks, hence for a group. */
  predicate AsksForGroup(db: Db, p: string, ds: seq<Decision>) {
    ds != [] &&
    (var init, d := ds[..|ds| - 1], ds[|ds| - 1];
     AsksForGroup(db, p, init) || (ActsAfter(db, p, init, d) && |d.subnets| > 0))
  }

  /** The siblings of the acting decisions before the first that asks for networks. */
  function OpenLinks(db: Db, p: string, ds: seq<Decision>): seq<string> {
    if ds == [] then []
    else
      var init, d := ds[..|ds| - 1], ds[|ds| - 1];
      if AsksForGroup(db, p, ds) || !ActsAfter(db, p, init, d) then OpenLinks(db, p, init)
      else OpenLinks(db, p, init) + d.meshWith
  }

  /** Where a run stops if the provider gets no group: the first acting decision that asks for networks. */
  function StopAt(db: Db, p: string, ds: seq<Decision>): (k: nat)
    ensures k <= |ds|
  {
    if !AsksForGroup(db, p, ds) then |ds| else StopAt(db, p, ds[..|ds| - 1])
  }

  lemma OpenOneMore(db: Db, p: string, init: seq<Decision>, d: Decision)
    ensures AsksForGroup(db, p, init + [d]) <==>
            AsksForGroup(db, p, init) || (ActsAfter(db, p, init, d) && |d.subnets| > 0)
    ensures OpenLinks(db, p, init + [d]) ==
            if AsksForGroup(db, p, init + [d]) || !ActsAfter(db, p, init, d) then OpenLinks(db, p, init)
            else OpenLinks(db, p, init) + d.meshWith
    ensures Claimed(p, init + [d]) == Claimed(p, init) + if Naming(d) then {PeerKey(p, d.peerId)} else {}
  {
    assert (init + [d])[..|init|] == init;
  }

  // ---------------------------------------------------------------- decisions without networks only link

  ghost predicate SameNet(a: Db, b: Db) {
    a.settings == b.settings && a.groups == b.groups && a.nextGroup == b.nextGroup
  }

  // Nothing but settings and groups changed.
  ghost predicate NetOnly(a: Db, r: Db) {
    r == a.(settings := r.settings, groups := r.groups, nextGroup := r.nextGroup)
  }

  lemma CreateFrame(a: Db, b: Db)
    requires SameNet(a, b)
    ensures CreateNextAutoNamedGroup(a).Some? == CreateNextAutoNamedGroup(b).Some?
    ensures CreateNextAutoNamedGroup(a).Some? ==>
              var (x, g) := CreateNextAutoNamedGroup(a).value;
              var (y, h) := CreateNextAutoNamedGroup(b).value;
              SameNet(x, y) && g == h && NetOnly(a, x)
  {
  }

  lemma SetFrame(a: Db, b: Db, q: string, g: Option<int>)
    requires SameNet(a, b)
    ensures SameNet(SetGroup(a, q, g), SetGroup(b, q, g)) && NetOnly(a, SetGroup(a, q, g))
    ensures SameNet(SetMesh(a, q), SetMesh(b, q)) && NetOnly(a, SetMesh(a, q))
  {
  }

  lemma ReconcileFrame(a: Db, b: Db, x: string, y: string)
    requires SameNet(a, b)
    ensures var ra, rb := ReconcileMeshGroups(a, x, y), ReconcileMeshGroups(b, x, y);
            ra.Some? == rb.Some? && (ra.Some? ==> SameNet(ra.value, rb.value) && NetOnly(a, ra.value))
  {
    var ga, gb := SettingsOf(a, x).group, SettingsOf(a, y).group;
    if ga.None? && gb.None? {
      CreateFrame(a, b);
      if CreateNextAutoNamedGroup(a).Some? {
        var (a1, g) := CreateNextAutoNamedGroup(a).value;
        var b1 := CreateNextAutoNamedGroup(b).value.0;
        SetFrame(a1, b1, x, Some(g));
        SetFrame(SetGroup(a1, x, Some(g)), SetGroup(b1, x, Some(g)), y, Some(g));
      }
    } else if ga.None? {
      SetFrame(a, b, x, gb);
    } else {
      SetFrame(a, b, y, ga);
    }
  }

  lemma PairFrame(a: Db, b: Db, x: string, y: string)
    requires SameNet(a, b)
    ensures SameNet(EnableMeshPair(a, x, y).0, EnableMeshPair(b, x, y).0) && NetOnly(a, EnableMeshPair(a, x, y).0)
  {
    var ra, rb := ReconcileMeshGroups(a, x, y), ReconcileMeshGroups(b, x, y);
    ReconcileFrame(a, b, x, y);
    var a1, b1 := if ra.Some? then ra.value else a, if rb.Some? then rb.value else b;
    SetFrame(a1, b1, x, None);
    SetFrame(SetMesh(a1, x), SetMesh(b1, x), y, None);
  }

  lemma {:induction false} LinksFrame(a: Acc, b: Acc, p: string, sibs: seq<string>)
    requires SameNet(a.db, b.db) && a.meshDone == b.meshDone
    ensures var x, y := MeshAll(a, p, sibs), MeshAll(b, p, sibs);
            && SameNet(x.db, y.db) && x.meshDone == y.meshDone && NetOnly(a.db, x.db)
            && x.failed == a.failed && x.existing == a.existing
  {
    if sibs != [] {
      var init, s := sibs[..|sibs| - 1], sibs[|sibs| - 1];
      LinksFrame(a, b, p, init);
      PairFrame(MeshAll(a, p, init).db, MeshAll(b, p, init).db, p, s);
    }
  }

  lemma {:induction false} LinksJoin(acc: Acc, p: string, a: seq<string>, b: seq<string>)
    ensures MeshAll(acc, p, a + b) == MeshAll(MeshAll(acc, p, a), p, b)
    decreases |b|
  {
    if b == [] {
      assert a + b == a;
    } else {
      assert (a + b)[..|a + b| - 1] == a + b[..|b| - 1];
      LinksJoin(acc, p, a, b[..|b| - 1]);
    }
  }

  /** A run so far that has only made nodes and linked: its settings and groups are those of the links alone. */
  ghost predicate OnlyLinked(db: Db, acc: Acc, p: string, ds: seq<Decision>) {
    var links := MeshAll(Begin(db), p, OpenLinks(db, p, ds));
    && !acc.failed && acc.existing == Cidrs(db) && acc.db.subnets == db.subnets
    && acc.db.owners.Keys == db.owners.Keys + Claimed(p, ds)
    && SameNet(acc.db, links.db) && acc.meshDone == links.meshDone
  }

  lemma EnrichOnlyLinks(acc: Acc, links: Acc, p: string, d: Decision, owner: int, canon: Canon)
    requires !acc.failed && |d.subnets| == 0 && SameNet(acc.db, links.db) && acc.meshDone == links.meshDone
    ensures var r, l := Enrich(acc, p, d, owner, canon), MeshAll(links, p, d.meshWith);
            && !r.failed && r.existing == acc.existing && r.meshDone == l.meshDone && SameNet(r.db, l.db)
            && r.db.subnets == acc.db.subnets && r.db.owners == acc.db.owners
  {
    LinksFrame(acc, links, p, d.meshWith);
  }

  // What a decision without networks does to a run so far, next to the links alone.
  ghost predicate Beside(acc: Acc, r: Acc, links: Acc, keys: set<PeerKey>) {
    && !r.failed && r.existing == acc.existing && r.db.subnets == acc.db.subnets
    && r.db.owners.Keys == acc.db.owners.Keys + keys
    && SameNet(r.db, links.db) && r.meshDone == links.meshDone
  }

  lemma ActingOnlyLinks(acc: Acc, links: Acc, p: string, d: Decision, pubKey: Bytes, canon: Canon)
    requires !acc.failed && |d.subnets| == 0 && SameNet(acc.db, links.db) && acc.meshDone == links.meshDone
    requires d.action.CreateNode? && (PeerKey(p, d.peerId) in acc.db.owners || Trim(d.nodeName) != "")
    ensures Beside(acc, Decide(acc, p, d, pubKey, canon), MeshAll(links, p, d.meshWith), {PeerKey(p, d.peerId)})
  {
    var key := PeerKey(p, d.peerId);
    if key in acc.db.owners {
      var acc1 := acc.(sum := acc.sum.(alreadyHandled := acc.sum.alreadyHandled + 1));
      assert Decide(acc, p, d, pubKey, canon) == Enrich(acc1, p, d, acc.db.owners[key], canon);
      EnrichOnlyLinks(acc1, links, p, d, acc.db.owners[key], canon);
    } else {
      var acc1 := OwnPeer(acc, p, d, pubKey);
      assert Decide(acc, p, d, pubKey, canon) == Enrich(acc1, p, d, acc.db.nextNode, canon);
      assert acc1.db.owners.Keys == acc.db.owners.Keys + {key};
      EnrichOnlyLinks(acc1, links, p, d, acc.db.nextNode, canon);
    }
  }

  lemma IdleOnlyLinks(acc: Acc, links: Acc, p: string, d: Decision, canon: Canon)
    requires !acc.failed && SameNet(acc.db, links.db) && acc.meshDone == links.meshDone
    requires !Acts(acc.db, p, d)
    ensures Beside(acc, ApplyOne(acc, p, d, canon), links, {})
  {
    var pubKey := PeerId.DecodePeerId(d.peerId);
    if pubKey.Some? && !d.action.CreateNode? { OnlyDismisses(acc, p, d, pubKey.value, canon); }
  }

  lemma ActingStep(db: Db, acc: Acc, p: string, init: seq<Decision>, d: Decision, canon: Canon)
    requires OnlyLinked(db, acc, p, init) && Acts(acc.db, p, d) && |d.subnets| == 0
    ensures var links := MeshAll(Begin(db), p, OpenLinks(db, p, init) + d.meshWith);
            Beside(acc, ApplyOne(acc, p, d, canon), links, {PeerKey(p, d.peerId)})
  {
    var links := MeshAll(Begin(db), p, OpenLinks(db, p, init));
    LinksJoin(Begin(db), p, OpenLinks(db, p, init), d.meshWith);
    ActingOnlyLinks(acc, links, p, d, PeerId.DecodePeerId(d.peerId).value, canon);
  }

  lemma ActsIsForeseen(db: Db, f: Db, p: string, init: seq<Decision>, d: Decision)
    requires f.owners.Keys == db.owners.Keys + Claimed(p, init)
    ensures ActsAfter(db, p, init, d) <==> Acts(f, p, d)
    ensures Acts(f, p, d) ==> f.owners.Keys + {PeerKey(p, d.peerId)} == db.owners.Keys + Claimed(p, init + [d])
    ensures !Acts(f, p, d) ==> Claimed(p, init + [d]) == Claimed(p, init)
  {
    OpenOneMore(db, p, init, d);
    var key := PeerKey(p, d.peerId);
    assert key in f.owners <==> key in f.owners.Keys;
  }

  lemma OnlyLinkedStep(db: Db, acc: Acc, p: string, init: seq<Decision>, d: Decision, canon: Canon)
    requires OnlyLinked(db, acc, p, init) && !AsksForGroup(db, p, init + [d])
    ensures OnlyLinked(db, ApplyOne(acc, p, d, canon), p, init + [d])
  {
    ActsIsForeseen(db, acc.db, p, init, d);
    OpenOneMore(db, p, init, d);
    if Acts(acc.db, p, d) {
      ActingStep(db, acc, p, init, d, canon);
    } else {
      IdleOnlyLinks(acc, MeshAll(Begin(db), p, OpenLinks(db, p, init)), p, d, canon);
    }
  }

  lemma {:induction false} OpenRun(db: Db, p: string, ds: seq<Decision>, canon: Canon)
    requires !AsksForGroup(db, p, ds)
    ensures OnlyLinked(db, Apply(db, p, ds, canon), p, ds)
    decreases |ds|
  {
    if ds != [] {
      var init, d := ds[..|ds| - 1], ds[|ds| - 1];
      assert ds == init + [d];
      OpenOneMore(db, p, init, d);
      OpenRun(db, p, init, canon);
      OnlyLinkedStep(db, Apply(db, p, init, canon), p, init, d, canon);
      ApplyAppends(db, p, init, d, canon);
    }
  }
}
