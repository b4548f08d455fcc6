/**
  The books of an applied network detection (internal/api/network_detect.go): what each counter of the summary counts,
  told from the batch and the tables before it, and which peers are put into which category.
*/
module DetectionBooks {
  import opened Prelude
  import opened NetworkDetect
  import opened DetectionSpent
  import opened DetectionExactly
  import PeerId

  // ---------------------------------------------------------------- what is counted

  predicate Readable(d: Decision) {
    PeerId.DecodePeerId(d.peerId).Some?
  }

  // The peer is owned when the run comes to the i-th decision.
  predicate OwnedAt(db: Db, p: string, ds: seq<Decision>, i: nat)
    requires i < |ds|
  {
    PeerKey(p, ds[i].peerId) in db.owners.Keys + Claimed(p, ds[..i])
  }

  function Skips(ds: seq<Decision>): set<nat> {
    set i: nat | i < |ds| && ds[i].action.Skip? && Readable(ds[i])
  }

  function Undismissals(ds: seq<Decision>): set<nat> {
    set i: nat | i < |ds| && ds[i].action.Undismiss? && Readable(ds[i])
  }

  // Decisions for a peer that has a node already.
  function Handled(db: Db, p: string, ds: seq<Decision>): set<nat> {
    set i: nat | i < |ds| && ds[i].action.CreateNode? && Readable(ds[i]) && OwnedAt(db, p, ds, i)
  }

  // Decisions that make a node.
  function Makers(db: Db, p: string, ds: seq<Decision>): set<nat> {
    set i: nat | i < |ds| && Naming(ds[i]) && !OwnedAt(db, p, ds, i)
  }

  // The links asked for by decisions that act, each pair once.
  function Pairs(db: Db, p: string, ds: seq<Decision>): set<string> {
    set i: nat, s: string | i < |ds| && ActsAfter(db, p, ds[..i], ds[i]) && s in ds[i].meshWith :: MeshPairKey(p, s)
  }

  // The peers, by their raw keys, for which a node is made.
  function Labelled(db: Db, p: string, ds: seq<Decision>): set<PeerKey> {
    set i: nat | i in Makers(db, p, ds) :: PeerKey(p, PeerId.DecodePeerId(ds[i].peerId).value)
  }

  // ---------------------------------------------------------------- one more decision

  lemma BeforeIsSame(init: seq<Decision>, d: Decision, i: nat)
    requires i < |init|
    ensures (init + [d])[i] == init[i] && (init + [d])[..i] == init[..i]
  {
  }

  lemma KindsOneMore(init: seq<Decision>, d: Decision)
    ensures Skips(init + [d]) == Skips(init) + if d.action.Skip? && Readable(d) then {|init|} else {}
    ensures Undismissals(init + [d]) == Undismissals(init) + if d.action.Undismiss? && Readable(d) then {|init|} else {}
  {
    var all := init + [d];
    assert all[|init|] == d;
    forall i: nat | i < |init|
      ensures (i in Skips(all) <==> i in Skips(init)) && (i in Undismissals(all) <==> i in Undismissals(init))
    {
      BeforeIsSame(init, d, i);
    }
  }

  lemma OwnedAtLast(db: Db, p: string, init: seq<Decision>, d: Decision)
    ensures OwnedAt(db, p, init + [d], |init|) <==> PeerKey(p, d.peerId) in db.owners.Keys + Claimed(p, init)
  {
    assert (init + [d])[..|init|] == init;
  }

  lemma HandledOneMore(db: Db, p: string, init: seq<Decision>, d: Decision)
    ensures Handled(db, p, init + [d]) == Handled(db, p, init) +
              if d.action.CreateNode? && Readable(d) && PeerKey(p, d.peerId) in db.owners.Keys + Claimed(p, init)
              then {|init|} else {}
  {
    var all := init + [d];
    OwnedAtLast(db, p, init, d);
    forall i: nat | i < |init| ensures i in Handled(db, p, all) <==> i in Handled(db, p, init) {
      BeforeIsSame(init, d, i);
    }
  }

  lemma MakersOneMore(db: Db, p: string, init: seq<Decision>, d: Decision)
    ensures Makers(db, p, init + [d]) == Makers(db, p, init) +
              if Naming(d) && PeerKey(p, d.peerId) !in db.owners.Keys + Claimed(p, init) then {|init|} else {}
  {
    var all := init + [d];
    OwnedAtLast(db, p, init, d);
    forall i: nat | i < |init| ensures i in Makers(db, p, all) <==> i in Makers(db, p, init) {
      BeforeIsSame(init, d, i);
    }
  }

  lemma LabelledOneMore(db: Db, p: string, init: seq<Decision>, d: Decision)
    ensures Labelled(db, p, init + [d]) == Labelled(db, p, init) +
              if Naming(d) && PeerKey(p, d.peerId) !in db.owners.Keys + Claimed(p, init)
              then {PeerKey(p, PeerId.DecodePeerId(d.peerId).value)} else {}
  {
    var all := init + [d];
    MakersOneMore(db, p, init, d);
    forall i: nat | i in Makers(db, p, init)
      ensures i < |init| && all[i] == init[i] && i in Makers(db, p, all) {}
    assert all[|init|] == d;
    forall k | k in Labelled(db, p, all) && k !in Labelled(db, p, init)
      ensures |init| in Makers(db, p, all) && k == PeerKey(p, PeerId.DecodePeerId(d.peerId).value)
    {
      var i: nat :| i in Makers(db, p, all) && k == PeerKey(p, PeerId.DecodePeerId(all[i].peerId).value);
    }
    forall k | k in Labelled(db, p, init) ensures k in Labelled(db, p, all) {
      var i: nat :| i in Makers(db, p, init) && k == PeerKey(p, PeerId.DecodePeerId(init[i].peerId).value);
      assert i in Makers(db, p, all) && all[i] == init[i];
    }
  }

  lemma PairsOneMore(db: Db, p: string, init: seq<Decision>, d: Decision)
    ensures Pairs(db, p, init + [d]) ==
            if ActsAfter(db, p, init, d) then DoneAfter(Pairs(db, p, init), p, d.meshWith) else Pairs(db, p, init)
  {
    var all := init + [d];
    assert all[..|init|] == init && all[|init|] == d;
    forall k | k in Pairs(db, p, init) ensures k in Pairs(db, p, all) {
      var i: nat, s :| i < |init| && ActsAfter(db, p, init[..i], init[i]) && s in init[i].meshWith
                       && k == MeshPairKey(p, s);
      BeforeIsSame(init, d, i);
    }
    forall s | ActsAfter(db, p, init, d) && s in d.meshWith ensures MeshPairKey(p, s) in Pairs(db, p, all) {}
    forall k | k in Pairs(db, p, all)
      ensures k in Pairs(db, p, init) || (ActsAfter(db, p, init, d) && k in DoneAfter({}, p, d.meshWith))
    {
      var i: nat, s :| i < |all| && ActsAfter(db, p, all[..i], all[i]) && s in all[i].meshWith
                       && k == MeshPairKey(p, s);
      if i < |init| { BeforeIsSame(init, d, i); }
    }
  }

  // ---------------------------------------------------------------- what one decision counts

  // Counters other than those of subnets, links and refused groups, and the categories, are left alone.
  predicate SameBooks(a: Acc, r: Acc) {
    && r.sum.skipped == a.sum.skipped && r.sum.undismissed == a.sum.undismissed
    && r.sum.alreadyHandled == a.sum.alreadyHandled && r.sum.nodesCreated == a.sum.nodesCreated
    && r.db.categories == a.db.categories
  }

  lemma LinkBooks(acc: Acc, p: string, sib: string)
    ensures var r := MeshOne(acc, p, sib);
            && SameBooks(acc, r) && r.meshDone == acc.meshDone + {MeshPairKey(p, sib)}
            && r.sum.meshPairsEnabled - |r.meshDone| == acc.sum.meshPairsEnabled - |acc.meshDone|
  {
    PairFrame(acc.db, p, sib);
  }

  lemma PairFrame(db: Db, a: string, b: string)
    ensures NetOnly(db, EnableMeshPair(db, a, b).0)
  {
    ReconcileFrame(db, db, a, b);
  }

  lemma {:induction false} LinksBooks(acc: Acc, p: string, sibs: seq<string>)
    ensures var r := MeshAll(acc, p, sibs);
            && SameBooks(acc, r) && r.meshDone == DoneAfter(acc.meshDone, p, sibs)
            && r.sum.meshPairsEnabled - |r.meshDone| == acc.sum.meshPairsEnabled - |acc.meshDone|
  {
    if sibs != [] {
      var init, s := sibs[..|sibs| - 1], sibs[|sibs| - 1];
      assert sibs == init + [s];
      LinksBooks(acc, p, init);
      LinkBooks(MeshAll(acc, p, init), p, s);
      DoneAfterOneMore(acc.meshDone, p, init, s);
    }
  }

  lemma {:induction false} SubnetsBooks(acc: Acc, p: string, owner: int, g: Option<int>, sns: seq<NewSubnet>,
                                        canon: Canon)
    ensures var r := SubnetAll(acc, p, owner, g, sns, canon);
            SameBooks(acc, r) && r.meshDone == acc.meshDone && r.sum.meshPairsEnabled == acc.sum.meshPairsEnabled
  {
    if sns != [] { SubnetsBooks(acc, p, owner, g, sns[..|sns| - 1], canon); }
  }

  lemma EnrichBooks(acc: Acc, p: string, d: Decision, owner: int, canon: Canon)
    requires !acc.failed
    ensures var r := Enrich(acc, p, d, owner, canon);
            && SameBooks(acc, r)
            && r.meshDone == (if r.failed then acc.meshDone else DoneAfter(acc.meshDone, p, d.meshWith))
            && r.sum.meshPairsEnabled - |r.meshDone| == acc.sum.meshPairsEnabled - |acc.meshDone|
  {
    var g := EnsureProviderGroup(acc.db, p);
    if |d.subnets| == 0 || g.Some? {
      var acc1 := if |d.subnets| > 0 then acc.(db := g.value.0) else acc;
      var gid := if |d.subnets| > 0 then Some(g.value.1) else None;
      var acc2 := SubnetAll(acc1, p, owner, gid, d.subnets, canon);
      SubnetsBooks(acc1, p, owner, gid, d.subnets, canon);
      LinksBooks(acc2, p, d.meshWith);
      assert MeshAll(acc2, p, d.meshWith).failed == acc2.failed by { LinksFrame(acc2, acc2, p, d.meshWith); }
    }
  }

  // What a decision that is for a node, and acts, leaves in the books.
  predicate ActingBooks(acc: Acc, r: Acc, p: string, d: Decision, pubKey: Bytes) {
    var owned := PeerKey(p, d.peerId) in acc.db.owners;
    && r.sum.skipped == acc.sum.skipped && r.sum.undismissed == acc.sum.undismissed
    && r.sum.alreadyHandled == acc.sum.alreadyHandled + (if owned then 1 else 0)
    && r.sum.nodesCreated == acc.sum.nodesCreated + (if owned then 0 else 1)
    && r.db.categories == (if owned then acc.db.categories else acc.db.categories[PeerKey(p, pubKey) := "site"])
    && r.meshDone == (if r.failed then acc.meshDone else DoneAfter(acc.meshDone, p, d.meshWith))
    && r.sum.meshPairsEnabled - |r.meshDone| == acc.sum.meshPairsEnabled - |acc.meshDone|
  }

  lemma CreateBooks(acc: Acc, p: string, d: Decision, pubKey: Bytes, canon: Canon)
    requires !acc.failed && d.action.CreateNode? && (PeerKey(p, d.peerId) in acc.db.owners || Trim(d.nodeName) != "")
    ensures ActingBooks(acc, Decide(acc, p, d, pubKey, canon), p, d, pubKey)
  {
    var key := PeerKey(p, d.peerId);
    if key in acc.db.owners {
      var acc1 := acc.(sum := acc.sum.(alreadyHandled := acc.sum.alreadyHandled + 1));
      assert Decide(acc, p, d, pubKey, canon) == Enrich(acc1, p, d, acc.db.owners[key], canon);
      EnrichBooks(acc1, p, d, acc.db.owners[key], canon);
    } else {
      var acc1 := OwnPeer(acc, p, d, pubKey);
      assert Decide(acc, p, d, pubKey, canon) == Enrich(acc1, p, d, acc.db.nextNode, canon);
      EnrichBooks(acc1, p, d, acc.db.nextNode, canon);
    }
  }

  // What a decision that does not act leaves in the books.
  predicate IdleBooks(acc: Acc, r: Acc, d: Decision) {
    && r.sum.skipped == acc.sum.skipped + (if d.action.Skip? && Readable(d) then 1 else 0)
    && r.sum.undismissed == acc.sum.undismissed + (if d.action.Undismiss? && Readable(d) then 1 else 0)
    && r.sum.alreadyHandled == acc.sum.alreadyHandled && r.sum.nodesCreated == acc.sum.nodesCreated
    && r.db.categories == acc.db.categories && r.meshDone == acc.meshDone && !r.failed
    && r.sum.meshPairsEnabled == acc.sum.meshPairsEnabled
  }

  lemma OneIdleBooks(acc: Acc, p: string, d: Decision, canon: Canon)
    requires !acc.failed && !Acts(acc.db, p, d)
    ensures IdleBooks(acc, ApplyOne(acc, p, d, canon), d)
  {
  }

  // ---------------------------------------------------------------- a run

  ghost predicate KindsKept(acc: Acc, ds: seq<Decision>) {
    acc.sum.skipped == |Skips(ds)| && acc.sum.undismissed == |Undismissals(ds)|
  }

  ghost predicate NodesKept(db: Db, acc: Acc, p: string, ds: seq<Decision>) {
    acc.sum.alreadyHandled == |Handled(db, p, ds)| && acc.sum.nodesCreated == |Makers(db, p, ds)|
  }

  // The categories with these peers made sites.
  function WithSites(base: map<PeerKey, string>, sites: set<PeerKey>): map<PeerKey, string> {
    base + (map k | k in sites :: "site")
  }

  ghost predicate LabelsKept(db: Db, acc: Acc, p: string, ds: seq<Decision>) {
    acc.db.categories == WithSites(db.categories, Labelled(db, p, ds))
  }

  // A run that is stopped has taken the pairs of the decisions before the last.
  ghost predicate PairsKept(db: Db, acc: Acc, p: string, ds: seq<Decision>) {
    && (acc.failed ==> ds != [])
    && acc.sum.meshPairsEnabled == |acc.meshDone|
    && acc.meshDone == Pairs(db, p, if acc.failed then ds[..|ds| - 1] else ds)
  }

  /** The books agree with the batch. */
  ghost predicate Kept(db: Db, acc: Acc, p: string, ds: seq<Decision>) {
    KindsKept(acc, ds) && NodesKept(db, acc, p, ds) && LabelsKept(db, acc, p, ds) && PairsKept(db, acc, p, ds)
  }

  lemma SizeOneMore(a: set<nat>, b: set<nat>, n: nat, more: bool)
    requires n !in a && b == a + if more then {n} else {}
    ensures |b| == |a| + if more then 1 else 0
  {
  }

  lemma KindsStep(acc: Acc, r: Acc, init: seq<Decision>, d: Decision)
    requires KindsKept(acc, init)
    requires r.sum.skipped == acc.sum.skipped + (if d.action.Skip? && Readable(d) then 1 else 0)
    requires r.sum.undismissed == acc.sum.undismissed + (if d.action.Undismiss? && Readable(d) then 1 else 0)
    ensures KindsKept(r, init + [d])
  {
    KindsOneMore(init, d);
    SizeOneMore(Skips(init), Skips(init + [d]), |init|, d.action.Skip? && Readable(d));
    SizeOneMore(Undismissals(init), Undismissals(init + [d]), |init|, d.action.Undismiss? && Readable(d));
  }

  lemma NodesStep(db: Db, acc: Acc, r: Acc, p: string, init: seq<Decision>, d: Decision, handled: bool, made: bool)
    requires NodesKept(db, acc, p, init)
    requires var owned := PeerKey(p, d.peerId) in db.owners.Keys + Claimed(p, init);
             handled == (d.action.CreateNode? && Readable(d) && owned) && made == (Naming(d) && !owned)
    requires r.sum.alreadyHandled == acc.sum.alreadyHandled + (if handled then 1 else 0)
    requires r.sum.nodesCreated == acc.sum.nodesCreated + (if made then 1 else 0)
    ensures NodesKept(db, r, p, init + [d])
  {
    HandledOneMore(db, p, init, d);
    MakersOneMore(db, p, init, d);
    SizeOneMore(Handled(db, p, init), Handled(db, p, init + [d]), |init|, handled);
    SizeOneMore(Makers(db, p, init), Makers(db, p, init + [d]), |init|, made);
  }

  lemma OneLabel(base: map<PeerKey, string>, a: set<PeerKey>, key: PeerKey)
    ensures WithSites(base, a)[key := "site"] == WithSites(base, a + {key})
  {
  }

  lemma LabelsStep(db: Db, acc: Acc, r: Acc, p: string, init: seq<Decision>, d: Decision, made: bool)
    requires LabelsKept(db, acc, p, init)
    requires made == (Naming(d) && PeerKey(p, d.peerId) !in db.owners.Keys + Claimed(p, init))
    requires r.db.categories ==
             if made then acc.db.categories[PeerKey(p, PeerId.DecodePeerId(d.peerId).value) := "site"]
             else acc.db.categories
    ensures LabelsKept(db, r, p, init + [d])
  {
    var before, after := Labelled(db, p, init), Labelled(db, p, init + [d]);
    if made {
      var key := PeerKey(p, PeerId.DecodePeerId(d.peerId).value);
      assert after == before + {key} by { LabelledOneMore(db, p, init, d); }
      OneLabel(db.categories, before, key);
    } else {
      assert after == before by { LabelledOneMore(db, p, init, d); }
    }
  }

  lemma PairsStep(db: Db, acc: Acc, r: Acc, p: string, init: seq<Decision>, d: Decision)
    requires PairsKept(db, acc, p, init) && !acc.failed
    requires r.meshDone == if r.failed || !ActsAfter(db, p, init, d) then acc.meshDone
                           else DoneAfter(acc.meshDone, p, d.meshWith)
    requires r.sum.meshPairsEnabled - |r.meshDone| == acc.sum.meshPairsEnabled - |acc.meshDone|
    ensures PairsKept(db, r, p, init + [d])
  {
    assert (init + [d])[..|init|] == init;
    PairsOneMore(db, p, init, d);
  }

  // Whose peer is owned, as told beforehand and as found in the run.
  lemma ActsAsTold(db: Db, acc: Acc, p: string, init: seq<Decision>, d: Decision)
    requires acc.db.owners.Keys == db.owners.Keys + Claimed(p, init)
    ensures PeerKey(p, d.peerId) in acc.db.owners <==> PeerKey(p, d.peerId) in db.owners.Keys + Claimed(p, init)
    ensures Acts(acc.db, p, d) <==> ActsAfter(db, p, init, d)
  {
    assert PeerKey(p, d.peerId) in acc.db.owners <==> PeerKey(p, d.peerId) in acc.db.owners.Keys;
  }

  lemma IdleKept(db: Db, acc: Acc, r: Acc, p: string, init: seq<Decision>, d: Decision)
    requires Kept(db, acc, p, init) && !acc.failed && acc.db.owners.Keys == db.owners.Keys + Claimed(p, init)
    requires !Acts(acc.db, p, d) && IdleBooks(acc, r, d)
    ensures Kept(db, r, p, init + [d])
  {
    ActsAsTold(db, acc, p, init, d);
    KindsStep(acc, r, init, d);
    NodesStep(db, acc, r, p, init, d, false, false);
    LabelsStep(db, acc, r, p, init, d, false);
    PairsStep(db, acc, r, p, init, d);
  }

  lemma ActingKept(db: Db, acc: Acc, r: Acc, p: string, init: seq<Decision>, d: Decision, pubKey: Bytes)
    requires Kept(db, acc, p, init) && !acc.failed && acc.db.owners.Keys == db.owners.Keys + Claimed(p, init)
    requires Acts(acc.db, p, d) && PeerId.DecodePeerId(d.peerId) == Some(pubKey) && ActingBooks(acc, r, p, d, pubKey)
    ensures Kept(db, r, p, init + [d])
  {
    var owned := PeerKey(p, d.peerId) in acc.db.owners;
    ActsAsTold(db, acc, p, init, d);
    KindsStep(acc, r, init, d);
    NodesStep(db, acc, r, p, init, d, owned, !owned);
    LabelsStep(db, acc, r, p, init, d, !owned);
    PairsStep(db, acc, r, p, init, d);
  }

  lemma OneKept(db: Db, acc: Acc, p: string, init: seq<Decision>, d: Decision, canon: Canon)
    requires Kept(db, acc, p, init) && !acc.failed && acc.db.owners.Keys == db.owners.Keys + Claimed(p, init)
    ensures Kept(db, ApplyOne(acc, p, d, canon), p, init + [d])
  {
    if Acts(acc.db, p, d) {
      var pubKey := PeerId.DecodePeerId(d.peerId).value;
      CreateBooks(acc, p, d, pubKey, canon);
      ActingKept(db, acc, Decide(acc, p, d, pubKey, canon), p, init, d, pubKey);
    } else {
      OneIdleBooks(acc, p, d, canon);
      IdleKept(db, acc, ApplyOne(acc, p, d, canon), p, init, d);
    }
  }

  /** A run that did not stop before its last decision: its counters count the decisions of each kind, and the pairs
      asked for, once each; exactly the peers that got a node are put into the category "site", by their raw keys. */
  lemma {:induction false} BooksAreKept(db: Db, p: string, ds: seq<Decision>, canon: Canon)
    requires ds == [] || !Apply(db, p, ds[..|ds| - 1], canon).failed
    ensures Kept(db, Apply(db, p, ds, canon), p, ds)
    decreases |ds|
  {
    if ds != [] {
      var init, d := ds[..|ds| - 1], ds[|ds| - 1];
      var acc := Apply(db, p, init, canon);
      assert ds == init + [d];
      assert init != [] ==> !Apply(db, p, init[..|init| - 1], canon).failed;
      BooksAreKept(db, p, init, canon);
      OwnersForeseen(db, p, init, canon);
      ApplyAppends(db, p, init, d, canon);
      OneKept(db, acc, p, init, d, canon);
    }
  }

  /** Every batch: the decisions up to the one that stopped the run, or all, are what the summary counts. */
  lemma {:induction false} SummaryExactly(db: Db, p: string, ds: seq<Decision>, canon: Canon) returns (m: nat)
    ensures m <= |ds| && (!Apply(db, p, ds, canon).failed ==> m == |ds|)
    ensures Kept(db, Apply(db, p, ds, canon), p, ds[..m])
    decreases |ds|
  {
    if ds == [] || !Apply(db, p, ds[..|ds| - 1], canon).failed {
      m := |ds|;
      assert ds[..m] == ds;
      BooksAreKept(db, p, ds, canon);
    } else {
      var init := ds[..|ds| - 1];
      m := SummaryExactly(db, p, init, canon);
      assert ds[..m] == init[..m];
    }
  }
}
