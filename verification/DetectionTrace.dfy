/**
  Where the rows of an applied network detection come from (internal/api/network_detect.go): every node, owner and
  subnet that was not there before belongs to a decision of the batch that asked for it, also when the batch stops
  half-way; and linked providers end up in one group unless each had its own.
*/
module DetectionTrace {
  import opened Prelude
  import opened NetworkDetect

  ghost predicate NodeOf(db: Db, p: string, key: PeerKey, d: Decision) {
    && d.action.CreateNode? && key == PeerKey(p, d.peerId) && Trim(d.nodeName) != ""
    && key in db.owners && db.owners[key] in db.nodes
    && db.nodes[db.owners[key]] == Node(Trim(d.nodeName), NodeKind(d.nodeKind), "network_node")
  }

  ghost predicate Asked(sns: seq<NewSubnet>, row: Subnet, canon: Canon) {
    exists sn | sn in sns :: canon(Trim(sn.cidr)) == Some(row.cidr) && sn.title == row.title
  }

  ghost predicate SubnetOf(db: Db, p: string, row: Subnet, d: Decision, canon: Canon) {
    && d.action.CreateNode? && row.provider == p && Asked(d.subnets, row, canon)
    && PeerKey(p, d.peerId) in db.owners && row.owner == db.owners[PeerKey(p, d.peerId)]
    && row.group.Some? && row.group == SettingsOf(db, p).group
  }

  lemma RowsStay(db: Db, db': Db, p: string, key: PeerKey, row: Subnet, d: Decision, canon: Canon)
    requires Grows(db, db')
    ensures NodeOf(db, p, key, d) ==> NodeOf(db', p, key, d)
    ensures SubnetOf(db, p, row, d, canon) ==> SubnetOf(db', p, row, d, canon)
  {
    assert SettingsGrow(SettingsOf(db, p), SettingsOf(db', p));
  }

  lemma {:induction false} MeshKeepsRows(acc: Acc, p: string, sibs: seq<string>)
    requires Sound(acc.db)
    ensures var r := MeshAll(acc, p, sibs);
            Sound(r.db) && r.db.subnets == acc.db.subnets && r.db.owners == acc.db.owners && Grows(acc.db, r.db)
  {
    if sibs != [] {
      var acc1 := MeshAll(acc, p, sibs[..|sibs| - 1]);
      MeshKeepsRows(acc, p, sibs[..|sibs| - 1]);
      MeshOneLinks(acc1, p, sibs[|sibs| - 1]);
      GrowsTransitively(acc.db, acc1.db, MeshAll(acc, p, sibs).db);
    }
  }

  lemma {:induction false} SubnetRows(acc: Acc, p: string, owner: int, g: Option<int>, sns: seq<NewSubnet>,
                                      canon: Canon)
    ensures var r := SubnetAll(acc, p, owner, g, sns, canon);
            && acc.db.subnets <= r.db.subnets && r.db == acc.db.(subnets := r.db.subnets)
            && forall i | |acc.db.subnets| <= i < |r.db.subnets| ::
                 var row := r.db.subnets[i]; Asked(sns, row, canon) && row == Subnet(p, row.cidr, row.title, owner, g)
  {
    if sns != [] {
      var init, sn := sns[..|sns| - 1], sns[|sns| - 1];
      SubnetRows(acc, p, owner, g, init, canon);
      var r := SubnetAll(acc, p, owner, g, sns, canon);
      assert sn in sns && forall x | x in init :: x in sns;
      forall i | |acc.db.subnets| <= i < |r.db.subnets| ensures Asked(sns, r.db.subnets[i], canon) {
        var before := SubnetAll(acc, p, owner, g, init, canon);
        if i < |before.db.subnets| { assert Asked(init, before.db.subnets[i], canon); }
      }
    }
  }

  ghost predicate NewSubnetsOf(before: Db, after: Db, p: string, d: Decision, canon: Canon) {
    && before.subnets <= after.subnets
    && forall i | |before.subnets| <= i < |after.subnets| :: SubnetOf(after, p, after.subnets[i], d, canon)
  }

  lemma EnrichRows(acc: Acc, p: string, d: Decision, canon: Canon)
    requires Sound(acc.db) && d.action.CreateNode? && PeerKey(p, d.peerId) in acc.db.owners
    ensures var r := Enrich(acc, p, d, acc.db.owners[PeerKey(p, d.peerId)], canon);
            Grows(acc.db, r.db) && r.db.owners == acc.db.owners && NewSubnetsOf(acc.db, r.db, p, d, canon)
  {
    var owner := acc.db.owners[PeerKey(p, d.peerId)];
    var r := Enrich(acc, p, d, owner, canon);
    assert Grows(acc.db, r.db) by { EnrichProgress(acc, p, d, owner, canon); }
    var g := EnsureProviderGroup(acc.db, p);
    if |d.subnets| == 0 || g.Some? {
      if |d.subnets| > 0 { EnsureGrows(acc.db, p); }
      var acc1 := if |d.subnets| > 0 then acc.(db := g.value.0) else acc;
      var gid := if |d.subnets| > 0 then Some(g.value.1) else None;
      var acc2 := SubnetAll(acc1, p, owner, gid, d.subnets, canon);
      SubnetRows(acc1, p, owner, gid, d.subnets, canon);
      SubnetsProgress(acc1, p, owner, gid, d.subnets, canon);
      assert gid.Some? ==> SettingsOf(acc2.db, p).group == gid;
      if !acc2.failed { MeshKeepsRows(acc2, p, d.meshWith); }
      assert SettingsGrow(SettingsOf(acc2.db, p), SettingsOf(r.db, p));
      forall i | |acc.db.subnets| <= i < |r.db.subnets| ensures SubnetOf(r.db, p, r.db.subnets[i], d, canon) {
        assert Asked(d.subnets, acc2.db.subnets[i], canon);
      }
    }
  }

  ghost predicate NewRowsOf(before: Db, after: Db, p: string, d: Decision, canon: Canon) {
    && NewSubnetsOf(before, after, p, d, canon)
    && forall key | key in after.owners && key !in before.owners :: NodeOf(after, p, key, d)
  }

  lemma DecideRows(acc: Acc, p: string, d: Decision, pubKey: Bytes, canon: Canon)
    requires Sound(acc.db)
    ensures NewRowsOf(acc.db, Decide(acc, p, d, pubKey, canon).db, p, d, canon)
  {
    var key := PeerKey(p, d.peerId);
    if d.action.CreateNode? {
      if key in acc.db.owners {
        EnrichRows(acc.(sum := acc.sum.(alreadyHandled := acc.sum.alreadyHandled + 1)), p, d, canon);
      } else if Trim(d.nodeName) != "" {
        var acc1 := OwnPeer(acc, p, d, pubKey);
        OwnPeerProgress(acc, p, d, pubKey);
        EnrichRows(acc1, p, d, canon);
        assert NodeOf(acc1.db, p, key, d);
      }
    }
  }

  ghost predicate NodeTraced(db: Db, p: string, key: PeerKey, ds: seq<Decision>) {
    exists d | d in ds :: NodeOf(db, p, key, d)
  }

  ghost predicate SubnetTraced(db: Db, p: string, row: Subnet, ds: seq<Decision>, canon: Canon) {
    exists d | d in ds :: SubnetOf(db, p, row, d, canon)
  }

  ghost predicate Traced(before: Db, after: Db, p: string, ds: seq<Decision>, canon: Canon) {
    && before.subnets <= after.subnets
    && (forall key | key in after.owners && key !in before.owners :: NodeTraced(after, p, key, ds))
    && (forall i | |before.subnets| <= i < |after.subnets| :: SubnetTraced(after, p, after.subnets[i], ds, canon))
  }

  lemma TracedOneMore(before: Db, mid: Db, after: Db, p: string, ds: seq<Decision>, d: Decision, canon: Canon)
    requires Traced(before, mid, p, ds, canon) && NewRowsOf(mid, after, p, d, canon) && Grows(mid, after)
    ensures Traced(before, after, p, ds + [d], canon)
  {
    var all := ds + [d];
    assert d in all && forall x | x in ds :: x in all;
    forall key | key in after.owners && key !in before.owners ensures NodeTraced(after, p, key, all) {
      if key in mid.owners {
        assert NodeTraced(mid, p, key, ds);
        var x :| x in ds && NodeOf(mid, p, key, x);
        RowsStay(mid, after, p, key, Subnet("", "", "", 0, None), x, canon);
      }
    }
    forall i | |before.subnets| <= i < |after.subnets| ensures SubnetTraced(after, p, after.subnets[i], all, canon) {
      if i < |mid.subnets| {
        assert SubnetTraced(mid, p, mid.subnets[i], ds, canon);
        var x :| x in ds && SubnetOf(mid, p, mid.subnets[i], x, canon);
        RowsStay(mid, after, p, PeerKey("", []), mid.subnets[i], x, canon);
      }
    }
  }

  lemma OneRows(acc: Acc, p: string, d: Decision, canon: Canon)
    requires Sound(acc.db)
    ensures NewRowsOf(acc.db, ApplyOne(acc, p, d, canon).db, p, d, canon)
            && Grows(acc.db, ApplyOne(acc, p, d, canon).db)
  {
    OneProgress(acc, p, d, canon);
    var pubKey := PeerId.DecodePeerId(d.peerId);
    if !acc.failed && pubKey.Some? { DecideRows(acc, p, d, pubKey.value, canon); }
  }

  lemma OneTraced(db: Db, acc: Acc, p: string, ds: seq<Decision>, d: Decision, canon: Canon)
    requires Traced(db, acc.db, p, ds, canon) && Sound(acc.db)
    ensures Traced(db, ApplyOne(acc, p, d, canon).db, p, ds + [d], canon)
  {
    OneRows(acc, p, d, canon);
    TracedOneMore(db, acc.db, ApplyOne(acc, p, d, canon).db, p, ds, d, canon);
  }

  /** Nothing appears that no decision asked for, whether or not the batch went through. */
  lemma {:induction false} EveryRowWasAsked(db: Db, p: string, ds: seq<Decision>, canon: Canon)
    requires Sound(db)
    ensures Traced(db, Apply(db, p, ds, canon).db, p, ds, canon)
    decreases |ds|
  {
    if ds != [] {
      var init, d := ds[..|ds| - 1], ds[|ds| - 1];
      assert ds == init + [d];
      EveryRowWasAsked(db, p, init, canon);
      assert Sound(Apply(db, p, init, canon).db) by { ApplyProgress(Begin(db), p, init, canon); }
      OneTraced(db, Apply(db, p, init, canon), p, init, d, canon);
      ApplyAppends(db, p, init, d, canon);
    }
  }

  lemma MeshFlagKeepsGroups(db: Db, p: string, q: string)
    ensures SettingsOf(SetMesh(db, p), q).group == SettingsOf(db, q).group && SetMesh(db, p).groups == db.groups
    ensures SettingsOf(SetMesh(db, p), p).meshEnabled
    ensures SettingsOf(db, q).meshEnabled ==> SettingsOf(SetMesh(db, p), q).meshEnabled
    ensures p != q ==> SettingsOf(SetMesh(db, p), q) == SettingsOf(db, q)
  {
  }

  lemma SetGroupExactly(db: Db, p: string, g: Option<int>)
    ensures var r := SetGroup(db, p, g);
            && SettingsOf(r, p) == SettingsOf(db, p).(group := g) && r.groups == db.groups
            && forall q | q != p :: SettingsOf(r, q) == SettingsOf(db, q)
  {
  }

  lemma NewGroupIsNew(db: Db)
    requires CreateNextAutoNamedGroup(db).Some?
    ensures var (r, id) := CreateNextAutoNamedGroup(db).value;
            id == db.nextGroup && r.settings == db.settings && r.groups.Keys == db.groups.Keys + {db.nextGroup}
  {
  }

  /** The provider ends in the group handed back: its own if it had one, else a new one; no other provider changes. */
  lemma EnsureExactly(db: Db, p: string)
    requires EnsureProviderGroup(db, p).Some?
    ensures var (r, id) := EnsureProviderGroup(db, p).value;
            var g := SettingsOf(db, p).group;
            && id == (if g.Some? then g.value else db.nextGroup) && SettingsOf(r, p).group == Some(id)
            && r.groups.Keys == db.groups.Keys + (if g.Some? then {} else {db.nextGroup})
            && forall q | q != p :: SettingsOf(r, q) == SettingsOf(db, q)
  {
    if SettingsOf(db, p).group.None? {
      NewGroupIsNew(db);
      var (db1, id) := CreateNextAutoNamedGroup(db).value;
      SetGroupExactly(db1, p, Some(id));
      assert EnsureProviderGroup(db, p).value == (SetGroup(db1, p, Some(id)), id);
      assert forall q :: SettingsOf(db1, q) == SettingsOf(db, q);
    }
  }

  lemma NewPairGroup(db: Db, a: string, b: string)
    requires CreateNextAutoNamedGroup(db).Some?
    ensures var (db1, id) := CreateNextAutoNamedGroup(db).value;
            var r := SetGroup(SetGroup(db1, a, Some(id)), b, Some(id));
            && SettingsOf(r, a).group == Some(db.nextGroup) == SettingsOf(r, b).group
            && r.groups.Keys == db.groups.Keys + {db.nextGroup}
  {
    var (db1, id) := CreateNextAutoNamedGroup(db).value;
    NewGroupIsNew(db);
    SetGroupExactly(db1, a, Some(id));
    SetGroupExactly(SetGroup(db1, a, Some(id)), b, Some(id));
  }

  lemma ReconciledShareAGroup(db: Db, a: string, b: string)
    requires Sound(db) && ReconcileMeshGroups(db, a, b).Some?
    ensures var db' := ReconcileMeshGroups(db, a, b).value;
            var ga, gb := SettingsOf(db, a).group, SettingsOf(db, b).group;
            && (ga.None? || gb.None? ==> SettingsOf(db', a).group == SettingsOf(db', b).group)
            && (ga.None? && gb.None? ==> SettingsOf(db', a).group == Some(db.nextGroup))
            && db'.groups.Keys == db.groups.Keys + (if ga.None? && gb.None? then {db.nextGroup} else {})
  {
    var ga, gb := SettingsOf(db, a).group, SettingsOf(db, b).group;
    if ga.None? && gb.None? {
      NewPairGroup(db, a, b);
    } else if ga.None? {
      SetGroupExactly(db, a, gb);
    } else if gb.None? {
      SetGroupExactly(db, b, ga);
    }
  }

  lemma ReconcileTouchesTwo(db: Db, a: string, b: string, q: string)
    requires ReconcileMeshGroups(db, a, b).Some? && q != a && q != b
    ensures SettingsOf(ReconcileMeshGroups(db, a, b).value, q) == SettingsOf(db, q)
  {
  }

  /** Two linked providers share a group unless each already had one; then both are left as they were. If neither had
      one it is a new group, and no other is made. */
  lemma LinkedShareAGroup(db: Db, a: string, b: string)
    requires Sound(db) && EnableMeshPair(db, a, b).1
    ensures var db' := EnableMeshPair(db, a, b).0;
            var ga, gb := SettingsOf(db, a).group, SettingsOf(db, b).group;
            && (ga.None? || gb.None? ==> SettingsOf(db', a).group == SettingsOf(db', b).group)
            && (ga.Some? ==> SettingsOf(db', a).group == ga) && (gb.Some? ==> SettingsOf(db', b).group == gb)
            && (ga.None? && gb.None? ==> SettingsOf(db', a).group == Some(db.nextGroup) && db.nextGroup !in db.groups)
            && db'.groups.Keys == db.groups.Keys + (if ga.None? && gb.None? then {db.nextGroup} else {})
            && SettingsOf(db', a).meshEnabled && SettingsOf(db', b).meshEnabled
            && (forall q | q != a && q != b :: SettingsOf(db', q) == SettingsOf(db, q))
  {
    var db1 := ReconcileMeshGroups(db, a, b).value;
    var db2 := SetMesh(db1, a);
    ReconciledShareAGroup(db, a, b);
    assert Grows(db, db1) by { ReconcileGrows(db, a, b); }
    assert SettingsGrow(SettingsOf(db, a), SettingsOf(db1, a)) && SettingsGrow(SettingsOf(db, b), SettingsOf(db1, b));
    MeshFlagKeepsGroups(db1, a, a);
    MeshFlagKeepsGroups(db1, a, b);
    MeshFlagKeepsGroups(db2, b, a);
    MeshFlagKeepsGroups(db2, b, b);
    forall q | q != a && q != b ensures SettingsOf(SetMesh(db2, b), q) == SettingsOf(db, q) {
      ReconcileTouchesTwo(db, a, b, q);
      MeshFlagKeepsGroups(db1, a, q);
      MeshFlagKeepsGroups(db2, b, q);
    }
  }
}
