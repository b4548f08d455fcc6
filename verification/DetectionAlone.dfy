/**
  The calls of one apply, taken alone, amount to the sequential apply (internal/api/network_detect.go): the state
  machine of racing applies and the batch interpreter are about the same code.
*/
module DetectionAlone {
  import opened Prelude
  import opened NetworkDetect
  import opened DetectionRace
  import DetectionSpent
  import PeerId

  predicate Walks(db: Db, pr: Proc, acts: seq<Act>, canon: Canon)
    decreases |acts|
  {
    acts == [] ||
    (CanAct(db, pr, acts[0]) &&
     (var m := Moved(db, 0, pr, acts[0], canon); Walks(m.db, m.proc, acts[1..], canon)))
  }

  function Walk(db: Db, pr: Proc, acts: seq<Act>, canon: Canon): (Db, Proc)
    requires Walks(db, pr, acts, canon)
    decreases |acts|
  {
    if acts == [] then (db, pr)
    else
      var m := Moved(db, 0, pr, acts[0], canon);
      Walk(m.db, m.proc, acts[1..], canon)
  }

  /** The apply, alone, can get from one point to the other. */
  ghost predicate Gets(db: Db, pr: Proc, db': Db, pr': Proc, canon: Canon) {
    exists acts :: Walks(db, pr, acts, canon) && Walk(db, pr, acts, canon) == (db', pr')
  }

  lemma {:induction false} WalkJoins(db: Db, pr: Proc, a: seq<Act>, b: seq<Act>, canon: Canon)
    requires Walks(db, pr, a, canon) && Walks(Walk(db, pr, a, canon).0, Walk(db, pr, a, canon).1, b, canon)
    ensures Walks(db, pr, a + b, canon)
    ensures Walk(db, pr, a + b, canon) == Walk(Walk(db, pr, a, canon).0, Walk(db, pr, a, canon).1, b, canon)
    decreases |a|
  {
    if a == [] {
      assert a + b == b;
    } else {
      var m := Moved(db, 0, pr, a[0], canon);
      assert (a + b)[0] == a[0] && (a + b)[1..] == a[1..] + b;
      WalkJoins(m.db, m.proc, a[1..], b, canon);
    }
  }

  lemma GetsOn(db: Db, pr: Proc, db1: Db, pr1: Proc, db2: Db, pr2: Proc, canon: Canon)
    requires Gets(db, pr, db1, pr1, canon) && Gets(db1, pr1, db2, pr2, canon)
    ensures Gets(db, pr, db2, pr2, canon)
  {
    var a :| Walks(db, pr, a, canon) && Walk(db, pr, a, canon) == (db1, pr1);
    var b :| Walks(db1, pr1, b, canon) && Walk(db1, pr1, b, canon) == (db2, pr2);
    WalkJoins(db, pr, a, b, canon);
  }

  lemma GetsThere(db: Db, pr: Proc, canon: Canon)
    ensures Gets(db, pr, db, pr, canon)
  {
    assert Walks(db, pr, [], canon) && Walk(db, pr, [], canon) == (db, pr);
  }

  lemma GetsBy(db: Db, pr: Proc, act: Act, canon: Canon)
    requires CanAct(db, pr, act)
    ensures var m := Moved(db, 0, pr, act, canon); Gets(db, pr, m.db, m.proc, canon)
  {
    var m := Moved(db, 0, pr, act, canon);
    assert [act][1..] == [];
    assert Walks(m.db, m.proc, [], canon);
    assert Walks(db, pr, [act], canon) && Walk(db, pr, [act], canon) == (m.db, m.proc);
  }

  // One more act.
  lemma GetsOneMore(db: Db, pr: Proc, db1: Db, pr1: Proc, act: Act, canon: Canon)
    requires Gets(db, pr, db1, pr1, canon) && CanAct(db1, pr1, act)
    ensures var m := Moved(db1, 0, pr1, act, canon); Gets(db, pr, m.db, m.proc, canon)
  {
    var m := Moved(db1, 0, pr1, act, canon);
    GetsBy(db1, pr1, act, canon);
    GetsOn(db, pr, db1, pr1, m.db, m.proc, canon);
  }

  // The point of an apply at which the sequential run so far has left it, the owner's j-th subnet being next.
  function AtSubnet(acc: Acc, pr: Proc, owner: int, j: nat): Proc {
    pr.(stage := if acc.failed then Stopped else Extending(owner, j), existing := acc.existing)
  }

  lemma SubnetGets(acc: Acc, pr: Proc, owner: int, g: Option<int>, j: nat, canon: Canon)
    requires !acc.failed && pr.i < |pr.ds| && j < |pr.ds[pr.i].subnets|
    ensures var r := SubnetOne(acc, pr.provider, owner, g, pr.ds[pr.i].subnets[j], canon);
            Gets(acc.db, AtSubnet(acc, pr, owner, j), r.db, AtSubnet(r, pr, owner, j + 1), canon)
  {
    var here := AtSubnet(acc, pr, owner, j);
    GetsBy(acc.db, here, if Passes(here, pr.ds[pr.i].subnets[j]) then Go else Insert(g), canon);
  }

  lemma {:induction false} SubnetsGet(acc: Acc, pr: Proc, owner: int, g: Option<int>, j: nat, canon: Canon)
    requires !acc.failed && pr.i < |pr.ds| && j <= |pr.ds[pr.i].subnets|
    ensures var r := SubnetAll(acc, pr.provider, owner, g, pr.ds[pr.i].subnets[..j], canon);
            Gets(acc.db, AtSubnet(acc, pr, owner, 0), r.db, AtSubnet(r, pr, owner, j), canon)
    decreases j
  {
    var sns := pr.ds[pr.i].subnets;
    if j == 0 {
      GetsThere(acc.db, AtSubnet(acc, pr, owner, 0), canon);
    } else {
      var acc1 := SubnetAll(acc, pr.provider, owner, g, sns[..j - 1], canon);
      assert sns[..j][..|sns[..j]| - 1] == sns[..j - 1];
      SubnetsGet(acc, pr, owner, g, j - 1, canon);
      if !acc1.failed {
        var r := SubnetOne(acc1, pr.provider, owner, g, sns[j - 1], canon);
        SubnetGets(acc1, pr, owner, g, j - 1, canon);
        GetsOn(acc.db, AtSubnet(acc, pr, owner, 0), acc1.db, AtSubnet(acc1, pr, owner, j - 1),
               r.db, AtSubnet(r, pr, owner, j), canon);
      }
    }
  }

  // Settings and groups change by a call of their own.
  lemma SettleGets(db: Db, db': Db, pr: Proc, canon: Canon)
    requires pr.stage.Extending? && DetectionSpent.NetOnly(db, db') && Sound(db')
    ensures Gets(db, pr, db', pr, canon)
  {
    GetsBy(db, pr, Settle(db'.settings, db'.groups, db'.nextGroup), canon);
  }

  // After a decision: stopped, or at the next one.
  function AfterDecision(acc: Acc, pr: Proc): Proc {
    if acc.failed then pr.(stage := Stopped, existing := acc.existing)
    else pr.(stage := Deciding, i := pr.i + 1, existing := acc.existing)
  }

  lemma LinksGet(acc: Acc, pr: Proc, owner: int, canon: Canon)
    requires !acc.failed && pr.i < |pr.ds| && Sound(acc.db)
    ensures var d := pr.ds[pr.i];
            var r := MeshAll(acc, pr.provider, d.meshWith);
            Gets(acc.db, AtSubnet(acc, pr, owner, |d.subnets|), r.db, AfterDecision(r, pr), canon)
  {
    var d := pr.ds[pr.i];
    var r, here := MeshAll(acc, pr.provider, d.meshWith), AtSubnet(acc, pr, owner, |d.subnets|);
    assert DetectionSpent.NetOnly(acc.db, r.db) && r.failed == acc.failed && r.existing == acc.existing by {
      DetectionSpent.LinksFrame(acc, acc, pr.provider, d.meshWith);
    }
    assert Sound(r.db) by { MeshProgress(acc, pr.provider, d.meshWith); }
    SettleGets(acc.db, r.db, here, canon);
    GetsOneMore(acc.db, here, r.db, here, Go, canon);
  }

  lemma SubnetsAndLinksGet(acc: Acc, pr: Proc, owner: int, g: Option<int>, canon: Canon)
    requires !acc.failed && pr.i < |pr.ds| && Sound(acc.db)
    ensures var d := pr.ds[pr.i];
            var acc1 := SubnetAll(acc, pr.provider, owner, g, d.subnets, canon);
            var r := if acc1.failed then acc1 else MeshAll(acc1, pr.provider, d.meshWith);
            Gets(acc.db, AtSubnet(acc, pr, owner, 0), r.db, AfterDecision(r, pr), canon)
  {
    var d := pr.ds[pr.i];
    assert d.subnets[..|d.subnets|] == d.subnets;
    var acc1 := SubnetAll(acc, pr.provider, owner, g, d.subnets, canon);
    SubnetsGet(acc, pr, owner, g, |d.subnets|, canon);
    if !acc1.failed {
      var r := MeshAll(acc1, pr.provider, d.meshWith);
      SubnetsProgress(acc, pr.provider, owner, g, d.subnets, canon);
      LinksGet(acc1, pr, owner, canon);
      GetsOn(acc.db, AtSubnet(acc, pr, owner, 0), acc1.db, AtSubnet(acc1, pr, owner, |d.subnets|),
             r.db, AfterDecision(r, pr), canon);
    }
  }

  lemma EnrichGets(acc: Acc, pr: Proc, owner: int, canon: Canon)
    requires !acc.failed && pr.i < |pr.ds| && Sound(acc.db)
    ensures var r := Enrich(acc, pr.provider, pr.ds[pr.i], owner, canon);
            Gets(acc.db, AtSubnet(acc, pr, owner, 0), r.db, AfterDecision(r, pr), canon)
  {
    var d, here := pr.ds[pr.i], AtSubnet(acc, pr, owner, 0);
    var g := EnsureProviderGroup(acc.db, pr.provider);
    if |d.subnets| == 0 {
      SubnetsAndLinksGet(acc, pr, owner, None, canon);
    } else if g.None? {
      GetsBy(acc.db, here, Fail, canon);
    } else {
      var acc1 := acc.(db := g.value.0);
      var r := Enrich(acc, pr.provider, d, owner, canon);
      EnsureGrows(acc.db, pr.provider);
      SettleGets(acc.db, acc1.db, here, canon);
      SubnetsAndLinksGet(acc1, pr, owner, Some(g.value.1), canon);
      GetsOn(acc.db, here, acc1.db, here, r.db, AfterDecision(r, pr), canon);
    }
  }

  // Three calls make the node, its owner row and the category.
  lemma OwnPeerGets(acc: Acc, pr: Proc, pubKey: Bytes, canon: Canon)
    requires !acc.failed && pr.i < |pr.ds| && pr.stage == Making(pubKey) && pr.existing == acc.existing
    ensures var acc1 := OwnPeer(acc, pr.provider, pr.ds[pr.i], pubKey);
            Gets(acc.db, pr, acc1.db, AtSubnet(acc1, pr, acc.db.nextNode, 0), canon)
  {
    var m1 := Moved(acc.db, 0, pr, Go, canon);
    GetsBy(acc.db, pr, Go, canon);
    var m2 := Moved(m1.db, 0, m1.proc, Go, canon);
    GetsOneMore(acc.db, pr, m1.db, m1.proc, Go, canon);
    GetsOneMore(acc.db, pr, m2.db, m2.proc, Go, canon);
  }

  // A new owner, then the rest of the decision.
  lemma CreateGets(acc: Acc, pr: Proc, pubKey: Bytes, canon: Canon)
    requires !acc.failed && pr.i < |pr.ds| && Sound(acc.db) && pr.stage == Making(pubKey) && pr.existing == acc.existing
    requires CurrentKey(pr) !in acc.db.owners
    ensures var d := pr.ds[pr.i];
            var r := Enrich(OwnPeer(acc, pr.provider, d, pubKey), pr.provider, d, acc.db.nextNode, canon);
            Gets(acc.db, pr, r.db, AfterDecision(r, pr), canon)
  {
    var d, id := pr.ds[pr.i], acc.db.nextNode;
    var acc1 := OwnPeer(acc, pr.provider, d, pubKey);
    var r := Enrich(acc1, pr.provider, d, id, canon);
    OwnPeerGets(acc, pr, pubKey, canon);
    OwnPeerProgress(acc, pr.provider, d, pubKey);
    EnrichGets(acc1, pr, id, canon);
    GetsOn(acc.db, pr, acc1.db, AtSubnet(acc1, pr, id, 0), r.db, AfterDecision(r, pr), canon);
  }

  // A decision for a node, once its peer has been looked at.
  lemma CreateNodeGets(acc: Acc, pr: Proc, pubKey: Bytes, canon: Canon)
    requires !acc.failed && pr.i < |pr.ds| && Sound(acc.db) && pr.stage.Deciding? && pr.existing == acc.existing
    requires pr.ds[pr.i].action.CreateNode?
    ensures var d := pr.ds[pr.i];
            var m, r := Look(acc.db, 0, pr, d, pubKey), Decide(acc, pr.provider, d, pubKey, canon);
            Gets(m.db, m.proc, r.db, AfterDecision(r, pr), canon)
  {
    var d, key := pr.ds[pr.i], CurrentKey(pr);
    var m, r := Look(acc.db, 0, pr, d, pubKey), Decide(acc, pr.provider, d, pubKey, canon);
    if key in acc.db.owners {
      var acc1, owner := acc.(sum := acc.sum.(alreadyHandled := acc.sum.alreadyHandled + 1)), acc.db.owners[key];
      assert r == Enrich(acc1, pr.provider, d, owner, canon);
      assert m.proc == AtSubnet(acc1, pr, owner, 0) && m.db == acc1.db;
      EnrichGets(acc1, pr, owner, canon);
    } else if Trim(d.nodeName) != "" {
      var acc1 := OwnPeer(acc, pr.provider, d, pubKey);
      assert r == Enrich(acc1, pr.provider, d, acc.db.nextNode, canon);
      assert m.proc == pr.(stage := Making(pubKey)) && AfterDecision(r, m.proc) == AfterDecision(r, pr);
      CreateGets(acc, m.proc, pubKey, canon);
    } else {
      GetsThere(m.db, m.proc, canon);
    }
  }

  lemma DecideGets(acc: Acc, pr: Proc, canon: Canon)
    requires !acc.failed && pr.i < |pr.ds| && Sound(acc.db) && pr.stage.Deciding? && pr.existing == acc.existing
    ensures var r := ApplyOne(acc, pr.provider, pr.ds[pr.i], canon);
            Gets(acc.db, pr, r.db, AfterDecision(r, pr), canon)
  {
    var d, p := pr.ds[pr.i], pr.provider;
    var pubKey := PeerId.DecodePeerId(d.peerId);
    var r, m := ApplyOne(acc, p, d, canon), Moved(acc.db, 0, pr, Go, canon);
    GetsBy(acc.db, pr, Go, canon);
    assert m == Begun(acc.db, 0, pr, d, pubKey);
    if pubKey.Some? && d.action.CreateNode? {
      CreateNodeGets(acc, pr, pubKey.value, canon);
      GetsOn(acc.db, pr, m.db, m.proc, r.db, AfterDecision(r, pr), canon);
    }
  }

  // Where the sequential run over the first n decisions leaves the apply.
  function After(acc: Acc, p: string, ds: seq<Decision>, n: nat, stopped: nat): Proc {
    Proc(p, ds, if acc.failed then stopped else n, if acc.failed then Stopped else Deciding, acc.existing)
  }

  lemma {:induction false} ApplyGets(db: Db, p: string, ds: seq<Decision>, n: nat, canon: Canon) returns (stopped: nat)
    requires Sound(db) && n <= |ds|
    ensures var r := Apply(db, p, ds[..n], canon);
            Gets(db, Proc(p, ds, 0, Listing, {}), r.db, After(r, p, ds, n, stopped), canon)
    decreases n
  {
    var start := Proc(p, ds, 0, Listing, {});
    if n == 0 {
      stopped := 0;
      assert ds[..n] == [];
      GetsBy(db, start, Go, canon);
    } else {
      var acc, d := Apply(db, p, ds[..n - 1], canon), ds[n - 1];
      stopped := ApplyGets(db, p, ds, n - 1, canon);
      assert ds[..n] == ds[..n - 1] + [d];
      ApplyAppends(db, p, ds[..n - 1], d, canon);
      if !acc.failed {
        var here, r := After(acc, p, ds, n - 1, stopped), ApplyOne(acc, p, d, canon);
        ApplyProgress(Begin(db), p, ds[..n - 1], canon);
        DecideGets(acc, here, canon);
        stopped := n - 1;
        GetsOn(db, start, acc.db, here, r.db, AfterDecision(r, here), canon);
      }
    }
  }

  lemma {:induction false} WalkIsRun(db: Db, pr: Proc, log: seq<Event>, acts: seq<Act>, canon: Canon)
    returns (steps: seq<Step>)
    requires Walks(db, pr, acts, canon)
    ensures Legal(State(db, [pr], log), steps, canon)
    ensures var r, w := Run(State(db, [pr], log), steps, canon), Walk(db, pr, acts, canon);
            r.db == w.0 && r.procs == [w.1]
    decreases |acts|
  {
    if acts == [] {
      steps := [];
    } else {
      var m, s, step := Moved(db, 0, pr, acts[0], canon), State(db, [pr], log), Step(0, acts[0]);
      assert Next(s, step, canon) == State(m.db, [m.proc], log + m.events);
      steps := WalkIsRun(m.db, m.proc, log + m.events, acts[1..], canon);
      Turn(s, step, steps, canon);
      steps := [step] + steps;
    }
  }

  /** One apply alone can do, call by call, exactly what the sequential `Apply` does. */
  lemma AloneIsApply(db: Db, p: string, ds: seq<Decision>, canon: Canon) returns (steps: seq<Step>)
    requires Sound(db)
    ensures var s, r := State(db, [Proc(p, ds, 0, Listing, {})], []), Apply(db, p, ds, canon);
            && Fresh(s) && Legal(s, steps, canon)
            && var t := Run(s, steps, canon);
               t.db == r.db && |t.procs| == 1 && t.procs[0].stage == if r.failed then Stopped else Finished
  {
    var start, r := Proc(p, ds, 0, Listing, {}), Apply(db, p, ds, canon);
    assert ds[..|ds|] == ds;
    var stopped := ApplyGets(db, p, ds, |ds|, canon);
    var here := After(r, p, ds, |ds|, stopped);
    var end := if r.failed then here else here.(stage := Finished);
    if !r.failed { GetsOneMore(db, start, r.db, here, Go, canon); }
    assert Gets(db, start, r.db, end, canon);
    var acts :| Walks(db, start, acts, canon) && Walk(db, start, acts, canon) == (r.db, end);
    steps := WalkIsRun(db, start, [], acts, canon);
  }
}
