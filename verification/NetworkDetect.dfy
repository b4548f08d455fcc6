/**
  Applying a reviewed network detection (internal/api/network_detect.go, network_groups.go): a batch of
  per-peer decisions interpreted over the database. The claim of the code is that re-running a batch
  changes nothing, and that two runs that race make no node and no subnet twice.

  `canon` is what PostgreSQL's cidr type makes of a text (None: not a network); the subnet catalogue is
  unique on it.
*/
module NetworkDetect {
  import opened Prelude
  import PeerId

  type Canon = string -> Option<string>

  datatype PeerKey = PeerKey(provider: string, peer: Bytes)
  datatype Node = Node(name: string, kind: string, role: string)
  datatype Subnet = Subnet(provider: string, cidr: string, title: string, owner: int, group: Option<int>)
  datatype Settings = Settings(meshEnabled: bool, internetEgress: bool, rangeStart: string, rangeEnd: string,
                               group: Option<int>)

  // "Сеть {n}", or a name an administrator chose.
  datatype GroupName = Auto(n: nat) | Chosen(text: string)

  datatype Db = Db(
    nodes: map<int, Node>, nextNode: int,
    owners: map<PeerKey, int>,
    categories: map<PeerKey, string>,
    subnets: seq<Subnet>,
    groups: map<int, GroupName>, nextGroup: int,
    settings: map<string, Settings>,
    dismissed: set<PeerKey>)

  datatype Action = CreateNode | Skip | Undismiss | OtherAction(text: string)
  datatype NewSubnet = NewSubnet(cidr: string, title: string)
  datatype Decision = Decision(peerId: Bytes, action: Action, nodeName: string, nodeKind: string,
                               subnets: seq<NewSubnet>, meshWith: seq<string>)

  datatype Summary = Summary(nodesCreated: nat, subnetsCreated: nat, meshPairsEnabled: nat, skipped: nat,
                             alreadyHandled: nat, undismissed: nat, groupErrors: nat)

  // The variables of one apply. groupErrors counts reconciliation failures, which are only logged.
  datatype Acc = Acc(db: Db, existing: set<string>, meshDone: set<string>, sum: Summary, failed: bool)

  // ---------------------------------------------------------------- text

  function MeshPairKey(a: string, b: string): string {
    if TextLess(b, a) then b + "|" + a else a + "|" + b
  }

  // ---------------------------------------------------------------- tables

  function SettingsOf(db: Db, p: string): Settings {
    if p in db.settings then db.settings[p] else Settings(false, false, "", "", None)
  }

  function SetGroup(db: Db, p: string, g: Option<int>): Db {
    db.(settings := db.settings[p := SettingsOf(db, p).(group := g)])
  }

  function SetMesh(db: Db, p: string): Db {
    if SettingsOf(db, p).meshEnabled then db
    else db.(settings := db.settings[p := SettingsOf(db, p).(meshEnabled := true)])
  }

  const NAME_ATTEMPTS: nat := 20

  function FreeAuto(names: set<GroupName>, n: nat, attempts: nat): Option<nat>
    decreases attempts
  {
    if attempts == 0 then None
    else if Auto(n) !in names then Some(n)
    else FreeAuto(names, n + 1, attempts - 1)
  }

  function CreateNextAutoNamedGroup(db: Db): Option<(Db, int)> {
    var n := FreeAuto(db.groups.Values, |db.groups| + 1, NAME_ATTEMPTS);
    if n.None? then None
    else Some((db.(groups := db.groups[db.nextGroup := Auto(n.value)], nextGroup := db.nextGroup + 1), db.nextGroup))
  }

  function Cidrs(db: Db): set<string> {
    set sn | sn in db.subnets :: sn.cidr
  }

  // ---------------------------------------------------------------- groups and mesh

  function EnsureProviderGroup(db: Db, p: string): Option<(Db, int)> {
    var g := SettingsOf(db, p).group;
    if g.Some? then Some((db, g.value))
    else
      var made := CreateNextAutoNamedGroup(db);
      if made.None? then None else Some((SetGroup(made.value.0, p, Some(made.value.1)), made.value.1))
  }

  // None: the group could not be created; the caller logs it and goes on.
  function ReconcileMeshGroups(db: Db, a: string, b: string): Option<Db> {
    var ga, gb := SettingsOf(db, a).group, SettingsOf(db, b).group;
    if ga.None? && gb.None? then
      var made := CreateNextAutoNamedGroup(db);
      if made.None? then None
      else Some(SetGroup(SetGroup(made.value.0, a, Some(made.value.1)), b, Some(made.value.1)))
    else if ga.None? then Some(SetGroup(db, a, gb))
    else if gb.None? then Some(SetGroup(db, b, ga))
    else Some(db)
  }

  // The new tables, and whether the groups could be reconciled.
  function EnableMeshPair(db: Db, a: string, b: string): (Db, bool) {
    var db1 := ReconcileMeshGroups(db, a, b);
    (SetMesh(SetMesh(if db1.Some? then db1.value else db, a), b), db1.Some?)
  }

  // ---------------------------------------------------------------- one decision

  function MeshOne(acc: Acc, p: string, sib: string): Acc {
    var key := MeshPairKey(p, sib);
    if key in acc.meshDone then acc
    else
      var (db, reconciled) := EnableMeshPair(acc.db, p, sib);
      acc.(db := db, meshDone := acc.meshDone + {key},
           sum := acc.sum.(meshPairsEnabled := acc.sum.meshPairsEnabled + 1,
                           groupErrors := acc.sum.groupErrors + if reconciled then 0 else 1))
  }

  function MeshAll(acc: Acc, p: string, sibs: seq<string>): Acc {
    if sibs == [] then acc else MeshOne(MeshAll(acc, p, sibs[..|sibs| - 1]), p, sibs[|sibs| - 1])
  }

  function SubnetOne(acc: Acc, p: string, owner: int, g: Option<int>, sn: NewSubnet, canon: Canon): Acc {
    var cidr := Trim(sn.cidr);
    if acc.failed || cidr == "" || cidr in acc.existing then acc
    else if canon(cidr).None? || canon(cidr).value in Cidrs(acc.db) then acc.(failed := true)
    else
      acc.(db := acc.db.(subnets := acc.db.subnets + [Subnet(p, canon(cidr).value, sn.title, owner, g)]),
           existing := acc.existing + {cidr},
           sum := acc.sum.(subnetsCreated := acc.sum.subnetsCreated + 1))
  }

  function SubnetAll(acc: Acc, p: string, owner: int, g: Option<int>, sns: seq<NewSubnet>, canon: Canon): Acc {
    if sns == [] then acc
    else SubnetOne(SubnetAll(acc, p, owner, g, sns[..|sns| - 1], canon), p, owner, g, sns[|sns| - 1], canon)
  }

  function NodeKind(kind: string): (r: string)
    ensures r in {"router", "device", "other"}
    ensures r == kind <==> kind in {"router", "device", "other"}
    ensures r != kind ==> r == "router"
  {
    if kind == "router" || kind == "device" || kind == "other" then kind else "router"
  }

  function OwnPeer(acc: Acc, p: string, d: Decision, pubKey: Bytes): Acc {
    var id := acc.db.nextNode;
    acc.(db := acc.db.(nodes := acc.db.nodes[id := Node(Trim(d.nodeName), NodeKind(d.nodeKind), "network_node")],
                       nextNode := id + 1,
                       owners := acc.db.owners[PeerKey(p, d.peerId) := id],
                       categories := acc.db.categories[PeerKey(p, pubKey) := "site"]),
         sum := acc.sum.(nodesCreated := acc.sum.nodesCreated + 1))
  }

  // The subnets and mesh links of a decision whose peer is owned by node `owner`.
  function Enrich(acc: Acc, p: string, d: Decision, owner: int, canon: Canon): Acc {
    var g := EnsureProviderGroup(acc.db, p);
    if |d.subnets| > 0 && g.None? then acc.(failed := true)
    else
      var acc1 := if |d.subnets| > 0 then acc.(db := g.value.0) else acc;
      var acc2 := SubnetAll(acc1, p, owner, if |d.subnets| > 0 then Some(g.value.1) else None, d.subnets, canon);
      if acc2.failed then acc2 else MeshAll(acc2, p, d.meshWith)
  }

  // A decision whose peer id decodes to `pubKey`.
  function Decide(acc: Acc, p: string, d: Decision, pubKey: Bytes, canon: Canon): Acc {
    var key := PeerKey(p, d.peerId);
    match d.action
    case Skip =>
      acc.(db := acc.db.(dismissed := acc.db.dismissed + {key}), sum := acc.sum.(skipped := acc.sum.skipped + 1))
    case Undismiss =>
      acc.(db := acc.db.(dismissed := acc.db.dismissed - {key}),
           sum := acc.sum.(undismissed := acc.sum.undismissed + 1))
    case CreateNode =>
      if key in acc.db.owners then
        Enrich(acc.(sum := acc.sum.(alreadyHandled := acc.sum.alreadyHandled + 1)), p, d, acc.db.owners[key], canon)
      else if Trim(d.nodeName) == "" then acc
      else Enrich(OwnPeer(acc, p, d, pubKey), p, d, acc.db.nextNode, canon)
    case OtherAction(_) => acc
  }

  function ApplyOne(acc: Acc, p: string, d: Decision, canon: Canon): Acc {
    var pubKey := PeerId.DecodePeerId(d.peerId);
    if acc.failed || pubKey.None? then acc else Decide(acc, p, d, pubKey.value, canon)
  }

  function Begin(db: Db): Acc {
    Acc(db, Cidrs(db), {}, Summary(0, 0, 0, 0, 0, 0, 0), false)
  }

  function ApplyAll(acc: Acc, p: string, ds: seq<Decision>, canon: Canon): Acc {
    if ds == [] then acc else ApplyOne(ApplyAll(acc, p, ds[..|ds| - 1], canon), p, ds[|ds| - 1], canon)
  }

  function Apply(db: Db, p: string, ds: seq<Decision>, canon: Canon): Acc {
    ApplyAll(Begin(db), p, ds, canon)
  }

  // ---------------------------------------------------------------- growth

  ghost predicate Submap<K, V>(a: map<K, V>, b: map<K, V>) {
    forall k | k in a :: k in b && b[k] == a[k]
  }

  predicate SettingsGrow(s: Settings, t: Settings) {
    && (s.meshEnabled ==> t.meshEnabled) && (s.group.Some? ==> t.group == s.group)
    && t.internetEgress == s.internetEgress && t.rangeStart == s.rangeStart && t.rangeEnd == s.rangeEnd
  }

  /** What an apply may do to the tables other than dismissals: add nodes with an owner each, add subnets,
      add groups, give a group to a provider without one, switch a mesh flag on. */
  ghost predicate Grows(a: Db, b: Db) {
    && Submap(a.nodes, b.nodes) && a.nextNode <= b.nextNode
    && Submap(a.owners, b.owners)
    && (a.owners == b.owners ==> a.categories == b.categories)
    && a.subnets <= b.subnets
    && Submap(a.groups, b.groups) && a.nextGroup <= b.nextGroup
    && (forall p :: SettingsGrow(SettingsOf(a, p), SettingsOf(b, p)))
  }

  /** Serial ids not yet handed out, one group per name, and one row per network. */
  ghost predicate Sound(db: Db) {
    && (forall a, b | a in db.groups && b in db.groups && db.groups[a] == db.groups[b] :: a == b)
    && (forall id | id in db.nodes :: id < db.nextNode)
    && (forall id | id in db.groups :: id < db.nextGroup)
    && (forall i, j | 0 <= i < j < |db.subnets| :: db.subnets[i].cidr != db.subnets[j].cidr)
  }

  /** Growth, with every new row accounted for by the summary: one node per newly owned peer, and so on. */
  ghost predicate Progress(acc: Acc, acc': Acc) {
    && Grows(acc.db, acc'.db) && Sound(acc'.db)
    && |acc'.db.nodes| - |acc.db.nodes| == acc'.sum.nodesCreated - acc.sum.nodesCreated
    && |acc'.db.owners| - |acc.db.owners| == acc'.sum.nodesCreated - acc.sum.nodesCreated
    && |acc'.db.subnets| - |acc.db.subnets| == acc'.sum.subnetsCreated - acc.sum.subnetsCreated
    && acc.sum.groupErrors <= acc'.sum.groupErrors
    && acc.meshDone <= acc'.meshDone
    && (acc.failed ==> acc'.failed)
  }

  lemma SettingsGrowTransitively(a: Db, b: Db, c: Db)
    requires (forall p :: SettingsGrow(SettingsOf(a, p), SettingsOf(b, p)))
    requires (forall p :: SettingsGrow(SettingsOf(b, p), SettingsOf(c, p)))
    ensures forall p :: SettingsGrow(SettingsOf(a, p), SettingsOf(c, p))
  {
    forall p ensures SettingsGrow(SettingsOf(a, p), SettingsOf(c, p)) {
      assert SettingsGrow(SettingsOf(a, p), SettingsOf(b, p)) && SettingsGrow(SettingsOf(b, p), SettingsOf(c, p));
    }
  }

  lemma GrowsTransitively(a: Db, b: Db, c: Db)
    requires Grows(a, b) && Grows(b, c)
    ensures Grows(a, c)
  {
    SettingsGrowTransitively(a, b, c);
    if a.owners == c.owners { assert a.owners == b.owners; }
  }

  lemma ProgressTransitively(a: Acc, b: Acc, c: Acc)
    requires Progress(a, b) && Progress(b, c)
    ensures Progress(a, c)
  {
    GrowsTransitively(a.db, b.db, c.db);
  }

  lemma {:induction false} FreeAutoIsLeast(names: set<GroupName>, n: nat, attempts: nat)
    ensures var k := FreeAuto(names, n, attempts);
            if k.Some? then
              n <= k.value < n + attempts && Auto(k.value) !in names && forall i | n <= i < k.value :: Auto(i) in names
            else forall i | n <= i < n + attempts :: Auto(i) in names
    decreases attempts
  {
    if attempts > 0 && Auto(n) in names { FreeAutoIsLeast(names, n + 1, attempts - 1); }
  }

  // The number is free, and the first that is after the number of groups.
  predicate NextNumber(db: Db, k: nat) {
    |db.groups| < k && Auto(k) !in db.groups.Values && forall i | |db.groups| < i < k :: Auto(i) in db.groups.Values
  }

  /** A new group is named with the first free number after the number of groups; none is made exactly if the next
      twenty are taken. */
  lemma NextNameExactly(db: Db)
    ensures var made := CreateNextAutoNamedGroup(db);
            && (made.None? <==> forall i | |db.groups| < i <= |db.groups| + 20 :: Auto(i) in db.groups.Values)
            && (made.Some? ==>
                  var (db', id) := made.value;
                  && id == db.nextGroup && db' == db.(groups := db'.groups, nextGroup := id + 1)
                  && exists k :: NextNumber(db, k) && db'.groups == db.groups[id := Auto(k)])
  {
    FreeAutoIsLeast(db.groups.Values, |db.groups| + 1, NAME_ATTEMPTS);
    var k := FreeAuto(db.groups.Values, |db.groups| + 1, NAME_ATTEMPTS);
    if k.Some? { assert NextNumber(db, k.value); }
  }

  lemma GroupGrows(db: Db)
    requires Sound(db) && CreateNextAutoNamedGroup(db).Some?
    ensures var (db', g) := CreateNextAutoNamedGroup(db).value;
            Grows(db, db') && Sound(db') && g in db'.groups && g !in db.groups
            && db'.settings == db.settings && db'.subnets == db.subnets && db'.owners == db.owners
            && db'.nodes == db.nodes
  {
    NextNameExactly(db);
    assert forall id | id in db.groups :: db.groups[id] in db.groups.Values;
  }

  lemma SetGroupGrows(db: Db, p: string, g: Option<int>)
    requires SettingsOf(db, p).group.None?
    ensures Grows(db, SetGroup(db, p, g)) && SettingsOf(SetGroup(db, p, g), p).group == g
  {
  }

  lemma EnsureGrows(db: Db, p: string)
    requires Sound(db) && EnsureProviderGroup(db, p).Some?
    ensures var db' := EnsureProviderGroup(db, p).value.0;
            Grows(db, db') && Sound(db') && db'.subnets == db.subnets && db'.owners == db.owners
            && db'.nodes == db.nodes
            && SettingsOf(db', p).group.Some?
  {
    if SettingsOf(db, p).group.None? {
      var (db1, g) := CreateNextAutoNamedGroup(db).value;
      GroupGrows(db);
      SetGroupGrows(db1, p, Some(g));
      GrowsTransitively(db, db1, SetGroup(db1, p, Some(g)));
    }
  }

  lemma NewGroupGrows(db: Db, a: string, b: string)
    requires Sound(db) && SettingsOf(db, a).group.None? && SettingsOf(db, b).group.None?
    requires CreateNextAutoNamedGroup(db).Some?
    ensures var (db1, g) := CreateNextAutoNamedGroup(db).value;
            var db' := SetGroup(SetGroup(db1, a, Some(g)), b, Some(g));
            && Grows(db, db') && db' == db.(settings := db'.settings, groups := db1.groups, nextGroup := db1.nextGroup)
            && SettingsOf(db', a).group == Some(g) == SettingsOf(db', b).group && Sound(db')
  {
    GroupGrows(db);
  }

  lemma ReconcileGrows(db: Db, a: string, b: string)
    requires Sound(db) && ReconcileMeshGroups(db, a, b).Some?
    ensures var db' := ReconcileMeshGroups(db, a, b).value;
            Grows(db, db') && Sound(db') && db'.subnets == db.subnets && db'.owners == db.owners
            && db'.nodes == db.nodes
            && SettingsOf(db', a).group.Some? && SettingsOf(db', b).group.Some?
  {
    var ga, gb := SettingsOf(db, a).group, SettingsOf(db, b).group;
    if ga.None? && gb.None? {
      NewGroupGrows(db, a, b);
    } else if ga.None? {
      SetGroupGrows(db, a, gb);
    } else if gb.None? {
      SetGroupGrows(db, b, ga);
    }
  }

  lemma MeshFlagGrows(db: Db, p: string)
    ensures Grows(db, SetMesh(db, p)) && SettingsOf(SetMesh(db, p), p).meshEnabled
  {
  }

  /** Both sides of a pair are on and grouped. */
  predicate Linked(db: Db, a: string, b: string) {
    && SettingsOf(db, a).meshEnabled && SettingsOf(db, b).meshEnabled
    && SettingsOf(db, a).group.Some? && SettingsOf(db, b).group.Some?
  }

  lemma FlagsGrow(db: Db, a: string, b: string)
    ensures var f := SetMesh(SetMesh(db, a), b);
            && Grows(db, f) && f == db.(settings := f.settings)
            && SettingsOf(f, a) == SettingsOf(db, a).(meshEnabled := true)
            && SettingsOf(f, b) == SettingsOf(db, b).(meshEnabled := true)
  {
    var f := SetMesh(db, a);
    MeshFlagGrows(db, a);
    MeshFlagGrows(f, b);
    GrowsTransitively(db, f, SetMesh(f, b));
  }

  lemma EnablePairGrows(db: Db, a: string, b: string)
    requires Sound(db)
    ensures var (db', reconciled) := EnableMeshPair(db, a, b);
            Grows(db, db') && Sound(db') && db'.subnets == db.subnets && db'.owners == db.owners
            && db'.nodes == db.nodes
            && (reconciled ==> Linked(db', a, b))
  {
    var r := ReconcileMeshGroups(db, a, b);
    var db1 := if r.Some? then r.value else db;
    if r.Some? { ReconcileGrows(db, a, b); }
    FlagsGrow(db1, a, b);
    assert Grows(db, EnableMeshPair(db, a, b).0) by { GrowsTransitively(db, db1, EnableMeshPair(db, a, b).0); }
  }

  lemma MeshOneProgress(acc: Acc, p: string, sib: string)
    requires Sound(acc.db)
    ensures Progress(acc, MeshOne(acc, p, sib))
  {
    EnablePairGrows(acc.db, p, sib);
  }

  lemma {:induction false} MeshProgress(acc: Acc, p: string, sibs: seq<string>)
    requires Sound(acc.db)
    ensures Progress(acc, MeshAll(acc, p, sibs))
  {
    if sibs != [] {
      var acc1 := MeshAll(acc, p, sibs[..|sibs| - 1]);
      MeshProgress(acc, p, sibs[..|sibs| - 1]);
      assert Progress(acc1, MeshAll(acc, p, sibs)) by { MeshOneProgress(acc1, p, sibs[|sibs| - 1]); }
      ProgressTransitively(acc, acc1, MeshAll(acc, p, sibs));
    }
  }

  lemma SubnetProgress(acc: Acc, p: string, owner: int, g: Option<int>, sn: NewSubnet, canon: Canon)
    requires Sound(acc.db)
    ensures Progress(acc, SubnetOne(acc, p, owner, g, sn, canon))
  {
  }

  lemma {:induction false} SubnetsProgress(acc: Acc, p: string, owner: int, g: Option<int>, sns: seq<NewSubnet>,
                                           canon: Canon)
    requires Sound(acc.db)
    ensures Progress(acc, SubnetAll(acc, p, owner, g, sns, canon))
  {
    if sns != [] {
      var acc1 := SubnetAll(acc, p, owner, g, sns[..|sns| - 1], canon);
      SubnetsProgress(acc, p, owner, g, sns[..|sns| - 1], canon);
      SubnetProgress(acc1, p, owner, g, sns[|sns| - 1], canon);
      ProgressTransitively(acc, acc1, SubnetAll(acc, p, owner, g, sns, canon));
    }
  }

  lemma EnrichProgress(acc: Acc, p: string, d: Decision, owner: int, canon: Canon)
    requires Sound(acc.db)
    ensures Progress(acc, Enrich(acc, p, d, owner, canon))
  {
    var g := EnsureProviderGroup(acc.db, p);
    if |d.subnets| == 0 || g.Some? {
      if |d.subnets| > 0 { EnsureGrows(acc.db, p); }
      var acc1 := if |d.subnets| > 0 then acc.(db := g.value.0) else acc;
      var gid := if |d.subnets| > 0 then Some(g.value.1) else None;
      var acc2 := SubnetAll(acc1, p, owner, gid, d.subnets, canon);
      SubnetsProgress(acc1, p, owner, gid, d.subnets, canon);
      ProgressTransitively(acc, acc1, acc2);
      if !acc2.failed {
        MeshProgress(acc2, p, d.meshWith);
        ProgressTransitively(acc, acc2, MeshAll(acc2, p, d.meshWith));
      }
    }
  }

  lemma OwnPeerProgress(acc: Acc, p: string, d: Decision, pubKey: Bytes)
    requires Sound(acc.db) && PeerKey(p, d.peerId) !in acc.db.owners
    ensures Progress(acc, OwnPeer(acc, p, d, pubKey))
  {
    assert acc.db.nextNode !in acc.db.nodes;
  }

  lemma BookkeepingProgress(acc: Acc, acc': Acc)
    requires Sound(acc.db) && acc'.db == acc.db.(dismissed := acc'.db.dismissed)
    requires acc'.meshDone == acc.meshDone && acc'.failed == acc.failed
    requires acc'.sum.nodesCreated == acc.sum.nodesCreated && acc'.sum.subnetsCreated == acc.sum.subnetsCreated
    requires acc'.sum.groupErrors == acc.sum.groupErrors
    ensures Progress(acc, acc')
  {
  }

  // A decision that is not for a node touches dismissals alone.
  lemma OnlyDismisses(acc: Acc, p: string, d: Decision, pubKey: Bytes, canon: Canon)
    requires !d.action.CreateNode?
    ensures var r := Decide(acc, p, d, pubKey, canon);
            && r.db == acc.db.(dismissed := r.db.dismissed) && r.existing == acc.existing && r.meshDone == acc.meshDone
            && r.failed == acc.failed && r.sum.groupErrors == acc.sum.groupErrors
  {
  }

  lemma CreateProgress(acc: Acc, acc1: Acc, p: string, d: Decision, owner: int, canon: Canon)
    requires Progress(acc, acc1)
    ensures Progress(acc, Enrich(acc1, p, d, owner, canon))
  {
    EnrichProgress(acc1, p, d, owner, canon);
    ProgressTransitively(acc, acc1, Enrich(acc1, p, d, owner, canon));
  }

  lemma OwnerProgress(acc: Acc, p: string, d: Decision, pubKey: Bytes, canon: Canon)
    requires Sound(acc.db) && PeerKey(p, d.peerId) !in acc.db.owners
    ensures Progress(acc, Enrich(OwnPeer(acc, p, d, pubKey), p, d, acc.db.nextNode, canon))
  {
    OwnPeerProgress(acc, p, d, pubKey);
    CreateProgress(acc, OwnPeer(acc, p, d, pubKey), p, d, acc.db.nextNode, canon);
  }

  lemma DecideProgress(acc: Acc, p: string, d: Decision, pubKey: Bytes, canon: Canon)
    requires Sound(acc.db)
    ensures Progress(acc, Decide(acc, p, d, pubKey, canon))
  {
    var key := PeerKey(p, d.peerId);
    if !d.action.CreateNode? || (key !in acc.db.owners && Trim(d.nodeName) == "") {
      BookkeepingProgress(acc, Decide(acc, p, d, pubKey, canon));
    } else if key in acc.db.owners {
      var acc1 := acc.(sum := acc.sum.(alreadyHandled := acc.sum.alreadyHandled + 1));
      BookkeepingProgress(acc, acc1);
      CreateProgress(acc, acc1, p, d, acc.db.owners[key], canon);
    } else {
      OwnerProgress(acc, p, d, pubKey, canon);
    }
  }

  lemma OneProgress(acc: Acc, p: string, d: Decision, canon: Canon)
    requires Sound(acc.db)
    ensures Progress(acc, ApplyOne(acc, p, d, canon))
  {
    var pubKey := PeerId.DecodePeerId(d.peerId);
    if !acc.failed && pubKey.Some? { DecideProgress(acc, p, d, pubKey.value, canon); }
  }

  /** Every apply, whatever the batch and even when it aborts: nothing owned, catalogued or grouped is lost
      or reassigned, networks stay unique, and the summary counts exactly the new rows. */
  lemma {:induction false} ApplyProgress(acc: Acc, p: string, ds: seq<Decision>, canon: Canon)
    requires Sound(acc.db)
    ensures Progress(acc, ApplyAll(acc, p, ds, canon))
  {
    if ds != [] {
      var acc1 := ApplyAll(acc, p, ds[..|ds| - 1], canon);
      ApplyProgress(acc, p, ds[..|ds| - 1], canon);
      OneProgress(acc1, p, ds[|ds| - 1], canon);
      ProgressTransitively(acc, acc1, ApplyAll(acc, p, ds, canon));
    }
  }

  // ---------------------------------------------------------------- when a batch has nothing left to do

  predicate Canonical(d: Decision, canon: Canon) {
    forall sn | sn in d.subnets :: Trim(sn.cidr) == "" || canon(Trim(sn.cidr)) == Some(Trim(sn.cidr))
  }

  predicate AllCanonical(ds: seq<Decision>, canon: Canon) {
    forall d | d in ds :: Canonical(d, canon)
  }

  /** The decision creates or extends a node: it is not skipped for want of a name. */
  predicate Acts(db: Db, p: string, d: Decision) {
    d.action.CreateNode? && PeerId.DecodePeerId(d.peerId).Some?
    && (PeerKey(p, d.peerId) in db.owners || Trim(d.nodeName) != "")
  }

  function DoneAfter(done: set<string>, p: string, sibs: seq<string>): set<string> {
    done + set sib | sib in sibs :: MeshPairKey(p, sib)
  }

  predicate QuietSibs(db: Db, done: set<string>, p: string, sibs: seq<string>) {
    sibs == [] ||
    (var init, sib := sibs[..|sibs| - 1], sibs[|sibs| - 1];
     QuietSibs(db, done, p, init) && (MeshPairKey(p, sib) in DoneAfter(done, p, init) || Linked(db, p, sib)))
  }

  /** Everything the acting decision asks for is there: the owner, the group, the networks, the links
      (`done`: pair keys an earlier decision of the batch already took). */
  predicate QuietOne(db: Db, p: string, d: Decision, done: set<string>) {
    Acts(db, p, d) ==>
      && PeerKey(p, d.peerId) in db.owners
      && (|d.subnets| > 0 ==> SettingsOf(db, p).group.Some?)
      && (forall sn | sn in d.subnets :: Trim(sn.cidr) == "" || Trim(sn.cidr) in Cidrs(db))
      && QuietSibs(db, done, p, d.meshWith)
  }

  function DoneAll(db: Db, p: string, ds: seq<Decision>): set<string> {
    if ds == [] then {} else
      var done := DoneAll(db, p, ds[..|ds| - 1]);
      if Acts(db, p, ds[|ds| - 1]) then DoneAfter(done, p, ds[|ds| - 1].meshWith) else done
  }

  predicate QuietAll(db: Db, p: string, ds: seq<Decision>) {
    ds == [] ||
    (QuietAll(db, p, ds[..|ds| - 1]) && QuietOne(db, p, ds[|ds| - 1], DoneAll(db, p, ds[..|ds| - 1])))
  }

  // ---- a quiet batch changes nothing

  lemma LinkedPairIsNoop(db: Db, a: string, b: string)
    requires Linked(db, a, b)
    ensures EnableMeshPair(db, a, b) == (db, true)
  {
  }

  lemma DoneAfterOneMore(done: set<string>, p: string, init: seq<string>, sib: string)
    ensures DoneAfter(done, p, init + [sib]) == DoneAfter(done, p, init) + {MeshPairKey(p, sib)}
  {
  }

  lemma {:induction false} QuietMesh(acc: Acc, p: string, sibs: seq<string>)
    requires QuietSibs(acc.db, acc.meshDone, p, sibs)
    ensures var r := MeshAll(acc, p, sibs);
            && r.db == acc.db && r.existing == acc.existing && r.failed == acc.failed
            && r.sum.groupErrors == acc.sum.groupErrors
            && r.sum.nodesCreated == acc.sum.nodesCreated && r.sum.subnetsCreated == acc.sum.subnetsCreated
            && r.meshDone == DoneAfter(acc.meshDone, p, sibs)
  {
    if sibs != [] {
      var init, sib := sibs[..|sibs| - 1], sibs[|sibs| - 1];
      QuietMesh(acc, p, init);
      assert sibs == init + [sib];
      DoneAfterOneMore(acc.meshDone, p, init, sib);
      if MeshPairKey(p, sib) !in DoneAfter(acc.meshDone, p, init) { LinkedPairIsNoop(acc.db, p, sib); }
    }
  }

  lemma {:induction false} QuietSubnets(acc: Acc, p: string, owner: int, g: Option<int>, sns: seq<NewSubnet>,
                                        canon: Canon)
    requires forall sn | sn in sns :: Trim(sn.cidr) == "" || Trim(sn.cidr) in acc.existing
    ensures SubnetAll(acc, p, owner, g, sns, canon) == acc
  {
    if sns != [] {
      assert forall sn | sn in sns[..|sns| - 1] :: sn in sns;
      QuietSubnets(acc, p, owner, g, sns[..|sns| - 1], canon);
      assert sns[|sns| - 1] in sns;
    }
  }

  lemma QuietEnrich(acc: Acc, p: string, d: Decision, owner: int, canon: Canon)
    requires !acc.failed && acc.existing == Cidrs(acc.db)
    requires |d.subnets| > 0 ==> SettingsOf(acc.db, p).group.Some?
    requires forall sn | sn in d.subnets :: Trim(sn.cidr) == "" || Trim(sn.cidr) in Cidrs(acc.db)
    requires QuietSibs(acc.db, acc.meshDone, p, d.meshWith)
    ensures var r := Enrich(acc, p, d, owner, canon);
            && r.db == acc.db && r.existing == acc.existing && !r.failed
            && r.sum.groupErrors == acc.sum.groupErrors
            && r.sum.nodesCreated == acc.sum.nodesCreated && r.sum.subnetsCreated == acc.sum.subnetsCreated
            && r.meshDone == DoneAfter(acc.meshDone, p, d.meshWith)
  {
    var g := EnsureProviderGroup(acc.db, p);
    QuietSubnets(acc, p, owner, if |d.subnets| > 0 then Some(g.value.1) else None, d.subnets, canon);
    QuietMesh(acc, p, d.meshWith);
  }

  /** The state of an apply that has changed nothing but dismissals. */
  ghost predicate Untouched(db: Db, acc: Acc, p: string, ds: seq<Decision>) {
    && acc.db == db.(dismissed := acc.db.dismissed) && !acc.failed
    && acc.existing == Cidrs(db) && acc.meshDone == DoneAll(db, p, ds)
    && acc.sum.groupErrors == 0 && acc.sum.nodesCreated == 0 && acc.sum.subnetsCreated == 0
  }

  lemma {:induction false} QuietSibsIgnoreDismissals(db: Db, db': Db, done: set<string>, p: string, sibs: seq<string>)
    requires db' == db.(dismissed := db'.dismissed)
    ensures QuietSibs(db', done, p, sibs) == QuietSibs(db, done, p, sibs)
  {
    if sibs != [] { QuietSibsIgnoreDismissals(db, db', done, p, sibs[..|sibs| - 1]); }
  }

  lemma QuietDecide(acc: Acc, p: string, d: Decision, pubKey: Bytes, canon: Canon)
    requires !acc.failed && acc.existing == Cidrs(acc.db)
    requires d.action.CreateNode? ==>
               if PeerKey(p, d.peerId) in acc.db.owners then
                 && (|d.subnets| > 0 ==> SettingsOf(acc.db, p).group.Some?)
                 && (forall sn | sn in d.subnets :: Trim(sn.cidr) == "" || Trim(sn.cidr) in Cidrs(acc.db))
                 && QuietSibs(acc.db, acc.meshDone, p, d.meshWith)
               else Trim(d.nodeName) == ""
    ensures var r := Decide(acc, p, d, pubKey, canon);
            && r.db == acc.db.(dismissed := r.db.dismissed) && r.existing == acc.existing && !r.failed
            && r.sum.groupErrors == acc.sum.groupErrors
            && r.sum.nodesCreated == acc.sum.nodesCreated && r.sum.subnetsCreated == acc.sum.subnetsCreated
            && r.meshDone == (if d.action.CreateNode? && PeerKey(p, d.peerId) in acc.db.owners
                              then DoneAfter(acc.meshDone, p, d.meshWith) else acc.meshDone)
  {
    if d.action.CreateNode? && PeerKey(p, d.peerId) in acc.db.owners {
      var acc1 := acc.(sum := acc.sum.(alreadyHandled := acc.sum.alreadyHandled + 1));
      QuietEnrich(acc1, p, d, acc.db.owners[PeerKey(p, d.peerId)], canon);
    }
  }

  lemma QuietStep(db: Db, acc: Acc, p: string, ds: seq<Decision>, canon: Canon)
    requires ds != [] && Untouched(db, acc, p, ds[..|ds| - 1])
    requires QuietOne(db, p, ds[|ds| - 1], DoneAll(db, p, ds[..|ds| - 1]))
    ensures Untouched(db, ApplyOne(acc, p, ds[|ds| - 1], canon), p, ds)
  {
    var d := ds[|ds| - 1];
    var pubKey := PeerId.DecodePeerId(d.peerId);
    if pubKey.Some? {
      QuietSibsIgnoreDismissals(db, acc.db, acc.meshDone, p, d.meshWith);
      assert Cidrs(acc.db) == Cidrs(db);
      QuietDecide(acc, p, d, pubKey.value, canon);
    }
  }

  lemma {:induction false} QuietChangesNothing(db: Db, p: string, ds: seq<Decision>, canon: Canon)
    requires QuietAll(db, p, ds)
    ensures Untouched(db, Apply(db, p, ds, canon), p, ds)
  {
    if ds != [] {
      QuietChangesNothing(db, p, ds[..|ds| - 1], canon);
      QuietStep(db, Apply(db, p, ds[..|ds| - 1], canon), p, ds, canon);
    }
  }

  // ---- an apply leaves its own decisions quiet

  lemma {:induction false} QuietSibsGrow(db: Db, db': Db, done: set<string>, p: string, sibs: seq<string>)
    requires Grows(db, db') && QuietSibs(db, done, p, sibs)
    ensures QuietSibs(db', done, p, sibs)
  {
    if sibs != [] {
      var sib := sibs[|sibs| - 1];
      QuietSibsGrow(db, db', done, p, sibs[..|sibs| - 1]);
      assert SettingsGrow(SettingsOf(db, p), SettingsOf(db', p))
             && SettingsGrow(SettingsOf(db, sib), SettingsOf(db', sib));
    }
  }

  lemma MeshOneLinks(acc: Acc, p: string, sib: string)
    requires Sound(acc.db)
    ensures var r := MeshOne(acc, p, sib);
            && Grows(acc.db, r.db) && Sound(r.db) && r.meshDone == acc.meshDone + {MeshPairKey(p, sib)}
            && r.existing == acc.existing && r.db.subnets == acc.db.subnets && r.db.owners == acc.db.owners
            && r.failed == acc.failed && acc.sum.groupErrors <= r.sum.groupErrors
            && (r.sum.groupErrors == acc.sum.groupErrors ==>
                  MeshPairKey(p, sib) in acc.meshDone || Linked(r.db, p, sib))
  {
    EnablePairGrows(acc.db, p, sib);
  }

  lemma QuietSibsOneMore(db: Db, db': Db, done: set<string>, p: string, init: seq<string>, sib: string)
    requires QuietSibs(db, done, p, init) && Grows(db, db')
    requires MeshPairKey(p, sib) !in DoneAfter(done, p, init) ==> Linked(db', p, sib)
    ensures QuietSibs(db', done, p, init + [sib])
  {
    QuietSibsGrow(db, db', done, p, init);
    assert (init + [sib])[..|init|] == init;
  }

  /** The mesh links asked for are in place; nothing but settings and groups changed. */
  ghost predicate LinksLeft(acc: Acc, r: Acc, p: string, sibs: seq<string>) {
    && QuietSibs(r.db, acc.meshDone, p, sibs) && r.meshDone == DoneAfter(acc.meshDone, p, sibs)
    && r.existing == acc.existing && r.db.subnets == acc.db.subnets && r.db.owners == acc.db.owners
    && r.failed == acc.failed
  }

  lemma LinksLeftOneMore(acc: Acc, acc1: Acc, r: Acc, p: string, init: seq<string>, sib: string)
    requires LinksLeft(acc, acc1, p, init) && Grows(acc1.db, r.db)
    requires r.meshDone == acc1.meshDone + {MeshPairKey(p, sib)} && r.failed == acc1.failed
    requires r.existing == acc1.existing && r.db.subnets == acc1.db.subnets && r.db.owners == acc1.db.owners
    requires MeshPairKey(p, sib) !in acc1.meshDone ==> Linked(r.db, p, sib)
    ensures LinksLeft(acc, r, p, init + [sib])
  {
    DoneAfterOneMore(acc.meshDone, p, init, sib);
    QuietSibsOneMore(acc1.db, r.db, acc.meshDone, p, init, sib);
  }

  lemma {:induction false} MeshLeavesLinked(acc: Acc, p: string, sibs: seq<string>)
    requires Sound(acc.db)
    ensures var r := MeshAll(acc, p, sibs);
            Sound(r.db) && acc.sum.groupErrors <= r.sum.groupErrors
            && (r.sum.groupErrors == acc.sum.groupErrors ==> LinksLeft(acc, r, p, sibs))
  {
    if sibs == [] {
      assert DoneAfter(acc.meshDone, p, sibs) == acc.meshDone;
    } else {
      var init, sib := sibs[..|sibs| - 1], sibs[|sibs| - 1];
      assert sibs == init + [sib];
      var acc1 := MeshAll(acc, p, init);
      MeshLeavesLinked(acc, p, init);
      var r := MeshOne(acc1, p, sib);
      assert r == MeshAll(acc, p, sibs);
      assert Sound(r.db) && acc1.sum.groupErrors <= r.sum.groupErrors by { MeshOneLinks(acc1, p, sib); }
      if r.sum.groupErrors == acc.sum.groupErrors {
        assert LinksLeft(acc, r, p, init + [sib]) by {
          MeshOneLinks(acc1, p, sib);
          LinksLeftOneMore(acc, acc1, r, p, init, sib);
        }
      }
    }
  }

  lemma {:induction false} SubnetsLeaveCatalogued(acc: Acc, p: string, owner: int, g: Option<int>,
                                                  sns: seq<NewSubnet>, canon: Canon)
    requires acc.existing == Cidrs(acc.db) && !SubnetAll(acc, p, owner, g, sns, canon).failed
    requires forall sn | sn in sns :: Trim(sn.cidr) == "" || canon(Trim(sn.cidr)) == Some(Trim(sn.cidr))
    ensures var r := SubnetAll(acc, p, owner, g, sns, canon);
            && r.existing == Cidrs(r.db) && acc.existing <= r.existing
            && (forall sn | sn in sns :: Trim(sn.cidr) == "" || Trim(sn.cidr) in Cidrs(r.db))
            && r.meshDone == acc.meshDone && r.sum.groupErrors == acc.sum.groupErrors && r.db.owners == acc.db.owners
            && r.db.settings == acc.db.settings && !acc.failed
  {
    if sns != [] {
      var init, sn := sns[..|sns| - 1], sns[|sns| - 1];
      assert sns == init + [sn];
      var acc1 := SubnetAll(acc, p, owner, g, init, canon);
      SubnetsLeaveCatalogued(acc, p, owner, g, init, canon);
      var r := SubnetOne(acc1, p, owner, g, sn, canon);
      if r != acc1 {
        assert r.db.subnets[|acc1.db.subnets|] in r.db.subnets;
        assert Cidrs(r.db) == Cidrs(acc1.db) + {Trim(sn.cidr)};
      }
    }
  }

  lemma EnrichLeavesQuiet(acc: Acc, p: string, d: Decision, owner: int, canon: Canon)
    requires Sound(acc.db) && acc.existing == Cidrs(acc.db) && Canonical(d, canon) && !acc.failed
    requires !Enrich(acc, p, d, owner, canon).failed
    requires Enrich(acc, p, d, owner, canon).sum.groupErrors == acc.sum.groupErrors
    ensures var r := Enrich(acc, p, d, owner, canon);
            && (|d.subnets| > 0 ==> SettingsOf(r.db, p).group.Some?)
            && (forall sn | sn in d.subnets :: Trim(sn.cidr) == "" || Trim(sn.cidr) in Cidrs(r.db))
            && QuietSibs(r.db, acc.meshDone, p, d.meshWith) && r.meshDone == DoneAfter(acc.meshDone, p, d.meshWith)
            && r.existing == Cidrs(r.db) && r.db.owners == acc.db.owners
  {
    var g := EnsureProviderGroup(acc.db, p);
    if |d.subnets| > 0 { EnsureGrows(acc.db, p); }
    var acc1 := if |d.subnets| > 0 then acc.(db := g.value.0) else acc;
    var gid := if |d.subnets| > 0 then Some(g.value.1) else None;
    assert Cidrs(acc1.db) == Cidrs(acc.db);
    SubnetsProgress(acc1, p, owner, gid, d.subnets, canon);
    SubnetsLeaveCatalogued(acc1, p, owner, gid, d.subnets, canon);
    var acc2 := SubnetAll(acc1, p, owner, gid, d.subnets, canon);
    MeshProgress(acc2, p, d.meshWith);
    MeshLeavesLinked(acc2, p, d.meshWith);
    var r := MeshAll(acc2, p, d.meshWith);
    assert SettingsGrow(SettingsOf(acc2.db, p), SettingsOf(r.db, p));
    assert Cidrs(r.db) == Cidrs(acc2.db);
  }

  // What an acting decision leaves: its peer owned, its networks, group and links in place.
  predicate LeftQuiet(acc: Acc, r: Acc, p: string, d: Decision) {
    && r.existing == Cidrs(r.db) && r.db.owners.Keys == acc.db.owners.Keys + {PeerKey(p, d.peerId)}
    && (|d.subnets| > 0 ==> SettingsOf(r.db, p).group.Some?)
    && (forall sn | sn in d.subnets :: Trim(sn.cidr) == "" || Trim(sn.cidr) in Cidrs(r.db))
    && QuietSibs(r.db, acc.meshDone, p, d.meshWith) && r.meshDone == DoneAfter(acc.meshDone, p, d.meshWith)
  }

  lemma NewOwnerLeavesQuiet(acc: Acc, p: string, d: Decision, pubKey: Bytes, canon: Canon)
    requires Sound(acc.db) && acc.existing == Cidrs(acc.db) && Canonical(d, canon) && !acc.failed
    requires PeerKey(p, d.peerId) !in acc.db.owners
    requires var r := Enrich(OwnPeer(acc, p, d, pubKey), p, d, acc.db.nextNode, canon);
             !r.failed && r.sum.groupErrors == acc.sum.groupErrors
    ensures LeftQuiet(acc, Enrich(OwnPeer(acc, p, d, pubKey), p, d, acc.db.nextNode, canon), p, d)
  {
    var acc1 := OwnPeer(acc, p, d, pubKey);
    assert Sound(acc1.db) by { OwnPeerProgress(acc, p, d, pubKey); }
    assert Cidrs(acc1.db) == Cidrs(acc.db);
    EnrichLeavesQuiet(acc1, p, d, acc.db.nextNode, canon);
  }

  /** An acting decision leaves its peer owned and itself quiet; others leave the tables alone. */
  lemma DecideLeavesQuiet(acc: Acc, p: string, d: Decision, pubKey: Bytes, canon: Canon)
    requires Sound(acc.db) && acc.existing == Cidrs(acc.db) && Canonical(d, canon) && !acc.failed
    requires !Decide(acc, p, d, pubKey, canon).failed
    requires Decide(acc, p, d, pubKey, canon).sum.groupErrors == acc.sum.groupErrors
    ensures var r := Decide(acc, p, d, pubKey, canon);
            var key := PeerKey(p, d.peerId);
            && r.existing == Cidrs(r.db)
            && (if d.action.CreateNode? && (key in acc.db.owners || Trim(d.nodeName) != "") then LeftQuiet(acc, r, p, d)
                else r.db == acc.db.(dismissed := r.db.dismissed) && r.meshDone == acc.meshDone)
  {
    var key := PeerKey(p, d.peerId);
    if d.action.CreateNode? && key in acc.db.owners {
      var acc1 := acc.(sum := acc.sum.(alreadyHandled := acc.sum.alreadyHandled + 1));
      assert Decide(acc, p, d, pubKey, canon) == Enrich(acc1, p, d, acc.db.owners[key], canon);
      EnrichLeavesQuiet(acc1, p, d, acc.db.owners[key], canon);
    } else if d.action.CreateNode? && Trim(d.nodeName) != "" {
      assert Decide(acc, p, d, pubKey, canon) == Enrich(OwnPeer(acc, p, d, pubKey), p, d, acc.db.nextNode, canon);
      NewOwnerLeavesQuiet(acc, p, d, pubKey, canon);
    } else {
      assert Cidrs(Decide(acc, p, d, pubKey, canon).db) == Cidrs(acc.db);
    }
  }

  /** Only a later decision that names a peer can wake one that was skipped for want of a name. */
  predicate NoLateNaming(db: Db, p: string, ds: seq<Decision>) {
    forall i, j | 0 <= i < j < |ds| && ds[i].action.CreateNode? && ds[j].action.CreateNode?
      && ds[i].peerId == ds[j].peerId && Trim(ds[i].nodeName) == "" && Trim(ds[j].nodeName) != "" ::
      PeerKey(p, ds[i].peerId) in db.owners
  }

  lemma OneLeavesQuiet(acc: Acc, p: string, d: Decision, canon: Canon)
    requires Sound(acc.db) && acc.existing == Cidrs(acc.db) && Canonical(d, canon) && !acc.failed
    requires !ApplyOne(acc, p, d, canon).failed
    requires ApplyOne(acc, p, d, canon).sum.groupErrors == acc.sum.groupErrors
    ensures var r := ApplyOne(acc, p, d, canon);
            && r.existing == Cidrs(r.db) && QuietOne(r.db, p, d, acc.meshDone)
            && r.meshDone == (if Acts(r.db, p, d) then DoneAfter(acc.meshDone, p, d.meshWith) else acc.meshDone)
            && (forall k | k in r.db.owners && k !in acc.db.owners ::
                  k == PeerKey(p, d.peerId) && d.action.CreateNode? && Trim(d.nodeName) != "")
  {
    var pubKey := PeerId.DecodePeerId(d.peerId);
    if pubKey.Some? { DecideLeavesQuiet(acc, p, d, pubKey.value, canon); }
  }

  lemma {:induction false} QuietAllGrows(db: Db, db': Db, p: string, ds: seq<Decision>)
    requires Grows(db, db') && QuietAll(db, p, ds)
    requires forall d | d in ds :: Acts(db', p, d) ==> Acts(db, p, d)
    ensures QuietAll(db', p, ds) && DoneAll(db', p, ds) == DoneAll(db, p, ds)
  {
    if ds != [] {
      var init, d := ds[..|ds| - 1], ds[|ds| - 1];
      assert forall x | x in init :: x in ds;
      QuietAllGrows(db, db', p, init);
      assert d in ds;
      if Acts(db, p, d) {
        QuietSibsGrow(db, db', DoneAll(db, p, init), p, d.meshWith);
        assert SettingsGrow(SettingsOf(db, p), SettingsOf(db', p));
        assert Cidrs(db) <= Cidrs(db');
      }
    }
  }

  lemma ApplyAppends(db: Db, p: string, ds: seq<Decision>, d: Decision, canon: Canon)
    ensures Apply(db, p, ds + [d], canon) == ApplyOne(Apply(db, p, ds, canon), p, d, canon)
  {
    var all := ds + [d];
    assert all[..|all| - 1] == ds && all[|all| - 1] == d;
  }

  /** All decisions so far are quiet, and the run knows what is there. */
  ghost predicate AllQuiet(acc: Acc, p: string, ds: seq<Decision>) {
    QuietAll(acc.db, p, ds) && acc.meshDone == DoneAll(acc.db, p, ds) && acc.existing == Cidrs(acc.db) && Sound(acc.db)
  }

  lemma LateNamingOnly(db: Db, db1: Db, db2: Db, p: string, ds: seq<Decision>, x: Decision)
    requires ds != [] && x in ds[..|ds| - 1] && NoLateNaming(db, p, ds) && Submap(db.owners, db1.owners)
    requires var d := ds[|ds| - 1];
             forall k | k in db2.owners && k !in db1.owners ::
               k == PeerKey(p, d.peerId) && d.action.CreateNode? && Trim(d.nodeName) != ""
    ensures Acts(db2, p, x) ==> Acts(db1, p, x)
  {
    var i :| 0 <= i < |ds| - 1 && ds[i] == x;
    var k := PeerKey(p, x.peerId);
    assert k in db2.owners && k !in db1.owners ==> ds[|ds| - 1].peerId == x.peerId;
  }

  lemma OneMoreQuiet(db: Db, acc: Acc, p: string, init: seq<Decision>, d: Decision, canon: Canon)
    requires AllQuiet(acc, p, init) && !acc.failed && Canonical(d, canon)
    requires NoLateNaming(db, p, init + [d]) && Submap(db.owners, acc.db.owners)
    requires !ApplyOne(acc, p, d, canon).failed && ApplyOne(acc, p, d, canon).sum.groupErrors == acc.sum.groupErrors
    ensures AllQuiet(ApplyOne(acc, p, d, canon), p, init + [d])
  {
    var r, ds := ApplyOne(acc, p, d, canon), init + [d];
    OneProgress(acc, p, d, canon);
    OneLeavesQuiet(acc, p, d, canon);
    assert ds[..|ds| - 1] == init;
    forall x | x in init ensures Acts(r.db, p, x) ==> Acts(acc.db, p, x) {
      LateNamingOnly(db, acc.db, r.db, p, ds, x);
    }
    QuietAllGrows(acc.db, r.db, p, init);
  }

  // ---- dismissals: the last decision on a peer wins

  function Dismiss(s: set<PeerKey>, key: PeerKey, a: Action): set<PeerKey> {
    if a.Skip? then s + {key} else if a.Undismiss? then s - {key} else s
  }

  function DismissOne(s: set<PeerKey>, p: string, d: Decision): set<PeerKey> {
    if PeerId.DecodePeerId(d.peerId).None? then s else Dismiss(s, PeerKey(p, d.peerId), d.action)
  }

  function DismissAll(s: set<PeerKey>, p: string, ds: seq<Decision>): set<PeerKey> {
    if ds == [] then s else DismissOne(DismissAll(s, p, ds[..|ds| - 1]), p, ds[|ds| - 1])
  }

  lemma ReconcileKeepsDismissals(db: Db, a: string, b: string)
    ensures var r := ReconcileMeshGroups(db, a, b); r.Some? ==> r.value.dismissed == db.dismissed
  {
    var made := CreateNextAutoNamedGroup(db);
    assert made.Some? ==> made.value.0.dismissed == db.dismissed;
  }

  lemma PairKeepsDismissals(db: Db, a: string, b: string)
    ensures EnableMeshPair(db, a, b).0.dismissed == db.dismissed
  {
    ReconcileKeepsDismissals(db, a, b);
  }

  lemma MeshOneKeepsDismissals(acc: Acc, p: string, sib: string)
    ensures MeshOne(acc, p, sib).db.dismissed == acc.db.dismissed
  {
    PairKeepsDismissals(acc.db, p, sib);
  }

  lemma {:induction false} MeshKeepsDismissals(acc: Acc, p: string, sibs: seq<string>)
    ensures MeshAll(acc, p, sibs).db.dismissed == acc.db.dismissed
  {
    if sibs != [] {
      var init := MeshAll(acc, p, sibs[..|sibs| - 1]);
      assert init.db.dismissed == acc.db.dismissed by { MeshKeepsDismissals(acc, p, sibs[..|sibs| - 1]); }
      MeshOneKeepsDismissals(init, p, sibs[|sibs| - 1]);
    }
  }

  lemma {:induction false} SubnetsKeepDismissals(acc: Acc, p: string, owner: int, g: Option<int>,
                                                 sns: seq<NewSubnet>, canon: Canon)
    ensures SubnetAll(acc, p, owner, g, sns, canon).db.dismissed == acc.db.dismissed
  {
    if sns != [] { SubnetsKeepDismissals(acc, p, owner, g, sns[..|sns| - 1], canon); }
  }

  lemma EnrichKeepsDismissals(acc: Acc, p: string, d: Decision, owner: int, canon: Canon)
    ensures Enrich(acc, p, d, owner, canon).db.dismissed == acc.db.dismissed
  {
    var g := EnsureProviderGroup(acc.db, p);
    if |d.subnets| == 0 || g.Some? {
      var acc1 := if |d.subnets| > 0 then acc.(db := g.value.0) else acc;
      var gid := if |d.subnets| > 0 then Some(g.value.1) else None;
      SubnetsKeepDismissals(acc1, p, owner, gid, d.subnets, canon);
      MeshKeepsDismissals(SubnetAll(acc1, p, owner, gid, d.subnets, canon), p, d.meshWith);
    }
  }

  lemma DecideDismisses(acc: Acc, p: string, d: Decision, pubKey: Bytes, canon: Canon)
    ensures Decide(acc, p, d, pubKey, canon).db.dismissed == Dismiss(acc.db.dismissed, PeerKey(p, d.peerId), d.action)
  {
    if d.action.CreateNode? {
      var key := PeerKey(p, d.peerId);
      if key in acc.db.owners {
        var acc1 := acc.(sum := acc.sum.(alreadyHandled := acc.sum.alreadyHandled + 1));
        EnrichKeepsDismissals(acc1, p, d, acc.db.owners[key], canon);
      } else if Trim(d.nodeName) != "" {
        EnrichKeepsDismissals(OwnPeer(acc, p, d, pubKey), p, d, acc.db.nextNode, canon);
      }
    }
  }

  lemma {:induction false} ApplyDismisses(acc: Acc, p: string, ds: seq<Decision>, canon: Canon)
    requires Sound(acc.db) && !ApplyAll(acc, p, ds, canon).failed
    ensures ApplyAll(acc, p, ds, canon).db.dismissed == DismissAll(acc.db.dismissed, p, ds)
  {
    if ds != [] {
      var init, d := ds[..|ds| - 1], ds[|ds| - 1];
      var acc1 := ApplyAll(acc, p, init, canon);
      ApplyProgress(acc, p, init, canon);
      OneProgress(acc1, p, d, canon);
      ApplyDismisses(acc, p, init, canon);
      var pubKey := PeerId.DecodePeerId(d.peerId);
      if pubKey.Some? { DecideDismisses(acc1, p, d, pubKey.value, canon); }
    }
  }

  lemma DismissAgrees(s: set<PeerKey>, t: set<PeerKey>, p: string, d: Decision, k: PeerKey)
    ensures (k in DismissOne(s, p, d)) == (k in DismissOne(t, p, d))
            || ((k in DismissOne(s, p, d)) == (k in s) && (k in DismissOne(t, p, d)) == (k in t))
    ensures (k in s) == (k in t) ==> (k in DismissOne(s, p, d)) == (k in DismissOne(t, p, d))
  {
  }

  /** A peer's final dismissal is the same from any two starting points, or untouched from both. */
  lemma {:induction false} LastDismissalWins(s: set<PeerKey>, t: set<PeerKey>, p: string, ds: seq<Decision>, k: PeerKey)
    ensures (k in DismissAll(s, p, ds)) == (k in DismissAll(t, p, ds))
            || ((k in DismissAll(s, p, ds)) == (k in s) && (k in DismissAll(t, p, ds)) == (k in t))
  {
    if ds != [] {
      var init, d := ds[..|ds| - 1], ds[|ds| - 1];
      LastDismissalWins(s, t, p, init, k);
      var s1, t1 := DismissAll(s, p, init), DismissAll(t, p, init);
      assert DismissAll(s, p, ds) == DismissOne(s1, p, d) && DismissAll(t, p, ds) == DismissOne(t1, p, d);
      DismissAgrees(s1, t1, p, d, k);
    }
  }

  lemma DismissTwice(s: set<PeerKey>, p: string, ds: seq<Decision>)
    ensures DismissAll(DismissAll(s, p, ds), p, ds) == DismissAll(s, p, ds)
  {
    forall k ensures k in DismissAll(DismissAll(s, p, ds), p, ds) <==> k in DismissAll(s, p, ds) {
      LastDismissalWins(s, DismissAll(s, p, ds), p, ds, k);
    }
  }

  // ---- the theorems

  lemma DistinctPeersAreNeverNamedLate(db: Db, p: string, ds: seq<Decision>)
    requires forall i, j | 0 <= i < j < |ds| :: ds[i].peerId != ds[j].peerId
    ensures NoLateNaming(db, p, ds)
  {
  }

  /** The same tables up to dismissals (an absent settings row and an all-default one are the same). */
  ghost predicate SameTables(a: Db, b: Db) {
    && a.nodes == b.nodes && a.owners == b.owners && a.categories == b.categories && a.subnets == b.subnets
    && a.groups == b.groups && (forall p :: SettingsOf(a, p) == SettingsOf(b, p))
  }

  lemma GrowthIsAntisymmetric(a: Db, b: Db, c: Db)
    requires Grows(a, b) && Grows(b, c) && SameTables(a, c)
    ensures SameTables(a, b)
  {
    assert a.owners == b.owners && a.nodes == b.nodes && a.groups == b.groups;
    forall p ensures SettingsOf(a, p) == SettingsOf(b, p) {
      assert SettingsGrow(SettingsOf(a, p), SettingsOf(b, p)) && SettingsGrow(SettingsOf(b, p), SettingsOf(c, p));
    }
  }

  lemma {:induction false} QuietSibsOfSame(a: Db, b: Db, done: set<string>, p: string, sibs: seq<string>)
    requires SameTables(a, b) && QuietSibs(a, done, p, sibs)
    ensures QuietSibs(b, done, p, sibs)
  {
    if sibs != [] { QuietSibsOfSame(a, b, done, p, sibs[..|sibs| - 1]); }
  }

  lemma {:induction false} UnchangedMeansQuiet(db: Db, p: string, ds: seq<Decision>, canon: Canon)
    requires Sound(db) && AllCanonical(ds, canon)
    requires var r := Apply(db, p, ds, canon); !r.failed && r.sum.groupErrors == 0 && SameTables(db, r.db)
    ensures QuietAll(db, p, ds)
  {
    if ds != [] {
      var init, d := ds[..|ds| - 1], ds[|ds| - 1];
      assert d in ds && forall x | x in init :: x in ds;
      var acc1 := Apply(db, p, init, canon);
      var r := ApplyOne(acc1, p, d, canon);
      assert r == Apply(db, p, ds, canon);
      ApplyProgress(Begin(db), p, init, canon);
      OneProgress(acc1, p, d, canon);
      GrowthIsAntisymmetric(db, acc1.db, r.db);
      UnchangedMeansQuiet(db, p, init, canon);
      QuietChangesNothing(db, p, init, canon);
      assert QuietOne(db, p, d, acc1.meshDone) by {
        OneLeavesQuiet(acc1, p, d, canon);
        if Acts(db, p, d) {
          assert Cidrs(r.db) == Cidrs(db);
          assert SameTables(r.db, db);
          QuietSibsOfSame(r.db, db, acc1.meshDone, p, d.meshWith);
        }
      }
    }
  }

  /** For any state and any batch of canonical networks: the apply goes through cleanly and changes nothing but
      dismissals if and only if every decision is quiet. */
  lemma NothingToDoExactly(db: Db, p: string, ds: seq<Decision>, canon: Canon)
    requires Sound(db) && AllCanonical(ds, canon)
    ensures var r := Apply(db, p, ds, canon);
            (!r.failed && r.sum.groupErrors == 0 && SameTables(db, r.db)) <==> QuietAll(db, p, ds)
  {
    if QuietAll(db, p, ds) {
      QuietChangesNothing(db, p, ds, canon);
    } else {
      var r := Apply(db, p, ds, canon);
      if !r.failed && r.sum.groupErrors == 0 && SameTables(db, r.db) { UnchangedMeansQuiet(db, p, ds, canon); }
    }
  }

  lemma EmptyIdDecodes()
    ensures PeerId.DecodePeerId([]) == Some([])
  {
    var e: Bytes := [];
    assert PeerId.RawDecode(PeerId.Url, e) == Some(e);
    assert PeerId.StdEncode(e) == e;
  }

  // The first run: the nameless decision is skipped, the other one makes the node.
  lemma LateNamingFirst(db: Db, d1: Decision, d2: Decision, canon: Canon)
    requires db == Db(map[], 1, map[], map[], [], map[], 1, map[], {})
    requires d1 == Decision([], CreateNode, "", "", [NewSubnet("10.0.0.0/24", "")], [])
    requires d2 == Decision([], CreateNode, "hub", "", [], [])
    ensures var r := Apply(db, "wg0", [d1, d2], canon);
            PeerKey("wg0", []) in r.db.owners && Cidrs(r.db) == {} && !r.failed && r.sum.groupErrors == 0
  {
    var p := "wg0";
    EmptyIdDecodes();
    assert Trim("hub") == "hub";
    assert [d1, d2][..1] == [d1] && [d1][..0] == [];
    assert ApplyAll(Begin(db), p, [], canon) == Begin(db);
    assert ApplyOne(Begin(db), p, d1, canon) == Begin(db);
    assert Apply(db, p, [d1], canon) == Begin(db);
    assert Apply(db, p, [d1, d2], canon) == Enrich(OwnPeer(Begin(db), p, d2, []), p, d2, 1, canon);
  }

  lemma LateNamingUnquiet(db: Db, p: string, d1: Decision, d2: Decision)
    requires PeerKey(p, []) in db.owners && Cidrs(db) == {}
    requires d1 == Decision([], CreateNode, "", "", [NewSubnet("10.0.0.0/24", "")], [])
    ensures !QuietAll(db, p, [d1, d2])
  {
    EmptyIdDecodes();
    assert Trim("10.0.0.0/24") == "10.0.0.0/24" && d1.subnets[0] in d1.subnets;
    assert [d1, d2][..1] == [d1] && [d1][..0] == [];
    assert !QuietOne(db, p, d1, {});
    assert !QuietAll(db, p, [d1]);
  }

  /** Late naming does break it: a nameless decision is skipped while its peer is unowned, and acts on the
      re-run, once a later decision of the same batch has named the peer. */
  lemma LateNamingBreaksReapply(db: Db, d1: Decision, d2: Decision, canon: Canon)
    requires db == Db(map[], 1, map[], map[], [], map[], 1, map[], {})
    requires d1 == Decision([], CreateNode, "", "", [NewSubnet("10.0.0.0/24", "")], [])
    requires d2 == Decision([], CreateNode, "hub", "", [], [])
    requires canon("10.0.0.0/24") == Some("10.0.0.0/24")
    ensures Sound(db) && AllCanonical([d1, d2], canon)
    ensures var r := Apply(db, "wg0", [d1, d2], canon);
            var again := Apply(r.db, "wg0", [d1, d2], canon);
            !r.failed && r.sum.groupErrors == 0
            && (again.failed || again.sum.groupErrors > 0 || !SameTables(r.db, again.db))
  {
    var p := "wg0";
    var r := Apply(db, p, [d1, d2], canon);
    assert PeerKey(p, []) in r.db.owners && Cidrs(r.db) == {} && !r.failed && r.sum.groupErrors == 0 by {
      LateNamingFirst(db, d1, d2, canon);
    }
    assert Sound(r.db) by { ApplyProgress(Begin(db), p, [d1, d2], canon); }
    assert !QuietAll(r.db, p, [d1, d2]) by { LateNamingUnquiet(r.db, p, d1, d2); }
    NothingToDoExactly(r.db, p, [d1, d2], canon);
  }

  // ---------------------------------------------------------------- pair keys

  lemma {:induction false} LongerIsNotLess(p: string, t: string)
    ensures !TextLess(p + t, p)
  {
    if p != "" {
      assert (p + t)[1..] == p[1..] + t;
      LongerIsNotLess(p[1..], t);
    }
  }

  // A smaller sibling's key is no other sibling's.
  lemma NoMixedKeys(p: string, a: string, b: string)
    requires '|' !in p && TextLess(a, p)
    ensures a + "|" + p != p + "|" + b
  {
    var s, t := a + "|" + p, p + "|" + b;
    if |a| < |p| {
      assert s[|a|] == '|' && t[|a|] == p[|a|] && p[|a|] in p;
    } else {
      LongerIsNotLess(p, a[|p|..]);
      assert a[..|p|] + a[|p|..] == a;
      assert s[..|p|] == a[..|p|] && t[..|p|] == p;
    }
  }

  lemma SameEnds(p: string, a: string, b: string)
    ensures a + "|" + p == b + "|" + p ==> a == b
    ensures p + "|" + a == p + "|" + b ==> a == b
  {
    if a + "|" + p == b + "|" + p { assert a == (a + "|" + p)[..|a|] && b == (b + "|" + p)[..|b|]; }
    if p + "|" + a == p + "|" + b { assert a == (p + "|" + a)[|p| + 1..] && b == (p + "|" + b)[|p| + 1..]; }
  }

  /** The key does not depend on the order of the pair. A provider without a bar in its name, as every registered one
      is, has a key of its own for each sibling, whatever texts the siblings are. */
  lemma MeshPairKeyIdentifiesPairs(p: string, a: string, b: string)
    ensures MeshPairKey(p, a) == MeshPairKey(a, p)
    ensures '|' !in p && MeshPairKey(p, a) == MeshPairKey(p, b) ==> a == b
  {
    TextLessTotal(p, a);
    if '|' !in p && MeshPairKey(p, a) == MeshPairKey(p, b) {
      if TextLess(a, p) { NoMixedKeys(p, a, b); }
      if TextLess(b, p) { NoMixedKeys(p, b, a); }
      SameEnds(p, a, b);
    }
  }

  // ---------------------------------------------------------------- the interpreter itself

  lemma {:induction false} FailureStops(acc: Acc, p: string, ds: seq<Decision>, i: nat, canon: Canon)
    requires i <= |ds| && ApplyAll(acc, p, ds[..i], canon).failed
    ensures ApplyAll(acc, p, ds, canon) == ApplyAll(acc, p, ds[..i], canon)
  {
    if i < |ds| {
      var init := ds[..|ds| - 1];
      assert init[..i] == ds[..i];
      FailureStops(acc, p, init, i, canon);
    } else {
      assert ds[..i] == ds;
    }
  }

  lemma {:induction false} SubnetFailureStops(acc: Acc, p: string, owner: int, g: Option<int>, sns: seq<NewSubnet>,
                                              i: nat, canon: Canon)
    requires i <= |sns| && SubnetAll(acc, p, owner, g, sns[..i], canon).failed
    ensures SubnetAll(acc, p, owner, g, sns, canon) == SubnetAll(acc, p, owner, g, sns[..i], canon)
  {
    if i < |sns| {
      var init := sns[..|sns| - 1];
      assert init[..i] == sns[..i];
      SubnetFailureStops(acc, p, owner, g, init, i, canon);
    } else {
      assert sns[..i] == sns;
    }
  }

  class Server {
    var db: Db

    constructor (db: Db)
      ensures this.db == db
    {
      this.db := db;
    }

    method CreateGroup() returns (id: Option<int>)
      modifies this
      ensures var made := CreateNextAutoNamedGroup(old(db));
              if made.None? then id.None? && db == old(db) else id == Some(made.value.1) && db == made.value.0
    {
      var n := |db.groups| + 1;
      var attempt := 0;
      while attempt < NAME_ATTEMPTS && Auto(n) in db.groups.Values
        invariant attempt <= NAME_ATTEMPTS && n == |db.groups| + 1 + attempt
        invariant FreeAuto(db.groups.Values, n, NAME_ATTEMPTS - attempt) ==
                    FreeAuto(db.groups.Values, |db.groups| + 1, NAME_ATTEMPTS)
      {
        n, attempt := n + 1, attempt + 1;
      }
      if attempt == NAME_ATTEMPTS { return None; }
      id := Some(db.nextGroup);
      db := db.(groups := db.groups[db.nextGroup := Auto(n)], nextGroup := db.nextGroup + 1);
    }

    method EnsureGroup(p: string) returns (id: Option<int>)
      modifies this
      ensures var made := EnsureProviderGroup(old(db), p);
              if made.None? then id.None? && db == old(db) else id == Some(made.value.1) && db == made.value.0
    {
      if SettingsOf(db, p).group.Some? { return SettingsOf(db, p).group; }
      id := CreateGroup();
      if id.Some? { db := SetGroup(db, p, id); }
    }

    method Reconcile(a: string, b: string) returns (ok: bool)
      modifies this
      ensures var made := ReconcileMeshGroups(old(db), a, b);
              ok == made.Some? && db == if made.Some? then made.value else old(db)
    {
      var ga, gb := SettingsOf(db, a).group, SettingsOf(db, b).group;
      ok := true;
      if ga.None? && gb.None? {
        var id := CreateGroup();
        if id.None? { return false; }
        db := SetGroup(db, a, id);
        db := SetGroup(db, b, id);
      } else if ga.None? {
        db := SetGroup(db, a, gb);
      } else if gb.None? {
        db := SetGroup(db, b, ga);
      }
    }

    method EnablePair(a: string, b: string) returns (reconciled: bool)
      modifies this
      ensures (db, reconciled) == EnableMeshPair(old(db), a, b)
    {
      reconciled := Reconcile(a, b);
      ghost var db1 := db;
      var names := [a, b];
      for i := 0 to 2
        invariant db == if i == 0 then db1 else if i == 1 then SetMesh(db1, a) else SetMesh(SetMesh(db1, a), b)
      {
        if !SettingsOf(db, names[i]).meshEnabled {
          db := db.(settings := db.settings[names[i] := SettingsOf(db, names[i]).(meshEnabled := true)]);
        }
      }
    }

    method AddSubnets(p: string, owner: int, g: Option<int>, sns: seq<NewSubnet>, canon: Canon, acc0: Acc)
      returns (acc: Acc)
      requires acc0.db == db && !acc0.failed
      modifies this
      ensures acc == SubnetAll(acc0, p, owner, g, sns, canon) && db == acc.db
    {
      acc := acc0;
      for i := 0 to |sns|
        invariant acc == SubnetAll(acc0, p, owner, g, sns[..i], canon) && db == acc.db && !acc.failed
      {
        assert sns[..i + 1][..i] == sns[..i];
        var cidr := Trim(sns[i].cidr);
        if cidr == "" || cidr in acc.existing { continue; }
        var stored := canon(cidr);
        if stored.None? || stored.value in Cidrs(db) {
          acc := acc.(failed := true);
          SubnetFailureStops(acc0, p, owner, g, sns, i + 1, canon);
          return;
        }
        db := db.(subnets := db.subnets + [Subnet(p, stored.value, sns[i].title, owner, g)]);
        acc := acc.(db := db, existing := acc.existing + {cidr},
                    sum := acc.sum.(subnetsCreated := acc.sum.subnetsCreated + 1));
      }
      assert sns[..|sns|] == sns;
    }

    method AddLink(p: string, sib: string, acc0: Acc) returns (acc: Acc)
      requires acc0.db == db
      modifies this
      ensures acc == MeshOne(acc0, p, sib) && db == acc.db
    {
      acc := acc0;
      var key := MeshPairKey(p, sib);
      if key in acc.meshDone { return; }
      var reconciled := EnablePair(p, sib);
      acc := acc.(db := db, meshDone := acc.meshDone + {key},
                  sum := acc.sum.(meshPairsEnabled := acc.sum.meshPairsEnabled + 1,
                                  groupErrors := acc.sum.groupErrors + if reconciled then 0 else 1));
    }

    method AddLinks(p: string, sibs: seq<string>, acc0: Acc) returns (acc: Acc)
      requires acc0.db == db
      modifies this
      ensures acc == MeshAll(acc0, p, sibs) && db == acc.db
    {
      acc := acc0;
      for i := 0 to |sibs|
        invariant acc == MeshAll(acc0, p, sibs[..i]) && db == acc.db
      {
        assert sibs[..i + 1][..i] == sibs[..i];
        acc := AddLink(p, sibs[i], acc);
      }
      assert sibs[..|sibs|] == sibs;
    }

    method Extend(p: string, d: Decision, owner: int, canon: Canon, acc0: Acc) returns (acc: Acc)
      requires acc0.db == db && !acc0.failed
      modifies this
      ensures acc == Enrich(acc0, p, d, owner, canon) && db == acc.db
    {
      acc := acc0;
      var g: Option<int> := None;
      if |d.subnets| > 0 {
        g := EnsureGroup(p);
        if g.None? { return acc.(failed := true); }
        acc := acc.(db := db);
      }
      acc := AddSubnets(p, owner, g, d.subnets, canon, acc);
      if !acc.failed { acc := AddLinks(p, d.meshWith, acc); }
    }

    method CreateOwner(p: string, d: Decision, pubKey: Bytes, acc0: Acc) returns (acc: Acc, owner: int)
      requires acc0.db == db
      modifies this
      ensures acc == OwnPeer(acc0, p, d, pubKey) && db == acc.db && owner == acc0.db.nextNode
    {
      owner := db.nextNode;
      db := db.(nodes := db.nodes[owner := Node(Trim(d.nodeName), NodeKind(d.nodeKind), "network_node")],
                nextNode := owner + 1);
      db := db.(owners := db.owners[PeerKey(p, d.peerId) := owner]);
      db := db.(categories := db.categories[PeerKey(p, pubKey) := "site"]);
      acc := acc0.(db := db, sum := acc0.sum.(nodesCreated := acc0.sum.nodesCreated + 1));
    }

    method Create(p: string, d: Decision, pubKey: Bytes, canon: Canon, acc0: Acc) returns (acc: Acc)
      requires acc0.db == db && !acc0.failed && d.action.CreateNode?
      modifies this
      ensures acc == Decide(acc0, p, d, pubKey, canon) && db == acc.db
    {
      acc := acc0;
      var key := PeerKey(p, d.peerId);
      var owner: int;
      if key in db.owners {
        owner := db.owners[key];
        acc := acc.(sum := acc.sum.(alreadyHandled := acc.sum.alreadyHandled + 1));
      } else {
        if Trim(d.nodeName) == "" { return; }
        acc, owner := CreateOwner(p, d, pubKey, acc);
      }
      acc := Extend(p, d, owner, canon, acc);
    }

    method ApplyDecision(p: string, d: Decision, pubKey: Bytes, canon: Canon, acc0: Acc) returns (acc: Acc)
      requires acc0.db == db && !acc0.failed
      modifies this
      ensures acc == Decide(acc0, p, d, pubKey, canon) && db == acc.db
    {
      acc := acc0;
      var key := PeerKey(p, d.peerId);
      match d.action {
        case Skip =>
          db := db.(dismissed := db.dismissed + {key});
          acc := acc.(db := db, sum := acc.sum.(skipped := acc.sum.skipped + 1));
        case Undismiss =>
          db := db.(dismissed := db.dismissed - {key});
          acc := acc.(db := db, sum := acc.sum.(undismissed := acc.sum.undismissed + 1));
        case CreateNode =>
          acc := Create(p, d, pubKey, canon, acc);
        case OtherAction(_) =>
      }
    }

    /** The batch interpreter computes `Apply`, of which the theorems above speak. */
    method ApplyNetworkDetection(p: string, ds: seq<Decision>, canon: Canon) returns (sum: Summary, failed: bool)
      modifies this
      ensures var r := Apply(old(db), p, ds, canon); db == r.db && sum == r.sum && failed == r.failed
    {
      var acc := Begin(db);
      ghost var acc0 := acc;
      for i := 0 to |ds|
        invariant acc == ApplyAll(acc0, p, ds[..i], canon) && db == acc.db && !acc.failed
      {
        assert ds[..i + 1][..i] == ds[..i];
        var d := ds[i];
        var pubKey := PeerId.DecodePeerId(d.peerId);
        if pubKey.None? { continue; }
        acc := ApplyDecision(p, d, pubKey.value, canon, acc);
        if acc.failed {
          FailureStops(acc0, p, ds, i + 1, canon);
          return acc.sum, true;
        }
      }
      assert ds[..|ds|] == ds;
      return acc.sum, false;
    }
  }
}
