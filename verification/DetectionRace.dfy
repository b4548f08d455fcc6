/**
  Applies of a network detection that race (internal/api/network_detect.go). The code says that the check of a peer's
  ownership defends a second concurrent apply, so that two browser tabs never make a node or a subnet twice. Here any
  number of applies take turns at their store calls, and a store call may fail. The calls for groups and mesh links
  touch settings and groups alone; here they may do anything to those.
*/
module DetectionRace {
  import opened Prelude
  import opened NetworkDetect
  import PeerId

  // What an apply does next: list the subnets, look at a decision, insert a node, its owner row and the category,
  // extend the node from its j-th subnet on.
  datatype Stage =
    | Listing
    | Deciding
    | Making(pubKey: Bytes)
    | Assigning(pubKey: Bytes, node: int)
    | Labelling(pubKey: Bytes, node: int)
    | Extending(owner: int, j: nat)
    | Finished
    | Stopped

  datatype Proc = Proc(provider: string, ds: seq<Decision>, i: nat, stage: Stage, existing: set<string>)

  // The calls that matter for ownership, in order.
  datatype Event =
    | Looked(who: nat, key: PeerKey, naming: bool)
    | Made(who: nat, key: PeerKey, node: int)
    | Denied(who: nat, key: PeerKey)
    | Assigned(who: nat, key: PeerKey, node: int)

  datatype State = State(db: Db, procs: seq<Proc>, log: seq<Event>)

  datatype Act =
    | Go
    | Insert(group: Option<int>)
    | Settle(settings: map<string, Settings>, groups: map<int, GroupName>, nextGroup: int)
    | Fail

  datatype Step = Step(who: nat, act: Act)

  datatype Move = Move(db: Db, proc: Proc, events: seq<Event>)

  // ---------------------------------------------------------------- one call

  function CurrentKey(pr: Proc): PeerKey
    requires pr.i < |pr.ds|
  {
    PeerKey(pr.provider, pr.ds[pr.i].peerId)
  }

  // The subnet at hand is blank or known.
  predicate Passes(pr: Proc, sn: NewSubnet) {
    Trim(sn.cidr) == "" || Trim(sn.cidr) in pr.existing
  }

  predicate CanAct(db: Db, pr: Proc, act: Act) {
    match act
    case Fail => !pr.stage.Finished? && !pr.stage.Stopped?
    case Settle(_, groups, nextGroup) =>
      && pr.stage.Extending? && (forall id | id in groups :: id < nextGroup)
      && forall a, b | a in groups && b in groups && groups[a] == groups[b] :: a == b
    case Insert(_) =>
      pr.stage.Extending? && pr.i < |pr.ds| && pr.stage.j < |pr.ds[pr.i].subnets|
      && !Passes(pr, pr.ds[pr.i].subnets[pr.stage.j])
    case Go =>
      match pr.stage
      case Listing => true
      case Deciding => pr.i <= |pr.ds|
      case Finished => false
      case Stopped => false
      case Extending(_, j) =>
        pr.i < |pr.ds| && j <= |pr.ds[pr.i].subnets|
        && (j < |pr.ds[pr.i].subnets| ==> Passes(pr, pr.ds[pr.i].subnets[j]))
      case _ => pr.i < |pr.ds|
  }

  function Look(db: Db, who: nat, pr: Proc, d: Decision, pubKey: Bytes): Move {
    var key, naming := PeerKey(pr.provider, d.peerId), Trim(d.nodeName) != "";
    Move(db,
         if key in db.owners then pr.(stage := Extending(db.owners[key], 0))
         else if naming then pr.(stage := Making(pubKey))
         else pr.(i := pr.i + 1),
         [Looked(who, key, naming)])
  }

  // The first call for a decision; `pubKey` is what the peer id decodes to.
  function Begun(db: Db, who: nat, pr: Proc, d: Decision, pubKey: Option<Bytes>): Move {
    var key, next := PeerKey(pr.provider, d.peerId), pr.(i := pr.i + 1);
    if pubKey.None? then Move(db, next, [])
    else
      match d.action
      case Skip => Move(db.(dismissed := db.dismissed + {key}), next, [])
      case Undismiss => Move(db.(dismissed := db.dismissed - {key}), next, [])
      case CreateNode => Look(db, who, pr, d, pubKey.value)
      case OtherAction(_) => Move(db, next, [])
  }

  function Gone(db: Db, who: nat, pr: Proc): Move
    requires CanAct(db, pr, Go)
  {
    match pr.stage
    case Listing => Move(db, pr.(stage := Deciding, existing := Cidrs(db)), [])
    case Deciding =>
      if pr.i == |pr.ds| then Move(db, pr.(stage := Finished), [])
      else Begun(db, who, pr, pr.ds[pr.i], PeerId.DecodePeerId(pr.ds[pr.i].peerId))
    case Making(pubKey) =>
      var d, id := pr.ds[pr.i], db.nextNode;
      var node := Node(Trim(d.nodeName), NodeKind(d.nodeKind), "network_node");
      Move(db.(nodes := db.nodes[id := node], nextNode := id + 1),
           pr.(stage := Assigning(pubKey, id)), [Made(who, CurrentKey(pr), id)])
    case Assigning(pubKey, node) =>
      Move(db.(owners := db.owners[CurrentKey(pr) := node]), pr.(stage := Labelling(pubKey, node)),
           [Assigned(who, CurrentKey(pr), node)])
    case Labelling(pubKey, node) =>
      Move(db.(categories := db.categories[PeerKey(pr.provider, pubKey) := "site"]),
           pr.(stage := Extending(node, 0)), [])
    case Extending(owner, j) =>
      Move(db, if j < |pr.ds[pr.i].subnets| then pr.(stage := Extending(owner, j + 1))
               else pr.(stage := Deciding, i := pr.i + 1), [])
  }

  function Inserted(db: Db, pr: Proc, g: Option<int>, canon: Canon): Move
    requires CanAct(db, pr, Insert(g))
  {
    var sn := pr.ds[pr.i].subnets[pr.stage.j];
    var cidr := Trim(sn.cidr);
    if canon(cidr).None? || canon(cidr).value in Cidrs(db) then Move(db, pr.(stage := Stopped), [])
    else
      Move(db.(subnets := db.subnets + [Subnet(pr.provider, canon(cidr).value, sn.title, pr.stage.owner, g)]),
           pr.(stage := Extending(pr.stage.owner, pr.stage.j + 1), existing := pr.existing + {cidr}), [])
  }

  function Moved(db: Db, who: nat, pr: Proc, act: Act, canon: Canon): Move
    requires CanAct(db, pr, act)
  {
    match act
    case Go => Gone(db, who, pr)
    case Insert(g) => Inserted(db, pr, g, canon)
    case Settle(settings, groups, nextGroup) =>
      Move(db.(settings := settings, groups := groups, nextGroup := nextGroup), pr, [])
    case Fail =>
      Move(db, pr.(stage := Stopped),
           if pr.stage.Making? && pr.i < |pr.ds| then [Denied(who, CurrentKey(pr))] else [])
  }

  // ---------------------------------------------------------------- runs

  predicate Enabled(s: State, step: Step) {
    step.who < |s.procs| && CanAct(s.db, s.procs[step.who], step.act)
  }

  function Next(s: State, step: Step, canon: Canon): State
    requires Enabled(s, step)
  {
    var m := Moved(s.db, step.who, s.procs[step.who], step.act, canon);
    State(m.db, s.procs[step.who := m.proc], s.log + m.events)
  }

  predicate Legal(s: State, steps: seq<Step>, canon: Canon)
    decreases |steps|
  {
    steps == [] || (Enabled(s, steps[0]) && Legal(Next(s, steps[0], canon), steps[1..], canon))
  }

  function Run(s: State, steps: seq<Step>, canon: Canon): State
    requires Legal(s, steps, canon)
    decreases |steps|
  {
    if steps == [] then s else Run(Next(s, steps[0], canon), steps[1..], canon)
  }

  // Applies that have just been called.
  predicate Fresh(s: State) {
    s.log == [] && forall b | 0 <= b < |s.procs| :: s.procs[b].stage == Listing && s.procs[b].i == 0
  }

  // ---------------------------------------------------------------- what the log tells

  predicate Owned(db0: Db, log: seq<Event>, k: PeerKey) {
    k in db0.owners || (log != [] &&
    (Owned(db0, log[..|log| - 1], k) || (log[|log| - 1].Assigned? && log[|log| - 1].key == k)))
  }

  /** The apply looked at the peer, with a name for it, before anyone had been written as its owner, and the insert of
      its node did not fail. */
  predicate Passed(db0: Db, log: seq<Event>, b: nat, k: PeerKey) {
    log != [] && log[|log| - 1] != Denied(b, k) &&
    (Passed(db0, log[..|log| - 1], b, k) ||
     (log[|log| - 1] == Looked(b, k, true) && !Owned(db0, log[..|log| - 1], k)))
  }

  // The nodes the apply made for the peer.
  function MadeBy(log: seq<Event>, b: nat, k: PeerKey): nat {
    if log == [] then 0
    else
      var e := log[|log| - 1];
      MadeBy(log[..|log| - 1], b, k) + (if e.Made? && e.who == b && e.key == k then 1 else 0)
  }

  function NodesFor(log: seq<Event>, k: PeerKey): nat {
    if log == [] then 0
    else
      var e := log[|log| - 1];
      NodesFor(log[..|log| - 1], k) + (if e.Made? && e.key == k then 1 else 0)
  }

  // How many of the first n applies passed.
  function HowManyPassed(db0: Db, log: seq<Event>, k: PeerKey, n: nat): nat {
    if n == 0 then 0 else HowManyPassed(db0, log, k, n - 1) + if Passed(db0, log, n - 1, k) then 1 else 0
  }

  // The node written last as the peer's owner.
  function LastOwner(db0: Db, log: seq<Event>, k: PeerKey): Option<int> {
    if log == [] then if k in db0.owners then Some(db0.owners[k]) else None
    else
      var e := log[|log| - 1];
      if e.Assigned? && e.key == k then Some(e.node) else LastOwner(db0, log[..|log| - 1], k)
  }

  lemma LogOneMore(db0: Db, log: seq<Event>, e: Event, b: nat, k: PeerKey)
    ensures var log' := log + [e];
            && (Owned(db0, log', k) <==> Owned(db0, log, k) || (e.Assigned? && e.key == k))
            && (Passed(db0, log', b, k) <==>
                  e != Denied(b, k)
                  && (Passed(db0, log, b, k) || (e == Looked(b, k, true) && !Owned(db0, log, k))))
            && MadeBy(log', b, k) == MadeBy(log, b, k) + (if e.Made? && e.who == b && e.key == k then 1 else 0)
            && NodesFor(log', k) == NodesFor(log, k) + (if e.Made? && e.key == k then 1 else 0)
            && LastOwner(db0, log', k) == if e.Assigned? && e.key == k then Some(e.node) else LastOwner(db0, log, k)
  {
    assert (log + [e])[..|log|] == log;
  }

  // ---------------------------------------------------------------- the invariant

  predicate MakingFor(pr: Proc, k: PeerKey) {
    pr.stage.Making? && pr.i < |pr.ds| && CurrentKey(pr) == k
  }

  predicate AssigningFor(pr: Proc, k: PeerKey) {
    pr.stage.Assigning? && pr.i < |pr.ds| && CurrentKey(pr) == k
  }

  /** One apply and one peer: it makes a node exactly if it passed, and only once. */
  ghost predicate ProcOk(db0: Db, log: seq<Event>, b: nat, pr: Proc, k: PeerKey) {
    var made, passed := MadeBy(log, b, k), Passed(db0, log, b, k);
    && made <= 1 && (made == 1 ==> passed)
    && (passed && made == 0 <==> MakingFor(pr, k))
    && (made == 1 && !Owned(db0, log, k) ==> AssigningFor(pr, k) || pr.stage.Stopped?)
  }

  ghost predicate KeyOk(db0: Db, s: State, k: PeerKey) {
    && (if k in s.db.owners then Some(s.db.owners[k]) else None) == LastOwner(db0, s.log, k)
    && (k in s.db.owners <==> Owned(db0, s.log, k))
    && forall b | 0 <= b < |s.procs| :: ProcOk(db0, s.log, b, s.procs[b], k)
  }

  lemma OtherProcOk(db0: Db, log: seq<Event>, e: Event, b: nat, pr: Proc, k: PeerKey)
    requires ProcOk(db0, log, b, pr, k) && e.who != b
    ensures ProcOk(db0, log + [e], b, pr, k)
  {
    LogOneMore(db0, log, e, b, k);
  }

  /** What a call of one apply does, as far as nodes, owners and networks go. */
  ghost predicate Effect(db: Db, m: Move, who: nat) {
    && |m.events| <= 1 && (m.events != [] ==> m.events[0].who == who)
    && m.db.owners == (if m.events != [] && m.events[0].Assigned?
                       then db.owners[m.events[0].key := m.events[0].node] else db.owners)
    && Sound(m.db) && db.subnets <= m.db.subnets && Submap(db.nodes, m.db.nodes)
    && |m.db.nodes| == |db.nodes| + if m.events != [] && m.events[0].Made? then 1 else 0
  }

  lemma DismissalEffect(db: Db, m: Move, who: nat)
    requires Sound(db) && m.db == db.(dismissed := m.db.dismissed)
    requires m.events == [] || (|m.events| == 1 && m.events[0].Looked? && m.events[0].who == who)
    ensures Effect(db, m, who)
  {
  }

  lemma BegunEffect(db: Db, who: nat, pr: Proc, d: Decision, pubKey: Option<Bytes>)
    requires Sound(db)
    ensures Effect(db, Begun(db, who, pr, d, pubKey), who)
  {
    DismissalEffect(db, Begun(db, who, pr, d, pubKey), who);
  }

  lemma GoneEffect(db: Db, who: nat, pr: Proc)
    requires CanAct(db, pr, Go) && Sound(db)
    ensures Effect(db, Gone(db, who, pr), who)
  {
    if pr.stage.Deciding? && pr.i < |pr.ds| {
      BegunEffect(db, who, pr, pr.ds[pr.i], PeerId.DecodePeerId(pr.ds[pr.i].peerId));
    }
  }

  lemma MoveEffect(db: Db, who: nat, pr: Proc, act: Act, canon: Canon)
    requires CanAct(db, pr, act) && Sound(db)
    ensures Effect(db, Moved(db, who, pr, act, canon), who)
  {
    if act.Go? { GoneEffect(db, who, pr); }
  }

  // A call that leaves no event: the apply is not about to make or assign a node, or it stops after making one.
  lemma SilentOk(db0: Db, log: seq<Event>, who: nat, pr: Proc, pr': Proc, k: PeerKey)
    requires ProcOk(db0, log, who, pr, k)
    requires !MakingFor(pr, k) && !MakingFor(pr', k)
    requires pr'.stage.Stopped? || (!pr.stage.Assigning? && !pr.stage.Stopped?)
    ensures ProcOk(db0, log + [], who, pr', k)
  {
    assert log + [] == log;
  }

  lemma LookOk(db0: Db, log: seq<Event>, db: Db, who: nat, pr: Proc, pubKey: Bytes, k: PeerKey)
    requires ProcOk(db0, log, who, pr, k) && (k in db.owners <==> Owned(db0, log, k))
    requires pr.stage.Deciding? && pr.i < |pr.ds|
    ensures var m := Look(db, who, pr, pr.ds[pr.i], pubKey); ProcOk(db0, log + m.events, who, m.proc, k)
  {
    var m := Look(db, who, pr, pr.ds[pr.i], pubKey);
    LogOneMore(db0, log, m.events[0], who, k);
  }

  lemma BegunOk(db0: Db, log: seq<Event>, db: Db, who: nat, pr: Proc, pubKey: Option<Bytes>, k: PeerKey)
    requires ProcOk(db0, log, who, pr, k) && (k in db.owners <==> Owned(db0, log, k))
    requires pr.stage.Deciding? && pr.i < |pr.ds|
    ensures var m := Begun(db, who, pr, pr.ds[pr.i], pubKey); ProcOk(db0, log + m.events, who, m.proc, k)
  {
    var d := pr.ds[pr.i];
    if pubKey.Some? && d.action.CreateNode? {
      LookOk(db0, log, db, who, pr, pubKey.value, k);
    } else {
      SilentOk(db0, log, who, pr, Begun(db, who, pr, d, pubKey).proc, k);
    }
  }

  lemma NodeOk(db0: Db, log: seq<Event>, db: Db, who: nat, pr: Proc, k: PeerKey)
    requires CanAct(db, pr, Go) && ProcOk(db0, log, who, pr, k) && (pr.stage.Making? || pr.stage.Assigning?)
    ensures var m := Gone(db, who, pr); ProcOk(db0, log + m.events, who, m.proc, k)
  {
    var m := Gone(db, who, pr);
    LogOneMore(db0, log, m.events[0], who, k);
    assert m.events == [m.events[0]];
  }

  lemma DeniedOk(db0: Db, log: seq<Event>, who: nat, pr: Proc, k: PeerKey)
    requires ProcOk(db0, log, who, pr, k) && pr.stage.Making? && pr.i < |pr.ds|
    ensures ProcOk(db0, log + [Denied(who, CurrentKey(pr))], who, pr.(stage := Stopped), k)
  {
    LogOneMore(db0, log, Denied(who, CurrentKey(pr)), who, k);
  }

  lemma OwnProcOk(db0: Db, log: seq<Event>, db: Db, who: nat, pr: Proc, act: Act, canon: Canon, k: PeerKey)
    requires CanAct(db, pr, act) && ProcOk(db0, log, who, pr, k) && (k in db.owners <==> Owned(db0, log, k))
    ensures var m := Moved(db, who, pr, act, canon); ProcOk(db0, log + m.events, who, m.proc, k)
  {
    var m := Moved(db, who, pr, act, canon);
    if act.Go? && pr.stage.Deciding? && pr.i < |pr.ds| {
      BegunOk(db0, log, db, who, pr, PeerId.DecodePeerId(pr.ds[pr.i].peerId), k);
    } else if act.Go? && (pr.stage.Making? || pr.stage.Assigning?) {
      NodeOk(db0, log, db, who, pr, k);
    } else if act.Fail? && pr.stage.Making? && pr.i < |pr.ds| {
      DeniedOk(db0, log, who, pr, k);
    } else {
      SilentOk(db0, log, who, pr, m.proc, k);
    }
  }

  lemma KeyStep(db0: Db, s: State, step: Step, canon: Canon, k: PeerKey)
    requires Enabled(s, step) && Sound(s.db) && KeyOk(db0, s, k)
    ensures KeyOk(db0, Next(s, step, canon), k)
  {
    var who, pr := step.who, s.procs[step.who];
    var m, s' := Moved(s.db, who, pr, step.act, canon), Next(s, step, canon);
    MoveEffect(s.db, who, pr, step.act, canon);
    assert ProcOk(db0, s.log, who, pr, k);
    if m.events == [] {
      assert s'.log == s.log;
    } else {
      assert m.events == [m.events[0]];
      LogOneMore(db0, s.log, m.events[0], who, k);
    }
    forall b | 0 <= b < |s'.procs| ensures ProcOk(db0, s'.log, b, s'.procs[b], k) {
      if b == who {
        OwnProcOk(db0, s.log, s.db, who, pr, step.act, canon, k);
      } else if m.events != [] {
        OtherProcOk(db0, s.log, m.events[0], b, s.procs[b], k);
      }
    }
  }

  function AllMade(log: seq<Event>): nat {
    if log == [] then 0 else AllMade(log[..|log| - 1]) + if log[|log| - 1].Made? then 1 else 0
  }

  ghost predicate Inv(db0: Db, s: State) {
    && Sound(s.db) && db0.subnets <= s.db.subnets && Submap(db0.nodes, s.db.nodes)
    && |s.db.nodes| == |db0.nodes| + AllMade(s.log)
    && (forall e | e in s.log :: e.who < |s.procs|)
    && forall k :: KeyOk(db0, s, k)
  }

  lemma StepKeepsInv(db0: Db, s: State, step: Step, canon: Canon)
    requires Inv(db0, s) && Enabled(s, step)
    ensures Inv(db0, Next(s, step, canon))
  {
    var m, s' := Moved(s.db, step.who, s.procs[step.who], step.act, canon), Next(s, step, canon);
    MoveEffect(s.db, step.who, s.procs[step.who], step.act, canon);
    forall k ensures KeyOk(db0, s', k) {
      assert KeyOk(db0, s, k);
      KeyStep(db0, s, step, canon, k);
    }
    if m.events == [] {
      assert s'.log == s.log;
    } else {
      assert m.events == [m.events[0]] && s'.log[..|s.log|] == s.log;
    }
  }

  /** In every interleaving, calls that fail included: no node, owner row or subnet is lost, no network is stored twice,
      each apply makes at most one node for a peer, and only if it looked at it before anyone was written as its owner;
      the node written last owns the peer. */
  lemma {:induction false} RunKeepsInv(db0: Db, s: State, steps: seq<Step>, canon: Canon)
    requires Inv(db0, s) && Legal(s, steps, canon)
    ensures Inv(db0, Run(s, steps, canon)) && |Run(s, steps, canon).procs| == |s.procs|
    decreases |steps|
  {
    if steps != [] {
      StepKeepsInv(db0, s, steps[0], canon);
      RunKeepsInv(db0, Next(s, steps[0], canon), steps[1..], canon);
    }
  }

  lemma FreshIsOk(s: State)
    requires Fresh(s) && Sound(s.db)
    ensures Inv(s.db, s)
  {
    forall k ensures KeyOk(s.db, s, k) {}
  }

  // ---------------------------------------------------------------- second nodes

  function MadeByFirst(log: seq<Event>, k: PeerKey, n: nat): nat {
    if n == 0 then 0 else MadeByFirst(log, k, n - 1) + MadeBy(log, n - 1, k)
  }

  lemma {:induction false} MadeOneMore(log: seq<Event>, e: Event, k: PeerKey, n: nat)
    ensures MadeByFirst(log + [e], k, n) ==
              MadeByFirst(log, k, n) + if e.Made? && e.key == k && e.who < n then 1 else 0
  {
    if n > 0 {
      MadeOneMore(log, e, k, n - 1);
      assert (log + [e])[..|log|] == log;
    }
  }

  lemma {:induction false} NothingMade(k: PeerKey, n: nat)
    ensures MadeByFirst([], k, n) == 0
  {
    if n > 0 { NothingMade(k, n - 1); }
  }

  lemma {:induction false} NodesAdd(log: seq<Event>, k: PeerKey, n: nat)
    requires forall e | e in log :: e.who < n
    ensures NodesFor(log, k) == MadeByFirst(log, k, n)
    decreases |log|
  {
    if log == [] {
      NothingMade(k, n);
    } else {
      var init, e := log[..|log| - 1], log[|log| - 1];
      assert log == init + [e] && e in log && forall x | x in init :: x in log;
      NodesAdd(init, k, n);
      MadeOneMore(init, e, k, n);
    }
  }

  // Nobody is about to make a node.
  predicate Settled(s: State) {
    forall b | 0 <= b < |s.procs| :: !s.procs[b].stage.Making?
  }

  lemma {:induction false} MadeIsPassed(db0: Db, s: State, k: PeerKey, n: nat)
    requires KeyOk(db0, s, k) && n <= |s.procs|
    ensures MadeByFirst(s.log, k, n) <= HowManyPassed(db0, s.log, k, n)
    ensures Settled(s) ==> MadeByFirst(s.log, k, n) == HowManyPassed(db0, s.log, k, n)
  {
    if n > 0 {
      MadeIsPassed(db0, s, k, n - 1);
      assert ProcOk(db0, s.log, n - 1, s.procs[n - 1], k);
    }
  }

  // Two of the applies passed.
  ghost predicate TwoPassed(db0: Db, log: seq<Event>, k: PeerKey, n: nat) {
    exists a: nat, b: nat :: a < b < n && Passed(db0, log, a, k) && Passed(db0, log, b, k)
  }

  lemma {:induction false} PassedCounts(db0: Db, log: seq<Event>, k: PeerKey, n: nat, a: nat)
    requires a < n && Passed(db0, log, a, k)
    ensures HowManyPassed(db0, log, k, n) >= 1 + if a < n - 1 && Passed(db0, log, n - 1, k) then 1 else 0
  {
    if a < n - 1 { PassedCounts(db0, log, k, n - 1, a); }
  }

  lemma {:induction false} SomePassed(db0: Db, log: seq<Event>, k: PeerKey, n: nat) returns (a: nat)
    requires HowManyPassed(db0, log, k, n) >= 1
    ensures a < n && Passed(db0, log, a, k)
  {
    if Passed(db0, log, n - 1, k) { a := n - 1; } else { a := SomePassed(db0, log, k, n - 1); }
  }

  lemma {:induction false} TwoPassedIsTwo(db0: Db, log: seq<Event>, k: PeerKey, n: nat)
    ensures HowManyPassed(db0, log, k, n) >= 2 <==> TwoPassed(db0, log, k, n)
  {
    if n > 0 {
      TwoPassedIsTwo(db0, log, k, n - 1);
      if TwoPassed(db0, log, k, n) && !TwoPassed(db0, log, k, n - 1) {
        var a: nat, b: nat :| a < b < n && Passed(db0, log, a, k) && Passed(db0, log, b, k);
        assert b == n - 1;
        PassedCounts(db0, log, k, n, a);
      }
      if HowManyPassed(db0, log, k, n) >= 2 {
        if !TwoPassed(db0, log, k, n - 1) {
          var a := SomePassed(db0, log, k, n - 1);
          assert a < n - 1 && Passed(db0, log, a, k) && Passed(db0, log, n - 1, k);
        }
      }
    }
  }

  /** After any run of any number of applies, stopped ones included: a peer has as many new nodes as applies looked at
      it, with a name, before anyone was written as its owner and then had their insert accepted - so a second one
      exactly if two such looks came before every write. */
  lemma SecondNodeExactly(s: State, steps: seq<Step>, canon: Canon, k: PeerKey)
    requires Fresh(s) && Sound(s.db) && Legal(s, steps, canon)
    ensures var r := Run(s, steps, canon);
            && NodesFor(r.log, k) <= HowManyPassed(s.db, r.log, k, |s.procs|)
            && (Settled(r) ==> NodesFor(r.log, k) == HowManyPassed(s.db, r.log, k, |s.procs|))
            && (Settled(r) ==>
                  (NodesFor(r.log, k) >= 2 <==> TwoPassed(s.db, r.log, k, |s.procs|)))
  {
    var r := Run(s, steps, canon);
    FreshIsOk(s);
    RunKeepsInv(s.db, s, steps, canon);
    NodesAdd(r.log, k, |s.procs|);
    assert KeyOk(s.db, r, k);
    MadeIsPassed(s.db, r, k, |s.procs|);
    TwoPassedIsTwo(s.db, r.log, k, |s.procs|);
  }

  // ---------------------------------------------------------------- two tabs

  // Both applies at one stage.
  function Both(db: Db, p: string, d: Decision, a: Stage, b: Stage, existing: set<string>, log: seq<Event>): State {
    State(db, [Proc(p, [d], 0, a, existing), Proc(p, [d], 0, b, existing)], log)
  }

  lemma Turn(s: State, step: Step, rest: seq<Step>, canon: Canon)
    requires Enabled(s, step) && Legal(Next(s, step, canon), rest, canon)
    ensures Legal(s, [step] + rest, canon)
    ensures Run(s, [step] + rest, canon) == Run(Next(s, step, canon), rest, canon)
  {
    assert ([step] + rest)[1..] == rest;
  }

  const FIRST := Step(0, Go)
  const SECOND := Step(1, Go)

  // One turn each.
  ghost predicate Turns(s: State, s2: State, canon: Canon) {
    Enabled(s, FIRST) && Enabled(Next(s, FIRST, canon), SECOND) && Next(Next(s, FIRST, canon), SECOND, canon) == s2
  }

  lemma TwoTurns(s: State, s2: State, rest: seq<Step>, canon: Canon)
    requires Turns(s, s2, canon) && Legal(s2, rest, canon)
    ensures Legal(s, [FIRST, SECOND] + rest, canon) && Run(s, [FIRST, SECOND] + rest, canon) == Run(s2, rest, canon)
  {
    Turn(Next(s, FIRST, canon), SECOND, rest, canon);
    Turn(s, FIRST, [SECOND] + rest, canon);
    assert [FIRST] + ([SECOND] + rest) == [FIRST, SECOND] + rest;
  }

  lemma BothList(db: Db, p: string, d: Decision, canon: Canon)
    ensures Turns(Both(db, p, d, Listing, Listing, {}, []), Both(db, p, d, Deciding, Deciding, Cidrs(db), []), canon)
  {
  }

  lemma BothLook(db: Db, p: string, d: Decision, pubKey: Bytes, ex: set<string>, canon: Canon)
    requires d.action.CreateNode? && PeerId.DecodePeerId(d.peerId) == Some(pubKey) && Trim(d.nodeName) != ""
    requires PeerKey(p, d.peerId) !in db.owners
    ensures var k := PeerKey(p, d.peerId);
            Turns(Both(db, p, d, Deciding, Deciding, ex, []),
                  Both(db, p, d, Making(pubKey), Making(pubKey), ex, [Looked(0, k, true), Looked(1, k, true)]), canon)
  {
    var s, pr := Both(db, p, d, Deciding, Deciding, ex, []), Proc(p, [d], 0, Deciding, ex);
    assert Gone(db, 0, pr) == Look(db, 0, pr, d, pubKey) && Gone(db, 1, pr) == Look(db, 1, pr, d, pubKey);
  }

  // The tables after both made a node and wrote it as the peer's owner.
  function TwoNodes(db: Db, p: string, d: Decision): Db {
    var id, node := db.nextNode, Node(Trim(d.nodeName), NodeKind(d.nodeKind), "network_node");
    db.(nodes := db.nodes[id := node][id + 1 := node], nextNode := id + 2)
  }

  lemma BothMake(db: Db, p: string, d: Decision, pubKey: Bytes, ex: set<string>, log: seq<Event>, canon: Canon)
    ensures var k, id := PeerKey(p, d.peerId), db.nextNode;
            Turns(Both(db, p, d, Making(pubKey), Making(pubKey), ex, log),
                  Both(TwoNodes(db, p, d), p, d, Assigning(pubKey, id), Assigning(pubKey, id + 1), ex,
                       log + [Made(0, k, id)] + [Made(1, k, id + 1)]), canon)
  {
  }

  lemma BothAssign(db: Db, p: string, d: Decision, pubKey: Bytes, id: int, ex: set<string>, log: seq<Event>,
                   canon: Canon)
    ensures var k := PeerKey(p, d.peerId);
            Turns(Both(db, p, d, Assigning(pubKey, id), Assigning(pubKey, id + 1), ex, log),
                  Both(db.(owners := db.owners[k := id + 1]), p, d,
                       Labelling(pubKey, id), Labelling(pubKey, id + 1), ex,
                       log + [Assigned(0, k, id)] + [Assigned(1, k, id + 1)]), canon)
  {
    var k := PeerKey(p, d.peerId);
    assert db.owners[k := id][k := id + 1] == db.owners[k := id + 1];
  }

  // Both nodes are made and written, the second last.
  function BothWritten(db: Db, p: string, d: Decision, pubKey: Bytes): State {
    var k, id, two := PeerKey(p, d.peerId), db.nextNode, TwoNodes(db, p, d);
    Both(two.(owners := two.owners[k := id + 1]), p, d, Labelling(pubKey, id), Labelling(pubKey, id + 1), Cidrs(db),
         [Looked(0, k, true), Looked(1, k, true)] + [Made(0, k, id)] + [Made(1, k, id + 1)]
         + [Assigned(0, k, id)] + [Assigned(1, k, id + 1)])
  }

  lemma WriteRun(db: Db, p: string, d: Decision, pubKey: Bytes, made: seq<Event>, canon: Canon)
    returns (steps: seq<Step>)
    requires var k, id := PeerKey(p, d.peerId), db.nextNode;
             made == [Looked(0, k, true), Looked(1, k, true)] + [Made(0, k, id)] + [Made(1, k, id + 1)]
    ensures var id := db.nextNode;
            var s := Both(TwoNodes(db, p, d), p, d, Assigning(pubKey, id), Assigning(pubKey, id + 1), Cidrs(db), made);
            Legal(s, steps, canon) && Run(s, steps, canon) == BothWritten(db, p, d, pubKey)
  {
    var id, two := db.nextNode, TwoNodes(db, p, d);
    BothAssign(two, p, d, pubKey, id, Cidrs(db), made, canon);
    TwoTurns(Both(two, p, d, Assigning(pubKey, id), Assigning(pubKey, id + 1), Cidrs(db), made),
             BothWritten(db, p, d, pubKey), [], canon);
    steps := [FIRST, SECOND] + [];
  }

  lemma MakeRun(db: Db, p: string, d: Decision, pubKey: Bytes, looks: seq<Event>, canon: Canon)
    returns (steps: seq<Step>)
    requires var k := PeerKey(p, d.peerId); looks == [Looked(0, k, true), Looked(1, k, true)]
    ensures var s := Both(db, p, d, Making(pubKey), Making(pubKey), Cidrs(db), looks);
            Legal(s, steps, canon) && Run(s, steps, canon) == BothWritten(db, p, d, pubKey)
  {
    var k, id := PeerKey(p, d.peerId), db.nextNode;
    var made := looks + [Made(0, k, id)] + [Made(1, k, id + 1)];
    steps := WriteRun(db, p, d, pubKey, made, canon);
    BothMake(db, p, d, pubKey, Cidrs(db), looks, canon);
    TwoTurns(Both(db, p, d, Making(pubKey), Making(pubKey), Cidrs(db), looks),
             Both(TwoNodes(db, p, d), p, d, Assigning(pubKey, id), Assigning(pubKey, id + 1), Cidrs(db), made),
             steps, canon);
    steps := [FIRST, SECOND] + steps;
  }

  lemma LookRun(db: Db, p: string, d: Decision, pubKey: Bytes, canon: Canon) returns (steps: seq<Step>)
    requires d.action.CreateNode? && PeerId.DecodePeerId(d.peerId) == Some(pubKey) && Trim(d.nodeName) != ""
    requires PeerKey(p, d.peerId) !in db.owners
    ensures var s := Both(db, p, d, Deciding, Deciding, Cidrs(db), []);
            Legal(s, steps, canon) && Run(s, steps, canon) == BothWritten(db, p, d, pubKey)
  {
    var k := PeerKey(p, d.peerId);
    var looks := [Looked(0, k, true), Looked(1, k, true)];
    steps := MakeRun(db, p, d, pubKey, looks, canon);
    BothLook(db, p, d, pubKey, Cidrs(db), canon);
    TwoTurns(Both(db, p, d, Deciding, Deciding, Cidrs(db), []),
             Both(db, p, d, Making(pubKey), Making(pubKey), Cidrs(db), looks), steps, canon);
    steps := [FIRST, SECOND] + steps;
  }

  lemma RacingRun(db: Db, p: string, d: Decision, pubKey: Bytes, canon: Canon) returns (steps: seq<Step>)
    requires d.action.CreateNode? && PeerId.DecodePeerId(d.peerId) == Some(pubKey) && Trim(d.nodeName) != ""
    requires PeerKey(p, d.peerId) !in db.owners
    ensures var s := Both(db, p, d, Listing, Listing, {}, []);
            Legal(s, steps, canon) && Run(s, steps, canon) == BothWritten(db, p, d, pubKey)
  {
    steps := LookRun(db, p, d, pubKey, canon);
    BothList(db, p, d, canon);
    TwoTurns(Both(db, p, d, Listing, Listing, {}, []), Both(db, p, d, Deciding, Deciding, Cidrs(db), []), steps, canon);
    steps := [FIRST, SECOND] + steps;
  }

  lemma NodesOneMore(log: seq<Event>, e: Event, k: PeerKey)
    ensures NodesFor(log + [e], k) == NodesFor(log, k) + if e.Made? && e.key == k then 1 else 0
  {
    assert (log + [e])[..|log|] == log;
  }

  lemma TwoMade(k: PeerKey, id: int)
    ensures NodesFor([Looked(0, k, true), Looked(1, k, true)] + [Made(0, k, id)] + [Made(1, k, id + 1)]
                     + [Assigned(0, k, id)] + [Assigned(1, k, id + 1)], k) == 2
  {
    var looks := [Looked(0, k, true), Looked(1, k, true)];
    assert looks == [] + [Looked(0, k, true)] + [Looked(1, k, true)];
    NodesOneMore([], Looked(0, k, true), k);
    NodesOneMore([] + [Looked(0, k, true)], Looked(1, k, true), k);
    NodesOneMore(looks, Made(0, k, id), k);
    NodesOneMore(looks + [Made(0, k, id)], Made(1, k, id + 1), k);
    NodesOneMore(looks + [Made(0, k, id)] + [Made(1, k, id + 1)], Assigned(0, k, id), k);
    NodesOneMore(looks + [Made(0, k, id)] + [Made(1, k, id + 1)] + [Assigned(0, k, id)], Assigned(1, k, id + 1), k);
  }

  lemma WrittenTwice(db: Db, p: string, d: Decision, pubKey: Bytes)
    ensures var r, k := BothWritten(db, p, d, pubKey), PeerKey(p, d.peerId);
            && NodesFor(r.log, k) == 2 && r.db.owners == db.owners[k := db.nextNode + 1]
            && r.db.nodes.Keys == db.nodes.Keys + {db.nextNode, db.nextNode + 1}
  {
    TwoMade(PeerKey(p, d.peerId), db.nextNode);
  }

  /** The claim does fail for nodes: two tabs apply one decision that names an unowned peer, call by call in turn. Two
      nodes are made; the peer ends with the second, the first is left without a peer. */
  lemma RacingTabsMakeTwoNodes(db: Db, p: string, d: Decision, pubKey: Bytes, canon: Canon)
    returns (steps: seq<Step>)
    requires d.action.CreateNode? && PeerId.DecodePeerId(d.peerId) == Some(pubKey) && Trim(d.nodeName) != ""
    requires Sound(db) && PeerKey(p, d.peerId) !in db.owners
    ensures var s, k := Both(db, p, d, Listing, Listing, {}, []), PeerKey(p, d.peerId);
            && Fresh(s) && Legal(s, steps, canon)
            && var r := Run(s, steps, canon);
               && NodesFor(r.log, k) == 2 && r.db.owners == db.owners[k := db.nextNode + 1]
               && r.db.nodes.Keys == db.nodes.Keys + {db.nextNode, db.nextNode + 1}
  {
    steps := RacingRun(db, p, d, pubKey, canon);
    WrittenTwice(db, p, d, pubKey);
  }

  // ---------------------------------------------------------------- a failed call, and another try

  // The apply has listed, looked at the unowned peer and made a node for it.
  function Tried(s: State, who: nat, p: string, d: Decision, pubKey: Bytes): State
    requires who < |s.procs|
  {
    var k, id := PeerKey(p, d.peerId), s.db.nextNode;
    var node := Node(Trim(d.nodeName), NodeKind(d.nodeKind), "network_node");
    State(s.db.(nodes := s.db.nodes[id := node], nextNode := id + 1),
          s.procs[who := Proc(p, [d], 0, Assigning(pubKey, id), Cidrs(s.db))],
          s.log + [Looked(who, k, true)] + [Made(who, k, id)])
  }

  lemma OneTry(s: State, who: nat, p: string, d: Decision, pubKey: Bytes, rest: seq<Step>, canon: Canon)
    returns (steps: seq<Step>)
    requires d.action.CreateNode? && PeerId.DecodePeerId(d.peerId) == Some(pubKey) && Trim(d.nodeName) != ""
    requires who < |s.procs| && s.procs[who] == Proc(p, [d], 0, Listing, {}) && PeerKey(p, d.peerId) !in s.db.owners
    requires Legal(Tried(s, who, p, d, pubKey), rest, canon)
    ensures steps == [Step(who, Go), Step(who, Go), Step(who, Go)] + rest
    ensures Legal(s, steps, canon) && Run(s, steps, canon) == Run(Tried(s, who, p, d, pubKey), rest, canon)
  {
    var go, pr := Step(who, Go), Proc(p, [d], 0, Deciding, Cidrs(s.db));
    var s1 := State(s.db, s.procs[who := pr], s.log);
    var s2 := State(s.db, s.procs[who := pr.(stage := Making(pubKey))],
                    s.log + [Looked(who, PeerKey(p, d.peerId), true)]);
    assert s.log + [] == s.log;
    assert Next(s, go, canon) == s1;
    assert Gone(s.db, who, pr) == Look(s.db, who, pr, d, pubKey);
    assert Next(s1, go, canon) == s2;
    assert Next(s2, go, canon) == Tried(s, who, p, d, pubKey);
    Turn(s2, go, rest, canon);
    Turn(s1, go, [go] + rest, canon);
    Turn(s, go, [go] + ([go] + rest), canon);
    steps := [go] + ([go] + ([go] + rest));
  }

  // The first try stopped after its node, the second not.
  function Retried(db: Db, p: string, d: Decision, pubKey: Bytes): State {
    var k, id, two := PeerKey(p, d.peerId), db.nextNode, TwoNodes(db, p, d);
    Both(two.(owners := two.owners[k := id + 1]), p, d, Stopped, Labelling(pubKey, id + 1), Cidrs(db),
         [Looked(0, k, true)] + [Made(0, k, id)] + [Looked(1, k, true)] + [Made(1, k, id + 1)]
         + [Assigned(1, k, id + 1)])
  }

  predicate OnlyBy(steps: seq<Step>, who: nat) {
    forall step | step in steps :: step.who == who
  }

  // The first apply is over when the second begins.
  ghost predicate InTurn(steps: seq<Step>) {
    exists n: nat :: n <= |steps| && OnlyBy(steps[..n], 0) && OnlyBy(steps[n..], 1)
  }

  lemma MadeAgain(k: PeerKey, id: int)
    ensures NodesFor([Looked(0, k, true)] + [Made(0, k, id)] + [Looked(1, k, true)] + [Made(1, k, id + 1)]
                     + [Assigned(1, k, id + 1)], k) == 2
  {
    var none: seq<Event>, a := [], [Looked(0, k, true)];
    assert none + [Looked(0, k, true)] == a;
    NodesOneMore(none, Looked(0, k, true), k);
    NodesOneMore(a, Made(0, k, id), k);
    NodesOneMore(a + [Made(0, k, id)], Looked(1, k, true), k);
    NodesOneMore(a + [Made(0, k, id)] + [Looked(1, k, true)], Made(1, k, id + 1), k);
    NodesOneMore(a + [Made(0, k, id)] + [Looked(1, k, true)] + [Made(1, k, id + 1)], Assigned(1, k, id + 1), k);
  }

  // Between the tries: one node is there, without a peer.
  function Halfway(db: Db, p: string, d: Decision): State {
    var k, id, node := PeerKey(p, d.peerId), db.nextNode, Node(Trim(d.nodeName), NodeKind(d.nodeKind), "network_node");
    State(db.(nodes := db.nodes[id := node], nextNode := id + 1),
          [Proc(p, [d], 0, Stopped, Cidrs(db)), Proc(p, [d], 0, Listing, {})],
          [Looked(0, k, true)] + [Made(0, k, id)])
  }

  lemma FirstStops(db: Db, p: string, d: Decision, pubKey: Bytes, canon: Canon)
    ensures var s1 := Tried(Both(db, p, d, Listing, Listing, {}, []), 0, p, d, pubKey);
            Enabled(s1, Step(0, Fail)) && Next(s1, Step(0, Fail), canon) == Halfway(db, p, d)
  {
    var s := Both(db, p, d, Listing, Listing, {}, []);
    assert s.log + [Looked(0, PeerKey(p, d.peerId), true)] == [Looked(0, PeerKey(p, d.peerId), true)];
  }

  lemma SecondWrites(db: Db, p: string, d: Decision, pubKey: Bytes, canon: Canon)
    ensures var s3 := Tried(Halfway(db, p, d), 1, p, d, pubKey);
            Enabled(s3, SECOND) && Next(s3, SECOND, canon) == Retried(db, p, d, pubKey)
  {
  }

  lemma SecondRun(db: Db, p: string, d: Decision, pubKey: Bytes, canon: Canon) returns (steps: seq<Step>)
    requires d.action.CreateNode? && PeerId.DecodePeerId(d.peerId) == Some(pubKey) && Trim(d.nodeName) != ""
    requires PeerKey(p, d.peerId) !in db.owners
    ensures var half := Halfway(db, p, d);
            Legal(half, steps, canon) && Run(half, steps, canon) == Retried(db, p, d, pubKey)
    ensures OnlyBy(steps, 1)
  {
    SecondWrites(db, p, d, pubKey, canon);
    Turn(Tried(Halfway(db, p, d), 1, p, d, pubKey), SECOND, [], canon);
    steps := OneTry(Halfway(db, p, d), 1, p, d, pubKey, [SECOND] + [], canon);
  }

  lemma RetryRun(db: Db, p: string, d: Decision, pubKey: Bytes, canon: Canon) returns (steps: seq<Step>)
    requires d.action.CreateNode? && PeerId.DecodePeerId(d.peerId) == Some(pubKey) && Trim(d.nodeName) != ""
    requires PeerKey(p, d.peerId) !in db.owners
    ensures var s := Both(db, p, d, Listing, Listing, {}, []);
            Legal(s, steps, canon) && Run(s, steps, canon) == Retried(db, p, d, pubKey)
    ensures InTurn(steps)
  {
    var s, fail := Both(db, p, d, Listing, Listing, {}, []), Step(0, Fail);
    var second := SecondRun(db, p, d, pubKey, canon);
    FirstStops(db, p, d, pubKey, canon);
    Turn(Tried(s, 0, p, d, pubKey), fail, second, canon);
    steps := OneTry(s, 0, p, d, pubKey, [fail] + second, canon);
    assert steps[4..] == second && steps[..4] == [FIRST, FIRST, FIRST, fail];
  }

  lemma RetriedTwice(db: Db, p: string, d: Decision, pubKey: Bytes)
    ensures var r, k := Retried(db, p, d, pubKey), PeerKey(p, d.peerId);
            && NodesFor(r.log, k) == 2 && r.db.owners == db.owners[k := db.nextNode + 1]
            && r.db.nodes.Keys == db.nodes.Keys + {db.nextNode, db.nextNode + 1}
  {
    MadeAgain(PeerKey(p, d.peerId), db.nextNode);
  }

  /** It fails without a race as well: an apply is stopped between making the node and writing its owner, and only then
      another one runs. Two nodes are made, the first is left without a peer. */
  lemma RetryMakesTwoNodes(db: Db, p: string, d: Decision, pubKey: Bytes, canon: Canon) returns (steps: seq<Step>)
    requires d.action.CreateNode? && PeerId.DecodePeerId(d.peerId) == Some(pubKey) && Trim(d.nodeName) != ""
    requires Sound(db) && PeerKey(p, d.peerId) !in db.owners
    ensures var s, k := Both(db, p, d, Listing, Listing, {}, []), PeerKey(p, d.peerId);
            && Fresh(s) && Legal(s, steps, canon)
            && var r := Run(s, steps, canon);
               && NodesFor(r.log, k) == 2 && r.db.owners == db.owners[k := db.nextNode + 1]
               && r.db.nodes.Keys == db.nodes.Keys + {db.nextNode, db.nextNode + 1}
    ensures InTurn(steps)
  {
    steps := RetryRun(db, p, d, pubKey, canon);
    RetriedTwice(db, p, d, pubKey);
  }
}
