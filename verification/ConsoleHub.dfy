/**
  The console hub (internal/console/hub.go): single-use tickets and concurrency caps. Each critical section is
  one step, so a run is any interleaving of the two sections of Mint, of Consume, Acquire and the release
  closures, called any number of times. Token randomness appears as freshness of the token.
*/
module ConsoleHub {
  import opened Prelude

  // Caps that are not positive are off.
  datatype Config = Config(maxPerUser: int, maxTotal: int, ticketTtl: int)

  datatype Ticket = Ticket(username: string, target: string, expires: int)
  datatype Session = Session(username: string, live: bool)
  datatype Redemption = Redemption(token: string, username: string, target: string, at: int)

  // sessions: one entry per successful Acquire; `live` is the sync.Once not yet used up. minted and redeemed
  // record what happened.
  datatype Hub = Hub(
    tickets: map<string, Ticket>, byUser: map<string, int>, total: int, sessions: seq<Session>,
    minted: map<string, Ticket>, redeemed: seq<Redemption>)

  datatype Step =
    | MintCheck(username: string, now: int)
    | MintStore(token: string, username: string, target: string, now: int)
    | Consume(token: string, sweepAt: int, now: int)
    | Acquire(username: string)
    | Release(session: nat)

  const EMPTY: Hub := Hub(map[], map[], 0, [], map[], [])

  function Held(h: Hub, u: string): int {
    if u in h.byUser then h.byUser[u] else 0
  }

  predicate HasCapacity(cfg: Config, h: Hub, u: string) {
    !(cfg.maxPerUser > 0 && Held(h, u) >= cfg.maxPerUser) && !(cfg.maxTotal > 0 && h.total >= cfg.maxTotal)
  }

  function Swept(tickets: map<string, Ticket>, now: int): map<string, Ticket> {
    map k | k in tickets && !(now > tickets[k].expires) :: tickets[k]
  }

  predicate Redeemable(h: Hub, token: string, sweepAt: int, now: int) {
    token in Swept(h.tickets, sweepAt) && !(now > h.tickets[token].expires)
  }

  predicate Enabled(h: Hub, step: Step) {
    match step
    case MintStore(token, _, _, _) => token !in h.minted
    case Release(s) => s < |h.sessions|
    case _ => true
  }

  function Next(cfg: Config, h: Hub, step: Step): Hub
    requires Enabled(h, step)
  {
    match step
    case MintCheck(u, now) => if HasCapacity(cfg, h, u) then h.(tickets := Swept(h.tickets, now)) else h
    case MintStore(token, u, target, now) =>
      var t := Ticket(u, target, now + cfg.ticketTtl);
      h.(tickets := h.tickets[token := t], minted := h.minted[token := t])
    case Consume(token, sweepAt, now) =>
      var tickets := Swept(h.tickets, sweepAt);
      if Redeemable(h, token, sweepAt, now) then
        h.(tickets := tickets - {token},
           redeemed := h.redeemed + [Redemption(token, h.tickets[token].username, h.tickets[token].target, now)])
      else h.(tickets := tickets)
    case Acquire(u) =>
      if !HasCapacity(cfg, h, u) then h
      else h.(byUser := h.byUser[u := Held(h, u) + 1], total := h.total + 1,
              sessions := h.sessions + [Session(u, true)])
    case Release(s) =>
      var u := h.sessions[s].username;
      if !h.sessions[s].live then h
      else
        h.(byUser := if Held(h, u) - 1 <= 0 then h.byUser - {u} else h.byUser[u := Held(h, u) - 1],
           total := h.total - 1, sessions := h.sessions[s := Session(u, false)])
  }

  predicate Legal(cfg: Config, h: Hub, steps: seq<Step>)
    decreases |steps|
  {
    steps == [] || (Enabled(h, steps[0]) && Legal(cfg, Next(cfg, h, steps[0]), steps[1..]))
  }

  function Run(cfg: Config, h: Hub, steps: seq<Step>): Hub
    requires Legal(cfg, h, steps)
    decreases |steps|
  {
    if steps == [] then h else Run(cfg, Next(cfg, h, steps[0]), steps[1..])
  }

  // ---------------------------------------------------------------- counting

  function Live(sessions: seq<Session>): nat {
    if sessions == [] then 0
    else Live(sessions[..|sessions| - 1]) + (if sessions[|sessions| - 1].live then 1 else 0)
  }

  function LiveOf(sessions: seq<Session>, u: string): nat {
    if sessions == [] then 0
    else
      var s := sessions[|sessions| - 1];
      LiveOf(sessions[..|sessions| - 1], u) + (if s.live && s.username == u then 1 else 0)
  }

  lemma {:induction false} EndCounts(sessions: seq<Session>, i: nat, u: string)
    requires i < |sessions| && sessions[i].live
    ensures var after := sessions[i := Session(sessions[i].username, false)];
            Live(after) == Live(sessions) - 1
            && LiveOf(after, u) == LiveOf(sessions, u) - (if sessions[i].username == u then 1 else 0)
  {
    var n := |sessions| - 1;
    var after := sessions[i := Session(sessions[i].username, false)];
    if i < n {
      EndCounts(sessions[..n], i, u);
      assert after[..n] == sessions[..n][i := Session(sessions[i].username, false)];
    } else {
      assert after[..n] == sessions[..n];
    }
  }

  ghost function Sum(m: map<string, int>): int {
    if m == map[] then 0
    else
      var k :| k in m;
      m[k] + Sum(m - {k})
  }

  lemma {:induction false} SumAt(m: map<string, int>, k: string)
    requires k in m
    ensures Sum(m) == m[k] + Sum(m - {k})
    decreases |m|
  {
    var j :| j in m && Sum(m) == m[j] + Sum(m - {j});
    if j != k {
      SumAt(m - {j}, k);
      SumAt(m - {k}, j);
      assert m - {j} - {k} == m - {k} - {j};
    }
  }

  lemma SumSet(m: map<string, int>, k: string, v: int)
    ensures Sum(m[k := v]) == Sum(m) - (if k in m then m[k] else 0) + v
    ensures Sum(m - {k}) == Sum(m) - (if k in m then m[k] else 0)
  {
    SumAt(m[k := v], k);
    assert m[k := v] - {k} == m - {k};
    if k in m { SumAt(m, k); } else { assert m - {k} == m; }
  }

  // ---------------------------------------------------------------- the invariant

  /** The counters: the total is the number of unreleased acquisitions and the sum of the per-user counts,
      each of which is that user's number of unreleased acquisitions. */
  ghost predicate Counted(h: Hub) {
    && h.total == Live(h.sessions) && h.total == Sum(h.byUser)
    && (forall u :: Held(h, u) == LiveOf(h.sessions, u))
    && (forall u | u in h.byUser :: h.byUser[u] > 0)
  }

  ghost predicate Capped(cfg: Config, h: Hub) {
    && (cfg.maxTotal > 0 ==> h.total <= cfg.maxTotal)
    && (cfg.maxPerUser > 0 ==> forall u :: LiveOf(h.sessions, u) <= cfg.maxPerUser)
  }

  predicate Honest(h: Hub, r: Redemption) {
    && r.token in h.minted && r.username == h.minted[r.token].username && r.target == h.minted[r.token].target
    && r.at <= h.minted[r.token].expires
  }

  /** Every redemption is of a minted ticket, for its user and target, not after its expiry, and no ticket is
      redeemed twice or still redeemable afterwards. */
  ghost predicate SingleUse(h: Hub) {
    && (forall k | k in h.tickets :: k in h.minted && h.tickets[k] == h.minted[k])
    && (forall i | 0 <= i < |h.redeemed| :: Honest(h, h.redeemed[i]))
    && (forall i | 0 <= i < |h.redeemed| :: h.redeemed[i].token !in h.tickets)
    && (forall i, j | 0 <= i < j < |h.redeemed| :: h.redeemed[i].token != h.redeemed[j].token)
  }

  lemma AcquireKeeps(cfg: Config, h: Hub, u: string)
    requires Counted(h) && Capped(cfg, h)
    ensures Counted(Next(cfg, h, Acquire(u))) && Capped(cfg, Next(cfg, h, Acquire(u)))
  {
    if HasCapacity(cfg, h, u) {
      var h' := Next(cfg, h, Acquire(u));
      SumSet(h.byUser, u, Held(h, u) + 1);
      assert h'.sessions[..|h.sessions|] == h.sessions;
      assert forall v :: LiveOf(h'.sessions, v) == LiveOf(h.sessions, v) + if v == u then 1 else 0;
      assert Held(h, u) == LiveOf(h.sessions, u);
    }
  }

  lemma ReleaseKeeps(cfg: Config, h: Hub, s: nat)
    requires Counted(h) && Capped(cfg, h) && s < |h.sessions|
    ensures Counted(Next(cfg, h, Release(s))) && Capped(cfg, Next(cfg, h, Release(s)))
  {
    if h.sessions[s].live {
      var h' := Next(cfg, h, Release(s));
      var u := h.sessions[s].username;
      SumSet(h.byUser, u, Held(h, u) - 1);
      forall v ensures Held(h', v) == LiveOf(h'.sessions, v) && LiveOf(h'.sessions, v) <= LiveOf(h.sessions, v) {
        EndCounts(h.sessions, s, v);
        assert Held(h, v) == LiveOf(h.sessions, v);
      }
      EndCounts(h.sessions, s, u);
    }
  }

  lemma TicketsKeep(cfg: Config, h: Hub, step: Step)
    requires SingleUse(h) && Enabled(h, step)
    ensures SingleUse(Next(cfg, h, step))
  {
    var h' := Next(cfg, h, step);
    forall i | 0 <= i < |h.redeemed| ensures Honest(h', h.redeemed[i]) && h.redeemed[i].token !in h'.tickets {
      assert Honest(h, h.redeemed[i]);
    }
  }

  ghost predicate Inv(cfg: Config, h: Hub) {
    Counted(h) && Capped(cfg, h) && SingleUse(h)
  }

  lemma SameCounters(cfg: Config, h: Hub, h': Hub)
    requires Counted(h) && Capped(cfg, h) && h'.byUser == h.byUser && h'.total == h.total && h'.sessions == h.sessions
    ensures Counted(h') && Capped(cfg, h')
  {
    forall u ensures Held(h', u) == LiveOf(h'.sessions, u) { assert Held(h, u) == LiveOf(h.sessions, u); }
  }

  lemma StepKeepsInv(cfg: Config, h: Hub, step: Step)
    requires Inv(cfg, h) && Enabled(h, step)
    ensures Inv(cfg, Next(cfg, h, step))
  {
    TicketsKeep(cfg, h, step);
    match step
    case Acquire(u) => AcquireKeeps(cfg, h, u);
    case Release(s) => ReleaseKeeps(cfg, h, s);
    case _ => SameCounters(cfg, h, Next(cfg, h, step));
  }

  /** In every interleaving the counters agree, neither cap is exceeded, and tickets are single-use. */
  lemma {:induction false} RunKeepsInv(cfg: Config, h: Hub, steps: seq<Step>)
    requires Inv(cfg, h) && Legal(cfg, h, steps)
    ensures Inv(cfg, Run(cfg, h, steps))
    decreases |steps|
  {
    if steps != [] {
      StepKeepsInv(cfg, h, steps[0]);
      RunKeepsInv(cfg, Next(cfg, h, steps[0]), steps[1..]);
    }
  }

  lemma EveryRunIsSafe(cfg: Config, steps: seq<Step>)
    requires Legal(cfg, EMPTY, steps)
    ensures Inv(cfg, Run(cfg, EMPTY, steps))
  {
    assert Counted(EMPTY);
    RunKeepsInv(cfg, EMPTY, steps);
  }

  // ---------------------------------------------------------------- redeemability

  function Started(step: Step, clock: int): int {
    match step
    case MintCheck(_, now) => now
    case MintStore(_, _, _, now) => now
    case Consume(_, sweepAt, _) => sweepAt
    case _ => clock
  }

  function Ended(step: Step, clock: int): int {
    if step.Consume? then step.now else Started(step, clock)
  }

  // The clock does not go back.
  predicate Timely(steps: seq<Step>, clock: int)
    decreases |steps|
  {
    steps == [] ||
    (clock <= Started(steps[0], clock) <= Ended(steps[0], clock) && Timely(steps[1..], Ended(steps[0], clock)))
  }

  function Clocked(steps: seq<Step>, clock: int): int
    decreases |steps|
  {
    if steps == [] then clock else Clocked(steps[1..], Ended(steps[0], clock))
  }

  predicate WasRedeemed(h: Hub, token: string) {
    exists r | r in h.redeemed :: r.token == token
  }

  /** A minted ticket is there until it is redeemed or past its end. */
  ghost predicate Kept(h: Hub, clock: int) {
    forall k | k in h.minted && !WasRedeemed(h, k) && clock <= h.minted[k].expires :: k in h.tickets
  }

  lemma StepKeepsTickets(cfg: Config, h: Hub, step: Step, clock: int)
    requires SingleUse(h) && Kept(h, clock) && Enabled(h, step)
    requires clock <= Started(step, clock) <= Ended(step, clock)
    ensures Kept(Next(cfg, h, step), Ended(step, clock))
  {
    var h', end := Next(cfg, h, step), Ended(step, clock);
    forall k | k in h'.minted && !WasRedeemed(h', k) && end <= h'.minted[k].expires ensures k in h'.tickets {
      assert WasRedeemed(h, k) ==> WasRedeemed(h', k) by { assert forall r | r in h.redeemed :: r in h'.redeemed; }
      if step.Consume? && Redeemable(h, step.token, step.sweepAt, step.now) {
        assert h'.redeemed[|h.redeemed|].token == step.token;
      }
    }
  }

  lemma {:induction false} RunKeepsTickets(cfg: Config, h: Hub, steps: seq<Step>, clock: int)
    requires SingleUse(h) && Kept(h, clock) && Legal(cfg, h, steps) && Timely(steps, clock)
    ensures SingleUse(Run(cfg, h, steps)) && Kept(Run(cfg, h, steps), Clocked(steps, clock))
    decreases |steps|
  {
    if steps != [] {
      TicketsKeep(cfg, h, steps[0]);
      StepKeepsTickets(cfg, h, steps[0], clock);
      RunKeepsTickets(cfg, Next(cfg, h, steps[0]), steps[1..], Ended(steps[0], clock));
    }
  }

  // After every run on a clock that does not go back, a ticket can be redeemed exactly if it was minted, has not been
  // redeemed and is not past its end.
  lemma RedeemableWhileKept(cfg: Config, steps: seq<Step>, clock: int, token: string, sweepAt: int, now: int)
    requires Legal(cfg, EMPTY, steps) && Timely(steps, clock) && Clocked(steps, clock) <= sweepAt <= now
    ensures var h := Run(cfg, EMPTY, steps);
            Redeemable(h, token, sweepAt, now) <==>
            token in h.minted && !WasRedeemed(h, token) && now <= h.minted[token].expires
  {
    RunKeepsTickets(cfg, EMPTY, steps, clock);
  }

  /** Releasing twice is releasing once. */
  lemma ReleaseIsIdempotent(cfg: Config, h: Hub, s: nat)
    requires s < |h.sessions|
    ensures var once := Next(cfg, h, Release(s)); s < |once.sessions| && Next(cfg, once, Release(s)) == once
  {
  }

  // ---------------------------------------------------------------- the object

  class HubObject {
    const cfg: Config
    var tickets: map<string, Ticket>
    var byUser: map<string, int>
    var total: int
    var sessions: seq<Session>
    ghost var minted: map<string, Ticket>
    ghost var redeemed: seq<Redemption>

    ghost function State(): Hub
      reads this
    {
      Hub(tickets, byUser, total, sessions, minted, redeemed)
    }

    constructor (cfg: Config)
      ensures this.cfg == (if cfg.ticketTtl == 0 then cfg.(ticketTtl := 30_000_000_000) else cfg)
      ensures State() == EMPTY
    {
      this.cfg := if cfg.ticketTtl == 0 then cfg.(ticketTtl := 30_000_000_000) else cfg;
      tickets, byUser, total, sessions := map[], map[], 0, [];
      minted, redeemed := map[], [];
    }

    method CheckCapacity(username: string) returns (ok: bool)
      ensures ok <==> HasCapacity(cfg, State(), username)
    {
      var held := if username in byUser then byUser[username] else 0;
      if cfg.maxPerUser > 0 && held >= cfg.maxPerUser { return false; }
      if cfg.maxTotal > 0 && total >= cfg.maxTotal { return false; }
      ok := true;
    }

    method Sweep(now: int)
      modifies this`tickets
      ensures tickets == Swept(old(tickets), now)
    {
      var keys := tickets.Keys;
      ghost var all := tickets;
      while keys != {}
        invariant keys <= all.Keys
        invariant forall k :: k in tickets <==> k in all && (k in keys || !(now > all[k].expires))
        invariant forall k | k in tickets :: tickets[k] == all[k]
        decreases keys
      {
        var k :| k in keys;
        if now > tickets[k].expires { tickets := tickets - {k}; }
        keys := keys - {k};
      }
    }

    method MintFirst(username: string, now: int) returns (ok: bool)
      modifies this`tickets
      ensures State() == Next(cfg, old(State()), MintCheck(username, now))
      ensures ok <==> HasCapacity(cfg, old(State()), username)
    {
      ok := CheckCapacity(username);
      if ok { Sweep(now); }
    }

    method MintSecond(token: string, username: string, target: string, now: int)
      requires token !in minted
      modifies this`tickets, this`minted
      ensures State() == Next(cfg, old(State()), MintStore(token, username, target, now))
    {
      var t := Ticket(username, target, now + cfg.ticketTtl);
      tickets := tickets[token := t];
      minted := minted[token := t];
    }

    method Redeem(token: string, sweepAt: int, now: int) returns (r: Option<(string, string)>)
      modifies this`tickets, this`redeemed
      ensures State() == Next(cfg, old(State()), Consume(token, sweepAt, now))
      ensures r.Some? <==> Redeemable(old(State()), token, sweepAt, now)
      ensures r.Some? ==> r.value == (old(tickets)[token].username, old(tickets)[token].target)
    {
      Sweep(sweepAt);
      if token !in tickets || now > tickets[token].expires { return None; }
      var t := tickets[token];
      tickets := tickets - {token};
      redeemed := redeemed + [Redemption(token, t.username, t.target, now)];
      r := Some((t.username, t.target));
    }

    method Open(username: string) returns (session: Option<nat>)
      modifies this`byUser, this`total, this`sessions
      ensures State() == Next(cfg, old(State()), Acquire(username))
      ensures session.Some? <==> HasCapacity(cfg, old(State()), username)
      ensures session.Some? ==> session.value == |old(sessions)|
    {
      var ok := CheckCapacity(username);
      if !ok { return None; }
      byUser := byUser[username := (if username in byUser then byUser[username] else 0) + 1];
      total := total + 1;
      session := Some(|sessions|);
      sessions := sessions + [Session(username, true)];
    }

    method Close(session: nat)
      requires session < |sessions|
      modifies this`byUser, this`total, this`sessions
      ensures State() == Next(cfg, old(State()), Release(session))
    {
      if !sessions[session].live { return; }
      var u := sessions[session].username;
      sessions := sessions[session := Session(u, false)];
      byUser := byUser[u := (if u in byUser then byUser[u] else 0) - 1];
      if byUser[u] <= 0 { byUser := byUser - {u}; }
      total := total - 1;
      assert State().byUser == Next(cfg, old(State()), Release(session)).byUser;
    }
  }
}
