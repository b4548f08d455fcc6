/**
  What the console hub does, told from the calls alone: whom a ticket lets in and where, when it can be redeemed, and
  which sessions are open.
*/
module ConsoleTrace {
  import opened Prelude
  import opened ConsoleHub

  // ---------------------------------------------------------------- runs and their beginnings

  lemma {:induction false} RunOneMore(cfg: Config, h: Hub, init: seq<Step>, step: Step)
    requires Legal(cfg, h, init + [step])
    ensures Legal(cfg, h, init) && Enabled(Run(cfg, h, init), step)
    ensures Run(cfg, h, init + [step]) == Next(cfg, Run(cfg, h, init), step)
    decreases |init|
  {
    var all := init + [step];
    if init == [] {
      assert all[0] == step && all[1..] == [];
    } else {
      assert all[0] == init[0] && all[1..] == init[1..] + [step];
      RunOneMore(cfg, Next(cfg, h, init[0]), init[1..], step);
    }
  }

  lemma {:induction false} ClockOneMore(init: seq<Step>, step: Step, clock: int)
    requires Timely(init + [step], clock)
    ensures Timely(init, clock) && clock <= Clocked(init, clock)
    ensures Clocked(init, clock) <= Started(step, Clocked(init, clock)) <= Ended(step, Clocked(init, clock))
    ensures Clocked(init + [step], clock) == Ended(step, Clocked(init, clock))
    decreases |init|
  {
    var all := init + [step];
    if init == [] {
      assert all[0] == step && all[1..] == [];
    } else {
      assert all[0] == init[0] && all[1..] == init[1..] + [step];
      ClockOneMore(init[1..], step, Ended(init[0], clock));
    }
  }

  // ---------------------------------------------------------------- tickets

  predicate MintedAt(steps: seq<Step>, i: nat, token: string) {
    i < |steps| && steps[i].MintStore? && steps[i].token == token
  }

  predicate PresentedAt(steps: seq<Step>, j: nat, token: string) {
    j < |steps| && steps[j].Consume? && steps[j].token == token
  }

  // The redemption was made by presenting, in time, a token minted for that user and that target.
  ghost predicate WasAsked(cfg: Config, steps: seq<Step>, r: Redemption, i: nat, j: nat) {
    && i < j && MintedAt(steps, i, r.token) && PresentedAt(steps, j, r.token)
    && r.username == steps[i].username && r.target == steps[i].target
    && r.at == steps[j].now <= steps[i].now + cfg.ticketTtl
  }

  // The tickets ever made are those of the steps, one a token.
  ghost predicate MintsTold(cfg: Config, steps: seq<Step>, h: Hub) {
    && (forall i: nat | i < |steps| && steps[i].MintStore? ::
          && steps[i].token in h.minted
          && h.minted[steps[i].token] == Ticket(steps[i].username, steps[i].target, steps[i].now + cfg.ticketTtl))
    && (forall k | k in h.minted :: exists i: nat :: MintedAt(steps, i, k))
  }

  lemma MintsStep(cfg: Config, init: seq<Step>, step: Step, h: Hub)
    requires MintsTold(cfg, init, h) && Enabled(h, step)
    ensures MintsTold(cfg, init + [step], Next(cfg, h, step))
  {
    var all, h' := init + [step], Next(cfg, h, step);
    forall i: nat | i < |all| && all[i].MintStore?
      ensures all[i].token in h'.minted
              && h'.minted[all[i].token] == Ticket(all[i].username, all[i].target, all[i].now + cfg.ticketTtl)
    {
      if i < |init| { assert all[i] == init[i]; }
    }
    forall k | k in h'.minted ensures exists i: nat :: MintedAt(all, i, k) {
      if k in h.minted {
        var i: nat :| MintedAt(init, i, k);
        assert MintedAt(all, i, k);
      } else {
        assert MintedAt(all, |init|, k);
      }
    }
  }

  lemma {:induction false} RunMints(cfg: Config, steps: seq<Step>)
    requires Legal(cfg, EMPTY, steps)
    ensures MintsTold(cfg, steps, Run(cfg, EMPTY, steps))
  {
    if steps != [] {
      var init, step := steps[..|steps| - 1], steps[|steps| - 1];
      assert steps == init + [step];
      RunOneMore(cfg, EMPTY, init, step);
      RunMints(cfg, init);
      MintsStep(cfg, init, step, Run(cfg, EMPTY, init));
    }
  }

  // A step that redeems presents a token that was minted, in time, and lets in as it was minted.
  lemma RedeemStep(cfg: Config, h: Hub, step: Step)
    requires SingleUse(h) && Enabled(h, step) && Next(cfg, h, step).redeemed != h.redeemed
    ensures step.Consume? && step.token in h.minted && step.now <= h.minted[step.token].expires
    ensures var t := h.minted[step.token];
            Next(cfg, h, step).redeemed == h.redeemed + [Redemption(step.token, t.username, t.target, step.now)]
  {
  }

  lemma AskedStays(cfg: Config, init: seq<Step>, step: Step, r: Redemption, i: nat, j: nat)
    requires WasAsked(cfg, init, r, i, j)
    ensures WasAsked(cfg, init + [step], r, i, j)
  {
  }

  lemma NewWasAsked(cfg: Config, init: seq<Step>, step: Step, h: Hub) returns (i: nat)
    requires MintsTold(cfg, init, h) && step.Consume? && step.token in h.minted
    requires step.now <= h.minted[step.token].expires
    ensures var t := h.minted[step.token];
            WasAsked(cfg, init + [step], Redemption(step.token, t.username, t.target, step.now), i, |init|)
  {
    i :| MintedAt(init, i, step.token);
    assert (init + [step])[i] == init[i];
  }

  /** Every redemption is the presentation of a token, after it was minted and not later than the ticket time after
      that, and it lets in the user and to the target of the mint. */
  lemma {:induction false} RedemptionsWereAsked(cfg: Config, steps: seq<Step>, n: nat) returns (i: nat, j: nat)
    requires Legal(cfg, EMPTY, steps) && n < |Run(cfg, EMPTY, steps).redeemed|
    ensures WasAsked(cfg, steps, Run(cfg, EMPTY, steps).redeemed[n], i, j)
    decreases |steps|
  {
    var init, step := steps[..|steps| - 1], steps[|steps| - 1];
    assert steps == init + [step];
    RunOneMore(cfg, EMPTY, init, step);
    var h := Run(cfg, EMPTY, init);
    if n < |h.redeemed| {
      i, j := RedemptionsWereAsked(cfg, init, n);
      AskedStays(cfg, init, step, h.redeemed[n], i, j);
      assert h.redeemed <= Next(cfg, h, step).redeemed;
    } else {
      EveryRunIsSafe(cfg, init);
      RedeemStep(cfg, h, step);
      RunMints(cfg, init);
      i := NewWasAsked(cfg, init, step, h);
      j := |init|;
    }
  }

  // ---------------------------------------------------------------- when a ticket can be redeemed

  // Presented again after it was minted.
  ghost predicate PresentedSince(steps: seq<Step>, i: nat, token: string) {
    exists j: nat :: i < j && PresentedAt(steps, j, token)
  }

  // A token presented after it was minted has been redeemed or was past its end.
  ghost predicate Spent(cfg: Config, steps: seq<Step>, h: Hub, clock: int) {
    forall i: nat, j: nat, k | i < j && MintedAt(steps, i, k) && PresentedAt(steps, j, k) ::
      WasRedeemed(h, k) || clock > steps[i].now + cfg.ticketTtl
  }

  lemma RedeemedStays(cfg: Config, h: Hub, step: Step, k: string)
    requires Enabled(h, step) && WasRedeemed(h, k)
    ensures WasRedeemed(Next(cfg, h, step), k)
  {
    assert h.redeemed <= Next(cfg, h, step).redeemed;
  }

  // Presenting a ticket that is kept redeems it.
  lemma PresentingRedeems(cfg: Config, h: Hub, step: Step, clock: int)
    requires SingleUse(h) && Kept(h, clock) && step.Consume? && clock <= step.sweepAt <= step.now
    requires step.token in h.minted && step.now <= h.minted[step.token].expires
    ensures WasRedeemed(Next(cfg, h, step), step.token)
  {
    if WasRedeemed(h, step.token) {
      RedeemedStays(cfg, h, step, step.token);
    } else {
      assert Next(cfg, h, step).redeemed[|h.redeemed|].token == step.token;
    }
  }

  lemma SpentStep(cfg: Config, init: seq<Step>, step: Step, h: Hub, clock: int)
    requires SingleUse(h) && Kept(h, clock) && MintsTold(cfg, init, h) && Spent(cfg, init, h, clock) && Enabled(h, step)
    requires clock <= Started(step, clock) <= Ended(step, clock)
    ensures Spent(cfg, init + [step], Next(cfg, h, step), Ended(step, clock))
  {
    var all, h', end := init + [step], Next(cfg, h, step), Ended(step, clock);
    forall i: nat, j: nat, k | i < j && MintedAt(all, i, k) && PresentedAt(all, j, k)
      ensures WasRedeemed(h', k) || end > all[i].now + cfg.ticketTtl
    {
      assert all[i] == init[i] && MintedAt(init, i, k);
      if j < |init| {
        assert PresentedAt(init, j, k);
        if WasRedeemed(h, k) { RedeemedStays(cfg, h, step, k); }
      } else if end <= all[i].now + cfg.ticketTtl {
        PresentingRedeems(cfg, h, step, clock);
      }
    }
  }

  lemma {:induction false} RunSpends(cfg: Config, steps: seq<Step>, clock: int)
    requires Legal(cfg, EMPTY, steps) && Timely(steps, clock)
    ensures Spent(cfg, steps, Run(cfg, EMPTY, steps), Clocked(steps, clock))
  {
    if steps != [] {
      var init, step := steps[..|steps| - 1], steps[|steps| - 1];
      assert steps == init + [step];
      RunOneMore(cfg, EMPTY, init, step);
      ClockOneMore(init, step, clock);
      RunSpends(cfg, init, clock);
      RunMints(cfg, init);
      RunKeepsTickets(cfg, EMPTY, init, clock);
      SpentStep(cfg, init, step, Run(cfg, EMPTY, init), Clocked(init, clock));
    }
  }

  lemma NotMintedBefore(cfg: Config, init: seq<Step>, step: Step)
    requires Legal(cfg, EMPTY, init + [step]) && step.MintStore?
    ensures forall i: nat :: !MintedAt(init, i, step.token)
  {
    RunOneMore(cfg, EMPTY, init, step);
    RunMints(cfg, init);
  }

  lemma {:induction false} MintedOnce(cfg: Config, steps: seq<Step>, i: nat, i': nat, token: string)
    requires Legal(cfg, EMPTY, steps) && MintedAt(steps, i, token) && MintedAt(steps, i', token)
    ensures i == i'
    decreases |steps|
  {
    var init, step := steps[..|steps| - 1], steps[|steps| - 1];
    assert steps == init + [step];
    if i < |init| && i' < |init| {
      RunOneMore(cfg, EMPTY, init, step);
      MintedOnce(cfg, init, i, i', token);
    } else {
      assert i < |init| ==> MintedAt(init, i, token);
      assert i' < |init| ==> MintedAt(init, i', token);
      NotMintedBefore(cfg, init, step);
    }
  }

  // The token was minted and not presented since, and the time is not past its end.
  ghost predicate Good(cfg: Config, steps: seq<Step>, i: nat, token: string, now: int) {
    MintedAt(steps, i, token) && !PresentedSince(steps, i, token) && now <= steps[i].now + cfg.ticketTtl
  }

  /** After every run on a clock that does not go back, a token can be redeemed exactly if it was minted, has not been
      presented since, and the ticket time has not passed since; it then lets in the user and to the target of the
      mint. */
  lemma RedeemableExactly(cfg: Config, steps: seq<Step>, clock: int, token: string, sweepAt: int, now: int)
    requires Legal(cfg, EMPTY, steps) && Timely(steps, clock) && Clocked(steps, clock) <= sweepAt <= now
    ensures var h := Run(cfg, EMPTY, steps);
            && (Redeemable(h, token, sweepAt, now) <==> exists i: nat :: Good(cfg, steps, i, token, now))
            && (forall i: nat | Good(cfg, steps, i, token, now) ::
                  && token in h.tickets
                  && h.tickets[token].username == steps[i].username && h.tickets[token].target == steps[i].target)
  {
    var h := Run(cfg, EMPTY, steps);
    RunMints(cfg, steps);
    RedeemableWhileKept(cfg, steps, clock, token, sweepAt, now);
    RunKeepsTickets(cfg, EMPTY, steps, clock);
    if Redeemable(h, token, sweepAt, now) {
      var i: nat :| MintedAt(steps, i, token);
      assert !PresentedSince(steps, i, token) by { RunSpends(cfg, steps, clock); }
      assert Good(cfg, steps, i, token, now);
    }
    forall i: nat | Good(cfg, steps, i, token, now)
      ensures Redeemable(h, token, sweepAt, now) && h.tickets[token] == h.minted[token]
    {
      if WasRedeemed(h, token) { UnpresentedIsLeft(cfg, steps, i, token); }
    }
  }

  lemma UnpresentedIsLeft(cfg: Config, steps: seq<Step>, i: nat, token: string)
    requires Legal(cfg, EMPTY, steps) && MintedAt(steps, i, token) && !PresentedSince(steps, i, token)
    ensures !WasRedeemed(Run(cfg, EMPTY, steps), token)
  {
    var h := Run(cfg, EMPTY, steps);
    if WasRedeemed(h, token) {
      var n: nat :| n < |h.redeemed| && h.redeemed[n].token == token;
      var i', j := RedemptionsWereAsked(cfg, steps, n);
      MintedOnce(cfg, steps, i, i', token);
      assert PresentedSince(steps, i, token);
    }
  }

  /** Presenting a token lets in exactly then, as the user and to the target of the mint, and at no other time. */
  lemma PresentingExactly(cfg: Config, steps: seq<Step>, clock: int, token: string, sweepAt: int, now: int, i: nat)
    requires Legal(cfg, EMPTY, steps) && Timely(steps, clock) && Clocked(steps, clock) <= sweepAt <= now
    requires MintedAt(steps, i, token)
    ensures var h := Run(cfg, EMPTY, steps);
            Next(cfg, h, Consume(token, sweepAt, now)).redeemed ==
            h.redeemed + if Good(cfg, steps, i, token, now)
                         then [Redemption(token, steps[i].username, steps[i].target, now)] else []
  {
    RedeemableExactly(cfg, steps, clock, token, sweepAt, now);
    forall i': nat | Good(cfg, steps, i', token, now) ensures i' == i { MintedOnce(cfg, steps, i, i', token); }
  }

  // ---------------------------------------------------------------- sessions

  function Open(): Session -> bool {
    (s: Session) => s.live
  }

  function OpenOf(u: string): Session -> bool {
    (s: Session) => s.live && s.username == u
  }

  lemma {:induction false} LiveExactly(sessions: seq<Session>, u: string)
    ensures Live(sessions) == |Where(sessions, Open())|
    ensures LiveOf(sessions, u) == |Where(sessions, OpenOf(u))|
  {
    if sessions != [] {
      var init, s := sessions[..|sessions| - 1], sessions[|sessions| - 1];
      assert sessions == init + [s];
      LiveExactly(init, u);
      WhereOneMore(init, s, Open());
      WhereOneMore(init, s, OpenOf(u));
    }
  }

  // There is room for one more session of the user, and for one more in all.
  predicate Room(cfg: Config, sessions: seq<Session>, u: string) {
    && (cfg.maxPerUser > 0 ==> |Where(sessions, OpenOf(u))| < cfg.maxPerUser)
    && (cfg.maxTotal > 0 ==> |Where(sessions, Open())| < cfg.maxTotal)
  }

  /** A session is opened exactly if there is room, counted over the sessions that are open. */
  lemma AcquireExactly(cfg: Config, steps: seq<Step>, u: string)
    requires Legal(cfg, EMPTY, steps)
    ensures var h := Run(cfg, EMPTY, steps);
            Next(cfg, h, Acquire(u)).sessions ==
            h.sessions + if Room(cfg, h.sessions, u) then [Session(u, true)] else []
  {
    var h := Run(cfg, EMPTY, steps);
    EveryRunIsSafe(cfg, steps);
    LiveExactly(h.sessions, u);
    assert Held(h, u) == LiveOf(h.sessions, u);
  }

  lemma SessionsStep(cfg: Config, h: Hub, step: Step, k: nat)
    requires Enabled(h, step)
    ensures var all := Next(cfg, h, step).sessions;
            && |h.sessions| <= |all| <= |h.sessions| + 1 && (|h.sessions| < |all| ==> step.Acquire?)
            && (k < |h.sessions| ==>
                  all[k] == Session(h.sessions[k].username, h.sessions[k].live && step != Release(k)))
  {
  }

  // The session of a position was opened by the step at i.
  ghost predicate OpenedAt(cfg: Config, steps: seq<Step>, i: nat, k: nat) {
    && i < |steps| && steps[i].Acquire? && Legal(cfg, EMPTY, steps[..i])
    && |Run(cfg, EMPTY, steps[..i]).sessions| == k && Room(cfg, Run(cfg, EMPTY, steps[..i]).sessions, steps[i].username)
  }

  /** Every session was opened by an Acquire that found room, is that user's, and is open exactly if its release has not
      been called. */
  lemma {:induction false} SessionsExactly(cfg: Config, steps: seq<Step>, k: nat) returns (i: nat)
    requires Legal(cfg, EMPTY, steps) && k < |Run(cfg, EMPTY, steps).sessions|
    ensures OpenedAt(cfg, steps, i, k)
    ensures Run(cfg, EMPTY, steps).sessions[k] == Session(steps[i].username, Release(k) !in steps)
    decreases |steps|
  {
    var init, step := steps[..|steps| - 1], steps[|steps| - 1];
    assert steps == init + [step];
    RunOneMore(cfg, EMPTY, init, step);
    var h := Run(cfg, EMPTY, init);
    SessionsStep(cfg, h, step, k);
    if k < |h.sessions| {
      i := SessionsExactly(cfg, init, k);
      assert OpenedAt(cfg, steps, i, k) by { assert steps[..i] == init[..i]; }
    } else {
      i := |init|;
      AcquireExactly(cfg, init, step.username);
      assert OpenedAt(cfg, steps, i, k) by { assert steps[..i] == init; }
      NotYetOpen(cfg, init, k);
    }
  }

  lemma {:induction false} NotYetOpen(cfg: Config, steps: seq<Step>, k: nat)
    requires Legal(cfg, EMPTY, steps) && |Run(cfg, EMPTY, steps).sessions| <= k
    ensures Release(k) !in steps
    decreases |steps|
  {
    if steps != [] {
      var init, step := steps[..|steps| - 1], steps[|steps| - 1];
      assert steps == init + [step];
      RunOneMore(cfg, EMPTY, init, step);
      NotYetOpen(cfg, init, k);
    }
  }
}
