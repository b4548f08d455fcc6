/**
  What a run of the status cache (internal/api/statuscache.go) has to show for itself, told from its steps: whose read
  was asked for, when, what the providers replied, and when those replies came back.
*/
module StatusTrace {
  import opened Prelude
  import opened StatusCache

  lemma {:induction false} RunOneMore(s: State, steps: seq<Step>, step: Step)
    ensures Legal(s, steps + [step]) <==> Legal(s, steps) && Enabled(Run(s, steps), step)
    ensures Legal(s, steps + [step]) ==> Run(s, steps + [step]) == Next(Run(s, steps), step)
    decreases |steps|
  {
    if steps == [] {
      assert (steps + [step])[1..] == [];
    } else {
      assert (steps + [step])[1..] == steps[1..] + [step];
      if Enabled(s, steps[0]) { RunOneMore(Next(s, steps[0]), steps[1..], step); }
    }
  }

  // The time after these steps.
  function Clock(now: int, steps: seq<Step>): int {
    if steps == [] then now
    else Clock(now, steps[..|steps| - 1]) + if steps[|steps| - 1].Tick? then steps[|steps| - 1].elapsed else 0
  }

  // The reads asked for, in order, with the time of asking.
  function Asked(now: int, steps: seq<Step>): seq<(Key, int)> {
    if steps == [] then []
    else
      var init, step := steps[..|steps| - 1], steps[|steps| - 1];
      Asked(now, init) + if step.Begin? then [(step.key, Clock(now, init))] else []
  }

  // ---------------------------------------------------------------- calls

  /** At the i-th step, at time `t`, the flight calls the provider for the key; it is the n-th call. */
  ghost predicate RequestedAt(now: int, steps: seq<Step>, i: nat, f: nat, n: nat, key: Key, t: int) {
    && i < |steps| && Legal(Initial(now), steps[..i]) && steps[i] == Request(f) && t == Clock(now, steps[..i])
    && var s := Run(Initial(now), steps[..i]);
    f < |s.flights| && s.flights[f].key == key && n == |s.calls|
  }

  /** At the i-th step, at time `t`, the provider answers the n-th call with `reply`. */
  ghost predicate RepliedAt(now: int, steps: seq<Step>, i: nat, f: nat, n: nat, reply: Reply, t: int) {
    && i < |steps| && Legal(Initial(now), steps[..i]) && steps[i] == Respond(f, reply) && t == Clock(now, steps[..i])
    && var s := Run(Initial(now), steps[..i]);
    f < |s.flights| && s.flights[f].stage == Calling(n)
  }

  /** At the i-th step, at time `t`, the reply of the n-th call is given its end. */
  ghost predicate StampedAt(now: int, steps: seq<Step>, i: nat, f: nat, n: nat, t: int) {
    && i < |steps| && Legal(Initial(now), steps[..i]) && steps[i] == Stamp(f) && t == Clock(now, steps[..i])
    && var s := Run(Initial(now), steps[..i]);
    f < |s.flights| && s.flights[f].stage == Replied(n)
  }

  ghost predicate Requested(now: int, steps: seq<Step>, n: nat, c: Call) {
    exists i: nat, f: nat :: RequestedAt(now, steps, i, f, n, c.key, c.began)
  }

  ghost predicate WasReplied(now: int, steps: seq<Step>, n: nat, c: Call) {
    c.reply.Some? ==> exists i: nat, f: nat :: RepliedAt(now, steps, i, f, n, c.reply.value, c.returned)
  }

  ghost predicate WasStamped(now: int, steps: seq<Step>, n: nat, c: Call) {
    c.stamped.Some? ==> exists i: nat, f: nat :: StampedAt(now, steps, i, f, n, c.stamped.value)
  }

  ghost predicate Told(now: int, steps: seq<Step>, n: nat, c: Call) {
    Requested(now, steps, n, c) && WasReplied(now, steps, n, c) && WasStamped(now, steps, n, c)
  }

  lemma RequestedStays(now: int, steps: seq<Step>, step: Step, n: nat, c: Call, c': Call)
    requires Requested(now, steps, n, c) && c'.key == c.key && c'.began == c.began
    ensures Requested(now, steps + [step], n, c')
  {
    var i: nat, f: nat :| RequestedAt(now, steps, i, f, n, c.key, c.began);
    assert (steps + [step])[..i] == steps[..i];
    assert RequestedAt(now, steps + [step], i, f, n, c'.key, c'.began);
  }

  lemma RepliedStays(now: int, steps: seq<Step>, step: Step, n: nat, c: Call, c': Call)
    requires WasReplied(now, steps, n, c) && c'.reply == c.reply && c'.returned == c.returned
    ensures WasReplied(now, steps + [step], n, c')
  {
    if c.reply.Some? {
      var i: nat, f: nat :| RepliedAt(now, steps, i, f, n, c.reply.value, c.returned);
      assert (steps + [step])[..i] == steps[..i];
      assert RepliedAt(now, steps + [step], i, f, n, c'.reply.value, c'.returned);
    }
  }

  lemma StampStays(now: int, steps: seq<Step>, step: Step, n: nat, c: Call, c': Call)
    requires WasStamped(now, steps, n, c) && c'.stamped == c.stamped
    ensures WasStamped(now, steps + [step], n, c')
  {
    if c.stamped.Some? {
      var i: nat, f: nat :| StampedAt(now, steps, i, f, n, c.stamped.value);
      assert (steps + [step])[..i] == steps[..i];
      assert StampedAt(now, steps + [step], i, f, n, c'.stamped.value);
    }
  }

  // A call that was there before the step.
  lemma OldCall(now: int, steps: seq<Step>, step: Step, n: nat)
    requires Legal(Initial(now), steps) && Enabled(Run(Initial(now), steps), step)
    requires var s := Run(Initial(now), steps);
             s.now == Clock(now, steps) && n < |s.calls| && Told(now, steps, n, s.calls[n])
    ensures Told(now, steps + [step], n, Next(Run(Initial(now), steps), step).calls[n])
  {
    var s, all := Run(Initial(now), steps), steps + [step];
    var c, c' := s.calls[n], Next(s, step).calls[n];
    assert all[..|steps|] == steps && all[|steps|] == step;
    RequestedStays(now, steps, step, n, c, c');
    if step.Respond? && s.flights[step.flight].stage == Calling(n) {
      assert RepliedAt(now, all, |steps|, step.flight, n, step.reply, s.now);
    } else {
      RepliedStays(now, steps, step, n, c, c');
    }
    if step.Stamp? && s.flights[step.flight].stage == Replied(n) {
      assert StampedAt(now, all, |steps|, step.flight, n, s.now);
    } else {
      StampStays(now, steps, step, n, c, c');
    }
  }

  lemma NewCall(now: int, steps: seq<Step>, f: nat)
    requires Legal(Initial(now), steps) && Enabled(Run(Initial(now), steps), Request(f))
    requires Run(Initial(now), steps).now == Clock(now, steps)
    ensures var s := Run(Initial(now), steps);
            Told(now, steps + [Request(f)], |s.calls|, Next(s, Request(f)).calls[|s.calls|])
  {
    var s, all := Run(Initial(now), steps), steps + [Request(f)];
    assert all[..|steps|] == steps && all[|steps|] == Request(f);
    assert RequestedAt(now, all, |steps|, f, |s.calls|, s.flights[f].key, s.now);
  }

  ghost predicate ReadsTold(now: int, steps: seq<Step>, s: State) {
    && s.now == Clock(now, steps)
    && |s.callers| == |Asked(now, steps)|
    && (forall c | 0 <= c < |s.callers| :: (s.callers[c].key, s.callers[c].began) == Asked(now, steps)[c])
  }

  lemma ReadsStep(now: int, steps: seq<Step>, step: Step, s: State)
    requires ReadsTold(now, steps, s) && Enabled(s, step)
    ensures ReadsTold(now, steps + [step], Next(s, step))
  {
    assert (steps + [step])[..|steps|] == steps;
  }

  /** Time, reads and calls are those of the steps: the clock has moved by the ticks, each read is for the key it was
      asked for, and each call was made, answered and stamped by the step, and at the time, that its record says. */
  ghost predicate AsTold(now: int, steps: seq<Step>, s: State) {
    && ReadsTold(now, steps, s)
    && (forall n | 0 <= n < |s.calls| :: Told(now, steps, n, s.calls[n]))
  }

  lemma CallsAsTold(now: int, steps: seq<Step>, step: Step)
    requires Legal(Initial(now), steps) && Enabled(Run(Initial(now), steps), step)
    requires AsTold(now, steps, Run(Initial(now), steps))
    ensures var s' := Next(Run(Initial(now), steps), step);
            forall n | 0 <= n < |s'.calls| :: Told(now, steps + [step], n, s'.calls[n])
  {
    var s := Run(Initial(now), steps);
    var s' := Next(s, step);
    forall n | 0 <= n < |s'.calls| ensures Told(now, steps + [step], n, s'.calls[n]) {
      if n < |s.calls| { OldCall(now, steps, step, n); } else { NewCall(now, steps, step.flight); }
    }
  }

  lemma StepAsTold(now: int, steps: seq<Step>, step: Step)
    requires Legal(Initial(now), steps) && Enabled(Run(Initial(now), steps), step)
    requires AsTold(now, steps, Run(Initial(now), steps))
    ensures AsTold(now, steps + [step], Next(Run(Initial(now), steps), step))
  {
    ReadsStep(now, steps, step, Run(Initial(now), steps));
    CallsAsTold(now, steps, step);
  }

  /** Every run. */
  lemma {:induction false} RunIsAsTold(now: int, steps: seq<Step>)
    requires Legal(Initial(now), steps)
    ensures AsTold(now, steps, Run(Initial(now), steps))
    decreases |steps|
  {
    if steps != [] {
      var init, step := steps[..|steps| - 1], steps[|steps| - 1];
      assert steps == init + [step];
      RunOneMore(Initial(now), init, step);
      RunIsAsTold(now, init);
      StepAsTold(now, init, step);
    }
  }

  /** Every answered read got what the provider of its key replied in the run, to a call made for that key: the c-th
      read asked for is answered with the reply of a step of the run. */
  lemma EveryAnswerWasGiven(now: int, steps: seq<Step>, c: nat)
    requires Legal(Initial(now), steps)
    requires var s := Run(Initial(now), steps); c < |s.callers| && s.callers[c].at.Done?
    ensures c < |Asked(now, steps)|
    ensures var e, key := Run(Initial(now), steps).callers[c].at.entry, Asked(now, steps)[c].0;
            && (exists i: nat, f: nat, t: int :: RequestedAt(now, steps, i, f, e.call, key, t))
            && (exists i: nat, f: nat, t: int :: RepliedAt(now, steps, i, f, e.call, e.reply, t))
  {
    var s := Run(Initial(now), steps);
    RunIsAsTold(now, steps);
    EveryRunIsSafe(now, steps);
    var e, call := s.callers[c].at.entry, s.calls[s.callers[c].at.entry.call];
    assert Told(now, steps, e.call, call);
    var i: nat, f: nat :| RequestedAt(now, steps, i, f, e.call, call.key, call.began);
    var j: nat, g: nat :| RepliedAt(now, steps, j, g, e.call, e.reply, call.returned);
  }
}
