/**
  The status cache (internal/api/statuscache.go): a TTL cache in front of slow providers, with
  singleflight collapsing concurrent misses. Callers run concurrently, so the protocol is a state
  machine whose steps are the code's atomic actions: the two critical sections of a read, joining or
  opening a flight, the provider's reply, stamping, storing, finishing, and `invalidate`. Every theorem
  is over all interleavings of those steps. `Status` and `Peers` are the two maps of the cache.
*/
module StatusCache {
  import opened Prelude

  const SECOND: int := 1_000_000_000 // in nanoseconds
  const TTL: int := 5 * SECOND

  datatype Kind = Status | Peers
  datatype Key = Key(kind: Kind, name: string)

  datatype Reply = Answer(text: string) | Failure(message: string)

  // `call` is the provider call the reply came from; the code does not store it.
  datatype Entry = Entry(reply: Reply, expires: int, call: nat)

  type Cache = map<Key, Entry>

  function Fresh(cache: Cache, key: Key, now: int): Option<Entry> {
    if key in cache && now < cache[key].expires then Some(cache[key]) else None
  }

  function Drop(cache: Cache, name: string): Cache {
    map k | k in cache && k.name != name :: cache[k]
  }

  /** The object itself: its two maps and the bodies of its critical sections, tied to `Cache`. */
  class Store {
    var status: map<string, Entry>
    var peers: map<string, Entry>

    function Find(key: Key): Option<Entry>
      reads this
    {
      var m := if key.kind.Status? then status else peers;
      if key.name in m then Some(m[key.name]) else None
    }

    ghost predicate Shows(cache: Cache)
      reads this
    {
      forall k: Key :: Find(k) == if k in cache then Some(cache[k]) else None
    }

    constructor ()
      ensures Shows(map[])
    {
      status, peers := map[], map[];
    }

    method Lookup(key: Key, now: int, ghost cache: Cache) returns (r: Option<Entry>)
      requires Shows(cache)
      ensures r == Fresh(cache, key, now)
    {
      var found := Find(key);
      r := if found.Some? && now < found.value.expires then found else None;
    }

    method Put(key: Key, e: Entry, ghost cache: Cache)
      requires Shows(cache)
      modifies this
      ensures Shows(cache[key := e])
    {
      if key.kind.Status? {
        status := status[key.name := e];
      } else {
        peers := peers[key.name := e];
      }
      assert forall k: Key :: Find(k) == if k == key then Some(e) else old(Find(k));
    }

    method Invalidate(name: string, ghost cache: Cache)
      requires Shows(cache)
      modifies this
      ensures Shows(Drop(cache, name))
    {
      status := status - {name};
      peers := peers - {name};
      assert forall k: Key :: Find(k) == if k.name == name then None else old(Find(k));
    }
  }

  // ---------------------------------------------------------------- the protocol

  // One execution of the function passed to singleflight.Do.
  datatype Stage =
    | Rechecking
    | Departing            // the re-check missed and the lock is released; the call has not begun
    | Calling(call: nat)   // prov.Status(ctx) / prov.ListPeers(ctx) is running
    | Replied(call: nat)
    | Stamped(entry: Entry)
    | Ready(entry: Entry)  // stored, or found by the re-check
    | Finished(entry: Entry)

  datatype Flight = Flight(key: Key, start: int, stage: Stage, checked: int, hit: bool, finished: int)

  datatype Call = Call(key: Key, began: int, reply: Option<Reply>, returned: int, stamped: Option<int>)

  datatype Via = Cached(at: int) | Shared(flight: nat)

  datatype Progress = Started | Missed | Waiting(flight: nat) | Done(entry: Entry, via: Via, ended: int)

  datatype Caller = Caller(key: Key, began: int, at: Progress)

  datatype State = State(
    now: int, cache: Cache, active: map<Key, nat>,
    flights: seq<Flight>, calls: seq<Call>, callers: seq<Caller>)

  datatype Step =
    | Tick(elapsed: nat)
    | Begin(key: Key)
    | Check(caller: nat)
    | Join(caller: nat)
    | Recheck(flight: nat)
    | Request(flight: nat)
    | Respond(flight: nat, reply: Reply)
    | Stamp(flight: nat)
    | Save(flight: nat)
    | Finish(flight: nat)
    | Return(caller: nat)
    | Invalidate(name: string)

  function Initial(now: int): State {
    State(now, map[], map[], [], [], [])
  }

  predicate Enabled(s: State, step: Step) {
    match step
    case Tick(_) => true
    case Begin(_) => true
    case Check(c) => c < |s.callers| && s.callers[c].at.Started?
    case Join(c) => c < |s.callers| && s.callers[c].at.Missed?
    case Recheck(f) => f < |s.flights| && s.flights[f].stage.Rechecking?
    case Request(f) => f < |s.flights| && s.flights[f].stage.Departing?
    case Respond(f, _) => f < |s.flights| && s.flights[f].stage.Calling? && s.flights[f].stage.call < |s.calls|
    case Stamp(f) => f < |s.flights| && s.flights[f].stage.Replied? && s.flights[f].stage.call < |s.calls|
                     && s.calls[s.flights[f].stage.call].reply.Some?
    case Save(f) => f < |s.flights| && s.flights[f].stage.Stamped?
    case Finish(f) => f < |s.flights| && s.flights[f].stage.Ready?
    case Return(c) => c < |s.callers| && s.callers[c].at.Waiting? && s.callers[c].at.flight < |s.flights|
                      && s.flights[s.callers[c].at.flight].stage.Finished?
    case Invalidate(_) => true
  }

  function SetCaller(s: State, c: nat, p: Progress): State
    requires c < |s.callers|
  {
    s.(callers := s.callers[c := s.callers[c].(at := p)])
  }

  function SetStage(s: State, f: nat, stage: Stage): State
    requires f < |s.flights|
  {
    s.(flights := s.flights[f := s.flights[f].(stage := stage)])
  }

  function Next(s: State, step: Step): State
    requires Enabled(s, step)
  {
    match step
    case Tick(d) => s.(now := s.now + d)
    case Begin(key) => s.(callers := s.callers + [Caller(key, s.now, Started)])
    case Check(c) =>
      var hit := Fresh(s.cache, s.callers[c].key, s.now);
      SetCaller(s, c, if hit.Some? then Done(hit.value, Cached(s.now), s.now) else Missed)
    case Join(c) =>
      var key := s.callers[c].key;
      if key in s.active then SetCaller(s, c, Waiting(s.active[key]))
      else SetCaller(s, c, Waiting(|s.flights|)).(
        flights := s.flights + [Flight(key, s.now, Rechecking, s.now, false, s.now)],
        active := s.active[key := |s.flights|])
    case Recheck(f) =>
      var key := s.flights[f].key;
      var hit := Fresh(s.cache, key, s.now);
      if hit.Some?
      then s.(flights := s.flights[f := s.flights[f].(stage := Ready(hit.value), checked := s.now, hit := true)])
      else s.(flights := s.flights[f := s.flights[f].(stage := Departing, checked := s.now)])
    case Request(f) =>
      SetStage(s, f, Calling(|s.calls|)).(calls := s.calls + [Call(s.flights[f].key, s.now, None, s.now, None)])
    case Respond(f, r) =>
      var c := s.flights[f].stage.call;
      SetStage(s, f, Replied(c)).(calls := s.calls[c := s.calls[c].(reply := Some(r), returned := s.now)])
    case Stamp(f) =>
      var c := s.flights[f].stage.call;
      SetStage(s, f, Stamped(Entry(s.calls[c].reply.value, s.now + TTL, c))).(
        calls := s.calls[c := s.calls[c].(stamped := Some(s.now))])
    case Save(f) =>
      var e := s.flights[f].stage.entry;
      SetStage(s, f, Ready(e)).(cache := s.cache[s.flights[f].key := e])
    case Finish(f) =>
      s.(flights := s.flights[f := s.flights[f].(stage := Finished(s.flights[f].stage.entry), finished := s.now)],
         active := s.active - {s.flights[f].key})
    case Return(c) =>
      var f := s.callers[c].at.flight;
      SetCaller(s, c, Done(s.flights[f].stage.entry, Shared(f), s.now))
    case Invalidate(name) => s.(cache := Drop(s.cache, name))
  }

  predicate Legal(s: State, steps: seq<Step>)
    decreases |steps|
  {
    steps == [] || (Enabled(s, steps[0]) && Legal(Next(s, steps[0]), steps[1..]))
  }

  function Run(s: State, steps: seq<Step>): State
    requires Legal(s, steps)
    decreases |steps|
  {
    if steps == [] then s else Run(Next(s, steps[0]), steps[1..])
  }

  // ---------------------------------------------------------------- what holds in every reachable state

  /** The entry is what a finished provider call for this very key answered, stamped when it came back. */
  ghost predicate Genuine(s: State, key: Key, e: Entry) {
    && e.call < |s.calls|
    && var c := s.calls[e.call];
    && c.key == key && c.reply == Some(e.reply)
    && c.stamped.Some? && c.began <= c.returned <= c.stamped.value <= s.now
    && e.expires == c.stamped.value + TTL
  }

  /** At most one provider call per key is outstanding. */
  ghost predicate OneOutstandingCall(s: State) {
    forall a, b | 0 <= a < |s.calls| && 0 <= b < |s.calls|
      && s.calls[a].reply.None? && s.calls[b].reply.None? && s.calls[a].key == s.calls[b].key :: a == b
  }

  /** A returned result is genuine, and either was younger than one TTL at a check made by this read or by
      the flight it shared, or was fetched by that flight; the flight was still open when the read joined. */
  ghost predicate GoodReturn(s: State, c: Caller)
    requires c.at.Done?
  {
    && Genuine(s, c.key, c.at.entry)
    && c.began <= c.at.ended <= s.now
    && var stamped := s.calls[c.at.entry.call].stamped.value;
    match c.at.via
    case Cached(t) => c.began <= t <= c.at.ended && stamped <= t < stamped + TTL
    case Shared(f) =>
      && f < |s.flights|
      && var fl := s.flights[f];
      && fl.key == c.key && fl.stage == Finished(c.at.entry)
      && c.began <= fl.finished <= c.at.ended
      && fl.start <= fl.checked <= fl.finished
      && (if fl.hit then stamped <= fl.checked < stamped + TTL
          else fl.checked <= s.calls[c.at.entry.call].began && stamped <= fl.finished)
  }

  ghost predicate EntryOk(s: State, fl: Flight, e: Entry) {
    && Genuine(s, fl.key, e)
    && (if fl.hit then s.calls[e.call].stamped.value <= fl.checked < s.calls[e.call].stamped.value + TTL
        else fl.checked <= s.calls[e.call].began)
  }

  ghost predicate FlightOk(s: State, f: nat)
    requires f < |s.flights|
  {
    var fl := s.flights[f];
    && fl.start <= fl.checked <= s.now
    && (!fl.stage.Finished? ==> fl.key in s.active && s.active[fl.key] == f)
    && match fl.stage
    case Rechecking => !fl.hit
    case Departing => !fl.hit
    case Calling(c) => !fl.hit && c < |s.calls| && s.calls[c].key == fl.key && s.calls[c].reply.None?
                       && s.calls[c].stamped.None?
                       && fl.checked <= s.calls[c].began <= s.now
    case Replied(c) => !fl.hit && c < |s.calls| && s.calls[c].key == fl.key && s.calls[c].reply.Some?
                       && s.calls[c].stamped.None?
                       && fl.checked <= s.calls[c].began <= s.calls[c].returned <= s.now
    case Stamped(e) => !fl.hit && EntryOk(s, fl, e)
    case Ready(e) => EntryOk(s, fl, e)
    case Finished(e) => EntryOk(s, fl, e) && fl.checked <= fl.finished <= s.now
                        && s.calls[e.call].stamped.value <= fl.finished
  }

  ghost predicate CallerOk(s: State, c: Caller) {
    && c.began <= s.now
    && match c.at
    case Started => true
    case Missed => true
    case Waiting(f) => f < |s.flights| && s.flights[f].key == c.key
                       && (s.flights[f].stage.Finished? ==> c.began <= s.flights[f].finished)
    case Done(_, _, _) => GoodReturn(s, c)
  }

  // The call is outstanding and its flight is the one that waits for it.
  ghost predicate Awaited(s: State, c: nat)
    requires c < |s.calls|
  {
    s.calls[c].key in s.active && s.active[s.calls[c].key] < |s.flights|
    && s.flights[s.active[s.calls[c].key]].stage == Calling(c)
  }

  ghost predicate Inv(s: State) {
    && (forall k | k in s.active :: s.active[k] < |s.flights| && s.flights[s.active[k]].key == k
                                    && !s.flights[s.active[k]].stage.Finished?)
    && (forall f | 0 <= f < |s.flights| :: FlightOk(s, f))
    && (forall k | k in s.cache :: Genuine(s, k, s.cache[k]))
    && (forall c | 0 <= c < |s.calls| && s.calls[c].reply.None? :: Awaited(s, c))
    && (forall c | 0 <= c < |s.callers| :: CallerOk(s, s.callers[c]))
  }

  /** What no step undoes: time, stamped calls, and finished flights. */
  ghost predicate Extends(s: State, s': State) {
    && s.now <= s'.now && |s.calls| <= |s'.calls| && |s.flights| <= |s'.flights|
    && (forall c | 0 <= c < |s.calls| && s.calls[c].stamped.Some? :: s'.calls[c] == s.calls[c])
    && (forall f | 0 <= f < |s.flights| :: s'.flights[f].key == s.flights[f].key)
    && (forall f | 0 <= f < |s.flights| :: if s.flights[f].stage.Finished? then s'.flights[f] == s.flights[f]
                                           else s'.flights[f].stage.Finished? ==> s.now <= s'.flights[f].finished)
  }

  function Touched(s: State, step: Step): int {
    match step
    case Recheck(f) => f
    case Request(f) => f
    case Respond(f, _) => f
    case Stamp(f) => f
    case Save(f) => f
    case Finish(f) => f
    case _ => -1
  }

  lemma StepExtends(s: State, step: Step)
    requires Inv(s) && Enabled(s, step)
    ensures Extends(s, Next(s, step))
  {
    if 0 <= Touched(s, step) { assert FlightOk(s, Touched(s, step)); }
  }

  lemma GenuineStays(s: State, s': State, key: Key, e: Entry)
    requires Extends(s, s') && Genuine(s, key, e)
    ensures Genuine(s', key, e) && s'.calls[e.call] == s.calls[e.call]
  {
  }

  lemma CallerStays(s: State, s': State, c: Caller)
    requires Extends(s, s') && CallerOk(s, c)
    ensures CallerOk(s', c)
  {
    if c.at.Done? { GenuineStays(s, s', c.key, c.at.entry); }
  }

  /** A flight that a step leaves alone stays in order. */
  lemma FlightStays(s: State, s': State, f: nat)
    requires Extends(s, s') && f < |s.flights| && FlightOk(s, f) && s'.flights[f] == s.flights[f]
    requires s.flights[f].stage.Finished? || (s.flights[f].key in s'.active && s'.active[s.flights[f].key] == f)
    requires var st := s.flights[f].stage; st.Calling? || st.Replied? ==> s'.calls[st.call] == s.calls[st.call]
    ensures FlightOk(s', f)
  {
    var st := s.flights[f].stage;
    if st.Stamped? || st.Ready? || st.Finished? { GenuineStays(s, s', s.flights[f].key, st.entry); }
  }

  lemma FlightsStay(s: State, step: Step, f: nat)
    requires Inv(s) && Enabled(s, step) && f < |s.flights| && f != Touched(s, step)
    ensures FlightOk(Next(s, step), f)
  {
    assert FlightOk(s, f);
    if 0 <= Touched(s, step) { assert FlightOk(s, Touched(s, step)); }
    StepExtends(s, step);
    FlightStays(s, Next(s, step), f);
  }

  lemma FetchStays(s: State, step: Step)
    requires Inv(s) && Enabled(s, step) && (step.Recheck? || step.Request? || step.Respond?)
    ensures Touched(s, step) < |s.flights| && FlightOk(Next(s, step), Touched(s, step))
  {
    var f := Touched(s, step);
    assert FlightOk(s, f);
    if step.Recheck? && s.flights[f].key in s.cache { assert Genuine(s, s.flights[f].key, s.cache[s.flights[f].key]); }
  }

  lemma StoreStays(s: State, step: Step)
    requires Inv(s) && Enabled(s, step) && (step.Stamp? || step.Save? || step.Finish?)
    ensures Touched(s, step) < |s.flights| && FlightOk(Next(s, step), Touched(s, step))
  {
    assert FlightOk(s, Touched(s, step));
  }

  lemma TouchedStays(s: State, step: Step)
    requires Inv(s) && Enabled(s, step) && 0 <= Touched(s, step)
    ensures Touched(s, step) < |s.flights| && FlightOk(Next(s, step), Touched(s, step))
  {
    if step.Recheck? || step.Request? || step.Respond? { FetchStays(s, step); } else { StoreStays(s, step); }
  }

  lemma CallersStay(s: State, step: Step)
    requires Inv(s) && Enabled(s, step)
    ensures forall c | 0 <= c < |Next(s, step).callers| :: CallerOk(Next(s, step), Next(s, step).callers[c])
  {
    var s' := Next(s, step);
    StepExtends(s, step);
    forall c | 0 <= c < |s.callers| ensures CallerOk(s', s.callers[c]) {
      assert CallerOk(s, s.callers[c]);
      CallerStays(s, s', s.callers[c]);
    }
    match step
    case Return(c) =>
      assert FlightOk(s, s.callers[c].at.flight);
    case Check(c) =>
      if s.callers[c].key in s.cache { assert Genuine(s, s.callers[c].key, s.cache[s.callers[c].key]); }
    case _ =>
  }

  lemma CacheStays(s: State, step: Step)
    requires Inv(s) && Enabled(s, step)
    ensures forall k | k in Next(s, step).cache :: Genuine(Next(s, step), k, Next(s, step).cache[k])
  {
    var s' := Next(s, step);
    StepExtends(s, step);
    forall k | k in s.cache ensures Genuine(s', k, s.cache[k]) {
      assert Genuine(s, k, s.cache[k]);
      GenuineStays(s, s', k, s.cache[k]);
    }
    if step.Save? { assert FlightOk(s, step.flight); }
  }

  lemma ActiveStays(s: State, step: Step)
    requires Inv(s) && Enabled(s, step)
    ensures var s' := Next(s, step);
            forall k | k in s'.active :: s'.active[k] < |s'.flights| && s'.flights[s'.active[k]].key == k
                                         && !s'.flights[s'.active[k]].stage.Finished?
  {
    if 0 <= Touched(s, step) { assert FlightOk(s, Touched(s, step)); }
  }

  lemma AwaitedStays(s: State, step: Step, c: nat)
    requires Inv(s) && Enabled(s, step) && c < |Next(s, step).calls| && Next(s, step).calls[c].reply.None?
    ensures Awaited(Next(s, step), c)
  {
    if 0 <= Touched(s, step) { assert FlightOk(s, Touched(s, step)); }
    if c < |s.calls| { assert Awaited(s, c); }
  }

  lemma StepKeepsInv(s: State, step: Step)
    requires Inv(s) && Enabled(s, step)
    ensures Inv(Next(s, step))
  {
    var s' := Next(s, step);
    forall f | 0 <= f < |s'.flights| ensures FlightOk(s', f) {
      if f == Touched(s, step) {
        TouchedStays(s, step);
      } else if f < |s.flights| {
        FlightsStay(s, step, f);
      }
    }
    CallersStay(s, step);
    CacheStays(s, step);
    ActiveStays(s, step);
    forall c | 0 <= c < |s'.calls| && s'.calls[c].reply.None? ensures Awaited(s', c) { AwaitedStays(s, step, c); }
  }

  lemma {:induction false} RunKeepsInv(s: State, steps: seq<Step>)
    requires Inv(s) && Legal(s, steps)
    ensures Inv(Run(s, steps))
    decreases |steps|
  {
    if steps != [] {
      StepKeepsInv(s, steps[0]);
      RunKeepsInv(Next(s, steps[0]), steps[1..]);
    }
  }

  /** In every interleaving: one outstanding provider call per key, and every returned result is good. */
  lemma EveryRunIsSafe(now: int, steps: seq<Step>)
    requires Legal(Initial(now), steps)
    ensures OneOutstandingCall(Run(Initial(now), steps))
    ensures forall c | 0 <= c < |Run(Initial(now), steps).callers| && Run(Initial(now), steps).callers[c].at.Done? ::
              GoodReturn(Run(Initial(now), steps), Run(Initial(now), steps).callers[c])
  {
    RunKeepsInv(Initial(now), steps);
    var s := Run(Initial(now), steps);
    forall c | 0 <= c < |s.callers| && s.callers[c].at.Done? ensures GoodReturn(s, s.callers[c]) {
      assert CallerOk(s, s.callers[c]);
    }
    forall a, b | 0 <= a < |s.calls| && 0 <= b < |s.calls|
      && s.calls[a].reply.None? && s.calls[b].reply.None? && s.calls[a].key == s.calls[b].key ensures a == b {
      assert Awaited(s, a) && Awaited(s, b);
    }
  }

  // ---------------------------------------------------------------- when the cache answers

  // The call whose reply was saved last for the key and not invalidated since; `last` is that of the steps before.
  function SavedBy(s: State, step: Step, key: Key, last: Option<nat>): Option<nat>
    requires Enabled(s, step)
  {
    match step
    case Save(f) => if s.flights[f].key == key then Some(s.flights[f].stage.entry.call) else last
    case Invalidate(name) => if name == key.name then None else last
    case _ => last
  }

  function LastSaved(s: State, steps: seq<Step>, key: Key, last: Option<nat>): Option<nat>
    requires Legal(s, steps)
    decreases |steps|
  {
    if steps == [] then last
    else LastSaved(Next(s, steps[0]), steps[1..], key, SavedBy(s, steps[0], key, last))
  }

  predicate Remembers(s: State, key: Key, last: Option<nat>) {
    last == if key in s.cache then Some(s.cache[key].call) else None
  }

  lemma {:induction false} RunRemembers(s: State, steps: seq<Step>, key: Key, last: Option<nat>)
    requires Legal(s, steps) && Remembers(s, key, last)
    ensures Remembers(Run(s, steps), key, LastSaved(s, steps, key, last))
    decreases |steps|
  {
    if steps != [] { RunRemembers(Next(s, steps[0]), steps[1..], key, SavedBy(s, steps[0], key, last)); }
  }

  // The call came back, and less than five seconds have passed since.
  predicate Young(s: State, call: nat) {
    call < |s.calls| && s.calls[call].stamped.Some? && s.now < s.calls[call].stamped.value + 5 * SECOND
  }

  // The read or flight got the reply of this call.
  predicate Holds(s: State, e: Entry, call: nat) {
    call < |s.calls| && e.call == call && s.calls[call].reply == Some(e.reply)
  }

  /** After every run: a read is answered from the cache, with the reply saved last, exactly if one was saved for its
      key that came back less than five seconds ago and was not invalidated; no call is made for it. */
  lemma CheckExactly(now: int, steps: seq<Step>, c: nat)
    requires Legal(Initial(now), steps) && Enabled(Run(Initial(now), steps), Check(c))
    ensures var s := Run(Initial(now), steps);
            var s', last := Next(s, Check(c)), LastSaved(Initial(now), steps, s.callers[c].key, None);
            && (if last.Some? && Young(s, last.value) then
                  s'.callers[c].at.Done? && Holds(s, s'.callers[c].at.entry, last.value)
                else s'.callers[c].at.Missed?)
            && s' == s.(callers := s'.callers)
  {
    var s := Run(Initial(now), steps);
    var key := s.callers[c].key;
    RunKeepsInv(Initial(now), steps);
    RunRemembers(Initial(now), steps, key, None);
    if key in s.cache { assert Genuine(s, key, s.cache[key]); }
  }

  /** The second look of a flight finds an entry exactly then too; otherwise the flight goes on to call the provider. */
  lemma RecheckExactly(now: int, steps: seq<Step>, f: nat)
    requires Legal(Initial(now), steps) && Enabled(Run(Initial(now), steps), Recheck(f))
    ensures var s := Run(Initial(now), steps);
            var s', last := Next(s, Recheck(f)), LastSaved(Initial(now), steps, s.flights[f].key, None);
            && (if last.Some? && Young(s, last.value) then
                  s'.flights[f].stage.Ready? && Holds(s, s'.flights[f].stage.entry, last.value)
                else s'.flights[f].stage.Departing?)
            && s' == s.(flights := s'.flights)
  {
    var s := Run(Initial(now), steps);
    var key := s.flights[f].key;
    RunKeepsInv(Initial(now), steps);
    RunRemembers(Initial(now), steps, key, None);
    if key in s.cache { assert Genuine(s, key, s.cache[key]); }
  }

  /** What is stored for the key, and what is about to be, came back at `t` or later. */
  ghost predicate Since(s: State, key: Key, t: int) {
    && t <= s.now && key in s.cache && t + TTL <= s.cache[key].expires
    && (key in s.active ==>
          s.active[key] < |s.flights|
          && var stage := s.flights[s.active[key]].stage; stage.Stamped? ==> t + TTL <= stage.entry.expires)
  }

  lemma StepKeepsSince(s: State, step: Step, key: Key, t: int)
    requires Inv(s) && Enabled(s, step) && Since(s, key, t) && step != Invalidate(key.name)
    ensures Since(Next(s, step), key, t)
  {
    if 0 <= Touched(s, step) { assert FlightOk(s, Touched(s, step)); }
  }

  lemma {:induction false} RunKeepsSince(s: State, steps: seq<Step>, key: Key, t: int)
    requires Inv(s) && Legal(s, steps) && Since(s, key, t) && Invalidate(key.name) !in steps
    ensures Since(Run(s, steps), key, t)
    decreases |steps|
  {
    if steps != [] {
      StepKeepsInv(s, steps[0]);
      StepKeepsSince(s, steps[0], key, t);
      assert forall x | x in steps[1..] :: x in steps;
      RunKeepsSince(Next(s, steps[0]), steps[1..], key, t);
    }
  }

  /** A saved reply serves every read for five seconds: whatever happens after it is saved, unless the name is
      invalidated, a read that looks less than five seconds after the reply came back is answered at once, and no
      provider is called for it. */
  lemma SavedReplyServes(s: State, f: nat, steps: seq<Step>, c: nat)
    requires Inv(s) && Enabled(s, Save(f)) && Legal(Next(s, Save(f)), steps)
    requires Invalidate(s.flights[f].key.name) !in steps
    requires var r := Run(Next(s, Save(f)), steps);
             && Enabled(r, Check(c)) && r.callers[c].key == s.flights[f].key
             && Young(r.(calls := s.calls), s.flights[f].stage.entry.call)
    ensures var r := Run(Next(s, Save(f)), steps);
            var r' := Next(r, Check(c));
            r'.callers[c].at.Done? && r' == r.(callers := r'.callers)
  {
    var e, key, s1 := s.flights[f].stage.entry, s.flights[f].key, Next(s, Save(f));
    assert FlightOk(s, f);
    StepKeepsInv(s, Save(f));
    RunKeepsSince(s1, steps, key, s.calls[e.call].stamped.value);
  }

  // ---------------------------------------------------------------- invalidate

  /** No flight for the key has begun its provider call or found an entry: none is fetching, holding or about to hand
      out a reply. */
  predicate Quiet(s: State, key: Key) {
    key in s.active ==>
      var f := s.active[key];
      f < |s.flights| && (s.flights[f].stage.Rechecking? || s.flights[f].stage.Departing?)
  }

  /** The flight holds no reply of a call numbered below `n`. */
  predicate Renewed(fl: Flight, n: nat) {
    match fl.stage
    case Rechecking => true
    case Departing => true
    case Calling(c) => n <= c
    case Replied(c) => n <= c
    case Stamped(e) => n <= e.call
    case Ready(e) => n <= e.call
    case Finished(e) => n <= e.call
  }

  ghost predicate SeesNew(s: State, c: Caller, n: nat) {
    match c.at
    case Waiting(f) => f < |s.flights| && Renewed(s.flights[f], n)
    case Done(e, _, _) => n <= e.call
    case _ => true
  }

  /** Callers numbered from `first` on see nothing of provider calls numbered below `n`. */
  ghost predicate OnlyNew(s: State, key: Key, n: nat, first: nat) {
    && n <= |s.calls|
    && (key in s.cache ==> n <= s.cache[key].call)
    && (key in s.active ==> s.active[key] < |s.flights| && Renewed(s.flights[s.active[key]], n))
    && (forall c | first <= c < |s.callers| && s.callers[c].key == key :: SeesNew(s, s.callers[c], n))
  }

  lemma RenewedStays(s: State, step: Step, key: Key, n: nat, f: nat)
    requires Inv(s) && Enabled(s, step) && f < |s.flights| && s.flights[f].key == key
    requires n <= |s.calls| && Renewed(s.flights[f], n) && (key in s.cache ==> n <= s.cache[key].call)
    ensures Renewed(Next(s, step).flights[f], n)
  {
  }

  lemma SeesNewStays(s: State, step: Step, key: Key, n: nat, c: nat, first: nat)
    requires Inv(s) && OnlyNew(s, key, n, first) && Enabled(s, step)
    requires first <= c < |s.callers| && s.callers[c].key == key
    ensures SeesNew(Next(s, step), Next(s, step).callers[c], n)
  {
    assert SeesNew(s, s.callers[c], n);
    assert CallerOk(s, s.callers[c]);
    if s.callers[c].at.Waiting? { RenewedStays(s, step, key, n, s.callers[c].at.flight); }
    if key in s.active { RenewedStays(s, step, key, n, s.active[key]); }
  }

  lemma CacheStaysNew(s: State, step: Step, key: Key, n: nat, first: nat)
    requires Inv(s) && OnlyNew(s, key, n, first) && Enabled(s, step)
    ensures n <= |Next(s, step).calls| && (key in Next(s, step).cache ==> n <= Next(s, step).cache[key].call)
  {
    if step.Save? { assert FlightOk(s, step.flight); }
  }

  lemma ActiveStaysNew(s: State, step: Step, key: Key, n: nat, first: nat)
    requires Inv(s) && OnlyNew(s, key, n, first) && Enabled(s, step)
    ensures var s' := Next(s, step);
            key in s'.active ==> s'.active[key] < |s'.flights| && Renewed(s'.flights[s'.active[key]], n)
  {
    if key in s.active { RenewedStays(s, step, key, n, s.active[key]); }
  }

  lemma StepKeepsOnlyNew(s: State, step: Step, key: Key, n: nat, first: nat)
    requires Inv(s) && OnlyNew(s, key, n, first) && Enabled(s, step)
    ensures OnlyNew(Next(s, step), key, n, first)
  {
    var s' := Next(s, step);
    CacheStaysNew(s, step, key, n, first);
    ActiveStaysNew(s, step, key, n, first);
    forall c | first <= c < |s'.callers| && s'.callers[c].key == key ensures SeesNew(s', s'.callers[c], n) {
      if c < |s.callers| { SeesNewStays(s, step, key, n, c, first); }
    }
  }

  lemma {:induction false} RunKeepsOnlyNew(s: State, steps: seq<Step>, key: Key, n: nat, first: nat)
    requires Inv(s) && OnlyNew(s, key, n, first) && Legal(s, steps)
    ensures OnlyNew(Run(s, steps), key, n, first)
    decreases |steps|
  {
    if steps != [] {
      StepKeepsInv(s, steps[0]);
      StepKeepsOnlyNew(s, steps[0], key, n, first);
      RunKeepsOnlyNew(Next(s, steps[0]), steps[1..], key, n, first);
    }
  }

  ghost predicate AllReadsNew(s: State, key: Key, n: nat, first: nat) {
    forall c | first <= c < |s.callers| && s.callers[c].key == key && s.callers[c].at.Done? ::
      n <= s.callers[c].at.entry.call
  }

  /** After `invalidate(name)`, every read begun later gets the reply of a provider call begun later. */
  ghost predicate InvalidateForcesNewCall(s: State, key: Key) {
    forall steps | Legal(Next(s, Invalidate(key.name)), steps) ::
      AllReadsNew(Run(Next(s, Invalidate(key.name)), steps), key, |s.calls|, |s.callers|)
  }

  lemma Prepend(s: State, step: Step, rest: seq<Step>)
    requires Enabled(s, step) && Legal(Next(s, step), rest)
    ensures Legal(s, [step] + rest) && Run(s, [step] + rest) == Run(Next(s, step), rest)
  {
    assert ([step] + rest)[1..] == rest;
  }

  function Remaining(stage: Stage): nat {
    match stage
    case Rechecking => 6
    case Departing => 5
    case Calling(_) => 4
    case Replied(_) => 3
    case Stamped(_) => 2
    case Ready(_) => 1
    case Finished(_) => 0
  }

  function NextOf(f: nat, stage: Stage): Step {
    match stage
    case Rechecking => Recheck(f)
    case Departing => Request(f)
    case Calling(_) => Respond(f, Answer(""))
    case Replied(_) => Stamp(f)
    case Stamped(_) => Save(f)
    case _ => Finish(f)
  }

  lemma AdvancesFlight(s: State, f: nat, c: nat)
    requires Inv(s) && f < |s.flights| && !s.flights[f].stage.Finished?
    requires c < |s.callers| && s.callers[c].at == Waiting(f)
    ensures Enabled(s, NextOf(f, s.flights[f].stage))
    ensures var s' := Next(s, NextOf(f, s.flights[f].stage));
            && s'.callers == s.callers && |s'.flights| == |s.flights|
            && Remaining(s'.flights[f].stage) < Remaining(s.flights[f].stage)
            && (!Renewed(s.flights[f], |s.calls|) ==> |s'.calls| == |s.calls| && !Renewed(s'.flights[f], |s.calls|))
  {
    assert FlightOk(s, f);
  }

  /** Whatever an open flight is doing, it can be brought to its end and a waiting read answered; a flight that holds
      an old reply, or is waiting for one, answers with it. */
  lemma {:induction false} FlightCanFinish(s: State, f: nat, c: nat) returns (steps: seq<Step>)
    requires Inv(s) && f < |s.flights| && c < |s.callers| && s.callers[c].at == Waiting(f)
    ensures Legal(s, steps)
    ensures var s' := Run(s, steps);
            |s'.callers| == |s.callers| && s'.callers[c].key == s.callers[c].key && s'.callers[c].at.Done?
            && (!Renewed(s.flights[f], |s.calls|) ==> s'.callers[c].at.entry.call < |s.calls|)
    decreases Remaining(s.flights[f].stage)
  {
    assert FlightOk(s, f);
    if s.flights[f].stage.Finished? {
      Prepend(s, Return(c), []);
      steps := [Return(c)] + [];
    } else {
      var step := NextOf(f, s.flights[f].stage);
      AdvancesFlight(s, f, c);
      StepKeepsInv(s, step);
      var rest := FlightCanFinish(Next(s, step), f, c);
      Prepend(s, step, rest);
      steps := [step] + rest;
    }
  }

  lemma JoinedFlightAnswers(s: State, key: Key) returns (steps: seq<Step>)
    requires Inv(s) && key !in s.cache && key in s.active
    requires !Renewed(s.flights[s.active[key]], |s.calls|)
    ensures Legal(s, steps)
    ensures !AllReadsNew(Run(s, steps), key, |s.calls|, |s.callers|)
  {
    var c := |s.callers|;
    var s1 := Next(s, Begin(key));
    var s2 := Next(s1, Check(c));
    var s3 := Next(s2, Join(c));
    StepKeepsInv(s, Begin(key));
    StepKeepsInv(s1, Check(c));
    StepKeepsInv(s2, Join(c));
    var rest := FlightCanFinish(s3, s.active[key], c);
    Prepend(s2, Join(c), rest);
    Prepend(s1, Check(c), [Join(c)] + rest);
    Prepend(s, Begin(key), [Check(c)] + ([Join(c)] + rest));
    steps := [Begin(key)] + ([Check(c)] + ([Join(c)] + rest));
  }

  /** Otherwise some later read is handed the reply of a call begun before the invalidation. */
  lemma StaleReadAfterInvalidate(s: State, key: Key) returns (steps: seq<Step>)
    requires Inv(s) && !Quiet(s, key)
    ensures Legal(Next(s, Invalidate(key.name)), steps)
    ensures !AllReadsNew(Run(Next(s, Invalidate(key.name)), steps), key, |s.calls|, |s.callers|)
  {
    var s0 := Next(s, Invalidate(key.name));
    StepKeepsInv(s, Invalidate(key.name));
    assert FlightOk(s, s.active[key]);
    steps := JoinedFlightAnswers(s0, key);
  }

  /** Invalidation takes effect exactly when no flight for the key has begun its call or found an entry. */
  lemma InvalidateExactly(s: State, key: Key)
    requires Inv(s)
    ensures InvalidateForcesNewCall(s, key) <==> Quiet(s, key)
  {
    var s0 := Next(s, Invalidate(key.name));
    StepKeepsInv(s, Invalidate(key.name));
    if Quiet(s, key) {
      forall steps | Legal(s0, steps) ensures AllReadsNew(Run(s0, steps), key, |s.calls|, |s.callers|) {
        RunKeepsOnlyNew(s0, steps, key, |s.calls|, |s.callers|);
      }
    } else {
      var steps := StaleReadAfterInvalidate(s, key);
    }
  }
}
