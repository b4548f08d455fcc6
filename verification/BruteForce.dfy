/**
  The login guard (internal/auth/bruteforce.go, over internal/store/login_security.go): escalating bans per IP
  and per user name. Times are in minutes and real, as is the escalation factor; every reading of the clock is
  its own value, and readings do not decrease. The settings are fixed.
*/
module BruteForce {
  import opened Prelude
  import opened Cidr

  datatype Settings = Settings(
    enabled: bool, trackByUsername: bool, trackByIp: bool, failThreshold: int, countWindow: int,
    banBase: int, factor: real, escalationReset: int, maxBan: int)

  // What the settings handler accepts. It does not look at escalationReset.
  predicate Accepted(s: Settings) {
    s.failThreshold >= 1 && s.countWindow >= 1 && s.banBase >= 1 && s.maxBan >= 1 && s.factor >= 1.0
  }

  datatype KeyType = ByIp | ByUser
  datatype Key = Key(kind: KeyType, value: string)
  datatype Attempt = Attempt(username: string, ip: string, success: bool, at: real)
  datatype Ban = Ban(until: real, level: nat)

  datatype State = State(attempts: seq<Attempt>, bans: map<Key, Ban>)

  // The clock readings of one maybeEscalate: for the counting window, for the reset test, for the new ban.
  datatype Clock = Clock(window: real, reset: real, ban: real)

  const SECOND: real := 1.0 / 60.0

  // ---------------------------------------------------------------- durations

  function Pow(f: real, n: nat): real {
    if n == 0 then 1.0 else f * Pow(f, n - 1)
  }

  function Min(a: real, b: real): real { if a <= b then a else b }

  function Duration(s: Settings, level: nat): real {
    Min(s.banBase as real * Pow(s.factor, level), s.maxBan as real)
  }

  lemma ScaleGrows(c: real, x: real, y: real)
    requires 0.0 <= c && x <= y
    ensures c * x <= c * y
  {
  }

  lemma {:induction false} PowGrows(f: real, n: nat)
    requires f >= 1.0
    ensures 1.0 <= Pow(f, n) <= Pow(f, n + 1)
  {
    if n > 0 { PowGrows(f, n - 1); }
    ScaleGrows(Pow(f, n), 1.0, f);
    assert Pow(f, n + 1) == f * Pow(f, n) == Pow(f, n) * f;
  }

  lemma DurationGrows(s: Settings, level: nat)
    requires Accepted(s)
    ensures 1.0 <= Duration(s, level) <= Duration(s, level + 1) <= s.maxBan as real
  {
    var base, max := s.banBase as real, s.maxBan as real;
    var x, y := base * Pow(s.factor, level), base * Pow(s.factor, level + 1);
    assert 1.0 <= x <= y by {
      PowGrows(s.factor, level);
      ScaleGrows(base, Pow(s.factor, level), Pow(s.factor, level + 1));
      ScaleGrows(base, 1.0, Pow(s.factor, level));
    }
    assert Min(x, max) <= Min(y, max) <= max;
  }

  // ---------------------------------------------------------------- the store

  predicate Concerns(a: Attempt, key: Key) {
    if key.kind.ByIp? then a.ip == key.value else a.username == key.value
  }

  // Rejected attempts are in the log as failures and are counted like any other.
  function CountRecentFailures(attempts: seq<Attempt>, key: Key, since: real): nat {
    if attempts == [] then 0
    else
      var a := attempts[|attempts| - 1];
      CountRecentFailures(attempts[..|attempts| - 1], key, since)
      + (if Concerns(a, key) && !a.success && a.at > since then 1 else 0)
  }

  // ---------------------------------------------------------------- the operations

  function NextLevel(s: Settings, bans: map<Key, Ban>, key: Key, now: real): nat {
    if key in bans && now - bans[key].until <= s.escalationReset as real then bans[key].level + 1 else 0
  }

  predicate Triggers(s: Settings, attempts: seq<Attempt>, key: Key, c: Clock) {
    CountRecentFailures(attempts, key, c.window - s.countWindow as real) >= s.failThreshold
  }

  function Escalate(s: Settings, st: State, key: Key, c: Clock): State {
    if !Triggers(s, st.attempts, key, c) then st
    else
      var level := NextLevel(s, st.bans, key, c.reset);
      st.(bans := st.bans[key := Ban(c.ban + Duration(s, level), level)])
  }

  function Forgive(st: State, key: Key, now: real): State {
    st.(bans := st.bans[key := Ban(now - SECOND, 0)])
  }

  datatype Event =
    | Checked(ip: string, username: string, success: bool, logged: real, ipClock: Clock, userClock: Clock)
    | Rejected(ip: string, username: string, logged: real)
    | Unban(key: Key, now: real)

  function Tracked(s: Settings, e: Event): set<Key>
    requires e.Checked?
  {
    (if s.enabled && s.trackByIp then {Key(ByIp, e.ip)} else {})
    + (if s.enabled && s.trackByUsername && e.username != "" then {Key(ByUser, e.username)} else {})
  }

  function Apply(s: Settings, st: State, e: Event): State {
    match e
    case Rejected(ip, username, logged) => st.(attempts := st.attempts + [Attempt(username, ip, false, logged)])
    case Unban(key, now) => if key in st.bans then st.(bans := st.bans[key := Ban(now, 0)]) else st
    case Checked(ip, username, success, logged, ci, cu) =>
      var st1 := st.(attempts := st.attempts + [Attempt(username, ip, success, logged)]);
      var ipKey, userKey := Key(ByIp, ip), Key(ByUser, username);
      var st2 := if ipKey !in Tracked(s, e) then st1
                 else if success then Forgive(st1, ipKey, ci.ban) else Escalate(s, st1, ipKey, ci);
      if userKey !in Tracked(s, e) then st2
      else if success then Forgive(st2, userKey, cu.ban) else Escalate(s, st2, userKey, cu)
  }

  function Start(e: Event): real {
    match e case Unban(_, now) => now case Rejected(_, _, t) => t case Checked(_, _, _, t, _, _) => t
  }

  function End(e: Event): real {
    match e case Unban(_, now) => now case Rejected(_, _, t) => t case Checked(_, _, _, _, _, cu) => cu.ban
  }

  predicate Ordered(e: Event) {
    e.Checked? ==>
      e.logged <= e.ipClock.window <= e.ipClock.reset <= e.ipClock.ban
      <= e.userClock.window <= e.userClock.reset <= e.userClock.ban
  }

  // The time after the events.
  function Clocked(events: seq<Event>, from: real): real {
    if events == [] then from else End(events[|events| - 1])
  }

  predicate Timely(events: seq<Event>, from: real) {
    events == [] ||
    (var init, e := events[..|events| - 1], events[|events| - 1];
     Timely(init, from) && Ordered(e) && Clocked(init, from) <= Start(e))
  }

  function Run(s: Settings, st: State, events: seq<Event>): State {
    if events == [] then st else Apply(s, Run(s, st, events[..|events| - 1]), events[|events| - 1])
  }

  // ---------------------------------------------------------------- the invariant

  /** A ban ends no later than its level allows from now on, and with a negative reset time a level above
      zero means the shortest ban outlasts that time. */
  ghost predicate BanOk(s: Settings, b: Ban, now: real) {
    && b.until <= now + Duration(s, b.level)
    && (b.level > 0 && s.escalationReset < 0 ==> Duration(s, 0) >= -(s.escalationReset as real))
  }

  ghost predicate Inv(s: Settings, st: State, now: real) {
    forall k | k in st.bans :: BanOk(s, st.bans[k], now)
  }

  lemma InvLater(s: Settings, st: State, now: real, later: real)
    requires Inv(s, st, now) && now <= later
    ensures Inv(s, st, later)
  {
    forall k | k in st.bans ensures BanOk(s, st.bans[k], later) { assert BanOk(s, st.bans[k], now); }
  }

  /** One escalation: the end of the key's ban does not move back, and others stay. */
  lemma EscalateKeeps(s: Settings, st: State, key: Key, c: Clock, now: real)
    requires Accepted(s) && Inv(s, st, now) && now <= c.window <= c.reset <= c.ban
    ensures Inv(s, Escalate(s, st, key, c), c.ban)
    ensures forall k | k in st.bans ::
              k in Escalate(s, st, key, c).bans && st.bans[k].until <= Escalate(s, st, key, c).bans[k].until
    ensures Escalate(s, st, key, c).attempts == st.attempts
  {
    InvLater(s, st, now, c.ban);
    DurationGrows(s, 0);
    if key in st.bans {
      assert BanOk(s, st.bans[key], now);
      DurationGrows(s, st.bans[key].level);
    }
  }

  lemma ApplyKeepsInv(s: Settings, st: State, e: Event, now: real)
    requires Accepted(s) && Inv(s, st, now) && Ordered(e) && now <= Start(e)
    ensures Inv(s, Apply(s, st, e), End(e))
  {
    DurationGrows(s, 0);
    InvLater(s, st, now, End(e));
    if e.Checked? {
      var st1 := st.(attempts := st.attempts + [Attempt(e.username, e.ip, e.success, e.logged)]);
      var ipKey, userKey := Key(ByIp, e.ip), Key(ByUser, e.username);
      InvLater(s, st1, now, e.ipClock.ban);
      var st2 := if ipKey !in Tracked(s, e) then st1
                 else if e.success then Forgive(st1, ipKey, e.ipClock.ban) else Escalate(s, st1, ipKey, e.ipClock);
      EscalateKeeps(s, st1, ipKey, e.ipClock, now);
      assert Inv(s, st2, e.ipClock.ban);
      InvLater(s, st2, e.ipClock.ban, End(e));
      EscalateKeeps(s, st2, userKey, e.userClock, e.ipClock.ban);
    }
  }

  lemma {:induction false} RunKeepsInv(s: Settings, events: seq<Event>, from: real)
    requires Accepted(s) && Timely(events, from)
    ensures Inv(s, Run(s, State([], map[]), events), Clocked(events, from))
  {
    if events != [] {
      RunKeepsInv(s, events[..|events| - 1], from);
      ApplyKeepsInv(s, Run(s, State([], map[]), events[..|events| - 1]), events[|events| - 1],
                    Clocked(events[..|events| - 1], from));
    }
  }

  // ---------------------------------------------------------------- theorems over runs

  /** The event is neither a success nor an unban of this key. */
  predicate Spares(s: Settings, e: Event, key: Key) {
    match e
    case Checked(_, _, success, _, _, _) => success ==> key !in Tracked(s, e)
    case Rejected(_, _, _) => true
    case Unban(k, _) => k != key
  }

  lemma ApplyNeverShortens(s: Settings, st: State, e: Event, now: real, key: Key)
    requires Accepted(s) && Inv(s, st, now) && Ordered(e) && now <= Start(e)
    requires key in st.bans && Spares(s, e, key)
    ensures key in Apply(s, st, e).bans && st.bans[key].until <= Apply(s, st, e).bans[key].until
  {
    if e.Checked? && !e.success {
      var st1 := st.(attempts := st.attempts + [Attempt(e.username, e.ip, e.success, e.logged)]);
      var ipKey, userKey := Key(ByIp, e.ip), Key(ByUser, e.username);
      InvLater(s, st1, now, e.ipClock.ban);
      EscalateKeeps(s, st1, ipKey, e.ipClock, now);
      var st2 := if ipKey !in Tracked(s, e) then st1 else Escalate(s, st1, ipKey, e.ipClock);
      EscalateKeeps(s, st2, userKey, e.userClock, e.ipClock.ban);
    }
  }

  /** Until a success or an unban, no run of attempts moves the end of a key's ban back; this holds for every
      reset time, negative ones included. */
  lemma {:induction false} RunNeverShortens(s: Settings, st: State, events: seq<Event>, now: real, key: Key)
    requires Accepted(s) && Inv(s, st, now) && Timely(events, now) && key in st.bans
    requires forall e | e in events :: Spares(s, e, key)
    ensures Inv(s, Run(s, st, events), Clocked(events, now))
    ensures key in Run(s, st, events).bans && st.bans[key].until <= Run(s, st, events).bans[key].until
  {
    if events != [] {
      var init, e := events[..|events| - 1], events[|events| - 1];
      assert forall x | x in init :: x in events;
      RunNeverShortens(s, st, init, now, key);
      assert e in events;
      ApplyNeverShortens(s, Run(s, st, init), e, Clocked(init, now), key);
      ApplyKeepsInv(s, Run(s, st, init), e, Clocked(init, now));
    }
  }

  /** In every reachable state no ban has more than maxBan minutes to run. */
  lemma RemainingBanIsBounded(s: Settings, events: seq<Event>, from: real, key: Key)
    requires Accepted(s) && Timely(events, from) && key in Run(s, State([], map[]), events).bans
    ensures Run(s, State([], map[]), events).bans[key].until - Clocked(events, from) <= s.maxBan as real
  {
    RunKeepsInv(s, events, from);
    var b := Run(s, State([], map[]), events).bans[key];
    assert BanOk(s, b, Clocked(events, from));
    DurationGrows(s, b.level);
  }

  /** The event is a rejected attempt, or concerns other keys only. */
  predicate LeavesAlone(s: Settings, e: Event, key: Key) {
    match e
    case Checked(_, _, _, _, _, _) => key !in Tracked(s, e)
    case Rejected(_, _, _) => true
    case Unban(k, _) => k != key
  }

  lemma {:induction false} RejectionsKeepBan(s: Settings, st: State, events: seq<Event>, key: Key)
    requires forall e | e in events :: LeavesAlone(s, e, key)
    ensures (key in Run(s, st, events).bans) == (key in st.bans)
    ensures key in st.bans ==> Run(s, st, events).bans[key] == st.bans[key]
  {
    if events != [] {
      assert forall x | x in events[..|events| - 1] :: x in events;
      RejectionsKeepBan(s, st, events[..|events| - 1], key);
      assert events[|events| - 1] in events;
    }
  }

  predicate Blocked(bans: map<Key, Ban>, key: Key, now: real) {
    key in bans && bans[key].until - now > 0.0
  }

  /** A key hit only by rejected attempts is free again after at most maxBan minutes, however many there are. */
  lemma RejectionsNeverProlong(s: Settings, before: seq<Event>, after: seq<Event>, from: real, key: Key, now: real)
    requires Accepted(s) && Timely(before, from) && now >= Clocked(before, from) + s.maxBan as real
    requires forall e | e in after :: LeavesAlone(s, e, key)
    ensures !Blocked(Run(s, Run(s, State([], map[]), before), after).bans, key, now)
  {
    var st := Run(s, State([], map[]), before);
    RejectionsKeepBan(s, st, after, key);
    if key in st.bans { RemainingBanIsBounded(s, before, from, key); }
  }

  // ---------------------------------------------------------------- levels over runs

  function Logged(e: Event): seq<Attempt> {
    match e
    case Checked(ip, username, success, at, _, _) => [Attempt(username, ip, success, at)]
    case Rejected(ip, username, at) => [Attempt(username, ip, false, at)]
    case Unban(_, _) => []
  }

  function ClockOf(e: Event, key: Key): Clock
    requires e.Checked?
  {
    if key.kind.ByIp? then e.ipClock else e.userClock
  }

  /** The event bans the key: a failure on a tracked key that, with the log so far, reaches the threshold. */
  predicate Hits(s: Settings, st: State, e: Event, key: Key) {
    e.Checked? && !e.success && key in Tracked(s, e) && Triggers(s, st.attempts + Logged(e), key, ClockOf(e, key))
  }

  // The clocks of the hits in a run, in order; rejected attempts and other keys' events may come between them.
  function HitsIn(s: Settings, st: State, events: seq<Event>, key: Key): seq<Clock> {
    if events == [] then []
    else
      var init, e := events[..|events| - 1], events[|events| - 1];
      HitsIn(s, st, init, key) + (if Hits(s, Run(s, st, init), e, key) then [ClockOf(e, key)] else [])
  }

  function Row(st: State, key: Key): Option<Ban> {
    if key in st.bans then Some(st.bans[key]) else None
  }

  // A hit within the reset time of the end of a ban, or before it.
  predicate Near(s: Settings, c: Clock, end: real) {
    c.reset - end <= s.escalationReset as real
  }

  // The ban a hit writes over a row.
  function After(s: Settings, row: Option<Ban>, c: Clock): Ban {
    var level := if row.Some? && Near(s, c, row.value.until) then row.value.level + 1 else 0;
    Ban(c.ban + Duration(s, level), level)
  }

  function BanAfter(s: Settings, row: Option<Ban>, hits: seq<Clock>): Option<Ban> {
    if hits == [] then row else Some(After(s, BanAfter(s, row, hits[..|hits| - 1]), hits[|hits| - 1]))
  }

  // One event that spares the key writes its row only if it is a hit.
  lemma HitWrites(s: Settings, st: State, e: Event, key: Key)
    requires Spares(s, e, key)
    ensures Row(Apply(s, st, e), key) ==
            if Hits(s, st, e, key) then Some(After(s, Row(st, key), ClockOf(e, key))) else Row(st, key)
  {
    if e.Checked? && !e.success {
      var st1 := st.(attempts := st.attempts + Logged(e));
      var ipKey, userKey := Key(ByIp, e.ip), Key(ByUser, e.username);
      var st2 := if ipKey !in Tracked(s, e) then st1 else Escalate(s, st1, ipKey, e.ipClock);
      assert st2.attempts == st1.attempts;
      assert Row(st2, userKey) == Row(st, userKey);
    }
  }

  /** Over every run without a success or an unban of the key, its row is the one its hits leave, in order, whatever
      rejected attempts and events of other keys come between. */
  lemma {:induction false} RunLevels(s: Settings, st: State, events: seq<Event>, key: Key)
    requires forall e | e in events :: Spares(s, e, key)
    ensures Row(Run(s, st, events), key) == BanAfter(s, Row(st, key), HitsIn(s, st, events, key))
  {
    if events != [] {
      var init, e := events[..|events| - 1], events[|events| - 1];
      var st1, hits := Run(s, st, init), HitsIn(s, st, init, key);
      assert e in events && forall x | x in init :: x in events;
      assert Row(st1, key) == BanAfter(s, Row(st, key), hits) by { RunLevels(s, st, init, key); }
      assert Row(Run(s, st, events), key) == if Hits(s, st1, e, key) then Some(After(s, Row(st1, key), ClockOf(e, key)))
                                             else Row(st1, key) by { HitWrites(s, st1, e, key); }
      if Hits(s, st1, e, key) {
        assert (hits + [ClockOf(e, key)])[..|hits|] == hits;
      } else {
        assert HitsIn(s, st, events, key) == hits;
      }
    }
  }

  /** From one hit to the next, whatever comes between: the level rises by one exactly when the next hit comes before
      the ban's end or within the reset time after it, and otherwise falls to zero; the ban lasts
      min(base * factor^level, max). */
  lemma LevelRisesExactly(s: Settings, st: State, events: seq<Event>, key: Key, hits: seq<Clock>, last: Clock, ban: Ban)
    requires forall e | e in events :: Spares(s, e, key)
    requires HitsIn(s, st, events, key) == hits + [last] && BanAfter(s, Row(st, key), hits) == Some(ban)
    ensures var row := Row(Run(s, st, events), key);
            && row.Some? && row.value.until == last.ban + Duration(s, row.value.level)
            && (row.value.level == ban.level + 1 <==> last.reset - ban.until <= s.escalationReset as real)
            && (row.value.level == ban.level + 1 || row.value.level == 0)
  {
    RunLevels(s, st, events, key);
    assert (hits + [last])[..|hits|] == hits;
  }

  // Hits after the first, each near the end of the ban before it, the first at level `base`.
  predicate Streak(s: Settings, hits: seq<Clock>, base: nat) {
    forall i | 0 < i < |hits| :: Near(s, hits[i], hits[i - 1].ban + Duration(s, base + i - 1))
  }

  lemma {:induction false} StreakCounts(s: Settings, row: Option<Ban>, hits: seq<Clock>, base: nat)
    requires hits != [] && After(s, row, hits[0]).level == base && Streak(s, hits, base)
    ensures var n := |hits| - 1; BanAfter(s, row, hits) == Some(Ban(hits[n].ban + Duration(s, base + n), base + n))
    decreases |hits|
  {
    var n := |hits| - 1;
    var init := hits[..n];
    if n == 0 {
      assert BanAfter(s, row, init) == row;
    } else {
      assert Streak(s, init, base) by {
        forall i | 0 < i < n ensures Near(s, init[i], init[i - 1].ban + Duration(s, base + i - 1)) {
          assert Near(s, hits[i], hits[i - 1].ban + Duration(s, base + i - 1));
        }
      }
      StreakCounts(s, row, init, base);
      assert Near(s, hits[n], hits[n - 1].ban + Duration(s, base + n - 1));
    }
  }

  lemma {:induction false} BanAfterJoins(s: Settings, row: Option<Ban>, a: seq<Clock>, b: seq<Clock>)
    ensures BanAfter(s, row, a + b) == BanAfter(s, BanAfter(s, row, a), b)
    decreases |b|
  {
    if b == [] {
      assert a + b == a;
    } else {
      assert (a + b)[..|a + b| - 1] == a + b[..|b| - 1];
      BanAfterJoins(s, row, a, b[..|b| - 1]);
    }
  }

  /** A key without a row: after n + 1 hits in a row, each soon after the last ban, the ban lasts
      min(base * factor^n, max). */
  lemma BansInARow(s: Settings, st: State, events: seq<Event>, key: Key, hits: seq<Clock>)
    requires key !in st.bans && forall e | e in events :: Spares(s, e, key)
    requires hits == HitsIn(s, st, events, key) && hits != [] && Streak(s, hits, 0)
    ensures var n := |hits| - 1; Row(Run(s, st, events), key) == Some(Ban(hits[n].ban + Duration(s, n), n))
  {
    RunLevels(s, st, events, key);
    StreakCounts(s, None, hits, 0);
  }

  /** A hit that comes late starts over: the streak after it counts from zero, whatever the hits before. */
  lemma LateHitStartsOver(s: Settings, st: State, events: seq<Event>, key: Key, early: seq<Clock>, ban: Ban,
                          hits: seq<Clock>)
    requires forall e | e in events :: Spares(s, e, key)
    requires HitsIn(s, st, events, key) == early + hits && BanAfter(s, Row(st, key), early) == Some(ban)
    requires hits != [] && !Near(s, hits[0], ban.until) && Streak(s, hits, 0)
    ensures var n := |hits| - 1; Row(Run(s, st, events), key) == Some(Ban(hits[n].ban + Duration(s, n), n))
  {
    assert Row(Run(s, st, events), key) == BanAfter(s, Some(ban), hits) by {
      RunLevels(s, st, events, key);
      BanAfterJoins(s, Row(st, key), early, hits);
    }
    StreakCounts(s, Some(ban), hits, 0);
  }

  // A success on the key, or an unban of it while it has a row.
  predicate Resets(s: Settings, st: State, e: Event, key: Key) {
    (e.Checked? && e.success && key in Tracked(s, e)) || (e.Unban? && e.key == key && key in st.bans)
  }

  function ResetEnd(e: Event, key: Key): real
    requires !e.Rejected?
  {
    if e.Checked? then ClockOf(e, key).ban - SECOND else e.now
  }

  lemma ResetWrites(s: Settings, st: State, e: Event, key: Key)
    requires Resets(s, st, e, key)
    ensures Row(Apply(s, st, e), key) == Some(Ban(ResetEnd(e, key), 0))
  {
  }

  lemma {:induction false} RunJoins(s: Settings, st: State, a: seq<Event>, b: seq<Event>)
    ensures Run(s, st, a + b) == Run(s, Run(s, st, a), b)
    decreases |b|
  {
    if b == [] {
      assert a + b == a;
    } else {
      assert (a + b)[..|a + b| - 1] == a + b[..|b| - 1];
      RunJoins(s, st, a, b[..|b| - 1]);
    }
  }

  /** A success or an unban inside a run leaves a row at level zero behind: a hit soon after it is at level 1, a later
      one at level 0, and a streak counts on from there. */
  lemma BansAfterReset(s: Settings, st: State, before: seq<Event>, e: Event, after: seq<Event>, key: Key,
                       hits: seq<Clock>)
    requires Resets(s, Run(s, st, before), e, key) && forall x | x in after :: Spares(s, x, key)
    requires hits == HitsIn(s, Run(s, st, before + [e]), after, key)
    requires hits != [] ==> Streak(s, hits, if Near(s, hits[0], ResetEnd(e, key)) then 1 else 0)
    ensures Row(Run(s, st, before + [e] + after), key) ==
            if hits == [] then Some(Ban(ResetEnd(e, key), 0))
            else
              var n := |hits| - 1 + if Near(s, hits[0], ResetEnd(e, key)) then 1 else 0;
              Some(Ban(hits[|hits| - 1].ban + Duration(s, n), n))
  {
    var st1 := Run(s, st, before + [e]);
    assert Row(st1, key) == Some(Ban(ResetEnd(e, key), 0)) by {
      assert (before + [e])[..|before|] == before;
      ResetWrites(s, Run(s, st, before), e, key);
    }
    assert Row(Run(s, st, before + [e] + after), key) == BanAfter(s, Row(st1, key), hits) by {
      RunJoins(s, st, before + [e], after);
      RunLevels(s, st1, after, key);
    }
    if hits != [] { StreakCounts(s, Row(st1, key), hits, if Near(s, hits[0], ResetEnd(e, key)) then 1 else 0); }
  }

  // ---------------------------------------------------------------- rejected attempts and the counter

  // The run as the comment in the code has it: without the rejected attempts.
  function Real(events: seq<Event>): seq<Event> {
    if events == [] then []
    else
      var e := events[|events| - 1];
      Real(events[..|events| - 1]) + (if e.Rejected? then [] else [e])
  }

  // What one event adds to the count of the key's failures since a time.
  function Weight(e: Event, key: Key, since: real): nat {
    if Logged(e) == [] then 0
    else
      var a := Logged(e)[0];
      if Concerns(a, key) && !a.success && a.at > since then 1 else 0
  }

  function RejectedIn(events: seq<Event>, key: Key, since: real): nat {
    if events == [] then 0
    else
      var e := events[|events| - 1];
      RejectedIn(events[..|events| - 1], key, since)
      + (if e.Rejected? then Weight(e, key, since) else 0)
  }

  lemma ApplyLogs(s: Settings, st: State, e: Event)
    ensures Apply(s, st, e).attempts == st.attempts + Logged(e)
  {
  }

  function LogOf(events: seq<Event>): seq<Attempt> {
    if events == [] then [] else LogOf(events[..|events| - 1]) + Logged(events[|events| - 1])
  }

  lemma {:induction false} RunLogs(s: Settings, st: State, events: seq<Event>)
    ensures Run(s, st, events).attempts == st.attempts + LogOf(events)
  {
    if events != [] {
      RunLogs(s, st, events[..|events| - 1]);
      ApplyLogs(s, Run(s, st, events[..|events| - 1]), events[|events| - 1]);
    }
  }

  lemma {:induction false} CountJoins(a: seq<Attempt>, b: seq<Attempt>, key: Key, since: real)
    ensures CountRecentFailures(a + b, key, since) ==
              CountRecentFailures(a, key, since) + CountRecentFailures(b, key, since)
    decreases |b|
  {
    if b == [] {
      assert a + b == a;
    } else {
      assert (a + b)[..|a + b| - 1] == a + b[..|b| - 1];
      CountJoins(a, b[..|b| - 1], key, since);
    }
  }

  lemma LogOneMore(events: seq<Event>, e: Event, key: Key, since: real)
    ensures CountRecentFailures(LogOf(events + [e]), key, since) ==
              CountRecentFailures(LogOf(events), key, since) + Weight(e, key, since)
  {
    assert (events + [e])[..|events|] == events;
    CountJoins(LogOf(events), Logged(e), key, since);
    assert CountRecentFailures(Logged(e), key, since) == Weight(e, key, since) by {
      if Logged(e) != [] { assert Logged(e)[..0] == []; }
    }
  }

  lemma RealOneMore(events: seq<Event>, e: Event, key: Key, since: real)
    ensures Real(events + [e]) == if e.Rejected? then Real(events) else Real(events) + [e]
    ensures RejectedIn(events + [e], key, since) ==
              RejectedIn(events, key, since) + if e.Rejected? then Weight(e, key, since) else 0
  {
    assert (events + [e])[..|events|] == events;
  }

  lemma {:induction false} RejectedInLog(events: seq<Event>, key: Key, since: real)
    ensures CountRecentFailures(LogOf(events), key, since) ==
            CountRecentFailures(LogOf(Real(events)), key, since) + RejectedIn(events, key, since)
    decreases |events|
  {
    if events != [] {
      var init, e := events[..|events| - 1], events[|events| - 1];
      assert events == init + [e];
      RejectedInLog(init, key, since);
      LogOneMore(init, e, key, since);
      RealOneMore(init, e, key, since);
      if !e.Rejected? { LogOneMore(Real(init), e, key, since); }
    }
  }

  /** Anywhere in a run, each rejected attempt inside the window adds one to the count. */
  lemma RejectionsAreCounted(s: Settings, st: State, events: seq<Event>, key: Key, since: real)
    ensures CountRecentFailures(Run(s, st, events).attempts, key, since) ==
            CountRecentFailures(Run(s, st, Real(events)).attempts, key, since) + RejectedIn(events, key, since)
  {
    RunLogs(s, st, events);
    RunLogs(s, st, Real(events));
    CountJoins(st.attempts, LogOf(events), key, since);
    CountJoins(st.attempts, LogOf(Real(events)), key, since);
    RejectedInLog(events, key, since);
  }

  lemma HitBlocks(s: Settings, st: State, e: Event, key: Key)
    requires Accepted(s) && Hits(s, st, e, key)
    ensures Blocked(Apply(s, st, e).bans, key, ClockOf(e, key).ban)
  {
    HitWrites(s, st, e, key);
    DurationGrows(s, After(s, Row(st, key), ClockOf(e, key)).level);
  }

  /**
    The comment in the code says a rejected attempt must not feed the escalation counter. It does: a failure after a
    run bans a key, and would not have banned it without the rejected attempts of the run, exactly if the real failures
    of the key in the window, this one included, stay below the threshold and with the rejected ones reach it.
  */
  lemma RejectionsFeedTheCounter(s: Settings, st: State, events: seq<Event>, e: Event, key: Key)
    requires e.Checked? && !e.success && key in Tracked(s, e)
    ensures var since := ClockOf(e, key).window - s.countWindow as real;
            var genuine := CountRecentFailures(Run(s, st, Real(events)).attempts + Logged(e), key, since);
            (Hits(s, Run(s, st, events), e, key) && !Hits(s, Run(s, st, Real(events)), e, key)) <==>
            (genuine < s.failThreshold <= genuine + RejectedIn(events, key, since))
    ensures Hits(s, Run(s, st, Real(events)), e, key) ==> Hits(s, Run(s, st, events), e, key)
    ensures Accepted(s) && Hits(s, Run(s, st, events), e, key) ==>
              Blocked(Apply(s, Run(s, st, events), e).bans, key, ClockOf(e, key).ban)
  {
    var since := ClockOf(e, key).window - s.countWindow as real;
    var st1, st2 := Run(s, st, events), Run(s, st, Real(events));
    assert CountRecentFailures(st1.attempts + Logged(e), key, since) ==
           CountRecentFailures(st2.attempts + Logged(e), key, since) + RejectedIn(events, key, since) by {
      RejectionsAreCounted(s, st, events, key, since);
      CountJoins(st1.attempts, Logged(e), key, since);
      CountJoins(st2.attempts, Logged(e), key, since);
    }
    if Accepted(s) && Hits(s, st1, e, key) { HitBlocks(s, st1, e, key); }
  }

  // ---------------------------------------------------------------- runs of the guard

  // What the check says at a time, address rules aside.
  predicate Turned(s: Settings, st: State, ip: string, username: string, now: real) {
    s.enabled && ((s.trackByIp && Blocked(st.bans, Key(ByIp, ip), now))
                  || (s.trackByUsername && username != "" && Blocked(st.bans, Key(ByUser, username), now)))
  }

  /** The run is one of the guard: attempts are checked exactly when it lets them through, and rejected otherwise. */
  predicate Guarded(s: Settings, st: State, events: seq<Event>) {
    events == [] ||
    (var init, e := events[..|events| - 1], events[|events| - 1];
     && Guarded(s, st, init)
     && (e.Unban? || (Turned(s, Run(s, st, init), e.ip, e.username, Start(e)) <==> e.Rejected?)))
  }

  // A failed attempt, its clock read at one moment.
  function FailAt(ip: string, t: real): Event {
    Checked(ip, "", false, t, Clock(t, t, t), Clock(t, t, t))
  }

  lemma OneMore(s: Settings, st: State, init: seq<Event>, e: Event, from: real)
    ensures Run(s, st, init + [e]) == Apply(s, Run(s, st, init), e)
    ensures Timely(init + [e], from) <==> Timely(init, from) && Ordered(e) && Clocked(init, from) <= Start(e)
    ensures Guarded(s, st, init + [e]) <==>
              Guarded(s, st, init)
              && (e.Unban? || (Turned(s, Run(s, st, init), e.ip, e.username, Start(e)) <==> e.Rejected?))
  {
    assert (init + [e])[..|init|] == init;
  }

  lemma CountOneMore(attempts: seq<Attempt>, a: Attempt, key: Key, since: real)
    ensures CountRecentFailures(attempts + [a], key, since) ==
            CountRecentFailures(attempts, key, since) + if Concerns(a, key) && !a.success && a.at > since then 1 else 0
  {
    assert (attempts + [a])[..|attempts|] == attempts;
  }

  // A failure of an address that alone is tracked.
  lemma FailWrites(s: Settings, st: State, ip: string, t: real)
    requires s.enabled && s.trackByIp && !s.trackByUsername
    ensures var st1, key := st.(attempts := st.attempts + [Attempt("", ip, false, t)]), Key(ByIp, ip);
            && Apply(s, st, FailAt(ip, t)) == Escalate(s, st1, key, Clock(t, t, t))
            && (Hits(s, st, FailAt(ip, t), key) <==> Triggers(s, st1.attempts, key, Clock(t, t, t)))
  {
  }

  // Settings under which two failures in ten minutes ban for twenty.
  predicate TwoInTen(s: Settings) {
    s == Settings(true, false, true, 2, 10, 20, 1.0, 60, 20)
  }

  // Two failures, a minute apart, ban the address.
  function TwoFailures(ip: string): seq<Attempt> {
    [Attempt("", ip, false, 0.0)] + [Attempt("", ip, false, 1.0)]
  }

  lemma TwoFailuresBan(s: Settings, ip: string, none: State, two: seq<Event>)
    requires TwoInTen(s) && none == State([], map[]) && two == [FailAt(ip, 0.0)] + [FailAt(ip, 1.0)]
    ensures Timely(two, 0.0) && Guarded(s, none, two) && Clocked(two, 0.0) == 1.0
    ensures Run(s, none, two) == State(TwoFailures(ip), map[Key(ByIp, ip) := Ban(21.0, 0)])
  {
    var key, a0, a1 := Key(ByIp, ip), Attempt("", ip, false, 0.0), Attempt("", ip, false, 1.0);
    var nothing: seq<Event>, log: seq<Attempt> := [], [];
    var one := nothing + [FailAt(ip, 0.0)];
    assert one == [FailAt(ip, 0.0)];
    OneMore(s, none, nothing, FailAt(ip, 0.0), 0.0);
    OneMore(s, none, one, FailAt(ip, 1.0), 0.0);
    CountOneMore(log, a0, key, -10.0);
    CountOneMore(log, a0, key, -9.0);
    CountOneMore(log + [a0], a1, key, -9.0);
    assert log + [a0] == [a0];
    assert Run(s, none, one) == State([a0], map[]) by { FailWrites(s, none, ip, 0.0); }
    FailWrites(s, State([a0], map[]), ip, 1.0);
    assert Pow(1.0, 0) == 1.0;
  }

  lemma OldFailures(ip: string, key: Key)
    ensures CountRecentFailures(TwoFailures(ip), key, 12.0) == 0
  {
    var log: seq<Attempt> := [];
    assert log + [Attempt("", ip, false, 0.0)] == [Attempt("", ip, false, 0.0)];
    CountOneMore(log, Attempt("", ip, false, 0.0), key, 12.0);
    CountOneMore([Attempt("", ip, false, 0.0)], Attempt("", ip, false, 1.0), key, 12.0);
  }

  lemma WithoutRejected(ip: string, two: seq<Event>, events: seq<Event>)
    requires two == [FailAt(ip, 0.0)] + [FailAt(ip, 1.0)] && events == two + [Rejected(ip, "", 15.0)]
    ensures Real(events) == two
  {
    var nothing: seq<Event>, key := [], Key(ByIp, ip);
    assert nothing + [FailAt(ip, 0.0)] == [FailAt(ip, 0.0)];
    RealOneMore(nothing, FailAt(ip, 0.0), key, 0.0);
    RealOneMore([FailAt(ip, 0.0)], FailAt(ip, 1.0), key, 0.0);
    RealOneMore(two, Rejected(ip, "", 15.0), key, 0.0);
  }

  /** A run of the guard in which rejected attempts feed the counter: the address is banned until minute 21, is rejected
      at 15, is let through again at 22 and fails; it is banned for that, and would not be without the rejection. */
  lemma RejectionBansAgain(s: Settings, ip: string, events: seq<Event>)
    requires TwoInTen(s) && events == [FailAt(ip, 0.0)] + [FailAt(ip, 1.0)] + [Rejected(ip, "", 15.0)]
    ensures var none, key, e := State([], map[]), Key(ByIp, ip), FailAt(ip, 22.0);
            && Accepted(s) && Timely(events + [e], 0.0) && Guarded(s, none, events + [e])
            && Blocked(Run(s, none, events).bans, key, 15.0) && !Blocked(Run(s, none, events).bans, key, 22.0)
            && Hits(s, Run(s, none, events), e, key) && !Hits(s, Run(s, none, Real(events)), e, key)
  {
    var none, key, two := State([], map[]), Key(ByIp, ip), [FailAt(ip, 0.0)] + [FailAt(ip, 1.0)];
    var a, r, e := Attempt("", ip, false, 22.0), Attempt("", ip, false, 15.0), FailAt(ip, 22.0);
    TwoFailuresBan(s, ip, none, two);
    OneMore(s, none, two, Rejected(ip, "", 15.0), 0.0);
    OneMore(s, none, events, e, 0.0);
    assert Real(events) == two by { WithoutRejected(ip, two, events); }
    OldFailures(ip, key);
    CountOneMore(TwoFailures(ip), r, key, 12.0);
    CountOneMore(TwoFailures(ip) + [r], a, key, 12.0);
    CountOneMore(TwoFailures(ip), a, key, 12.0);
    FailWrites(s, Run(s, none, events), ip, 22.0);
    FailWrites(s, Run(s, none, two), ip, 22.0);
  }

  /** The same start with an unban: the next failure bans at level 1. */
  lemma UnbanLeavesLevelOne(s: Settings, ip: string, events: seq<Event>)
    requires TwoInTen(s)
    requires events == [FailAt(ip, 0.0)] + [FailAt(ip, 1.0)] + [Unban(Key(ByIp, ip), 2.0)] + [FailAt(ip, 3.0)]
    ensures var none := State([], map[]);
            && Timely(events, 0.0) && Guarded(s, none, events)
            && Row(Run(s, none, events), Key(ByIp, ip)) == Some(Ban(23.0, 1))
  {
    var none, key, two := State([], map[]), Key(ByIp, ip), [FailAt(ip, 0.0)] + [FailAt(ip, 1.0)];
    var a0, a1, a3 := Attempt("", ip, false, 0.0), Attempt("", ip, false, 1.0), Attempt("", ip, false, 3.0);
    var log: seq<Attempt> := [];
    TwoFailuresBan(s, ip, none, two);
    OneMore(s, none, two, Unban(key, 2.0), 0.0);
    OneMore(s, none, two + [Unban(key, 2.0)], FailAt(ip, 3.0), 0.0);
    assert log + [a0] == [a0];
    CountOneMore(log, a0, key, -7.0);
    CountOneMore([a0], a1, key, -7.0);
    CountOneMore(TwoFailures(ip), a3, key, -7.0);
    FailWrites(s, Run(s, none, two + [Unban(key, 2.0)]), ip, 3.0);
    assert Pow(1.0, 1) == 1.0 * Pow(1.0, 0) == 1.0;
  }

  // ---------------------------------------------------------------- IP rules

  datatype Rule = Rule(text: string, kind: string, cidr: Option<Net>)
  datatype Verdict = NoRule | Allow | Deny

  predicate Matches(r: Rule, ip: string, parsed: Option<Bytes>) {
    r.text == ip || (parsed.Some? && r.cidr.Some? && Contains(r.cidr.value, parsed.value))
  }

  /** Deny wins over allow, whatever the order of the rules. */
  ghost predicate IsVerdict(rules: seq<Rule>, ip: string, parsed: Option<Bytes>, v: Verdict) {
    match v
    case Deny => exists r :: r in rules && Matches(r, ip, parsed) && r.kind == "deny"
    case Allow => (exists r :: r in rules && Matches(r, ip, parsed))
                  && (forall r | r in rules && Matches(r, ip, parsed) :: r.kind != "deny")
    case NoRule => forall r | r in rules :: !Matches(r, ip, parsed)
  }

  method MatchIPRules(rules: seq<Rule>, ip: string, parsed: Option<Bytes>) returns (v: Verdict)
    ensures IsVerdict(rules, ip, parsed, v)
  {
    v := NoRule;
    for i := 0 to |rules|
      invariant v != Deny && IsVerdict(rules[..i], ip, parsed, v)
    {
      var r := rules[i];
      assert rules[..i + 1] == rules[..i] + [r];
      if r.text == ip {
        if r.kind == "deny" { return Deny; }
        v := Allow;
        assert r in rules[..i + 1] && Matches(r, ip, parsed);
        continue;
      }
      if parsed.None? { continue; }
      if r.cidr.Some? && Contains(r.cidr.value, parsed.value) {
        if r.kind == "deny" { return Deny; }
        v := Allow;
        assert r in rules[..i + 1] && Matches(r, ip, parsed);
      }
    }
    assert rules[..|rules|] == rules;
  }

  /** A rule covers an address that is written the same, or that lies in the rule's network: between its base and its
      last address. */
  lemma MatchesExactly(r: Rule, ip: string, x: Bytes)
    requires r.cidr.Some? ==> Valid(r.cidr.value) && |Norm(x)| == |r.cidr.value.base|
    ensures Matches(r, ip, Some(x)) <==>
            r.text == ip || (r.cidr.Some? && Value(r.cidr.value.base) <= Value(Norm(x)) < Top(r.cidr.value))
    ensures Matches(r, ip, None) <==> r.text == ip
  {
    if r.cidr.Some? { ContainsIsInterval(r.cidr.value, x); }
  }

  lemma VerdictIgnoresOrder(rules: seq<Rule>, rules': seq<Rule>, ip: string, parsed: Option<Bytes>, v: Verdict,
                            v': Verdict)
    requires multiset(rules) == multiset(rules')
    requires IsVerdict(rules, ip, parsed, v) && IsVerdict(rules', ip, parsed, v')
    ensures v == v'
  {
    forall r ensures r in rules <==> r in rules' { assert r in multiset(rules) <==> r in multiset(rules'); }
  }

  // ---------------------------------------------------------------- the guard

  datatype CheckResult = Allowed | Refused(reason: string, retryAfter: real)

  class Guard {
    const settings: Settings
    var rules: seq<Rule>
    var st: State

    constructor (settings: Settings, rules: seq<Rule>)
      ensures this.settings == settings && this.rules == rules && st == State([], map[])
    {
      this.settings, this.rules := settings, rules;
      st := State([], map[]);
    }

    method CheckBan(key: Key, now: real) returns (r: Option<real>)
      ensures r.Some? <==> Blocked(st.bans, key, now)
      ensures r.Some? ==> r.value == st.bans[key].until - now > 0.0
    {
      if key !in st.bans { return None; }
      var remaining := st.bans[key].until - now;
      if remaining <= 0.0 { return None; }
      r := Some(remaining);
    }

    /** Refused exactly when the guard is on and the address is denied, or is not allow-listed and it or the
        user name is under a ban. */
    method CheckLogin(ip: string, parsed: Option<Bytes>, username: string, ipNow: real, userNow: real)
      returns (r: CheckResult)
      ensures r.Allowed? <==>
                (!settings.enabled || IsVerdict(rules, ip, parsed, Allow)
                 || (IsVerdict(rules, ip, parsed, NoRule)
                     && !(settings.trackByIp && Blocked(st.bans, Key(ByIp, ip), ipNow))
                     && !(settings.trackByUsername && username != ""
                          && Blocked(st.bans, Key(ByUser, username), userNow))))
      ensures r.Refused? ==> match r.reason
              case "ip_denied" => IsVerdict(rules, ip, parsed, Deny)
              case "banned_ip" => !IsVerdict(rules, ip, parsed, Deny) && settings.trackByIp
                                  && Key(ByIp, ip) in st.bans
                                  && 0.0 < r.retryAfter == st.bans[Key(ByIp, ip)].until - ipNow
              case "banned_username" => !IsVerdict(rules, ip, parsed, Deny) && settings.trackByUsername
                                        && Key(ByUser, username) in st.bans
                                        && 0.0 < r.retryAfter == st.bans[Key(ByUser, username)].until - userNow
              case _ => false
    {
      if !settings.enabled { return Allowed; }
      var v := MatchIPRules(rules, ip, parsed);
      if v == Deny { return Refused("ip_denied", 0.0); }
      if v == Allow { return Allowed; }
      if settings.trackByIp {
        var ban := CheckBan(Key(ByIp, ip), ipNow);
        if ban.Some? { return Refused("banned_ip", ban.value); }
      }
      if settings.trackByUsername && username != "" {
        var ban := CheckBan(Key(ByUser, username), userNow);
        if ban.Some? { return Refused("banned_username", ban.value); }
      }
      r := Allowed;
    }

    method LogRejected(ip: string, username: string, logged: real)
      modifies this`st
      ensures st == Apply(settings, old(st), Rejected(ip, username, logged))
    {
      st := st.(attempts := st.attempts + [Attempt(username, ip, false, logged)]);
    }

    method MaybeEscalate(key: Key, c: Clock)
      modifies this`st
      ensures st == Escalate(settings, old(st), key, c)
    {
      var count := CountRecentFailures(st.attempts, key, c.window - settings.countWindow as real);
      if count < settings.failThreshold { return; }
      var level := 0;
      if key in st.bans && c.reset - st.bans[key].until <= settings.escalationReset as real {
        level := st.bans[key].level + 1;
      }
      var minutes := settings.banBase as real * Pow(settings.factor, level);
      if minutes > settings.maxBan as real { minutes := settings.maxBan as real; }
      assert minutes == Duration(settings, level) && level == NextLevel(settings, st.bans, key, c.reset);
      st := st.(bans := st.bans[key := Ban(c.ban + minutes, level)]);
    }

    method RecordResult(ip: string, username: string, success: bool, logged: real, ipClock: Clock, userClock: Clock)
      modifies this`st
      ensures st == Apply(settings, old(st), Checked(ip, username, success, logged, ipClock, userClock))
    {
      st := st.(attempts := st.attempts + [Attempt(username, ip, success, logged)]);
      if !settings.enabled { return; }
      if success {
        if settings.trackByIp { st := st.(bans := st.bans[Key(ByIp, ip) := Ban(ipClock.ban - SECOND, 0)]); }
        if settings.trackByUsername && username != "" {
          st := st.(bans := st.bans[Key(ByUser, username) := Ban(userClock.ban - SECOND, 0)]);
        }
        return;
      }
      if settings.trackByIp { MaybeEscalate(Key(ByIp, ip), ipClock); }
      if settings.trackByUsername && username != "" { MaybeEscalate(Key(ByUser, username), userClock); }
    }

    method ClearBan(key: Key, now: real)
      modifies this`st
      ensures st == Apply(settings, old(st), Unban(key, now))
    {
      if key in st.bans { st := st.(bans := st.bans[key := Ban(now, 0)]); }
    }
  }
}
