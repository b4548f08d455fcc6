/**
  What the login guard does, told from the attempts alone: which failures count against a user name and which
  against an address, and when either is banned.
*/
module GuardTrace {
  import opened Prelude
  import opened BruteForce

  const NONE: State := State([], map[])

  // ---------------------------------------------------------------- the count, position by position

  // A failure of a user name after a time, and a failure from an address.
  function OfUser(name: string, since: real): Attempt -> bool {
    (a: Attempt) => a.username == name && !a.success && a.at > since
  }

  function FromAddress(ip: string, since: real): Attempt -> bool {
    (a: Attempt) => a.ip == ip && !a.success && a.at > since
  }

  /** The count for a user name is the number of positions in the log with a failure of that name, from whatever
      address. */
  lemma {:induction false} UserCountExactly(log: seq<Attempt>, name: string, since: real)
    ensures CountRecentFailures(log, Key(ByUser, name), since) == |Where(log, OfUser(name, since))|
  {
    if log != [] {
      var init, a := log[..|log| - 1], log[|log| - 1];
      assert log == init + [a];
      UserCountExactly(init, name, since);
      CountOneMore(init, a, Key(ByUser, name), since);
      WhereOneMore(init, a, OfUser(name, since));
    }
  }

  /** The count for an address is the number of positions in the log with a failure from there, of whatever user. */
  lemma {:induction false} AddressCountExactly(log: seq<Attempt>, ip: string, since: real)
    ensures CountRecentFailures(log, Key(ByIp, ip), since) == |Where(log, FromAddress(ip, since))|
  {
    if log != [] {
      var init, a := log[..|log| - 1], log[|log| - 1];
      assert log == init + [a];
      AddressCountExactly(init, ip, since);
      CountOneMore(init, a, Key(ByIp, ip), since);
      WhereOneMore(init, a, FromAddress(ip, since));
    }
  }

  // ---------------------------------------------------------------- the same over runs

  // A failed attempt, let through or rejected.
  predicate Fails(e: Event) {
    e.Rejected? || (e.Checked? && !e.success)
  }

  function FailureOfUser(name: string, since: real): Event -> bool {
    (e: Event) => Fails(e) && e.username == name && e.logged > since
  }

  function FailureFrom(ip: string, since: real): Event -> bool {
    (e: Event) => Fails(e) && e.ip == ip && e.logged > since
  }

  function FailuresOfUser(events: seq<Event>, name: string, since: real): nat {
    |Where(events, FailureOfUser(name, since))|
  }

  function FailuresFrom(events: seq<Event>, ip: string, since: real): nat {
    |Where(events, FailureFrom(ip, since))|
  }

  lemma LogGrows(log: seq<Attempt>, e: Event, p: Attempt -> bool)
    ensures |Where(log + Logged(e), p)| == |Where(log, p)| + if !e.Unban? && p(Logged(e)[0]) then 1 else 0
  {
    if e.Unban? {
      assert log + Logged(e) == log;
    } else {
      assert Logged(e) == [Logged(e)[0]];
      WhereOneMore(log, Logged(e)[0], p);
    }
  }

  // Every position of the log goes back to an event.
  lemma {:induction false} RunCounts(s: Settings, events: seq<Event>, p: Attempt -> bool, q: Event -> bool)
    requires forall e :: q(e) <==> !e.Unban? && p(Logged(e)[0])
    ensures |Where(Run(s, NONE, events).attempts, p)| == |Where(events, q)|
  {
    if events != [] {
      var init, e := events[..|events| - 1], events[|events| - 1];
      assert events == init + [e];
      RunCounts(s, init, p, q);
      ApplyLogs(s, Run(s, NONE, init), e);
      LogGrows(Run(s, NONE, init).attempts, e, p);
      WhereOneMore(init, e, q);
    }
  }

  lemma UserCount(s: Settings, events: seq<Event>, name: string, since: real)
    ensures CountRecentFailures(Run(s, NONE, events).attempts, Key(ByUser, name), since) ==
            FailuresOfUser(events, name, since)
  {
    UserCountExactly(Run(s, NONE, events).attempts, name, since);
    RunCounts(s, events, OfUser(name, since), FailureOfUser(name, since));
  }

  lemma AddressCount(s: Settings, events: seq<Event>, ip: string, since: real)
    ensures CountRecentFailures(Run(s, NONE, events).attempts, Key(ByIp, ip), since) == FailuresFrom(events, ip, since)
  {
    AddressCountExactly(Run(s, NONE, events).attempts, ip, since);
    RunCounts(s, events, FromAddress(ip, since), FailureFrom(ip, since));
  }

  // A row before and after a failure that is the n-th of its key in the window.
  predicate Follows(s: Settings, row: Option<Ban>, n: nat, c: Clock, row': Option<Ban>) {
    row' == if n >= s.failThreshold then Some(After(s, row, c)) else row
  }

  lemma FailureWrites(s: Settings, st: State, e: Event, key: Key, n: nat)
    requires e.Checked? && !e.success && key in Tracked(s, e)
    requires n == CountRecentFailures(Apply(s, st, e).attempts, key, ClockOf(e, key).window - s.countWindow as real)
    ensures Follows(s, Row(st, key), n, ClockOf(e, key), Row(Apply(s, st, e), key))
  {
    assert Apply(s, st, e).attempts == st.attempts + Logged(e) by { ApplyLogs(s, st, e); }
    assert Hits(s, st, e, key) <==> n >= s.failThreshold;
    HitWrites(s, st, e, key);
  }

  lemma TracksBoth(s: Settings, e: Event)
    requires e.Checked? && s.enabled
    ensures s.trackByIp ==> Key(ByIp, e.ip) in Tracked(s, e)
    ensures s.trackByUsername && e.username != "" ==> Key(ByUser, e.username) in Tracked(s, e)
  {
  }

  lemma RunWrites(s: Settings, before: seq<Event>, e: Event, key: Key, c: Clock, since: real, n: nat, st: State,
                  st': State)
    requires e.Checked? && !e.success && key in Tracked(s, e) && c == ClockOf(e, key)
    requires st == Run(s, NONE, before) && st' == Run(s, NONE, before + [e])
    requires since == c.window - s.countWindow as real && n == CountRecentFailures(st'.attempts, key, since)
    ensures Follows(s, Row(st, key), n, c, Row(st', key))
  {
    assert st' == Apply(s, st, e) by { OneMore(s, NONE, before, e, 0.0); }
    FailureWrites(s, st, e, key, n);
  }

  /** A failed login writes the row of its user name exactly if the failures of that name inside the window, this one
      included and from whatever addresses, are at least the threshold; otherwise it leaves the row as it was. */
  lemma UserBanExactly(s: Settings, before: seq<Event>, e: Event, name: string, since: real, st: State, st': State)
    requires st == Run(s, NONE, before) && st' == Run(s, NONE, before + [e])
    requires s.enabled && s.trackByUsername && e.Checked? && !e.success && e.username == name != ""
    requires since == e.userClock.window - s.countWindow as real
    ensures var key, n := Key(ByUser, name), FailuresOfUser(before + [e], name, since);
            Follows(s, Row(st, key), n, e.userClock, Row(st', key))
  {
    var key, n := Key(ByUser, name), FailuresOfUser(before + [e], name, since);
    assert n == CountRecentFailures(st'.attempts, key, since) by { UserCount(s, before + [e], name, since); }
    assert key in Tracked(s, e) by { TracksBoth(s, e); }
    RunWrites(s, before, e, key, e.userClock, since, n, st, st');
  }

  /** The same for the address of a failed login: failures from there count, of whatever users. */
  lemma AddressBanExactly(s: Settings, before: seq<Event>, e: Event, ip: string, since: real, st: State, st': State)
    requires st == Run(s, NONE, before) && st' == Run(s, NONE, before + [e])
    requires s.enabled && s.trackByIp && e.Checked? && !e.success && e.ip == ip
    requires since == e.ipClock.window - s.countWindow as real
    ensures var key, n := Key(ByIp, ip), FailuresFrom(before + [e], ip, since);
            Follows(s, Row(st, key), n, e.ipClock, Row(st', key))
  {
    var key, n := Key(ByIp, ip), FailuresFrom(before + [e], ip, since);
    assert n == CountRecentFailures(st'.attempts, key, since) by { AddressCount(s, before + [e], ip, since); }
    assert key in Tracked(s, e) by { TracksBoth(s, e); }
    RunWrites(s, before, e, key, e.ipClock, since, n, st, st');
  }

  // ---------------------------------------------------------------- how long a ban lasts

  /** The first ban lasts the base time, each next one `factor` times the last, and none longer than the maximum. */
  lemma DurationExactly(s: Settings, level: nat)
    requires Accepted(s)
    ensures Duration(s, 0) == Min(s.banBase as real, s.maxBan as real)
    ensures Duration(s, level + 1) == Min(s.factor * Duration(s, level), s.maxBan as real)
  {
    var base, max, p := s.banBase as real, s.maxBan as real, Pow(s.factor, level);
    assert Pow(s.factor, 0) == 1.0 && Pow(s.factor, level + 1) == s.factor * p;
    assert base * (s.factor * p) == s.factor * (base * p) by { Regroup(base, s.factor, p); }
    MinScales(s.factor, base * p, max);
  }

  lemma Regroup(a: real, b: real, c: real)
    ensures a * (b * c) == b * (a * c)
  {
  }

  lemma MinScales(f: real, x: real, max: real)
    requires f >= 1.0 && max >= 0.0
    ensures Min(f * x, max) == Min(f * Min(x, max), max)
  {
    if x > max {
      ScaleGrows(max, 1.0, f);
      ScaleGrows(f, max, x);
    }
  }

  lemma {:induction false} FirstIsShortest(s: Settings, level: nat)
    requires Accepted(s)
    ensures Min(s.banBase as real, s.maxBan as real) <= Duration(s, level)
  {
    if level == 0 { DurationExactly(s, 0); } else { FirstIsShortest(s, level - 1); DurationGrows(s, level - 1); }
  }

  lemma {:induction false} TimelySplits(a: seq<Event>, b: seq<Event>, from: real)
    requires Timely(a + b, from)
    ensures Timely(a, from) && Timely(b, Clocked(a, from))
    decreases |b|
  {
    if b == [] {
      assert a + b == a;
    } else {
      var n := |b| - 1;
      assert (a + b)[..|a + b| - 1] == a + b[..n];
      TimelySplits(a, b[..n], from);
      assert Clocked(a + b[..n], from) == Clocked(b[..n], Clocked(a, from));
    }
  }

  lemma BanLasts(s: Settings, init: seq<Event>, after: seq<Event>, from: real, key: Key, end: real, now: real)
    requires Accepted(s) && Timely(init + after, from) && forall x | x in after :: Spares(s, x, key)
    requires key in Run(s, NONE, init).bans && end <= Run(s, NONE, init).bans[key].until && now < end
    ensures Blocked(Run(s, NONE, init + after).bans, key, now)
  {
    TimelySplits(init, after, from);
    RunJoins(s, NONE, init, after);
    RunKeepsInv(s, init, from);
    RunNeverShortens(s, Run(s, NONE, init), after, Clocked(init, from), key);
  }

  /**
    As many failures of one user name as the threshold, inside the window and from whatever addresses, ban it: from the
    last of them on it is blocked for at least the base time (or the maximum, if less), through any attempts that
    follow, until a login under that name succeeds or the ban is lifted.
  */
  lemma UserNameIsBanned(s: Settings, before: seq<Event>, e: Event, after: seq<Event>, from: real, name: string,
                         since: real, now: real)
    requires Accepted(s) && Timely(before + [e] + after, from) && s.enabled && s.trackByUsername
    requires e.Checked? && !e.success && e.username == name != ""
    requires since == e.userClock.window - s.countWindow as real
    requires FailuresOfUser(before + [e], name, since) >= s.failThreshold
    requires forall x | x in after :: Spares(s, x, Key(ByUser, name))
    requires now < e.userClock.ban + Min(s.banBase as real, s.maxBan as real)
    ensures Blocked(Run(s, NONE, before + [e] + after).bans, Key(ByUser, name), now)
  {
    var row := Row(Run(s, NONE, before), Key(ByUser, name));
    UserBanExactly(s, before, e, name, since, Run(s, NONE, before), Run(s, NONE, before + [e]));
    FirstIsShortest(s, After(s, row, e.userClock).level);
    BanLasts(s, before + [e], after, from, Key(ByUser, name),
             e.userClock.ban + Min(s.banBase as real, s.maxBan as real), now);
  }

  /** The same for an address, whatever the user names. */
  lemma AddressIsBanned(s: Settings, before: seq<Event>, e: Event, after: seq<Event>, from: real, ip: string,
                        since: real, now: real)
    requires Accepted(s) && Timely(before + [e] + after, from) && s.enabled && s.trackByIp
    requires e.Checked? && !e.success && e.ip == ip
    requires since == e.ipClock.window - s.countWindow as real
    requires FailuresFrom(before + [e], ip, since) >= s.failThreshold
    requires forall x | x in after :: Spares(s, x, Key(ByIp, ip))
    requires now < e.ipClock.ban + Min(s.banBase as real, s.maxBan as real)
    ensures Blocked(Run(s, NONE, before + [e] + after).bans, Key(ByIp, ip), now)
  {
    var row := Row(Run(s, NONE, before), Key(ByIp, ip));
    AddressBanExactly(s, before, e, ip, since, Run(s, NONE, before), Run(s, NONE, before + [e]));
    FirstIsShortest(s, After(s, row, e.ipClock).level);
    BanLasts(s, before + [e], after, from, Key(ByIp, ip),
             e.ipClock.ban + Min(s.banBase as real, s.maxBan as real), now);
  }

  // ---------------------------------------------------------------- who is never banned, and who is let in again

  /** Only what the settings track has a row, and the empty user name never has one. */
  ghost predicate OnlyTracked(s: Settings, st: State) {
    forall k | k in st.bans ::
      s.enabled && (if k.kind.ByIp? then s.trackByIp else s.trackByUsername && k.value != "")
  }

  lemma {:induction false} RunTracks(s: Settings, events: seq<Event>)
    ensures OnlyTracked(s, Run(s, NONE, events))
  {
    if events != [] {
      RunTracks(s, events[..|events| - 1]);
    }
  }

  // The login of the event succeeded, under this user name or from this address.
  predicate LetIn(e: Event, key: Key) {
    e.Checked? && e.success && (key == Key(ByIp, e.ip) || key == Key(ByUser, e.username))
  }

  /** What a success leaves for its user name and its address: a ban at level zero that ended one second before. */
  lemma SuccessRows(s: Settings, before: seq<Event>, e: Event)
    requires e.Checked? && e.success && s.enabled
    ensures var st, minute := Run(s, NONE, before + [e]), 60.0;
            && (s.trackByIp ==> Row(st, Key(ByIp, e.ip)) == Some(Ban(e.ipClock.ban - 1.0 / minute, 0)))
            && (s.trackByUsername && e.username != "" ==>
                  Row(st, Key(ByUser, e.username)) == Some(Ban(e.userClock.ban - 1.0 / minute, 0)))
  {
    OneMore(s, NONE, before, e, 0.0);
    TracksBoth(s, e);
    var st := Run(s, NONE, before);
    if s.trackByIp { ResetWrites(s, st, e, Key(ByIp, e.ip)); }
    if s.trackByUsername && e.username != "" { ResetWrites(s, st, e, Key(ByUser, e.username)); }
  }

  /** A login that succeeds frees its user name and its address, and lifting a ban frees its key: neither is blocked
      from then on until a later failure. */
  lemma SuccessFrees(s: Settings, before: seq<Event>, e: Event, after: seq<Event>, key: Key, now: real)
    requires Ordered(e) && End(e) <= now && (LetIn(e, key) || (e.Unban? && e.key == key))
    requires forall x | x in after :: LeavesAlone(s, x, key)
    ensures !Blocked(Run(s, NONE, before + [e] + after).bans, key, now)
  {
    var init := before + [e];
    RunJoins(s, NONE, init, after);
    OneMore(s, NONE, before, e, 0.0);
    RejectionsKeepBan(s, Run(s, NONE, init), after, key);
    RunTracks(s, before);
    if Resets(s, Run(s, NONE, before), e, key) { ResetWrites(s, Run(s, NONE, before), e, key); }
  }
}
