/**
  The connection watcher (watchTick of internal/api/notify.go): each tick compares what every provider reports
  with the snapshot of the tick before and appends connect and disconnect events to the history. Event inserts
  succeed. Map iteration order is arbitrary.
*/
module Watcher {
  import opened Prelude

  datatype Seen = Seen(publicKey: string, online: bool)

  // What a provider answers during a tick: its status (None: the call failed) and its peers.
  datatype Report = Report(name: string, up: Option<bool>, peers: Option<seq<Seen>>)

  datatype Snapshot = Snapshot(up: bool, online: set<string>)
  datatype Event = Event(provider: string, peer: string, connected: bool)

  // A down interface and a failed peer listing both read as nobody online.
  function Current(r: Report): Snapshot
    requires r.up.Some?
  {
    Snapshot(r.up.value,
             if r.up.value && r.peers.Some? then (set p | p in r.peers.value && p.online :: p.publicKey) else {})
  }

  // ---------------------------------------------------------------- replaying a history

  function EventsOf(log: seq<Event>, provider: string): seq<Event> {
    if log == [] then []
    else
      var rest, e := EventsOf(log[..|log| - 1], provider), log[|log| - 1];
      if e.provider == provider then rest + [e] else rest
  }

  // The online set after the events; None if some event repeats what already held.
  function Replay(start: set<string>, events: seq<Event>): Option<set<string>> {
    if events == [] then Some(start)
    else
      var before, e := Replay(start, events[..|events| - 1]), events[|events| - 1];
      if before.None? || (e.peer in before.value) == e.connected then None
      else Some(if e.connected then before.value + {e.peer} else before.value - {e.peer})
  }

  lemma {:induction false} ReplayPrefix(start: set<string>, events: seq<Event>, n: nat)
    requires n <= |events| && Replay(start, events).Some?
    ensures Replay(start, events[..n]).Some?
  {
    if n < |events| {
      ReplayPrefix(start, events[..|events| - 1], n);
      assert events[..|events| - 1][..n] == events[..n];
    } else {
      assert events[..n] == events;
    }
  }

  /** Between events of a peer nothing changes for it. */
  lemma {:induction false} ReplayQuiet(start: set<string>, events: seq<Event>, i: nat, j: nat, peer: string)
    requires i <= j <= |events| && Replay(start, events).Some?
    requires forall k | i <= k < j :: events[k].peer != peer
    ensures Replay(start, events[..i]).Some? && Replay(start, events[..j]).Some?
    ensures peer in Replay(start, events[..i]).value <==> peer in Replay(start, events[..j]).value
  {
    ReplayPrefix(start, events, i);
    ReplayPrefix(start, events, j);
    if i < j {
      ReplayQuiet(start, events, i, j - 1, peer);
      assert events[..j][..j - 1] == events[..j - 1];
    }
  }

  /** A peer's events strictly alternate, and its first one is a connect exactly if it was not online at the start. */
  lemma EventsAlternate(start: set<string>, events: seq<Event>, i: nat, j: nat)
    requires Replay(start, events).Some? && i < j < |events| && events[i].peer == events[j].peer
    requires forall k | i < k < j :: events[k].peer != events[i].peer
    ensures events[i].connected != events[j].connected
  {
    var peer := events[i].peer;
    ReplayQuiet(start, events, i + 1, j, peer);
    ReplayPrefix(start, events, j + 1);
    assert events[..i + 1][..i] == events[..i] && events[..j + 1][..j] == events[..j];
  }

  lemma FirstEventStarts(start: set<string>, events: seq<Event>, i: nat)
    requires Replay(start, events).Some? && i < |events|
    requires forall k | 0 <= k < i :: events[k].peer != events[i].peer
    ensures events[i].connected <==> events[i].peer !in start
  {
    ReplayQuiet(start, events, 0, i, events[i].peer);
    ReplayPrefix(start, events, i + 1);
    assert events[..0] == [] && events[..i + 1][..i] == events[..i];
  }

  lemma LogOneMore(log: seq<Event>, e: Event, provider: string)
    ensures EventsOf(log + [e], provider) ==
              if e.provider == provider then EventsOf(log, provider) + [e] else EventsOf(log, provider)
  {
    assert (log + [e])[..|log|] == log;
  }

  lemma ReplayOneMore(start: set<string>, events: seq<Event>, e: Event, online: set<string>)
    requires Replay(start, events) == Some(online) && (e.peer in online) != e.connected
    ensures Replay(start, events + [e]) == Some(if e.connected then online + {e.peer} else online - {e.peer})
  {
    assert (events + [e])[..|events|] == events;
  }

  /** The log grew by events of `name` only, and its history now leads from `start` to `online`. */
  ghost predicate Logged(log0: seq<Event>, log: seq<Event>, name: string, start: set<string>, online: set<string>) {
    && log0 <= log
    && Replay(start, EventsOf(log, name)) == Some(online)
    && (forall p | p != name :: EventsOf(log, p) == EventsOf(log0, p))
  }

  lemma LoggedOneMore(log0: seq<Event>, log: seq<Event>, e: Event, start: set<string>, online: set<string>)
    requires Logged(log0, log, e.provider, start, online) && (e.peer in online) != e.connected
    ensures Logged(log0, log + [e], e.provider, start, if e.connected then online + {e.peer} else online - {e.peer})
  {
    forall p { LogOneMore(log, e, p); }
    ReplayOneMore(start, EventsOf(log, e.provider), e, online);
  }

  // The online set once the peers still to do are the only ones left of `ids`.
  function Moved(online: set<string>, ids: set<string>, connected: bool, todo: set<string>): set<string> {
    if connected then online + (ids - todo) else online - (ids - todo)
  }

  lemma MovedOneMore(online: set<string>, ids: set<string>, connected: bool, todo: set<string>, id: string)
    requires id in todo && todo <= ids && (if connected then ids !! online else ids <= online)
    ensures (id in Moved(online, ids, connected, todo)) != connected
    ensures Moved(online, ids, connected, todo - {id}) ==
            if connected then Moved(online, ids, connected, todo) + {id} else Moved(online, ids, connected, todo) - {id}
  {
  }

  /** One event for each of the peers, in any order. */
  method LogAll(log0: seq<Event>, name: string, ids: set<string>, connected: bool, ghost start: set<string>,
                ghost online: set<string>)
    returns (log: seq<Event>)
    requires Replay(start, EventsOf(log0, name)) == Some(online)
    requires if connected then ids !! online else ids <= online
    ensures Logged(log0, log, name, start, if connected then online + ids else online - ids)
    ensures |log| == |log0| + |ids|
  {
    log := log0;
    var todo := ids;
    assert Moved(online, ids, connected, todo) == online;
    while todo != {}
      invariant todo <= ids && Logged(log0, log, name, start, Moved(online, ids, connected, todo))
      invariant |log| + |todo| == |log0| + |ids|
      decreases |todo|
    {
      var id :| id in todo;
      MovedOneMore(online, ids, connected, todo, id);
      LoggedOneMore(log0, log, Event(name, id, connected), start, Moved(online, ids, connected, todo));
      log := log + [Event(name, id, connected)];
      todo := todo - {id};
    }
    assert ids - todo == ids;
  }

  function Changes(was: set<string>, now: set<string>): nat {
    |now - was| + |was - now|
  }

  /** Connects, then disconnects: one event per peer whose state changed. */
  method LogChanges(log0: seq<Event>, name: string, was: set<string>, now: set<string>, ghost start: set<string>)
    returns (log: seq<Event>)
    requires Replay(start, EventsOf(log0, name)) == Some(was)
    ensures Logged(log0, log, name, start, now) && |log| == |log0| + Changes(was, now)
  {
    var log1 := LogAll(log0, name, now - was, true, start, was);
    log := LogAll(log1, name, was - now, false, start, was + (now - was));
    assert was + (now - was) - (was - now) == now;
  }

  // ---------------------------------------------------------------- ticks

  function NextPrev(prev: map<string, Snapshot>, r: Report): map<string, Snapshot> {
    if r.up.None? then prev else prev[r.name := Current(r)]
  }

  function AllPrev(prev: map<string, Snapshot>, reports: seq<Report>): map<string, Snapshot> {
    if reports == [] then prev else NextPrev(AllPrev(prev, reports[..|reports| - 1]), reports[|reports| - 1])
  }

  // The online set of a provider's first snapshot.
  function NextFirst(first: map<string, set<string>>, r: Report): map<string, set<string>> {
    if r.up.None? || r.name in first then first else first[r.name := Current(r).online]
  }

  function AllFirst(first: map<string, set<string>>, reports: seq<Report>): map<string, set<string>> {
    if reports == [] then first else NextFirst(AllFirst(first, reports[..|reports| - 1]), reports[|reports| - 1])
  }

  type Ticks = seq<(bool, seq<Report>)>

  // What was seen over some ticks: a tick whose settings cannot be read sees nothing.
  function Reports(ticks: Ticks): seq<Report> {
    if ticks == [] then []
    else
      var t := ticks[|ticks| - 1];
      Reports(ticks[..|ticks| - 1]) + (if t.0 then [] else t.1)
  }

  lemma {:induction false} AllJoins(prev: map<string, Snapshot>, first: map<string, set<string>>, a: seq<Report>,
                                    b: seq<Report>)
    ensures AllPrev(prev, a + b) == AllPrev(AllPrev(prev, a), b)
    ensures AllFirst(first, a + b) == AllFirst(AllFirst(first, a), b)
    decreases |b|
  {
    if b == [] {
      assert a + b == a;
    } else {
      assert (a + b)[..|a + b| - 1] == a + b[..|b| - 1];
      AllJoins(prev, first, a, b[..|b| - 1]);
    }
  }

  lemma OneMoreTick(prev: map<string, Snapshot>, first: map<string, set<string>>, ticks: Ticks, i: nat)
    requires i < |ticks|
    ensures var (fails, reports) := ticks[i];
            var before, after := Reports(ticks[..i]), Reports(ticks[..i + 1]);
            && AllPrev(prev, after) ==
               (if fails then AllPrev(prev, before) else AllPrev(AllPrev(prev, before), reports))
            && AllFirst(first, after) ==
               (if fails then AllFirst(first, before) else AllFirst(AllFirst(first, before), reports))
  {
    assert ticks[..i + 1][..i] == ticks[..i];
    if ticks[i].0 {
      assert Reports(ticks[..i + 1]) == Reports(ticks[..i]);
    } else {
      AllJoins(prev, first, Reports(ticks[..i]), ticks[i].1);
    }
  }

  /** Replaying a provider's history from its first snapshot gives its current online set. */
  ghost predicate Faithful(prev: map<string, Snapshot>, first: map<string, set<string>>, log: seq<Event>) {
    && prev.Keys == first.Keys
    && (forall p | p in prev :: Replay(first[p], EventsOf(log, p)) == Some(prev[p].online))
    && (forall p | p !in prev :: EventsOf(log, p) == [])
  }

  lemma FaithfulAfter(prev: map<string, Snapshot>, first: map<string, set<string>>, log: seq<Event>,
                      log': seq<Event>, name: string, cur: Snapshot)
    requires Faithful(prev, first, log) && name in prev
    requires Replay(first[name], EventsOf(log', name)) == Some(cur.online)
    requires forall p | p != name :: EventsOf(log', p) == EventsOf(log, p)
    ensures Faithful(prev[name := cur], first, log')
  {
  }

  lemma FaithfulFirst(prev: map<string, Snapshot>, first: map<string, set<string>>, log: seq<Event>, name: string,
                      cur: Snapshot)
    requires Faithful(prev, first, log) && name !in prev
    ensures Faithful(prev[name := cur], first[name := cur.online], log)
  {
  }

  // ---------------------------------------------------------------- what is seen, told from the reports

  // The report shows the peer online: its interface is up and the listing has it, marked so.
  predicate Shows(r: Report, peer: string) {
    r.up == Some(true) && r.peers.Some? && Seen(peer, true) in r.peers.value
  }

  lemma ShownIsOnline(r: Report, peer: string)
    requires r.up.Some?
    ensures peer in Current(r).online <==> Shows(r, peer)
  {
    if peer in Current(r).online {
      var s :| s in r.peers.value && s.online && s.publicKey == peer;
      assert s == Seen(peer, true);
    } else if r.up.value && r.peers.Some? {
      assert forall s | s in r.peers.value && s.online :: s.publicKey in Current(r).online;
    }
  }

  // The provider answered at i, and at no later place; at i, and at no earlier one.
  predicate LastAnswer(reports: seq<Report>, provider: string, i: nat) {
    && i < |reports| && reports[i].name == provider && reports[i].up.Some?
    && forall j | i < j < |reports| :: reports[j].name != provider || reports[j].up.None?
  }

  predicate FirstAnswer(reports: seq<Report>, provider: string, i: nat) {
    && i < |reports| && reports[i].name == provider && reports[i].up.Some?
    && forall j | 0 <= j < i :: reports[j].name != provider || reports[j].up.None?
  }

  lemma {:induction false} LastAnswerStands(reports: seq<Report>, provider: string, i: nat)
    requires LastAnswer(reports, provider, i)
    ensures var prev := AllPrev(map[], reports); provider in prev && prev[provider] == Current(reports[i])
  {
    var n := |reports| - 1;
    if i < n {
      assert forall j | 0 <= j < n :: reports[..n][j] == reports[j];
      LastAnswerStands(reports[..n], provider, i);
    }
  }

  lemma {:induction false} FirstAnswerStands(reports: seq<Report>, provider: string, i: nat)
    requires FirstAnswer(reports, provider, i)
    ensures var first := AllFirst(map[], reports); provider in first && first[provider] == Current(reports[i]).online
  {
    var n := |reports| - 1;
    if i < n {
      assert forall j | 0 <= j < n :: reports[..n][j] == reports[j];
      FirstAnswerStands(reports[..n], provider, i);
    } else {
      NotAnswered(reports[..n], provider);
    }
  }

  lemma {:induction false} NotAnswered(reports: seq<Report>, provider: string)
    requires forall j | 0 <= j < |reports| :: reports[j].name != provider || reports[j].up.None?
    ensures provider !in AllFirst(map[], reports)
  {
    if reports != [] {
      var n := |reports| - 1;
      assert forall j | 0 <= j < n :: reports[..n][j] == reports[j];
      NotAnswered(reports[..n], provider);
    }
  }

  /** Replaying: a peer is online at the end exactly if its last event is a connect, or if it has none and was online
      at the start. */
  lemma {:induction false} ReplayExactly(start: set<string>, events: seq<Event>, peer: string)
    requires Replay(start, events).Some?
    ensures forall i: nat | i < |events| && events[i].peer == peer
                            && (forall j | i < j < |events| :: events[j].peer != peer) ::
              peer in Replay(start, events).value <==> events[i].connected
    ensures (forall i | 0 <= i < |events| :: events[i].peer != peer) ==>
              (peer in Replay(start, events).value <==> peer in start)
  {
    if events != [] {
      var n := |events| - 1;
      assert forall j | 0 <= j < n :: events[..n][j] == events[j];
      ReplayExactly(start, events[..n], peer);
    }
  }

  lemma {:induction false} EventsOfMembers(log: seq<Event>, provider: string, e: Event)
    ensures e in EventsOf(log, provider) <==> e in log && e.provider == provider
  {
    if log != [] {
      EventsOfMembers(log[..|log| - 1], provider, e);
      assert log == log[..|log| - 1] + [log[|log| - 1]];
    }
  }

  /** After any ticks from the start: the history of a provider leads from the peers its first answer shows online to
      those its last answer shows online. */
  lemma HistoryExactly(prev: map<string, Snapshot>, first: map<string, set<string>>, log: seq<Event>, ticks: Ticks,
                       provider: string, i: nat, j: nat)
    requires Faithful(prev, first, log) && prev == AllPrev(map[], Reports(ticks))
    requires first == AllFirst(map[], Reports(ticks))
    requires FirstAnswer(Reports(ticks), provider, i) && LastAnswer(Reports(ticks), provider, j)
    ensures provider in first && Replay(first[provider], EventsOf(log, provider)).Some?
    ensures forall peer :: peer in first[provider] <==> Shows(Reports(ticks)[i], peer)
    ensures forall peer ::
              peer in Replay(first[provider], EventsOf(log, provider)).value <==> Shows(Reports(ticks)[j], peer)
  {
    FirstAnswerStands(Reports(ticks), provider, i);
    LastAnswerStands(Reports(ticks), provider, j);
    forall peer { ShownIsOnline(Reports(ticks)[i], peer); }
    forall peer { ShownIsOnline(Reports(ticks)[j], peer); }
  }

  class Watch {
    var prev: map<string, Snapshot>
    var log: seq<Event>
    ghost var first: map<string, set<string>> // each provider's first snapshot

    ghost predicate Valid()
      reads this
    {
      Faithful(prev, first, log)
    }

    constructor ()
      ensures Valid() && prev == map[] && log == []
    {
      prev, log, first := map[], [], map[];
    }

    /** One provider of one tick: one event per peer whose state changed, and no other. */
    method Observe(r: Report)
      requires Valid()
      modifies this
      ensures Valid()
      ensures prev == NextPrev(old(prev), r)
      ensures old(log) <= log && (forall p | p != r.name :: EventsOf(log, p) == EventsOf(old(log), p))
      ensures |log| - |old(log)| == if r.up.None? || r.name !in old(prev) then 0
                else Changes(old(prev)[r.name].online, Current(r).online)
      ensures first == NextFirst(old(first), r)
    {
      if r.up.None? { return; }
      var cur := Current(r);
      if r.name in prev {
        log := LogChanges(log, r.name, prev[r.name].online, cur.online, first[r.name]);
        FaithfulAfter(prev, first, old(log), log, r.name, cur);
      } else {
        FaithfulFirst(prev, first, log, r.name, cur);
        first := first[r.name := cur.online];
      }
      prev := prev[r.name := cur];
    }

    /** A tick; one whose settings cannot be read does nothing. */
    method Tick(settingsFail: bool, reports: seq<Report>)
      requires Valid()
      modifies this
      ensures Valid() && old(log) <= log
      ensures prev == if settingsFail then old(prev) else AllPrev(old(prev), reports)
      ensures first == if settingsFail then old(first) else AllFirst(old(first), reports)
    {
      if settingsFail { return; }
      for i := 0 to |reports|
        invariant Valid() && old(log) <= log
        invariant prev == AllPrev(old(prev), reports[..i]) && first == AllFirst(old(first), reports[..i])
      {
        assert reports[..i + 1][..i] == reports[..i];
        Observe(reports[i]);
      }
      assert reports[..|reports|] == reports;
    }

    /** Any run of ticks. */
    method RunTicks(ticks: Ticks)
      requires Valid()
      modifies this
      ensures Valid() && old(log) <= log
      ensures prev == AllPrev(old(prev), Reports(ticks)) && first == AllFirst(old(first), Reports(ticks))
    {
      for i := 0 to |ticks|
        invariant Valid() && old(log) <= log
        invariant prev == AllPrev(old(prev), Reports(ticks[..i]))
        invariant first == AllFirst(old(first), Reports(ticks[..i]))
      {
        OneMoreTick(old(prev), old(first), ticks, i);
        Tick(ticks[i].0, ticks[i].1);
      }
      assert ticks[..|ticks|] == ticks;
    }
  }
}
