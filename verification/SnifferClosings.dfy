/** The notes of the log and the fates of the requests say the same, so that what the log proves
    about closing a request holds of every request the counters count. */
module SnifferClosings {
  import opened Wrappers
  import opened Octets
  import opened Sniffer
  import opened SnifferAccounts

  /** All the fates with which the log closes a request. */
  function ClosedAs(log: seq<Note>, id: nat): seq<Fate> {
    if log == [] then []
    else
      var n := log[|log| - 1];
      ClosedAs(log[..|log| - 1], id) + if n.Closed? && n.id == id then [n.fate] else []
  }

  lemma ClosedAppend(log: seq<Note>, n: Note, id: nat)
    ensures ClosedAs(log + [n], id) == ClosedAs(log, id) + if n.Closed? && n.id == id then [n.fate] else []
  {
    assert (log + [n])[..|log|] == log;
  }

  /** The log closes a request exactly if it has a fate, once, and with that fate. */
  ghost predicate Filed(fates: map<nat, Closing>, log: seq<Note>) {
    forall id: nat :: ClosedAs(log, id) == if id in fates then [fates[id].fate] else []
  }

  lemma {:induction false} CloseFiled(fates: map<nat, Closing>, log: seq<Note>, id: nat, x: Closing, at: int,
                                      cause: Cause)
    requires Filed(fates, log) && id !in fates
    ensures Filed(fates[id := x], log + [Closed(id, x.fate, at, cause)])
  {
    forall j: nat
      ensures ClosedAs(log + [Closed(id, x.fate, at, cause)], j) ==
        if j in fates[id := x] then [fates[id := x][j].fate] else []
    {
      ClosedAppend(log, Closed(id, x.fate, at, cause), j);
    }
  }

  lemma {:induction false} NoteFiled(fates: map<nat, Closing>, log: seq<Note>, n: Note)
    requires Filed(fates, log) && !n.Closed?
    ensures Filed(fates, log + [n])
  {
    forall j: nat
      ensures ClosedAs(log + [n], j) == ClosedAs(log, j)
    {
      ClosedAppend(log, n, j);
    }
  }

  lemma {:induction false} CleanupFiled(s: Tracker, id: nat, silent: bool, cause: Cause, code: Octet, at: TimeVal)
    requires Booked(s) && Filed(s.fates, s.log) && id in s.live
    ensures var t := Cleanup(s, id, silent, cause, code, at); Filed(t.fates, t.log)
  {
    hide Filed, Opened;
    LiveNotClosed(s, id);
    CloseFiled(s.fates, s.log, id, ClosingOf(s.live[id], cause, code), Micros(at), cause);
  }

  lemma {:induction false} ResponseFiled(s: Tracker, at: TimeVal, key: Key, code: Octet, v: Verdict)
    requires Consistent(s) && Booked(s) && Filed(s.fates, s.log)
    ensures var t := Response(s, at, key, code, v); Filed(t.fates, t.log)
  {
    hide Cleanup, Filed, Opened, AddMs;
    if key in s.tree {
      CleanupFiled(s, s.tree[key], true, Dropped, code, at);
      NoteFiled(s.fates, s.log, Replied(s.tree[key], Micros(at), code));
    }
  }

  lemma {:induction false} RetireFiled(s: Tracker, at: TimeVal, key: Key, vector: Str, code: Octet)
    requires Consistent(s) && Booked(s) && Filed(s.fates, s.log)
    ensures var t := Retire(s, at, key, vector, code); Filed(t.fates, t.log)
  {
    hide Cleanup, Filed, Opened;
    if key in s.tree {
      CleanupFiled(s, s.tree[key], false, IdReused, code, at);
      CleanupFiled(CountReuse(s, code), s.tree[key], true, IdReused, code, at);
    }
  }

  lemma {:induction false} TransmitFiled(s: Tracker, at: TimeVal, key: Key, vector: Str, code: Octet)
    requires Consistent(s) && Filed(s.fates, s.log)
    ensures var t := Transmit(s, at, key, vector, code); Filed(t.fates, t.log)
  {
    hide Filed, AddMs;
    NoteFiled(s.fates, s.log, Sent(if key in s.tree then s.tree[key] else s.count, Micros(at), key, vector, code));
  }

  lemma {:induction false} StepFiled(s: Tracker, e: Event)
    requires Consistent(s) && Accounted(s) && Filed(s.fates, s.log) && Enabled(s, e)
    ensures Filed(Step(s, e).fates, Step(s, e).log)
  {
    hide Response, Retire, Transmit, Cleanup, Counted, Filed, Booked;
    var t := s.(now := Micros(e.at));
    BookedSame(s, t);
    match e
    case RequestSeen(at, key, vector, code, v) =>
      RetireFiled(t, at, key, vector, code);
      TransmitFiled(Retire(t, at, key, vector, code), at, key, vector, code);
    case ResponseSeen(at, key, code, v) => ResponseFiled(t, at, key, code, v);
    case TimerFired(at, id) => CleanupFiled(t, id, t.live[id].silent, TimedOut, t.live[id].code, at);
    case IntervalEnd(_) =>
  }

  lemma {:induction false} RunFiled(s: Tracker, events: seq<Event>, s': Tracker)
    requires Sound(s) && Filed(s.fates, s.log) && Reaches(s, events, s')
    ensures Filed(s'.fates, s'.log)
    decreases |events|
  {
    hide Filed, Step, Enabled, Accounted, Timed;
    if events != [] {
      StepFiled(s, events[0]);
      StepSound(s, events[0]);
      RunFiled(Step(s, events[0]), events[1..], s');
    }
  }

  /** Where the log closes a request. */
  lemma {:induction false} ClosedWhere(log: seq<Note>, id: nat, fate: Fate)
    requires fate in ClosedAs(log, id)
    ensures exists k :: 0 <= k < |log| && log[k].Closed? && log[k].id == id && log[k].fate == fate
  {
    var less, n := log[..|log| - 1], log[|log| - 1];
    if n.Closed? && n.id == id && n.fate == fate {
      assert log[|log| - 1] == n;
    } else {
      ClosedWhere(less, id, fate);
      var k :| 0 <= k < |less| && less[k].Closed? && less[k].id == id && less[k].fate == fate;
      assert log[k] == less[k];
    }
  }

  /** Request id is closed as lost at note k, with its last transmission at least the timeout ago and
      no response linked since. */
  ghost predicate LostAt(log: seq<Note>, id: nat, k: int, timeout: nat) {
    && 0 <= k < |log| && log[k].Closed? && log[k].id == id && log[k].fate == Lost
    && LastSent(log[..k], id).Some? && log[k].at >= LastSent(log[..k], id).v + 1000 * timeout
    && !AnsweredSince(log[..k], id)
  }

  /** At every point of every run the lost counters, summed over all intervals, count for each packet
      code requests that were closed exactly once, unanswered, and not before their timeout. */
  lemma {:induction false} LostCounted(timeout: nat, filtered: bool, asked: bool, now: int, events: seq<Event>,
                                       s: Tracker, code: nat)
    requires Reaches(Start(timeout, filtered, asked, now), events, s)
    ensures Get(s.past.lost, code) + Get(s.tally.lost, code) == |Ended(s.fates, Lost, code)|
    ensures forall id :: id in Ended(s.fates, Lost, code) ==>
      ClosedAs(s.log, id) == [Lost] && exists k :: LostAt(s.log, id, k, timeout)
  {
    hide Reaches, Sound, LastSent, AnsweredSince, Counted, Filed;
    var t := Start(timeout, filtered, asked, now);
    StartSound(timeout, filtered, asked, now);
    FiledStart();
    RunFiled(t, events, s);
    Conservation(timeout, filtered, asked, now, events, s);
    CountedAt(s, code);
    forall id | id in Ended(s.fates, Lost, code)
      ensures ClosedAs(s.log, id) == [Lost] && exists k :: LostAt(s.log, id, k, timeout)
    {
      FiledAt(s.fates, s.log, id);
      ClosedWhere(s.log, id, Lost);
      var k: nat :| k < |s.log| && s.log[k].Closed? && s.log[k].id == id && s.log[k].fate == Lost;
      LostMeansUnanswered(timeout, filtered, asked, now, events, s, k);
      assert LostAt(s.log, id, k, timeout);
    }
  }

  lemma FiledStart()
    ensures Filed(map[], [])
  {
  }

  lemma FiledAt(fates: map<nat, Closing>, log: seq<Note>, id: nat)
    requires Filed(fates, log) && id in fates
    ensures ClosedAs(log, id) == [fates[id].fate]
  {
  }

  lemma CountedAt(s: Tracker, code: nat)
    requires Counted(s.past.lost, s.tally.lost, s.fates, Lost)
    ensures Get(s.past.lost, code) + Get(s.tally.lost, code) == |Ended(s.fates, Lost, code)|
  {
  }
}
