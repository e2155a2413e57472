/** What every run of the tracker keeps: each request is accounted for once, and "lost" means
    timed out and unanswered. */
module SnifferAccounts {
  import opened Wrappers
  import opened Octets
  import opened Sniffer

  // ---- conservation ----------------------------------------------------------------

  ghost function Ended(f: map<nat, Closing>, fate: Fate, code: nat): set<nat> {
    set id | id in f && f[id].fate == fate && f[id].code == code
  }

  ghost function WithFate(f: map<nat, Closing>, fate: Fate): set<nat> {
    set id | id in f && f[id].fate == fate
  }

  /** Everything ever sent. */
  ghost function Opened(log: seq<Note>): set<nat> {
    set k | 0 <= k < |log| && log[k].Sent? :: log[k].id
  }

  ghost predicate Counted(before: Counts, now: Counts, f: map<nat, Closing>, fate: Fate) {
    forall c: nat :: Get(before, c) + Get(now, c) == |Ended(f, fate, c)|
  }

  /** A request is live or closed, never both. */
  ghost predicate Booked(s: Tracker) {
    && s.fates.Keys !! s.live.Keys
    && (forall id :: id in s.fates ==> id < s.count)
    && Opened(s.log) == s.live.Keys + s.fates.Keys
  }

  /** The counters of all intervals together count exactly the requests closed as lost, and as
      reused, per packet code. */
  ghost predicate Accounted(s: Tracker) {
    && Booked(s)
    && Counted(s.past.lost, s.tally.lost, s.fates, Lost)
    && Counted(s.past.reused, s.tally.reused, s.fates, Reused)
  }

  lemma OpenedAppend(log: seq<Note>, n: Note)
    ensures Opened(log + [n]) == if n.Sent? then Opened(log) + {n.id} else Opened(log)
  {
    var more := log + [n];
    assert forall k :: 0 <= k < |log| ==> more[k] == log[k];
    assert more[|log|] == n;
    forall id | id in Opened(log)
      ensures id in Opened(more)
    {
      var k :| 0 <= k < |log| && log[k].Sent? && log[k].id == id;
      assert more[k].Sent? && more[k].id == id;
    }
  }

  lemma EndedAppend(f: map<nat, Closing>, id: nat, x: Closing, fate: Fate, c: nat)
    requires id !in f
    ensures |Ended(f[id := x], fate, c)| == |Ended(f, fate, c)| + if x.fate == fate && x.code == c then 1 else 0
  {
    var was, now := Ended(f, fate, c), Ended(f[id := x], fate, c);
    assert id !in was;
    assert now == if x.fate == fate && x.code == c then was + {id} else was;
  }

  /** Closing one request moves it from live to closed and, when `counted`, one counter. */
  lemma CountedAppend(before: Counts, now: Counts, f: map<nat, Closing>, fate: Fate, id: nat, x: Closing)
    requires Counted(before, now, f, fate) && id !in f
    ensures Counted(before, if x.fate == fate then Inc(now, x.code) else now, f[id := x], fate)
  {
    forall c: nat
      ensures Get(before, c) + Get(if x.fate == fate then Inc(now, x.code) else now, c) == |Ended(f[id := x], fate, c)|
    {
      EndedAppend(f, id, x, fate, c);
      assert Get(before, c) + Get(now, c) == |Ended(f, fate, c)|;
    }
  }

  /** rs_packet_cleanup() with the silent flag its callers pass, and with the reuse already
      counted: the books stay balanced. */
  lemma {:induction false} CleanupAccounted(s: Tracker, id: nat, cause: Cause, code: Octet, at: TimeVal)
    requires Consistent(s) && Accounted(s) && id in s.live
    ensures var r := s.live[id];
      var silent := match cause case Dropped => true case IdReused => !r.linked case TimedOut => r.silent;
      var s' := if FateOf(r, cause) == Reused then CountReuse(s, code) else s;
      Accounted(Cleanup(s', id, silent, cause, code, at))
  {
    hide Counted, Booked, Consistent, Opened, Inc;
    var r, fate := s.live[id], FateOf(s.live[id], cause);
    var x := ClosingOf(r, cause, code);
    CloseBooked(s, id, x, Closed(id, fate, Micros(at), cause));
    LiveNotClosed(s, id);
    CountedAppend(s.past.lost, s.tally.lost, s.fates, Lost, id, x);
    CountedAppend(s.past.reused, s.tally.reused, s.fates, Reused, id, x);
    var silent := match cause case Dropped => true case IdReused => !r.linked case TimedOut => r.silent;
    var s' := if fate == Reused then CountReuse(s, code) else s;
    var n := Closed(id, fate, Micros(at), cause);
    BookedSame(s.(live := s.live - {id}, fates := s.fates[id := x], log := s.log + [n]),
               Cleanup(s', id, silent, cause, code, at));
  }

  lemma LiveNotClosed(s: Tracker, id: nat)
    requires Booked(s) && id in s.live
    ensures id !in s.fates
  {
  }

  lemma {:induction false} CloseBooked(s: Tracker, id: nat, x: Closing, n: Note)
    requires Consistent(s) && Booked(s) && id in s.live && !n.Sent?
    ensures Booked(s.(live := s.live - {id}, fates := s.fates[id := x], log := s.log + [n]))
  {
    OpenedAppend(s.log, n);
  }

  /** Whether requests are booked depends on four parts of the state. */
  lemma BookedSame(s: Tracker, t: Tracker)
    requires s.live == t.live && s.fates == t.fates && s.log == t.log && s.count == t.count
    ensures Booked(s) <==> Booked(t)
  {
  }

  lemma {:induction false} ResponseAccounted(s: Tracker, at: TimeVal, key: Key, code: Octet, v: Verdict)
    requires Consistent(s) && Accounted(s)
    ensures Accounted(Response(s, at, key, code, v))
  {
    hide Cleanup, Opened, Counted, Consistent, AddMs, Micros;
    TreeEntry(s, key);
    if key in s.tree {
      var id := s.tree[key];
      CleanupAccounted(s, id, Dropped, code, at);
      OpenedAppend(s.log, Replied(id, Micros(at), code));
    }
  }

  lemma {:induction false} RetireAccounted(s: Tracker, at: TimeVal, key: Key, vector: Str, code: Octet)
    requires Consistent(s) && Accounted(s)
    ensures Accounted(Retire(s, at, key, vector, code))
  {
    hide Cleanup;
    if key in s.tree {
      CleanupAccounted(s, s.tree[key], IdReused, code, at);
    }
  }

  lemma {:induction false} TransmitAccounted(s: Tracker, at: TimeVal, key: Key, vector: Str, code: Octet)
    requires Consistent(s) && Accounted(s)
    ensures var s' := Transmit(s, at, key, vector, code); Accounted(s'.(count := s'.count + 1))
  {
    OpenedAppend(s.log, Sent(if key in s.tree then s.tree[key] else s.count, Micros(at), key, vector, code));
  }

  lemma {:induction false} AddCounted(before: Counts, now: Counts, f: map<nat, Closing>, fate: Fate)
    requires Counted(before, now, f, fate)
    ensures Counted(Add(before, now), map[], f, fate)
  {
    assert forall c: nat :: Get(Add(before, now), c) == Get(before, c) + Get(now, c);
  }

  lemma {:induction false} ResetAccounted(s: Tracker)
    requires Accounted(s)
    ensures Accounted(Reset(s))
  {
    hide Counted, Add, Opened;
    AddCounted(s.past.lost, s.tally.lost, s.fates, Lost);
    AddCounted(s.past.reused, s.tally.reused, s.fates, Reused);
  }

  lemma {:induction false} StepAccounted(s: Tracker, e: Event)
    requires Consistent(s) && Accounted(s) && Enabled(s, e)
    ensures Accounted(Step(s, e))
  {
    hide Response, Retire, Transmit, Cleanup, Counted;
    var t := s.(now := Micros(e.at));
    match e
    case RequestSeen(at, key, vector, code, v) =>
      RetireAccounted(t, at, key, vector, code);
      TransmitAccounted(Retire(t, at, key, vector, code), at, key, vector, code);
    case ResponseSeen(at, key, code, v) => ResponseAccounted(t, at, key, code, v);
    case TimerFired(at, id) => CleanupAccounted(t, id, TimedOut, t.live[id].code, at);
    case IntervalEnd(_) => ResetAccounted(t);
  }

  // ---- lost means unanswered ------------------------------------------------------------

  /** When request `id` was last transmitted. */
  function LastSent(log: seq<Note>, id: nat): Option<int> {
    if log == [] then None
    else
      var n := log[|log| - 1];
      if n.Sent? && n.id == id then Some(n.at) else LastSent(log[..|log| - 1], id)
  }

  /** Whether a response was linked to it since. */
  predicate AnsweredSince(log: seq<Note>, id: nat) {
    log != [] &&
    var n := log[|log| - 1];
    if n.id == id && !n.Closed? then n.Replied? else AnsweredSince(log[..|log| - 1], id)
  }

  lemma Appended(log: seq<Note>, n: Note, id: nat)
    ensures LastSent(log + [n], id) == if n.Sent? && n.id == id then Some(n.at) else LastSent(log, id)
    ensures AnsweredSince(log + [n], id) == if n.id == id && !n.Closed? then n.Replied? else AnsweredSince(log, id)
  {
    assert (log + [n])[..|log|] == log;
  }

  /** A note that closes a request says what the notes before it imply. */
  ghost predicate Justified(before: seq<Note>, n: Note, timeout: nat) {
    match n
    case Closed(id, Lost, at, _) =>
      && LastSent(before, id).Some? && at >= LastSent(before, id).v + 1000 * timeout
      && !AnsweredSince(before, id)
    case Closed(id, Answered, _, _) => AnsweredSince(before, id)
    case Closed(id, Reused, _, _) => LastSent(before, id).Some? && !AnsweredSince(before, id)
    case _ => true
  }

  ghost predicate AllJustified(log: seq<Note>, timeout: nat) {
    forall k :: 0 <= k < |log| ==> Justified(log[..k], log[k], timeout)
  }

  lemma AllJustifiedAppend(log: seq<Note>, n: Note, timeout: nat)
    requires AllJustified(log, timeout) && Justified(log, n, timeout)
    ensures AllJustified(log + [n], timeout)
  {
    var more := log + [n];
    forall k | 0 <= k < |more|
      ensures Justified(more[..k], more[k], timeout)
    {
      assert more[..k] == log[..k];
      if k == |log| {
        assert log[..k] == log;
      }
    }
  }

  /** The fields of a live request agree with the log. */
  ghost predicate Agrees(r: Request, log: seq<Note>, id: nat, timeout: nat) {
    && LastSent(log, id).Some?
    && (r.linked <==> AnsweredSince(log, id))
    && (!r.linked ==> Micros(r.when) == LastSent(log, id).v + 1000 * timeout)
  }

  ghost predicate Timed(s: Tracker) {
    && (forall id :: id in s.live ==> Agrees(s.live[id], s.log, id, s.timeout))
    && AllJustified(s.log, s.timeout)
  }

  /** A note about one request leaves what the log says about the others. */
  lemma AgreesElsewhere(s: Tracker, n: Note)
    requires Timed(s)
    ensures forall id :: id in s.live && id != n.id ==> Agrees(s.live[id], s.log + [n], id, s.timeout)
  {
    forall id | id in s.live && id != n.id
      ensures Agrees(s.live[id], s.log + [n], id, s.timeout)
    {
      Appended(s.log, n, id);
    }
  }

  lemma {:induction false} CleanupTimed(s: Tracker, id: nat, silent: bool, cause: Cause, code: Octet, at: TimeVal)
    requires Timed(s) && id in s.live
    requires cause == TimedOut ==> Micros(s.live[id].when) <= Micros(at)
    ensures Timed(Cleanup(s, id, silent, cause, code, at))
  {
    hide LastSent, AnsweredSince, AllJustified;
    var n := Closed(id, FateOf(s.live[id], cause), Micros(at), cause);
    assert Agrees(s.live[id], s.log, id, s.timeout);
    AgreesElsewhere(s, n);
    AllJustifiedAppend(s.log, n, s.timeout);
  }

  /** Updating one request along with a note about it. */
  lemma {:induction false} NoteTimed(s: Tracker, id: nat, r: Request, n: Note)
    requires Timed(s) && n.id == id && !n.Closed?
    requires r.linked <==> n.Replied?
    requires n.Replied? ==> LastSent(s.log, id).Some?
    requires n.Sent? ==> Micros(r.when) == n.at + 1000 * s.timeout
    ensures Timed(s.(live := s.live[id := r], log := s.log + [n]))
  {
    hide LastSent, AnsweredSince, AllJustified;
    AgreesElsewhere(s, n);
    Appended(s.log, n, id);
    AllJustifiedAppend(s.log, n, s.timeout);
  }

  lemma {:induction false} ResponseTimed(s: Tracker, at: TimeVal, key: Key, code: Octet, v: Verdict)
    requires Consistent(s) && Timed(s)
    ensures Timed(Response(s, at, key, code, v))
  {
    hide Timed, Cleanup;
    if key in s.tree {
      var id := s.tree[key];
      CleanupTimed(s, id, true, Dropped, code, at);
      LiveWasSent(s, id);
      var s' := Response(s, at, key, code, v);
      if v.code && v.verified && v.decoded && v.attrs {
        NoteTimed(s, id, s'.live[id], Replied(id, Micros(at), code));
      }
    } else {
      TimedSame(s, Response(s, at, key, code, v));
    }
  }

  lemma LiveWasSent(s: Tracker, id: nat)
    requires Timed(s) && id in s.live
    ensures LastSent(s.log, id).Some?
  {
    assert Agrees(s.live[id], s.log, id, s.timeout);
  }

  lemma {:induction false} RetireTimed(s: Tracker, at: TimeVal, key: Key, vector: Str, code: Octet)
    requires Consistent(s) && Timed(s)
    ensures Timed(Retire(s, at, key, vector, code))
  {
    hide Cleanup;
    if key in s.tree {
      var id := s.tree[key];
      CleanupTimed(s, id, false, IdReused, code, at);
      CleanupTimed(CountReuse(s, code), id, true, IdReused, code, at);
    }
  }

  lemma {:induction false} TransmitTimed(s: Tracker, at: TimeVal, key: Key, vector: Str, code: Octet)
    requires Consistent(s) && Timed(s) && Normal(at)
    ensures Timed(Transmit(s, at, key, vector, code))
  {
    hide Consistent, AddMs, Timed;
    TreeEntry(s, key);
    var s' := Transmit(s, at, key, vector, code);
    var id := s'.tree[key];
    AddMsExact(at, s.timeout);
    TimedSame(s, s.(tree := s'.tree));
    NoteTimed(s.(tree := s'.tree), id, s'.live[id], Sent(id, Micros(at), key, vector, code));
  }

  /** Timing depends on the live requests and the log. */
  lemma TimedSame(s: Tracker, t: Tracker)
    requires s.live == t.live && s.log == t.log && s.timeout == t.timeout
    ensures Timed(s) <==> Timed(t)
  {
  }

  lemma {:induction false} StepTimed(s: Tracker, e: Event)
    requires Consistent(s) && Timed(s) && Enabled(s, e)
    ensures Timed(Step(s, e))
  {
    hide Response, Retire, Transmit, Cleanup, AllJustified;
    var t := s.(now := Micros(e.at));
    match e
    case RequestSeen(at, key, vector, code, v) =>
      RetireTimed(t, at, key, vector, code);
      TransmitTimed(Retire(t, at, key, vector, code), at, key, vector, code);
    case ResponseSeen(at, key, code, v) => ResponseTimed(t, at, key, code, v);
    case TimerFired(at, id) => CleanupTimed(t, id, t.live[id].silent, TimedOut, t.live[id].code, at);
    case IntervalEnd(_) =>
  }

  // ---- every run ---------------------------------------------------------------------------

  ghost predicate Sound(s: Tracker) { Consistent(s) && Accounted(s) && Timed(s) }

  lemma {:induction false} StepSound(s: Tracker, e: Event)
    requires Sound(s) && Enabled(s, e)
    ensures Sound(Step(s, e))
  {
    StepConsistent(s, e);
    StepAccounted(s, e);
    StepTimed(s, e);
  }

  /** s' is reached from s by these events, each enabled when it happens. */
  ghost predicate Reaches(s: Tracker, events: seq<Event>, s': Tracker)
    decreases |events|
  {
    if events == [] then s == s'
    else Consistent(s) && Enabled(s, events[0]) && Reaches(Step(s, events[0]), events[1..], s')
  }

  lemma {:induction false} RunSound(s: Tracker, events: seq<Event>, s': Tracker)
    requires Sound(s) && Reaches(s, events, s')
    ensures Sound(s') && s'.timeout == s.timeout
    decreases |events|
  {
    if events != [] {
      StepSound(s, events[0]);
      RunSound(Step(s, events[0]), events[1..], s');
    }
  }

  /** The same without the invariant. */
  ghost predicate Runs(s: Tracker, events: seq<Event>, s': Tracker)
    decreases |events|
  {
    if events == [] then s == s'
    else Consistent(s) ==> Enabled(s, events[0]) && Runs(Step(s, events[0]), events[1..], s')
  }

  /** Every run of enabled events from the start is one of the runs of Reaches(). */
  lemma {:induction false} EveryRunReaches(timeout: nat, filtered: bool, asked: bool, now: int,
                                           events: seq<Event>, s: Tracker)
    ensures var t := Start(timeout, filtered, asked, now); Runs(t, events, s) <==> Reaches(t, events, s)
  {
    RunsReach(Start(timeout, filtered, asked, now), events, s);
  }

  lemma {:induction false} RunsReach(s: Tracker, events: seq<Event>, s': Tracker)
    requires Consistent(s)
    ensures Runs(s, events, s') <==> Reaches(s, events, s')
    decreases |events|
  {
    hide Consistent, Step, Enabled;
    if events != [] && Enabled(s, events[0]) {
      StepConsistent(s, events[0]);
      RunsReach(Step(s, events[0]), events[1..], s');
    }
  }

  lemma {:induction false} StartSound(timeout: nat, filtered: bool, asked: bool, now: int)
    ensures Sound(Start(timeout, filtered, asked, now))
  {
    assert forall fate, c :: Ended(map[], fate, c) == {};
    assert Opened([]) == {};
  }

  /** Conservation: at every point of every run the requests ever opened are the live ones,
      all of them in the tree under distinct keys, plus those closed as lost, as reused, after
      a response, or silently; and the lost and reused counters, summed over all intervals,
      count the first two kinds per packet code. */
  lemma {:induction false} Conservation(timeout: nat, filtered: bool, asked: bool, now: int,
                                        events: seq<Event>, s: Tracker)
    requires Reaches(Start(timeout, filtered, asked, now), events, s)
    ensures |Opened(s.log)| == |s.live| + |WithFate(s.fates, Lost)| + |WithFate(s.fates, Reused)|
                               + |WithFate(s.fates, Answered)| + |WithFate(s.fates, Silenced)|
    ensures |s.tree| == |s.live|
    ensures Counted(s.past.lost, s.tally.lost, s.fates, Lost)
    ensures Counted(s.past.reused, s.tally.reused, s.fates, Reused)
  {
    StartSound(timeout, filtered, asked, now);
    RunSound(Start(timeout, filtered, asked, now), events, s);
    FatesPartition(s.fates);
    assert |s.live.Keys + s.fates.Keys| == |s.live.Keys| + |s.fates.Keys|;
    SameSize(s);
  }

  lemma FatesPartition(f: map<nat, Closing>)
    ensures |f.Keys| == |WithFate(f, Lost)| + |WithFate(f, Reused)| + |WithFate(f, Answered)| + |WithFate(f, Silenced)|
  {
    var a, b, c, d := WithFate(f, Lost), WithFate(f, Reused), WithFate(f, Answered), WithFate(f, Silenced);
    assert f.Keys == a + (b + (c + d));
    assert |c + d| == |c| + |d|;
    assert |b + (c + d)| == |b| + |c + d|;
  }

  lemma SameSize(s: Tracker)
    requires Consistent(s)
    ensures |s.tree| == |s.live|
  {
    Bijection(s.tree, s.live.Keys);
  }

  /** A map that is one-to-one onto a set has as many keys as the set has elements. */
  lemma {:induction false} Bijection(m: map<Key, nat>, ids: set<nat>)
    requires forall k :: k in m ==> m[k] in ids
    requires forall id :: id in ids ==> exists k :: k in m && m[k] == id
    requires forall j, k :: j in m && k in m && m[j] == m[k] ==> j == k
    ensures |m| == |ids|
    decreases |ids|
  {
    if ids == {} {
      assert m.Keys == {};
    } else {
      var id :| id in ids;
      var k :| k in m && m[k] == id;
      var m', ids' := m - {k}, ids - {id};
      assert m'.Keys == m.Keys - {k};
      forall x | x in ids'
        ensures exists j :: j in m' && m'[j] == x
      {
        var j :| j in m && m[j] == x;
        assert j in m' && m'[j] == x;
      }
      Bijection(m', ids');
    }
  }

  /** Lost means unanswered: in every run, whenever a request is counted lost, its last
      transmission lies at least the timeout back and no response was linked since. */
  lemma {:induction false} LostMeansUnanswered(timeout: nat, filtered: bool, asked: bool, now: int,
                                               events: seq<Event>, s: Tracker, k: nat)
    requires Reaches(Start(timeout, filtered, asked, now), events, s)
    requires k < |s.log| && s.log[k].Closed? && s.log[k].fate == Lost
    ensures var before, n := s.log[..k], s.log[k];
      && LastSent(before, n.id).Some? && n.at >= LastSent(before, n.id).v + 1000 * timeout
      && !AnsweredSince(before, n.id)
  {
    StartSound(timeout, filtered, asked, now);
    RunSound(Start(timeout, filtered, asked, now), events, s);
    assert Justified(s.log[..k], s.log[k], timeout);
  }
}
