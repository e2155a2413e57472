/** The history of the tracker follows from the packets alone, and so do its counters: what each
    event does in every reachable state, when a request is lost, and how a retransmission is told
    from the reuse of an id. */
module SnifferLaws {
  import opened Wrappers
  import opened Octets
  import opened Sniffer
  import opened SnifferAccounts
  import opened SnifferRetries
  import opened SnifferClosings
  import opened SnifferHistory

  // ---- the notes follow from the packets ------------------------------------------------------------

  predicate Passed(v: Verdict) { v.code && v.verified && v.decoded }

  /** The request under a packet's key that was sent with another authenticator. */
  function Ousted(log: seq<Note>, key: Key, vector: Str): Option<nat> {
    var h := Holder(log, key);
    if h.Some? && IdentityOf(log, h.v).Some? && IdentityOf(log, h.v).v.vector != vector then h else None
  }

  /** What one event adds to the notes, from the notes alone; `count` packets were seen before. */
  function NotesOf(log: seq<Note>, count: nat, filtered: bool, e: Event): seq<Note> {
    var now := Micros(e.at);
    match e
    case RequestSeen(_, key, vector, code, v) =>
      if !Passed(v) then []
      else
        var h, gone := Holder(log, key), Ousted(log, key, vector);
        (if gone.Some? then [Closed(gone.v, FateBy(log, gone.v, IdReused, filtered), now, IdReused)] else []) +
        (if v.attrs then [Sent(if h.Some? && gone.None? then h.v else count, now, key, vector, code)] else [])
    case ResponseSeen(_, key, code, v) =>
      var h := Holder(log, key);
      if h.None? then []
      else if !v.code || (Passed(v) && !v.attrs) then [Closed(h.v, Silenced, now, Dropped)]
      else if Passed(v) then [Replied(h.v, now, code)]
      else []
    case TimerFired(_, id) => [Closed(id, FateBy(log, id, TimedOut, filtered), now, TimedOut)]
    case IntervalEnd(_) => []
  }

  lemma HolderOf(s: Tracker, key: Key)
    requires Grounded(s) && Traced(s)
    ensures key in s.tree ==>
      && Holder(s.log, key) == Some(s.tree[key]) && s.tree[key] in s.live
      && IdentityOf(s.log, s.tree[key]) == Some(Identity(key, s.live[s.tree[key]].vector))
    ensures key !in s.tree ==> Holder(s.log, key) == None
  {
    hide Holder, IdentityOf, Booked, Timed, Retraced, OneIdentity, RightFates, Known;
    if key in s.tree {
      assert Recalls(s.live[s.tree[key]], s.log, s.tree[key], s.filtered, s.timeout);
    }
  }

  /** The options, and how many packets there were. */
  ghost predicate Keeps(s: Tracker, t: Tracker) {
    t.filtered == s.filtered && t.asked == s.asked && t.timeout == s.timeout && t.count == s.count
  }

  /** What a cleanup notes and counts. */
  lemma CleanupParts(s: Tracker, id: nat, silent: bool, cause: Cause, code: Octet, at: TimeVal)
    requires id in s.live
    ensures var r := s.live[id]; var t := Cleanup(s, id, silent, cause, code, at);
      && t.log == s.log + [Closed(id, FateOf(r, cause), Micros(at), cause)]
      && t.tree == s.tree - {r.key} && t.past == s.past
      && t.live == s.live - {id} && id in t.fates && t.fates[id].fate == FateOf(r, cause) && Keeps(s, t)
      && t.tally.lost == (if !silent && !r.linked then Inc(s.tally.lost, r.code) else s.tally.lost)
      && t.tally.reused == s.tally.reused && t.tally.unlinked == s.tally.unlinked
  {
  }

  lemma TransmitParts(s: Tracker, at: TimeVal, key: Key, vector: Str, code: Octet)
    requires Consistent(s)
    ensures var t := Transmit(s, at, key, vector, code);
      && t.log == s.log + [Sent(if key in s.tree then s.tree[key] else s.count, Micros(at), key, vector, code)]
      && t.tally == s.tally && t.past == s.past && t.fates == s.fates && Keeps(s, t)
      && t.live.Keys == s.live.Keys + {if key in s.tree then s.tree[key] else s.count}
  {
    hide AddMs, Micros, Consistent;
    TreeEntry(s, key);
  }

  lemma {:induction false} RetireParts(s: Tracker, at: TimeVal, key: Key, vector: Str, code: Octet)
    requires Consistent(s)
    ensures var t := Retire(s, at, key, vector, code);
      if key !in s.tree || s.live[s.tree[key]].vector == vector then t == s
      else
        var id := s.tree[key]; var r := s.live[id];
        && t.log == s.log + [Closed(id, if r.linked then Answered else Reused, Micros(at), IdReused)]
        && key !in t.tree && t.past == s.past && Keeps(s, t)
        && t.live == s.live - {id} && id in t.fates && t.fates[id].fate == (if r.linked then Answered else Reused)
        && t.tally.lost == s.tally.lost && t.tally.unlinked == s.tally.unlinked
        && t.tally.reused == (if r.linked then s.tally.reused else Inc(s.tally.reused, code))
  {
    hide Cleanup, Inc, Micros;
    if key in s.tree {
      CleanupParts(s, s.tree[key], false, IdReused, code, at);
      CleanupParts(CountReuse(s, code), s.tree[key], true, IdReused, code, at);
    }
  }

  /** What a request packet notes, from the tree. */
  lemma {:induction false} QueryLog(s: Tracker, at: TimeVal, key: Key, vector: Str, code: Octet, v: Verdict)
    requires Consistent(s)
    ensures var t := Query(s, at, key, vector, code, v); var found := key in s.tree;
      var reused := found && s.live[s.tree[key]].vector != vector;
      var id := if found && !reused then s.tree[key] else s.count;
      var fate := if found && s.live[s.tree[key]].linked then Answered else Reused;
      t.log == s.log +
        ((if Passed(v) && reused then [Closed(s.tree[key], fate, Micros(at), IdReused)] else []) +
         (if Passed(v) && v.attrs then [Sent(id, Micros(at), key, vector, code)] else []))
  {
    hide Retire, Transmit, Micros, Consistent;
    TreeEntry(s, key);
    assert s.log + ([] + []) == s.log;
    if Passed(v) {
      RetireParts(s, at, key, vector, code);
      var u := Retire(s, at, key, vector, code);
      TransmitParts(u, at, key, vector, code);
      assert forall n: Note :: [] + [n] == [n];
      assert forall c: Note, n: Note :: s.log + [c] + [n] == s.log + ([c] + [n]);
    }
  }

  lemma {:induction false} QueryNotes(s: Tracker, e: Event)
    requires Grounded(s) && Traced(s) && e.RequestSeen?
    ensures Query(s, e.at, e.key, e.vector, e.code, e.v).log == s.log + NotesOf(s.log, s.count, s.filtered, e)
  {
    hide Grounded, Traced, Holder, IdentityOf, AnsweredSince, Micros, Consistent, Query;
    HolderOf(s, e.key);
    GroundedParts(s);
    if e.key in s.tree {
      LinkedMeans(s, s.tree[e.key]);
    }
    QueryLog(s, e.at, e.key, e.vector, e.code, e.v);
    assert s.log + [] == s.log;
  }

  lemma GroundedParts(s: Tracker)
    requires Grounded(s)
    ensures Consistent(s) && Booked(s) && Timed(s) && Retraced(s.live, s.fates, s.log)
  {
  }

  /** What a response notes, from the tree. */
  lemma {:induction false} ResponseLog(s: Tracker, at: TimeVal, key: Key, code: Octet, v: Verdict)
    requires Consistent(s)
    ensures var t := Response(s, at, key, code, v);
      t.log == s.log +
        (if key !in s.tree then []
         else if !v.code || (Passed(v) && !v.attrs) then [Closed(s.tree[key], Silenced, Micros(at), Dropped)]
         else if Passed(v) then [Replied(s.tree[key], Micros(at), code)]
         else [])
  {
    hide Cleanup, Micros, AddMs, Consistent, Inc;
    TreeEntry(s, key);
    if key in s.tree {
      CleanupParts(s, s.tree[key], true, Dropped, code, at);
    }
    assert s.log + [] == s.log;
  }

  lemma {:induction false} ResponseNotes(s: Tracker, e: Event)
    requires Grounded(s) && Traced(s) && e.ResponseSeen?
    ensures Response(s, e.at, e.key, e.code, e.v).log == s.log + NotesOf(s.log, s.count, s.filtered, e)
  {
    hide Grounded, Traced, Holder, IdentityOf, AnsweredSince, Micros, Response, Consistent;
    HolderOf(s, e.key);
    GroundedParts(s);
    ResponseLog(s, e.at, e.key, e.code, e.v);
  }

  /** Every event does to the history what the history so far demands. */
  lemma {:induction false} StepNotes(s: Tracker, e: Event)
    requires Whole(s) && Enabled(s, e)
    ensures Consistent(s)
    ensures Step(s, e).log == s.log + NotesOf(s.log, s.count, s.filtered, e)
  {
    hide Query, Response, Traced, Whole, Sound, Grounded, NotesOf, Micros, Together;
    var t := s.(now := Micros(e.at));
    WholeLater(s, t.now);
    SoundOf(s);
    SoundOf(t);
    match e
    case RequestSeen(_, _, _, _, _) => QueryNotes(t, e);
    case ResponseSeen(_, _, _, _) => ResponseNotes(t, e);
    case TimerFired(at, id) => TimerNotes(t, e);
    case IntervalEnd(_) => NoNotes(s, e);
  }

  lemma NoNotes(s: Tracker, e: Event)
    requires e.IntervalEnd?
    ensures s.log + NotesOf(s.log, s.count, s.filtered, e) == s.log
  {
  }

  lemma {:induction false} TimerNotes(s: Tracker, e: Event)
    requires Grounded(s) && Traced(s) && e.TimerFired? && e.id in s.live
    ensures Cleanup(s, e.id, s.live[e.id].silent, TimedOut, s.live[e.id].code, e.at).log ==
            s.log + NotesOf(s.log, s.count, s.filtered, e)
  {
    hide Booked, AnsweredSince, Micros, CloseTally, ClosingOf, Consistent, OneIdentity, RightFates, TreeRecalled, Known;
    LinkedMeans(s, e.id);
    assert Recalls(s.live[e.id], s.log, e.id, s.filtered, s.timeout);
  }

  // ---- and so do the counters ---------------------------------------------------------------------

  /** The code under which an event counts a request as lost, if it does: exactly when its timer
      fires, responses are not filtered, and none came since it was last sent. */
  function CountsLost(log: seq<Note>, filtered: bool, e: Event): Option<nat> {
    if e.TimerFired? && !filtered && !AnsweredSince(log, e.id) && CodeOf(log, e.id).Some?
    then Some(CodeOf(log, e.id).v) else None
  }

  /** ... as reused: when a request with another authenticator ousts one without a response. */
  function CountsReused(log: seq<Note>, e: Event): Option<nat> {
    if e.RequestSeen? && Passed(e.v) then
      var gone := Ousted(log, e.key, e.vector);
      if gone.Some? && !AnsweredSince(log, gone.v) then Some(e.code) else None
    else None
  }

  /** ... and a response as unlinked: when no request waits for it and none can have been dropped. */
  function CountsUnlinked(log: seq<Note>, asked: bool, e: Event): Option<nat> {
    if e.ResponseSeen? && Holder(log, e.key).None? && e.v.code && e.v.decoded && !asked then Some(e.code) else None
  }

  ghost predicate CountedBy(s: Tracker, e: Event, t: Tracker) {
    && t.tally.lost == IncIf(s.tally.lost, CountsLost(s.log, s.filtered, e))
    && t.tally.reused == IncIf(s.tally.reused, CountsReused(s.log, e))
    && t.tally.unlinked == IncIf(s.tally.unlinked, CountsUnlinked(s.log, s.asked, e))
    && t.past == s.past
  }

  lemma {:induction false} QueryParts(s: Tracker, at: TimeVal, key: Key, vector: Str, code: Octet, v: Verdict)
    requires Consistent(s)
    ensures var t := Query(s, at, key, vector, code, v);
      && t.tally.lost == s.tally.lost && t.tally.unlinked == s.tally.unlinked && t.past == s.past && Keeps(s, t)
      && t.tally.reused ==
         (if Passed(v) && key in s.tree && s.live[s.tree[key]].vector != vector && !s.live[s.tree[key]].linked
          then Inc(s.tally.reused, code) else s.tally.reused)
  {
    hide Retire, Transmit, Inc;
    RetireParts(s, at, key, vector, code);
    TransmitParts(Retire(s, at, key, vector, code), at, key, vector, code);
  }

  lemma {:induction false} QueryCounts(s: Tracker, e: Event)
    requires Grounded(s) && Traced(s) && e.RequestSeen?
    ensures CountedBy(s, e, Query(s, e.at, e.key, e.vector, e.code, e.v))
  {
    hide Grounded, Traced, Holder, IdentityOf, AnsweredSince, Consistent, Inc, Query;
    HolderOf(s, e.key);
    GroundedParts(s);
    if e.key in s.tree {
      LinkedMeans(s, s.tree[e.key]);
    }
    QueryParts(s, e.at, e.key, e.vector, e.code, e.v);
  }

  lemma {:induction false} ResponseParts(s: Tracker, at: TimeVal, key: Key, code: Octet, v: Verdict)
    requires Consistent(s)
    ensures var t := Response(s, at, key, code, v);
      && t.tally.lost == s.tally.lost && t.tally.reused == s.tally.reused && t.past == s.past && Keeps(s, t)
      && t.tally.unlinked ==
         (if key !in s.tree && v.code && v.decoded && !s.asked then Inc(s.tally.unlinked, code) else s.tally.unlinked)
  {
    hide Cleanup, Inc, AddMs, Micros;
    if key in s.tree {
      CleanupParts(s, s.tree[key], true, Dropped, code, at);
    }
  }

  lemma {:induction false} ResponseCounts(s: Tracker, e: Event)
    requires Grounded(s) && Traced(s) && e.ResponseSeen?
    ensures CountedBy(s, e, Response(s, e.at, e.key, e.code, e.v))
  {
    hide Grounded, Traced, Holder, IdentityOf, AnsweredSince, Consistent, Inc, Response;
    HolderOf(s, e.key);
    GroundedParts(s);
    ResponseParts(s, e.at, e.key, e.code, e.v);
  }

  lemma {:induction false} TimerCounts(s: Tracker, e: Event)
    requires Grounded(s) && Traced(s) && e.TimerFired? && e.id in s.live
    ensures CountedBy(s, e, Cleanup(s, e.id, s.live[e.id].silent, TimedOut, s.live[e.id].code, e.at))
  {
    hide Booked, AnsweredSince, Micros, ClosingOf, Consistent, OneIdentity, RightFates, TreeRecalled, Known, Inc,
      ReqCell, RspCell, CodeOf;
    LinkedMeans(s, e.id);
    assert Recalls(s.live[e.id], s.log, e.id, s.filtered, s.timeout);
  }

  /** Every event counts what the history demands and nothing else: the end of an interval moves
      the counters to those of the past, and every other event adds at most one to each. */
  lemma {:induction false} StepCounts(s: Tracker, e: Event)
    requires Whole(s) && Enabled(s, e)
    ensures Consistent(s)
    ensures if e.IntervalEnd? then Step(s, e).tally == ZERO_TALLY && Step(s, e).past == Together(s.past, s.tally)
            else CountedBy(s, e, Step(s, e))
  {
    hide Query, Response, Cleanup, Traced, Whole, Sound, Grounded, Micros, Together, IncIf, CountsLost, CountsReused,
      CountsUnlinked;
    var t := s.(now := Micros(e.at));
    WholeLater(s, t.now);
    SoundOf(s);
    SoundOf(t);
    match e
    case RequestSeen(_, _, _, _, _) => QueryCounts(t, e);
    case ResponseSeen(_, _, _, _) => ResponseCounts(t, e);
    case TimerFired(at, id) => TimerCounts(t, e);
    case IntervalEnd(_) =>
  }

  // ---- every run ----------------------------------------------------------------------------------------

  lemma {:induction false} StartWhole(timeout: nat, filtered: bool, asked: bool, now: int)
    ensures Whole(Start(timeout, filtered, asked, now))
  {
    var t := Start(timeout, filtered, asked, now);
    StartSound(timeout, filtered, asked, now);
    FiledStart();
    assert forall c: nat :: InReq(map[], c) == {} && InRsp(map[], c) == {};
    assert Retried(t);
  }

  lemma {:induction false} RunWhole(s: Tracker, events: seq<Event>, s': Tracker)
    requires Whole(s) && Reaches(s, events, s')
    ensures Whole(s') && s'.filtered == s.filtered && s'.asked == s.asked && s'.timeout == s.timeout
    decreases |events|
  {
    hide Whole, Step, Enabled, Consistent;
    if events != [] {
      StepWhole(s, events[0]);
      StepKeeps(s, events[0]);
      RunWhole(Step(s, events[0]), events[1..], s');
    }
  }

  predicate IsPacket(e: Event) { e.RequestSeen? || e.ResponseSeen? }

  lemma {:induction false} StepKeeps(s: Tracker, e: Event)
    requires Consistent(s) && Enabled(s, e)
    ensures var t := Step(s, e);
      && t.filtered == s.filtered && t.asked == s.asked && t.timeout == s.timeout
      && t.count == s.count + if IsPacket(e) then 1 else 0
  {
    hide Micros, Query, Response, Cleanup, Together, Inc, Consistent;
    var t := s.(now := Micros(e.at));
    ConsistentSame(s, t);
    match e
    case RequestSeen(at, key, vector, code, v) => QueryParts(t, at, key, vector, code, v);
    case ResponseSeen(at, key, code, v) => ResponseParts(t, at, key, code, v);
    case TimerFired(at, id) => CleanupParts(t, id, t.live[id].silent, TimedOut, t.live[id].code, at);
    case IntervalEnd(_) =>
  }

  lemma {:induction false} ReachedWhole(timeout: nat, filtered: bool, asked: bool, now: int,
                                        events: seq<Event>, s: Tracker)
    requires Reaches(Start(timeout, filtered, asked, now), events, s)
    ensures Whole(s) && Consistent(s) && s.filtered == filtered && s.asked == asked && s.timeout == timeout
  {
    hide Whole, Reaches;
    StartWhole(timeout, filtered, asked, now);
    RunWhole(Start(timeout, filtered, asked, now), events, s);
    SoundOf(s);
  }

  function Packets(events: seq<Event>): nat {
    if events == [] then 0
    else Packets(events[..|events| - 1]) + if IsPacket(events[|events| - 1]) then 1 else 0
  }

  /** The notes of a run, from its events alone. */
  function History(filtered: bool, events: seq<Event>): seq<Note> {
    if events == [] then []
    else
      var before := events[..|events| - 1];
      var log := History(filtered, before);
      log + NotesOf(log, Packets(before), filtered, events[|events| - 1])
  }

  lemma {:induction false} RunNotes(past: seq<Event>, s: Tracker, events: seq<Event>, s': Tracker)
    requires Whole(s) && Reaches(s, events, s')
    requires s.log == History(s.filtered, past) && s.count == Packets(past)
    ensures s'.log == History(s.filtered, past + events) && s'.count == Packets(past + events)
    decreases |events|
  {
    hide Whole, Step, Enabled, Consistent, NotesOf;
    if events == [] {
      assert past + events == past;
    } else {
      var e, t := events[0], Step(s, events[0]);
      StepWhole(s, e);
      StepNotes(s, e);
      StepKeeps(s, e);
      assert (past + [e])[..|past|] == past;
      RunNotes(past + [e], t, events[1..], s');
      assert past + [e] + events[1..] == past + events;
    }
  }

  /** The state of the tracker is a function of its history, and the history of the events: at every
      point of every run the tree holds under each key the request last sent under it and not
      closed since; a live request has the key, authenticator and code with which it was sent, knows
      how often it was sent again and answered again, and its timer stands at the timeout after it
      was last heard of; it will be cleaned up silently exactly if responses are filtered. */
  lemma {:induction false} StateIsHistory(timeout: nat, filtered: bool, asked: bool, now: int,
                                          events: seq<Event>, s: Tracker)
    requires Reaches(Start(timeout, filtered, asked, now), events, s)
    ensures s.log == History(filtered, events) && s.count == Packets(events)
    ensures forall key :: Holder(s.log, key) == if key in s.tree then Some(s.tree[key]) else None
    ensures forall id :: id in s.live ==>
      && Recalls(s.live[id], s.log, id, filtered, timeout)
      && s.live[id].linked == AnsweredSince(s.log, id) && s.live[id].rtReq + 1 == Sents(s.log, id)
    ensures forall id :: id in s.fates ==> FiledUnder(s.fates[id], s.log, id)
    ensures forall id :: id in Opened(s.log) <==> id in s.live || id in s.fates
  {
    var t := Start(timeout, filtered, asked, now);
    StartWhole(timeout, filtered, asked, now);
    ReachedWhole(timeout, filtered, asked, now, events, s);
    RunNotes([], t, events, s);
    assert [] + events == events;
    RecallParts(s);
  }

  lemma {:induction false} RecallParts(s: Tracker)
    requires Whole(s)
    ensures TreeRecalled(s.tree, s.log)
    ensures forall id :: id in s.live ==>
      && Recalls(s.live[id], s.log, id, s.filtered, s.timeout)
      && s.live[id].linked == AnsweredSince(s.log, id) && s.live[id].rtReq + 1 == Sents(s.log, id)
    ensures forall id :: id in s.fates ==> FiledUnder(s.fates[id], s.log, id)
    ensures forall id :: id in Opened(s.log) <==> id in s.live || id in s.fates
  {
    hide Recalls, FiledUnder, Holder, AnsweredSince, Sents, OneIdentity, RightFates, Known, AllJustified, Histogram,
      Counted, Filed;
    forall id | id in s.live
      ensures s.live[id].linked == AnsweredSince(s.log, id)
    {
      LinkedMeans(s, id);
    }
  }

  // ---- lost ---------------------------------------------------------------------------------------------

  /** In every reachable state, when the timer of a request fires the lost counter of its code goes
      up by one if responses are not filtered and none was linked since it was last sent, and no lost
      counter changes otherwise. */
  lemma {:induction false} TimerCountsLost(timeout: nat, filtered: bool, asked: bool, now: int,
                                           events: seq<Event>, s: Tracker, at: TimeVal, id: nat)
    requires Reaches(Start(timeout, filtered, asked, now), events, s) && Enabled(s, TimerFired(at, id))
    ensures Consistent(s)
    ensures var lost := Step(s, TimerFired(at, id)).tally.lost;
      && s.live[id].silent == filtered
      && (!filtered && !AnsweredSince(s.log, id) ==> lost == Inc(s.tally.lost, s.live[id].code))
      && (filtered || AnsweredSince(s.log, id) ==> lost == s.tally.lost)
      && LastHeard(s.log, id).Some? && Micros(at) >= LastHeard(s.log, id).v + 1000 * timeout
  {
    hide Whole, Reaches, Step, AnsweredSince, CodeOf, Inc;
    ReachedWhole(timeout, filtered, asked, now, events, s);
    StepCounts(s, TimerFired(at, id));
    RecallParts(s);
    assert Recalls(s.live[id], s.log, id, filtered, timeout);
  }

  /** Its timer closed the request while it was unanswered. */
  ghost predicate TimedOutUnanswered(log: seq<Note>, id: nat) {
    exists k :: 0 <= k < |log| && UnansweredAt(log, id, k)
  }

  ghost predicate UnansweredAt(log: seq<Note>, id: nat, k: int)
    requires 0 <= k < |log|
  {
    log[k].Closed? && log[k].id == id && log[k].cause == TimedOut && !AnsweredSince(log[..k], id)
  }

  lemma {:induction false} ClosedIs(log: seq<Note>, k: nat)
    requires k < |log| && log[k].Closed?
    ensures log[k].fate in ClosedAs(log, log[k].id)
  {
    var less := log[..|log| - 1];
    if k < |log| - 1 {
      assert less[k] == log[k];
      ClosedIs(less, k);
    }
  }

  /** Without a filter on responses the requests counted lost are exactly those whose timer closed
      them unanswered, under the code they were sent with; with one, none is ever counted lost. */
  lemma {:induction false} LostExactly(timeout: nat, filtered: bool, asked: bool, now: int,
                                       events: seq<Event>, s: Tracker, id: nat, code: nat)
    requires Reaches(Start(timeout, filtered, asked, now), events, s)
    ensures id in Ended(s.fates, Lost, code) <==>
      !filtered && TimedOutUnanswered(s.log, id) && CodeOf(s.log, id).Some? && CodeOf(s.log, id).v == code
  {
    hide Reaches, CodeOf, AnsweredSince, ClosedAs;
    ReachedWhole(timeout, filtered, asked, now, events, s);
    LostIff(s, id);
    if id in s.fates {
      assert FiledUnder(s.fates[id], s.log, id);
    }
  }

  lemma {:induction false} LostIff(s: Tracker, id: nat)
    requires Filed(s.fates, s.log) && RightFates(s.log, s.filtered)
    ensures id in s.fates && s.fates[id].fate == Lost <==> !s.filtered && TimedOutUnanswered(s.log, id)
  {
    hide AnsweredSince, ClosedAs, Filed;
    if id in s.fates && s.fates[id].fate == Lost {
      FiledAt(s.fates, s.log, id);
      ClosedWhere(s.log, id, Lost);
      var k :| 0 <= k < |s.log| && s.log[k].Closed? && s.log[k].id == id && s.log[k].fate == Lost;
      assert UnansweredAt(s.log, id, k);
    }
    if !s.filtered && TimedOutUnanswered(s.log, id) {
      var k :| 0 <= k < |s.log| && UnansweredAt(s.log, id, k);
      ClosedIs(s.log, k);
      FiledOnly(s.fates, s.log, id);
    }
  }

  lemma FiledOnly(fates: map<nat, Closing>, log: seq<Note>, id: nat)
    requires Filed(fates, log)
    ensures forall fate :: fate in ClosedAs(log, id) ==> id in fates && fates[id].fate == fate
  {
  }

  // ---- retransmission or reuse ------------------------------------------------------------------------

  /** All transmissions of one request have the same key and authenticator, in every run. */
  lemma {:induction false} SameIdentity(timeout: nat, filtered: bool, asked: bool, now: int,
                                        events: seq<Event>, s: Tracker, j: nat, k: nat)
    requires Reaches(Start(timeout, filtered, asked, now), events, s)
    requires j < |s.log| && k < |s.log| && s.log[j].Sent? && s.log[k].Sent? && s.log[j].id == s.log[k].id
    ensures s.log[j].key == s.log[k].key && s.log[j].vector == s.log[k].vector
  {
    hide Reaches, IdentityOf;
    ReachedWhole(timeout, filtered, asked, now, events, s);
    assert OneIdentity(s.log);
  }

  /** In every reachable state, a request packet that passes the filters under the key of a live
      request is one more transmission of it if the authenticators agree.  Otherwise it opens a new
      request, under its own number, and closes the old one: as reused, which is counted under the
      new packet's code, if no response was linked since it was last sent, and as answered if one was. */
  lemma {:induction false} RetransmitOrReuse(timeout: nat, filtered: bool, asked: bool, now: int,
                                             events: seq<Event>, s: Tracker, e: Event, id: nat)
    requires Reaches(Start(timeout, filtered, asked, now), events, s) && Enabled(s, e)
    requires e.RequestSeen? && Passed(e.v) && e.v.attrs && Holder(s.log, e.key) == Some(id)
    ensures Consistent(s) && id in s.live && s.live[id].key == e.key
    ensures var t, same := Step(s, e), s.live[id].vector == e.vector;
      && (Sents(t.log, id) == Sents(s.log, id) + 1 <==> same)
      && (same ==> id in t.live && t.fates == s.fates && t.tally == s.tally && s.count !in t.live)
      && (!same ==>
            && Sents(t.log, id) == Sents(s.log, id) && s.count in t.live && Sents(t.log, s.count) == 1
            && id !in t.live && id in t.fates
            && t.fates[id].fate == (if AnsweredSince(s.log, id) then Answered else Reused)
            && t.tally.reused == (if AnsweredSince(s.log, id) then s.tally.reused else Inc(s.tally.reused, e.code)))
  {
    hide Reaches, Step, Whole, Holder;
    ReachedWhole(timeout, filtered, asked, now, events, s);
    SoundOf(s);
    HolderOf(s, e.key);
    if s.live[id].vector == e.vector {
      Retransmits(s, e, id);
    } else {
      Ousts(s, e, id);
    }
  }

  lemma {:induction false} Retransmits(s: Tracker, e: Event, id: nat)
    requires Whole(s) && Enabled(s, e) && e.RequestSeen? && Passed(e.v) && e.v.attrs
    requires Consistent(s) && e.key in s.tree && s.tree[e.key] == id && s.live[id].vector == e.vector
    ensures var t := Step(s, e);
      && Sents(t.log, id) == Sents(s.log, id) + 1
      && id in t.live && t.fates == s.fates && t.tally == s.tally && s.count !in t.live
  {
    hide Whole, Sents, AddMs, Micros;
    SentsAppend(s.log, Sent(id, Micros(e.at), e.key, e.vector, e.code), id);
  }

  lemma {:induction false} Ousts(s: Tracker, e: Event, id: nat)
    requires Whole(s) && Enabled(s, e) && e.RequestSeen? && Passed(e.v) && e.v.attrs
    requires Consistent(s) && e.key in s.tree && s.tree[e.key] == id && s.live[id].vector != e.vector
    ensures var t := Step(s, e);
      && Sents(t.log, id) == Sents(s.log, id) && s.count in t.live && Sents(t.log, s.count) == 1
      && id !in t.live && id in t.fates
      && t.fates[id].fate == (if AnsweredSince(s.log, id) then Answered else Reused)
      && t.tally.reused == (if AnsweredSince(s.log, id) then s.tally.reused else Inc(s.tally.reused, e.code))
  {
    hide Whole, Grounded, Traced, Sound, Sents, Micros, AnsweredSince, Inc, Opened, Retire, Transmit, Consistent;
    SoundOf(s);
    GroundedParts(s);
    LinkedMeans(s, id);
    var s' := s.(now := Micros(e.at));
    ConsistentSame(s, s');
    RetireParts(s', e.at, e.key, e.vector, e.code);
    TransmitParts(Retire(s', e.at, e.key, e.vector, e.code), e.at, e.key, e.vector, e.code);
    Fresh(s);
    NeverSent(s.log, s.count);
    var c := Closed(id, if s.live[id].linked then Answered else Reused, Micros(e.at), IdReused);
    var n := Sent(s.count, Micros(e.at), e.key, e.vector, e.code);
    SentsAppend(s.log, c, id);
    SentsAppend(s.log, c, s.count);
    SentsAppend(s.log + [c], n, id);
    SentsAppend(s.log + [c], n, s.count);
    assert Step(s, e).log == s.log + [c] + [n];
  }

  /** A request is closed by the reuse of its id only by a request packet with its key and another
      authenticator, in every reachable state. */
  lemma {:induction false} ReuseOnly(timeout: nat, filtered: bool, asked: bool, now: int,
                                     events: seq<Event>, s: Tracker, e: Event, k: nat)
    requires Reaches(Start(timeout, filtered, asked, now), events, s) && Enabled(s, e)
    ensures Consistent(s)
    ensures var t := Step(s, e);
      |s.log| <= k < |t.log| && t.log[k].Closed? && t.log[k].cause == IdReused ==>
        && e.RequestSeen? && Passed(e.v) && t.log[k].id in s.live
        && s.live[t.log[k].id].key == e.key && s.live[t.log[k].id].vector != e.vector
  {
    hide Reaches, Step, Whole, Holder, IdentityOf, NotesOf, Consistent, Enabled, Grounded, Traced, Sound;
    ReachedWhole(timeout, filtered, asked, now, events, s);
    SoundOf(s);
    StepNotes(s, e);
    var t, notes := Step(s, e), NotesOf(s.log, s.count, s.filtered, e);
    if |s.log| <= k < |t.log| && t.log[k].Closed? && t.log[k].cause == IdReused {
      assert t.log[k] == notes[k - |s.log|];
      NotesReuse(s.log, s.count, s.filtered, e, k - |s.log|);
      HolderOf(s, e.key);
      TreeEntry(s, e.key);
    }
  }

  lemma NotesReuse(log: seq<Note>, count: nat, filtered: bool, e: Event, j: nat)
    requires j < |NotesOf(log, count, filtered, e)|
    requires var n := NotesOf(log, count, filtered, e)[j]; n.Closed? && n.cause == IdReused
    ensures e.RequestSeen? && Passed(e.v)
    ensures Ousted(log, e.key, e.vector) == Some(NotesOf(log, count, filtered, e)[j].id)
  {
    hide Holder, IdentityOf, AnsweredSince, Micros;
  }
}
