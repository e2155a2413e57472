/** The retransmission histogram and the count of responses without a request, over every run. */
module SnifferRetries {
  import opened Wrappers
  import opened Octets
  import opened Sniffer
  import opened SnifferAccounts

  // ---- what the cells count -----------------------------------------------------------------

  ghost function InReq(f: map<nat, Closing>, cell: nat): set<nat> { set id | id in f && f[id].req == Some(cell) }

  ghost function InRsp(f: map<nat, Closing>, cell: nat): set<nat> { set id | id in f && f[id].rsp == Some(cell) }

  /** The cells of all intervals together count the closed requests, once for their own
      retransmissions and once for those of their responses. */
  ghost predicate Histogram(before: Counts, now: Counts, f: map<nat, Closing>) {
    forall c: nat :: Get(before, c) + Get(now, c) == |InReq(f, c)| + |InRsp(f, c)|
  }

  lemma InReqAppend(f: map<nat, Closing>, id: nat, x: Closing, c: nat)
    requires id !in f
    ensures |InReq(f[id := x], c)| == |InReq(f, c)| + if x.req == Some(c) then 1 else 0
  {
    var was, now := InReq(f, c), InReq(f[id := x], c);
    assert id !in was;
    assert now == if x.req == Some(c) then was + {id} else was;
  }

  lemma InRspAppend(f: map<nat, Closing>, id: nat, x: Closing, c: nat)
    requires id !in f
    ensures |InRsp(f[id := x], c)| == |InRsp(f, c)| + if x.rsp == Some(c) then 1 else 0
  {
    var was, now := InRsp(f, c), InRsp(f[id := x], c);
    assert id !in was;
    assert now == if x.rsp == Some(c) then was + {id} else was;
  }

  lemma {:induction false} HistogramAppend(before: Counts, now: Counts, f: map<nat, Closing>, id: nat, x: Closing)
    requires Histogram(before, now, f) && id !in f
    ensures Histogram(before, IncIf(IncIf(now, x.req), x.rsp), f[id := x])
  {
    forall c: nat
      ensures Get(before, c) + Get(IncIf(IncIf(now, x.req), x.rsp), c) ==
              |InReq(f[id := x], c)| + |InRsp(f[id := x], c)|
    {
      InReqAppend(f, id, x, c);
      InRspAppend(f, id, x, c);
    }
  }

  lemma {:induction false} HistogramAdd(before: Counts, now: Counts, f: map<nat, Closing>)
    requires Histogram(before, now, f)
    ensures Histogram(Add(before, now), map[], f)
  {
    assert forall c: nat :: Get(Add(before, now), c) == Get(before, c) + Get(now, c);
  }

  // ---- how often a request was sent -----------------------------------------------------------

  function Sents(log: seq<Note>, id: nat): nat {
    if log == [] then 0
    else Sents(log[..|log| - 1], id) + if log[|log| - 1].Sent? && log[|log| - 1].id == id then 1 else 0
  }

  lemma SentsAppend(log: seq<Note>, n: Note, id: nat)
    ensures Sents(log + [n], id) == Sents(log, id) + if n.Sent? && n.id == id then 1 else 0
  {
    assert (log + [n])[..|log|] == log;
  }

  lemma {:induction false} NeverSent(log: seq<Note>, id: nat)
    requires id !in Opened(log)
    ensures Sents(log, id) == 0
  {
    if log != [] {
      var less := log[..|log| - 1];
      assert log == less + [log[|log| - 1]];
      OpenedAppend(less, log[|log| - 1]);
      NeverSent(less, id);
    }
  }

  /** The number of retransmissions a cell stands for. */
  function Times(cell: Option<nat>): nat { if cell.None? then 0 else cell.v % 6 }

  function AtMost(n: int): int { if n > 5 then 5 else n }

  lemma TimesOf(code: Octet, times: nat)
    ensures Times(CellOf(code, times)) == AtMost(times)
  {
  }

  /** A live request knows how often it was sent again; a closed one was put into the cell for
      that number. */
  ghost predicate Retraced(live: map<nat, Request>, fates: map<nat, Closing>, log: seq<Note>) {
    && (forall id :: id in live ==> live[id].rtReq + 1 == Sents(log, id))
    && (forall id :: id in fates ==> Times(fates[id].req) == AtMost(Sents(log, id) - 1))
  }

  ghost predicate Strayed(s: Tracker) {
    forall c: Octet :: Get(s.past.unlinked, c) + Get(s.tally.unlinked, c) == multiset(s.strays)[c]
  }

  ghost predicate Retried(s: Tracker) {
    && Histogram(s.past.retries, s.tally.retries, s.fates)
    && Retraced(s.live, s.fates, s.log)
    && Strayed(s)
  }

  // ---- every step --------------------------------------------------------------------------------

  lemma {:induction false} CloseRetraced(live: map<nat, Request>, fates: map<nat, Closing>, log: seq<Note>,
                                         id: nat, x: Closing, n: Note)
    requires Retraced(live, fates, log) && id in live && !n.Sent? && x.req == ReqCell(live[id])
    ensures Retraced(live - {id}, fates[id := x], log + [n])
  {
    TimesOf(live[id].code, live[id].rtReq);
    forall j
      ensures Sents(log + [n], j) == Sents(log, j)
    {
      SentsAppend(log, n, j);
    }
  }

  lemma {:induction false} NoteRetraced(live: map<nat, Request>, fates: map<nat, Closing>, log: seq<Note>,
                                        id: nat, r: Request, n: Note)
    requires Retraced(live, fates, log) && n.id == id && id !in fates
    requires r.rtReq + 1 == Sents(log, id) + if n.Sent? then 1 else 0
    ensures Retraced(live[id := r], fates, log + [n])
  {
    forall j
      ensures Sents(log + [n], j) == Sents(log, j) + if n.Sent? && j == id then 1 else 0
    {
      SentsAppend(log, n, j);
    }
  }

  lemma {:induction false} CleanupRetried(s: Tracker, id: nat, silent: bool, cause: Cause, code: Octet, at: TimeVal)
    requires Booked(s) && Retried(s) && id in s.live
    ensures Retried(Cleanup(s, id, silent, cause, code, at))
  {
    hide Histogram, Retraced, Opened, IncIf, Inc;
    var x := ClosingOf(s.live[id], cause, code);
    LiveNotClosed(s, id);
    HistogramAppend(s.past.retries, s.tally.retries, s.fates, id, x);
    CloseRetraced(s.live, s.fates, s.log, id, x, Closed(id, FateOf(s.live[id], cause), Micros(at), cause));
  }

  lemma {:induction false} ResponseRetried(s: Tracker, at: TimeVal, key: Key, code: Octet, v: Verdict)
    requires Consistent(s) && Booked(s) && Retried(s)
    ensures Retried(Response(s, at, key, code, v))
  {
    hide Cleanup, Histogram, Retraced, Opened, AddMs;
    if key in s.tree {
      var id := s.tree[key];
      CleanupRetried(s, id, true, Dropped, code, at);
      LiveNotClosed(s, id);
      LiveSents(s, id);
      if v.code && v.verified && v.decoded && v.attrs {
        NoteRetraced(s.live, s.fates, s.log, id, Response(s, at, key, code, v).live[id],
                     Replied(id, Micros(at), code));
      }
    }
  }

  lemma LiveSents(s: Tracker, id: nat)
    requires Retraced(s.live, s.fates, s.log) && id in s.live
    ensures s.live[id].rtReq + 1 == Sents(s.log, id)
  {
  }

  lemma {:induction false} RetireRetried(s: Tracker, at: TimeVal, key: Key, vector: Str, code: Octet)
    requires Consistent(s) && Booked(s) && Retried(s)
    ensures Retried(Retire(s, at, key, vector, code))
  {
    hide Cleanup, Histogram, Retraced, Opened;
    if key in s.tree {
      CleanupRetried(s, s.tree[key], false, IdReused, code, at);
      CleanupRetried(CountReuse(s, code), s.tree[key], true, IdReused, code, at);
    }
  }

  lemma {:induction false} TransmitRetried(s: Tracker, at: TimeVal, key: Key, vector: Str, code: Octet)
    requires Consistent(s) && Booked(s) && Retried(s)
    ensures Retried(Transmit(s, at, key, vector, code))
  {
    hide Histogram, Retraced, Opened, AddMs;
    TreeEntry(s, key);
    var id := if key in s.tree then s.tree[key] else s.count;
    if key in s.tree {
      LiveNotClosed(s, id);
      LiveSents(s, id);
    } else {
      Fresh(s);
      NeverSent(s.log, id);
    }
    NoteRetraced(s.live, s.fates, s.log, id, Transmit(s, at, key, vector, code).live[id],
                 Sent(id, Micros(at), key, vector, code));
  }

  lemma Fresh(s: Tracker)
    requires Consistent(s) && Booked(s)
    ensures s.count !in s.live && s.count !in s.fates && s.count !in Opened(s.log)
  {
  }

  lemma {:induction false} ResetRetried(s: Tracker)
    requires Retried(s)
    ensures Retried(Reset(s))
  {
    hide Histogram, Retraced;
    HistogramAdd(s.past.retries, s.tally.retries, s.fates);
    var a, b := s.past.unlinked, s.tally.unlinked;
    assert forall c: Octet :: Get(Add(a, b), c) == Get(a, c) + Get(b, c);
  }

  lemma {:induction false} StepRetried(s: Tracker, e: Event)
    requires Consistent(s) && Accounted(s) && Retried(s) && Enabled(s, e)
    ensures Retried(Step(s, e))
  {
    hide Response, Retire, Transmit, Cleanup, Counted, Retried, Booked;
    var t := s.(now := Micros(e.at));
    BookedSame(s, t);
    RetriedSame(s, t);
    match e
    case RequestSeen(at, key, vector, code, v) =>
      var u := Retire(t, at, key, vector, code);
      RetireAccounted(t, at, key, vector, code);
      RetireRetried(t, at, key, vector, code);
      TransmitRetried(u, at, key, vector, code);
      RetriedSame(Query(t, at, key, vector, code, v), Step(s, e));
    case ResponseSeen(at, key, code, v) =>
      ResponseRetried(t, at, key, code, v);
      RetriedSame(Response(t, at, key, code, v), Step(s, e));
    case TimerFired(at, id) => CleanupRetried(t, id, t.live[id].silent, TimedOut, t.live[id].code, at);
    case IntervalEnd(_) => ResetRetried(t);
  }

  lemma RetriedSame(s: Tracker, t: Tracker)
    requires s.live == t.live && s.fates == t.fates && s.log == t.log
    requires s.tally == t.tally && s.past == t.past && s.strays == t.strays
    ensures Retried(s) <==> Retried(t)
  {
  }

  lemma {:induction false} RunRetried(s: Tracker, events: seq<Event>, s': Tracker)
    requires Sound(s) && Retried(s) && Reaches(s, events, s')
    ensures Retried(s')
    decreases |events|
  {
    hide Retried, Step, Enabled, Accounted, Timed;
    if events != [] {
      StepRetried(s, events[0]);
      StepSound(s, events[0]);
      RunRetried(Step(s, events[0]), events[1..], s');
    }
  }

  /** At every point of every run: the histogram, summed over all intervals, counts the closed
      requests by how often they were sent again, and by how often their response came again; and
      as many responses are counted as unlinked as there were responses without a request. */
  lemma {:induction false} RetriesCounted(timeout: nat, filtered: bool, asked: bool, now: int,
                                          events: seq<Event>, s: Tracker)
    requires Reaches(Start(timeout, filtered, asked, now), events, s)
    ensures forall c: nat ::
      Get(s.past.retries, c) + Get(s.tally.retries, c) == |InReq(s.fates, c)| + |InRsp(s.fates, c)|
    ensures forall id :: id in s.fates ==> Times(s.fates[id].req) == AtMost(Sents(s.log, id) - 1)
    ensures forall c: Octet :: Get(s.past.unlinked, c) + Get(s.tally.unlinked, c) == multiset(s.strays)[c]
  {
    hide Sound, Reaches;
    var t := Start(timeout, filtered, asked, now);
    StartSound(timeout, filtered, asked, now);
    assert forall c: nat :: InReq(map[], c) == {} && InRsp(map[], c) == {};
    assert Retried(t);
    RunRetried(t, events, s);
  }
}
