/** radsniff's request tracker: requests are opened, retransmitted, answered, replaced when
    their id is reused, dropped by filters, or timed out.  Times are in microseconds. */
module Sniffer {
  import opened Wrappers
  import opened Octets

  // ---- time --------------------------------------------------------------------

  datatype TimeVal = TimeVal(sec: int, usec: int)

  const USEC := 1000000

  function Micros(t: TimeVal): int { t.sec * USEC + t.usec }

  predicate Normal(t: TimeVal) { 0 <= t.usec < USEC }

  /** rs_tv_add_ms(): carries only when the microseconds exceed a second. */
  function AddMs(t: TimeVal, ms: nat): TimeVal {
    var sec, usec := t.sec + ms / 1000, t.usec + ms % 1000 * 1000;
    if usec > USEC then TimeVal(sec + 1, usec - USEC) else TimeVal(sec, usec)
  }

  /** The sum is always the right instant, and it is a normal time value unless the
      microseconds add up to exactly one second. */
  lemma AddMsExact(t: TimeVal, ms: nat)
    requires Normal(t)
    ensures Micros(AddMs(t, ms)) == Micros(t) + 1000 * ms
    ensures Normal(AddMs(t, ms)) <==> t.usec + ms % 1000 * 1000 != USEC
  {
  }

  // ---- state -------------------------------------------------------------------

  /** What fr_packet_cmp() compares in the reply a request expects. */
  datatype Key = Key(srcIp: nat, dstIp: nat, srcPort: nat, dstPort: nat, id: Octet)

  datatype Request = Request(key: Key, vector: Str, code: Octet, linked: bool, when: TimeVal,
                             rtReq: nat, rtRsp: nat, rspCode: Option<Octet>, silent: bool, inTree: bool)

  datatype Cause = TimedOut | IdReused | Dropped
  datatype Fate = Lost | Reused | Answered | Silenced

  const MAX_RETRIES := 5

  /** The cell of the retransmission histogram for a packet code and a number of retransmissions,
      if there were any; the last cell of a code takes all above MAX_RETRIES. */
  function CellOf(code: Octet, times: nat): Option<nat> {
    if times == 0 then None
    else Some(code * (MAX_RETRIES + 1) + if times > MAX_RETRIES then MAX_RETRIES else times)
  }

  /** How a request ended: its fate, the code under which that is counted, and the cells for its
      retransmissions and those of its response. */
  datatype Closing = Closing(fate: Fate, code: Octet, req: Option<nat>, rsp: Option<nat>)

  /** What happened to request `id`: it was sent, a response of some code was linked to it, or it
      was closed. */
  datatype Note =
    | Sent(id: nat, at: int, key: Key, vector: Str, code: Octet)
    | Replied(id: nat, at: int, code: Octet)
    | Closed(id: nat, fate: Fate, at: int, cause: Cause)

  /** One counter per packet code, or per cell of the histogram. */
  type Counts = map<nat, nat>

  function Get(c: Counts, k: nat): nat { if k in c then c[k] else 0 }
  function Inc(c: Counts, k: nat): Counts { c[k := Get(c, k) + 1] }
  function Add(a: Counts, b: Counts): Counts { map k | k in a.Keys + b.Keys :: Get(a, k) + Get(b, k) }
  function IncIf(c: Counts, k: Option<nat>): Counts { if k.Some? then Inc(c, k.v) else c }

  /** The counters of an interval, or of all intervals before it. */
  datatype Tally = Tally(lost: Counts, reused: Counts, unlinked: Counts, retries: Counts)

  const ZERO_TALLY := Tally(map[], map[], map[], map[])

  function Together(a: Tally, b: Tally): Tally {
    Tally(Add(a.lost, b.lost), Add(a.reused, b.reused), Add(a.unlinked, b.unlinked), Add(a.retries, b.retries))
  }

  /** The tracker: whether responses and requests are filtered by attributes, live requests by
      packet number, the request tree, and the counters of the current interval.  The rest records
      history: counters of finished intervals, how each closed request ended, everything sent,
      linked and closed, in order, and the codes of responses without a request. */
  datatype Tracker = Tracker(
    timeout: nat, filtered: bool, asked: bool, now: int, count: nat,
    live: map<nat, Request>, tree: map<Key, nat>, tally: Tally,
    past: Tally, fates: map<nat, Closing>, log: seq<Note>, strays: seq<Octet>)

  /** `filtered` is set by a filter on the attributes of responses, `asked` by one on those of
      requests. */
  function Start(timeout: nat, filtered: bool, asked: bool, now: int): Tracker {
    Tracker(timeout, filtered, asked, now, 0, map[], map[], ZERO_TALLY, ZERO_TALLY, map[], [], [])
  }

  /** The tree holds exactly the live requests, each under the key it expects, and a repeated
      response implies a first one. */
  ghost predicate Consistent(s: Tracker) {
    && (forall k :: k in s.tree ==> s.tree[k] in s.live && s.live[s.tree[k]].key == k)
    && (forall id :: id in s.live ==>
         && id < s.count && s.live[id].inTree
         && s.live[id].key in s.tree && s.tree[s.live[id].key] == id
         && (s.live[id].linked || s.live[id].rtRsp > 0 ==> s.live[id].rspCode.Some?))
  }

  // ---- steps -------------------------------------------------------------------

  function FateOf(r: Request, cause: Cause): Fate {
    match cause
    case Dropped => Silenced
    case IdReused => if r.linked then Answered else Reused
    case TimedOut => if r.silent then Silenced else if r.linked then Answered else Lost
  }

  function ReqCell(r: Request): Option<nat> { CellOf(r.code, r.rtReq) }

  function RspCell(r: Request): Option<nat> {
    if r.rspCode.Some? then CellOf(r.rspCode.v, r.rtRsp) else None
  }

  function ClosingOf(r: Request, cause: Cause, code: Octet): Closing {
    var fate := FateOf(r, cause);
    Closing(fate, if fate == Reused then code else r.code, ReqCell(r), RspCell(r))
  }

  /** The counters when a request is cleaned up. */
  function CloseTally(t: Tally, r: Request, silent: bool): Tally {
    t.(lost := if !silent && !r.linked then Inc(t.lost, r.code) else t.lost,
       retries := IncIf(IncIf(t.retries, ReqCell(r)), RspCell(r)))
  }

  /** rs_packet_cleanup() and _request_free(), reached for `cause` with silent_cleanup set to
      `silent`.  `code` is the packet code under which a reuse is counted. */
  function Cleanup(s: Tracker, id: nat, silent: bool, cause: Cause, code: Octet, at: TimeVal): (s': Tracker)
    requires id in s.live
    ensures s'.timeout == s.timeout
  {
    var r := s.live[id];
    var fate := FateOf(r, cause);
    s.(live := s.live - {id}, tree := s.tree - {r.key},
       tally := CloseTally(s.tally, r, silent),
       fates := s.fates[id := ClosingOf(r, cause, code)],
       log := s.log + [Closed(id, fate, Micros(at), cause)])
  }

  /** What the filters and checks said about a packet. */
  datatype Verdict = Verdict(code: bool, verified: bool, decoded: bool, attrs: bool)

  /** The response half of rs_packet_process(). */
  function Response(s: Tracker, at: TimeVal, key: Key, code: Octet, v: Verdict): (s': Tracker)
    requires Consistent(s)
    ensures s'.timeout == s.timeout
  {
    if key !in s.tree then
      if v.code && v.decoded && !s.asked
      then s.(tally := s.tally.(unlinked := Inc(s.tally.unlinked, code)), strays := s.strays + [code]) else s
    else
      var id := s.tree[key];
      var r := s.live[id];
      if !v.code then Cleanup(s, id, true, Dropped, code, at)
      else if !v.verified || !v.decoded then s
      else if !v.attrs then Cleanup(s, id, true, Dropped, code, at)
      else
        var r' := if r.linked then r.(rtRsp := r.rtRsp + 1, when := AddMs(at, s.timeout))
                  else r.(linked := true, rspCode := Some(code), when := AddMs(at, s.timeout));
        s.(live := s.live[id := r'], log := s.log + [Replied(id, Micros(at), code)])
  }

  function CountReuse(s: Tracker, code: Octet): Tracker {
    s.(tally := s.tally.(reused := Inc(s.tally.reused, code)))
  }

  /** A request found under the same key but with another authenticator: its id was reused. */
  function Retire(s: Tracker, at: TimeVal, key: Key, vector: Str, code: Octet): (s': Tracker)
    requires Consistent(s)
    ensures Consistent(s') && s'.timeout == s.timeout
  {
    if key !in s.tree || s.live[s.tree[key]].vector == vector then s
    else if s.live[s.tree[key]].linked then Cleanup(s, s.tree[key], false, IdReused, code, at)
    else Cleanup(CountReuse(s, code), s.tree[key], true, IdReused, code, at)
  }

  /** A retransmission of a request under `key`, or a new one. */
  function Transmit(s: Tracker, at: TimeVal, key: Key, vector: Str, code: Octet): (s': Tracker)
    requires Consistent(s)
    ensures s'.timeout == s.timeout
  {
    if key in s.tree then
      var id := s.tree[key];
      var r := s.live[id];
      s.(live := s.live[id := r.(rtReq := r.rtReq + 1, linked := false, when := AddMs(at, s.timeout))],
         log := s.log + [Sent(id, Micros(at), key, vector, code)])
    else
      var id := s.count;
      var r := Request(key, vector, code, false, AddMs(at, s.timeout), 0, 0, None, s.filtered, true);
      s.(live := s.live[id := r], tree := s.tree[key := id], log := s.log + [Sent(id, Micros(at), key, vector, code)])
  }

  /** The request half of rs_packet_process(). */
  function Query(s: Tracker, at: TimeVal, key: Key, vector: Str, code: Octet, v: Verdict): (s': Tracker)
    requires Consistent(s)
    ensures s'.timeout == s.timeout
  {
    if !v.code || !v.verified || !v.decoded then s
    else
      var t := Retire(s, at, key, vector, code);
      if !v.attrs then t else Transmit(t, at, key, vector, code)
  }

  /** rs_stats_process() clears the counters of the interval. */
  function Reset(s: Tracker): Tracker {
    s.(tally := ZERO_TALLY, past := Together(s.past, s.tally))
  }

  datatype Event =
    | RequestSeen(at: TimeVal, key: Key, vector: Str, code: Octet, v: Verdict)
    | ResponseSeen(at: TimeVal, key: Key, code: Octet, v: Verdict)
    | TimerFired(at: TimeVal, id: nat)
    | IntervalEnd(at: TimeVal)

  /** Time does not run backwards, and a timer fires at its time or later. */
  ghost predicate Enabled(s: Tracker, e: Event) {
    && Normal(e.at) && s.now <= Micros(e.at)
    && (e.TimerFired? ==> e.id in s.live && Micros(s.live[e.id].when) <= Micros(e.at))
  }

  function Step(s: Tracker, e: Event): (s': Tracker)
    requires Consistent(s) && Enabled(s, e)
    ensures s'.timeout == s.timeout
  {
    var t := s.(now := Micros(e.at));
    match e
    case RequestSeen(at, key, vector, code, v) =>
      var t' := Query(t, at, key, vector, code, v);
      t'.(count := t'.count + 1)
    case ResponseSeen(at, key, code, v) =>
      var t' := Response(t, at, key, code, v);
      t'.(count := t'.count + 1)
    case TimerFired(at, id) => Cleanup(t, id, t.live[id].silent, TimedOut, t.live[id].code, at)
    case IntervalEnd(_) => Reset(t)
  }

  // ---- tracker invariant ------------------------------------------------------------

  lemma {:induction false} ResponseConsistent(s: Tracker, at: TimeVal, key: Key, code: Octet, v: Verdict)
    requires Consistent(s)
    ensures Consistent(Response(s, at, key, code, v))
  {
    hide Cleanup, AddMs;
    if key in s.tree {
      var id := s.tree[key];
      CleanupConsistent(s, id, true, Dropped, code, at);
      if v.code && v.verified && v.decoded && v.attrs {
        UpdateConsistent(s, id, Response(s, at, key, code, v).live[id]);
      }
    }
  }

  lemma {:induction false} CleanupConsistent(s: Tracker, id: nat, silent: bool, cause: Cause, code: Octet, at: TimeVal)
    requires Consistent(s) && id in s.live
    ensures Consistent(Cleanup(s, id, silent, cause, code, at))
  {
  }

  lemma {:induction false} TransmitConsistent(s: Tracker, at: TimeVal, key: Key, vector: Str, code: Octet)
    requires Consistent(s)
    ensures var s' := Transmit(s, at, key, vector, code); Consistent(s'.(count := s'.count + 1))
  {
    hide Consistent, AddMs, Micros;
    TreeEntry(s, key);
    if key in s.tree {
      RetransmitConsistent(s, at, key, vector, code);
    } else {
      OpenConsistent(s, at, key, vector, code);
    }
  }

  lemma {:induction false} RetransmitConsistent(s: Tracker, at: TimeVal, key: Key, vector: Str, code: Octet)
    requires Consistent(s) && key in s.tree
    ensures var s' := Transmit(s, at, key, vector, code); Consistent(s'.(count := s'.count + 1))
  {
    hide Consistent, AddMs, Micros;
    TreeEntry(s, key);
    var s', id := Transmit(s, at, key, vector, code), s.tree[key];
    UpdateConsistent(s, id, s'.live[id]);
    ConsistentSame(s.(live := s'.live), s'.(count := s'.count + 1));
  }

  lemma {:induction false} OpenConsistent(s: Tracker, at: TimeVal, key: Key, vector: Str, code: Octet)
    requires Consistent(s) && key !in s.tree
    ensures var s' := Transmit(s, at, key, vector, code); Consistent(s'.(count := s'.count + 1))
  {
    hide Consistent, AddMs, Micros;
    var s' := Transmit(s, at, key, vector, code);
    InsertConsistent(s, s'.live[s.count]);
    ConsistentSame(s.(live := s'.live, tree := s'.tree, count := s.count + 1), s'.(count := s'.count + 1));
  }

  lemma TreeEntry(s: Tracker, key: Key)
    requires Consistent(s)
    ensures key in s.tree ==>
      var id := s.tree[key];
      id in s.live && s.live[id].key == key && s.live[id].inTree && (s.live[id].rtRsp > 0 ==> s.live[id].rspCode.Some?)
  {
  }

  /** Consistency depends on the live requests and the tree; the packet count may grow. */
  lemma ConsistentSame(s: Tracker, t: Tracker)
    requires s.live == t.live && s.tree == t.tree && s.count <= t.count
    ensures Consistent(s) ==> Consistent(t)
  {
  }

  /** A request may change in everything but its key. */
  lemma {:induction false} UpdateConsistent(s: Tracker, id: nat, r: Request)
    requires Consistent(s) && id in s.live
    requires r.key == s.live[id].key && r.inTree && (r.linked || r.rtRsp > 0 ==> r.rspCode.Some?)
    ensures Consistent(s.(live := s.live[id := r]))
  {
  }

  /** A new request takes the number of the packet and a key that is not in the tree. */
  lemma {:induction false} InsertConsistent(s: Tracker, r: Request)
    requires Consistent(s) && r.key !in s.tree && r.inTree && !r.linked && r.rtRsp == 0
    ensures Consistent(s.(live := s.live[s.count := r], tree := s.tree[r.key := s.count], count := s.count + 1))
  {
  }

  lemma {:induction false} QueryConsistent(s: Tracker, at: TimeVal, key: Key, vector: Str, code: Octet, v: Verdict)
    requires Consistent(s)
    ensures var s' := Query(s, at, key, vector, code, v); Consistent(s'.(count := s'.count + 1))
  {
    if v.code && v.verified && v.decoded && v.attrs {
      TransmitConsistent(Retire(s, at, key, vector, code), at, key, vector, code);
    }
  }

  lemma {:induction false} StepConsistent(s: Tracker, e: Event)
    requires Consistent(s) && Enabled(s, e)
    ensures Consistent(Step(s, e))
  {
    hide Query, Response;
    var t := s.(now := Micros(e.at));
    match e
    case RequestSeen(at, key, vector, code, v) => QueryConsistent(t, at, key, vector, code, v);
    case ResponseSeen(at, key, code, v) => ResponseConsistent(t, at, key, code, v);
    case TimerFired(at, id) =>
    case IntervalEnd(_) =>
  }
}
