/** The tracker against its history: everything the tree, the requests and the counters say can be
    read off the notes of what was sent, answered and closed, and the notes follow from the
    packets alone. */
module SnifferHistory {
  import opened Wrappers
  import opened Octets
  import opened Sniffer
  import opened SnifferAccounts
  import opened SnifferRetries
  import opened SnifferClosings

  // ---- what the notes say -------------------------------------------------------------------

  /** The request that waits under a key: the one last sent under it, unless closed since. */
  function Holder(log: seq<Note>, key: Key): Option<nat> {
    if log == [] then None
    else
      var n, before := log[|log| - 1], Holder(log[..|log| - 1], key);
      if n.Sent? && n.key == key then Some(n.id)
      else if n.Closed? && before == Some(n.id) then None
      else before
  }

  datatype Identity = Identity(key: Key, vector: Str)

  /** Key and authenticator with which request `id` was last sent. */
  function IdentityOf(log: seq<Note>, id: nat): Option<Identity> {
    if log == [] then None
    else
      var n := log[|log| - 1];
      if n.Sent? && n.id == id then Some(Identity(n.key, n.vector)) else IdentityOf(log[..|log| - 1], id)
  }

  /** The packet code with which it was first sent. */
  function CodeOf(log: seq<Note>, id: nat): Option<Octet> {
    if log == [] then None
    else
      var n, before := log[|log| - 1], CodeOf(log[..|log| - 1], id);
      if n.Sent? && n.id == id && before.None? then Some(n.code) else before
  }

  /** When it was last heard of: sent, or answered. */
  function LastHeard(log: seq<Note>, id: nat): Option<int> {
    if log == [] then None
    else
      var n := log[|log| - 1];
      if !n.Closed? && n.id == id then Some(n.at) else LastHeard(log[..|log| - 1], id)
  }

  /** The code of the latest response that was the first to a transmission. */
  function ResponseCode(log: seq<Note>, id: nat): Option<Octet> {
    if log == [] then None
    else
      var n, less := log[|log| - 1], log[..|log| - 1];
      if n.Replied? && n.id == id && !AnsweredSince(less, id) then Some(n.code) else ResponseCode(less, id)
  }

  /** How many responses were not the first to their transmission. */
  function Repeats(log: seq<Note>, id: nat): nat {
    if log == [] then 0
    else
      var n, less := log[|log| - 1], log[..|log| - 1];
      Repeats(less, id) + if n.Replied? && n.id == id && AnsweredSince(less, id) then 1 else 0
  }

  lemma HolderAppend(log: seq<Note>, n: Note, key: Key)
    ensures Holder(log + [n], key) ==
      if n.Sent? && n.key == key then Some(n.id)
      else if n.Closed? && Holder(log, key) == Some(n.id) then None
      else Holder(log, key)
  {
    assert (log + [n])[..|log|] == log;
  }

  lemma RecallAppend(log: seq<Note>, n: Note, id: nat)
    ensures IdentityOf(log + [n], id) ==
      if n.Sent? && n.id == id then Some(Identity(n.key, n.vector)) else IdentityOf(log, id)
    ensures CodeOf(log + [n], id) ==
      if n.Sent? && n.id == id && CodeOf(log, id).None? then Some(n.code) else CodeOf(log, id)
    ensures LastHeard(log + [n], id) == if !n.Closed? && n.id == id then Some(n.at) else LastHeard(log, id)
    ensures ResponseCode(log + [n], id) ==
      if n.Replied? && n.id == id && !AnsweredSince(log, id) then Some(n.code) else ResponseCode(log, id)
    ensures Repeats(log + [n], id) ==
      Repeats(log, id) + if n.Replied? && n.id == id && AnsweredSince(log, id) then 1 else 0
  {
    assert (log + [n])[..|log|] == log;
  }

  /** Nothing is noted of a request before it was sent. */
  ghost predicate Known(log: seq<Note>) { forall k :: 0 <= k < |log| ==> log[k].id in Opened(log) }

  lemma {:induction false} KnownAppend(log: seq<Note>, n: Note)
    requires Known(log) && (n.Sent? || n.id in Opened(log))
    ensures Known(log + [n])
  {
    hide Opened;
    OpenedAppend(log, n);
    var more := log + [n];
    forall k | 0 <= k < |more|
      ensures more[k].id in Opened(more)
    {
      assert k < |log| ==> more[k] == log[k];
    }
  }

  lemma {:induction false} Unheard(log: seq<Note>, id: nat)
    requires forall k :: 0 <= k < |log| ==> log[k].id != id
    ensures CodeOf(log, id) == None && IdentityOf(log, id) == None
    ensures ResponseCode(log, id) == None && Repeats(log, id) == 0
  {
    if log != [] {
      var less, n := log[..|log| - 1], log[|log| - 1];
      assert n.id != id;
      assert forall k :: 0 <= k < |less| ==> less[k] == log[k];
      Unheard(less, id);
    }
  }

  // ---- the state is what the notes say ----------------------------------------------------------

  /** A live request is what the notes say of it; it is cleaned up silently exactly if responses
      are filtered. */
  ghost predicate Recalls(r: Request, log: seq<Note>, id: nat, filtered: bool, timeout: nat) {
    && IdentityOf(log, id) == Some(Identity(r.key, r.vector)) && CodeOf(log, id) == Some(r.code)
    && LastHeard(log, id).Some? && Micros(r.when) == LastHeard(log, id).v + 1000 * timeout
    && ResponseCode(log, id) == r.rspCode && Repeats(log, id) == r.rtRsp
    && r.silent == filtered
  }

  /** A closed request was counted under its own code unless its id was reused, and in the cells
      for how often it was sent again and its response came again. */
  ghost predicate FiledUnder(x: Closing, log: seq<Note>, id: nat) {
    && CodeOf(log, id).Some? && Sents(log, id) > 0
    && (x.fate != Reused ==> x.code == CodeOf(log, id).v)
    && x.req == CellOf(CodeOf(log, id).v, Sents(log, id) - 1)
    && x.rsp == (if ResponseCode(log, id).Some? then CellOf(ResponseCode(log, id).v, Repeats(log, id)) else None)
  }

  /** Which request waits under a key. */
  ghost predicate TreeRecalled(tree: map<Key, nat>, log: seq<Note>) {
    forall key :: Holder(log, key) == if key in tree then Some(tree[key]) else None
  }

  /** All transmissions of a request have the same key and the same authenticator. */
  ghost predicate OneIdentity(log: seq<Note>) {
    forall k :: 0 <= k < |log| && log[k].Sent? ==>
      IdentityOf(log, log[k].id) == Some(Identity(log[k].key, log[k].vector))
  }

  /** The fate of a request that is closed follows from the cause and the notes before. */
  function FateBy(before: seq<Note>, id: nat, cause: Cause, filtered: bool): Fate {
    match cause
    case Dropped => Silenced
    case IdReused => if AnsweredSince(before, id) then Answered else Reused
    case TimedOut => if filtered then Silenced else if AnsweredSince(before, id) then Answered else Lost
  }

  ghost predicate RightFates(log: seq<Note>, filtered: bool) {
    forall k :: 0 <= k < |log| && log[k].Closed? ==>
      log[k].fate == FateBy(log[..k], log[k].id, log[k].cause, filtered)
  }

  ghost predicate Remembered(s: Tracker) {
    && (forall id :: id in s.live ==> Recalls(s.live[id], s.log, id, s.filtered, s.timeout))
    && (forall id :: id in s.fates ==> FiledUnder(s.fates[id], s.log, id))
  }

  ghost predicate Traced(s: Tracker) {
    && Remembered(s) && TreeRecalled(s.tree, s.log)
    && Known(s.log) && OneIdentity(s.log) && RightFates(s.log, s.filtered)
  }

  /** What the steps need of the accounts. */
  ghost predicate Grounded(s: Tracker) {
    Consistent(s) && Booked(s) && Timed(s) && Retraced(s.live, s.fates, s.log)
  }

  // ---- one note at a time ---------------------------------------------------------------------------

  lemma RecallsElsewhere(s: Tracker, n: Note)
    requires Remembered(s)
    ensures forall id :: id in s.live && id != n.id ==> Recalls(s.live[id], s.log + [n], id, s.filtered, s.timeout)
    ensures forall id :: id in s.fates && id != n.id ==> FiledUnder(s.fates[id], s.log + [n], id)
  {
    hide IdentityOf, CodeOf, LastHeard, ResponseCode, Repeats, Sents, AnsweredSince, CellOf, Micros;
    forall id | id in s.live && id != n.id
      ensures Recalls(s.live[id], s.log + [n], id, s.filtered, s.timeout)
    {
      RecallAppend(s.log, n, id);
    }
    forall id | id in s.fates && id != n.id
      ensures FiledUnder(s.fates[id], s.log + [n], id)
    {
      RecallAppend(s.log, n, id);
      SentsAppend(s.log, n, id);
    }
  }

  lemma {:induction false} SentIdentity(log: seq<Note>, n: Note)
    requires OneIdentity(log) && n.Sent?
    requires IdentityOf(log, n.id) in {None, Some(Identity(n.key, n.vector))}
    ensures OneIdentity(log + [n])
  {
    var more := log + [n];
    forall k | 0 <= k < |more| && more[k].Sent?
      ensures IdentityOf(more, more[k].id) == Some(Identity(more[k].key, more[k].vector))
    {
      RecallAppend(log, n, more[k].id);
      assert k < |log| ==> more[k] == log[k];
    }
  }

  lemma {:induction false} OtherIdentity(log: seq<Note>, n: Note)
    requires OneIdentity(log) && !n.Sent?
    ensures OneIdentity(log + [n])
  {
    var more := log + [n];
    forall k | 0 <= k < |more| && more[k].Sent?
      ensures IdentityOf(more, more[k].id) == Some(Identity(more[k].key, more[k].vector))
    {
      RecallAppend(log, n, more[k].id);
      assert more[k] == log[k];
    }
  }

  lemma {:induction false} RightAppend(log: seq<Note>, n: Note, filtered: bool)
    requires RightFates(log, filtered) && (n.Closed? ==> n.fate == FateBy(log, n.id, n.cause, filtered))
    ensures RightFates(log + [n], filtered)
  {
    var more := log + [n];
    forall k | 0 <= k < |more| && more[k].Closed?
      ensures more[k].fate == FateBy(more[..k], more[k].id, more[k].cause, filtered)
    {
      assert more[..k] == log[..k];
      if k == |log| {
        assert log[..k] == log;
      }
    }
  }

  // ---- every step -----------------------------------------------------------------------------------

  lemma {:induction false} CleanupTraced(s: Tracker, id: nat, silent: bool, cause: Cause, code: Octet, at: TimeVal)
    requires Grounded(s) && Traced(s) && id in s.live
    ensures Traced(Cleanup(s, id, silent, cause, code, at))
  {
    hide Booked, Timed, Retraced, Known, Opened, OneIdentity, RightFates, TreeRecalled, Holder, IdentityOf, CodeOf,
      LastHeard, ResponseCode, Repeats, Sents, AnsweredSince, CellOf, Micros, CloseTally;
    var n := Closed(id, FateOf(s.live[id], cause), Micros(at), cause);
    LinkedMeans(s, id);
    RecallsElsewhere(s, n);
    RecallAppend(s.log, n, id);
    SentsAppend(s.log, n, id);
    LiveSents(s, id);
    OtherIdentity(s.log, n);
    LiveOpened(s, id);
    KnownAppend(s.log, n);
    RightAppend(s.log, n, s.filtered);
    CloseTree(s, id, n);
  }

  lemma LiveOpened(s: Tracker, id: nat)
    requires Booked(s) && id in s.live
    ensures id in Opened(s.log)
  {
  }

  lemma UnknownUnheard(log: seq<Note>, id: nat)
    requires Known(log) && id !in Opened(log)
    ensures CodeOf(log, id) == None && IdentityOf(log, id) == None
    ensures ResponseCode(log, id) == None && Repeats(log, id) == 0
  {
    Unheard(log, id);
  }

  lemma LinkedMeans(s: Tracker, id: nat)
    requires Timed(s) && id in s.live
    ensures s.live[id].linked <==> AnsweredSince(s.log, id)
  {
    assert Agrees(s.live[id], s.log, id, s.timeout);
  }

  lemma {:induction false} CloseTree(s: Tracker, id: nat, n: Note)
    requires Consistent(s) && TreeRecalled(s.tree, s.log) && id in s.live && n.Closed? && n.id == id
    ensures TreeRecalled(s.tree - {s.live[id].key}, s.log + [n])
  {
    var tree := s.tree - {s.live[id].key};
    forall key
      ensures Holder(s.log + [n], key) == if key in tree then Some(tree[key]) else None
    {
      HolderAppend(s.log, n, key);
    }
  }

  lemma {:induction false} SentTree(tree: map<Key, nat>, log: seq<Note>, n: Note)
    requires TreeRecalled(tree, log) && n.Sent?
    ensures TreeRecalled(tree[n.key := n.id], log + [n])
  {
    forall key
      ensures Holder(log + [n], key) == if key in tree[n.key := n.id] then Some(tree[n.key := n.id][key]) else None
    {
      HolderAppend(log, n, key);
    }
  }

  lemma {:induction false} RepliedTree(tree: map<Key, nat>, log: seq<Note>, n: Note)
    requires TreeRecalled(tree, log) && n.Replied?
    ensures TreeRecalled(tree, log + [n])
  {
    forall key
      ensures Holder(log + [n], key) == Holder(log, key)
    {
      HolderAppend(log, n, key);
    }
  }

  lemma {:induction false} ResponseTraced(s: Tracker, at: TimeVal, key: Key, code: Octet, v: Verdict)
    requires Grounded(s) && Traced(s) && Normal(at)
    ensures Traced(Response(s, at, key, code, v))
  {
    hide Cleanup, Traced, Booked, Timed, Retraced;
    if key in s.tree {
      var id := s.tree[key];
      CleanupTraced(s, id, true, Dropped, code, at);
      if v.code && v.verified && v.decoded && v.attrs {
        LinkTraced(s, at, key, code, v);
      }
    } else {
      TracedSame(s, Response(s, at, key, code, v));
    }
  }

  lemma {:induction false} LinkTraced(s: Tracker, at: TimeVal, key: Key, code: Octet, v: Verdict)
    requires Grounded(s) && Traced(s) && Normal(at) && key in s.tree
    requires v.code && v.verified && v.decoded && v.attrs
    ensures Traced(Response(s, at, key, code, v))
  {
    hide Booked, Timed, Retraced, Known, Opened, OneIdentity, RightFates, TreeRecalled, Holder, IdentityOf, CodeOf,
      LastHeard, ResponseCode, Repeats, Sents, AnsweredSince, CellOf, Micros, AddMs;
    var id := s.tree[key];
    var n := Replied(id, Micros(at), code);
    LinkedMeans(s, id);
    LiveNotClosed(s, id);
    AddMsExact(at, s.timeout);
    RecallsElsewhere(s, n);
    RecallAppend(s.log, n, id);
    OtherIdentity(s.log, n);
    LiveOpened(s, id);
    KnownAppend(s.log, n);
    RightAppend(s.log, n, s.filtered);
    RepliedTree(s.tree, s.log, n);
  }

  /** Depends on the requests, the tree and the notes. */
  lemma TracedSame(s: Tracker, t: Tracker)
    requires s.live == t.live && s.tree == t.tree && s.fates == t.fates && s.log == t.log
    requires s.filtered == t.filtered && s.timeout == t.timeout
    ensures Traced(s) <==> Traced(t)
  {
  }

  lemma {:induction false} RetireTraced(s: Tracker, at: TimeVal, key: Key, vector: Str, code: Octet)
    requires Grounded(s) && Traced(s)
    ensures Traced(Retire(s, at, key, vector, code))
  {
    hide Cleanup, Traced, Booked, Timed, Retraced;
    if key in s.tree {
      var c := CountReuse(s, code);
      GroundedSame(s, c);
      TracedSame(s, c);
      CleanupTraced(s, s.tree[key], false, IdReused, code, at);
      CleanupTraced(c, s.tree[key], true, IdReused, code, at);
    }
  }

  lemma GroundedSame(s: Tracker, t: Tracker)
    requires s.live == t.live && s.tree == t.tree && s.fates == t.fates && s.log == t.log
    requires s.count == t.count && s.timeout == t.timeout
    ensures Grounded(s) <==> Grounded(t)
  {
  }

  lemma {:induction false} TransmitTraced(s: Tracker, at: TimeVal, key: Key, vector: Str, code: Octet)
    requires Grounded(s) && Traced(s) && Normal(at)
    requires key in s.tree ==> s.tree[key] in s.live && s.live[s.tree[key]].vector == vector
    ensures Traced(Transmit(s, at, key, vector, code))
  {
    hide Booked, Timed, Retraced, Known, Opened, OneIdentity, RightFates, TreeRecalled, Holder, IdentityOf, CodeOf,
      LastHeard, ResponseCode, Repeats, Sents, AnsweredSince, CellOf, Micros, AddMs;
    var id := if key in s.tree then s.tree[key] else s.count;
    var n := Sent(id, Micros(at), key, vector, code);
    AddMsExact(at, s.timeout);
    if key in s.tree {
      LiveNotClosed(s, id);
    } else {
      Fresh(s);
      UnknownUnheard(s.log, id);
    }
    KnownAppend(s.log, n);
    RecallsElsewhere(s, n);
    RecallAppend(s.log, n, id);
    SentIdentity(s.log, n);
    RightAppend(s.log, n, s.filtered);
    SentTree(s.tree, s.log, n);
    assert key in s.tree ==> s.tree[key := id] == s.tree;
  }

  /** All that is known of a reachable state. */
  ghost predicate Whole(s: Tracker) { Sound(s) && Retried(s) && Filed(s.fates, s.log) && Traced(s) }

  lemma WholeGrounded(s: Tracker)
    requires Whole(s)
    ensures Grounded(s)
  {
  }

  /** After the reuse of an id is dealt with, what is left under the key has this authenticator. */
  lemma {:induction false} RetireLeaves(s: Tracker, at: TimeVal, key: Key, vector: Str, code: Octet)
    requires Consistent(s)
    ensures var t := Retire(s, at, key, vector, code);
      key in t.tree ==> t.tree[key] in t.live && t.live[t.tree[key]].vector == vector
  {
  }

  lemma {:induction false} RetireGrounded(s: Tracker, at: TimeVal, key: Key, vector: Str, code: Octet)
    requires Sound(s) && Retried(s)
    ensures Grounded(Retire(s, at, key, vector, code))
  {
    hide Retire, Counted, Histogram, Opened, Retraced, Timed, Consistent, Strayed;
    RetireAccounted(s, at, key, vector, code);
    RetireTimed(s, at, key, vector, code);
    RetireRetried(s, at, key, vector, code);
  }

  lemma {:induction false} QueryTraced(s: Tracker, at: TimeVal, key: Key, vector: Str, code: Octet, v: Verdict)
    requires Whole(s) && Normal(at)
    ensures Traced(Query(s, at, key, vector, code, v))
  {
    hide Retire, Transmit, Traced, Sound, Retried, Filed, Grounded;
    WholeGrounded(s);
    ConsistentOf(s);
    RetireTraced(s, at, key, vector, code);
    RetireGrounded(s, at, key, vector, code);
    RetireLeaves(s, at, key, vector, code);
    if v.attrs {
      TransmitTraced(Retire(s, at, key, vector, code), at, key, vector, code);
    }
  }

  lemma ConsistentOf(s: Tracker)
    requires Sound(s)
    ensures Consistent(s)
  {
  }

  /** The time of the last event does not matter. */
  lemma WholeLater(s: Tracker, now: int)
    requires Whole(s)
    ensures Whole(s.(now := now))
  {
    hide Consistent, Counted, Opened, Agrees, AllJustified, Histogram, Retraced, Filed;
    var t := s.(now := now);
    GroundedSame(s, t);
    TracedSame(s, t);
    RetriedSame(s, t);
  }

  lemma {:induction false} StepTraced(s: Tracker, e: Event)
    requires Whole(s) && Enabled(s, e)
    ensures Consistent(s) && Traced(Step(s, e))
  {
    hide Query, Response, Cleanup, Traced, Whole, Sound, Grounded, Together;
    var t := s.(now := Micros(e.at));
    WholeLater(s, t.now);
    SoundOf(s);
    SoundOf(t);
    match e
    case RequestSeen(at, key, vector, code, v) =>
      QueryTraced(t, at, key, vector, code, v);
      TracedSame(Query(t, at, key, vector, code, v), Step(s, e));
    case ResponseSeen(at, key, code, v) =>
      ResponseTraced(t, at, key, code, v);
      TracedSame(Response(t, at, key, code, v), Step(s, e));
    case TimerFired(at, id) => CleanupTraced(t, id, t.live[id].silent, TimedOut, t.live[id].code, at);
    case IntervalEnd(_) => TracedSame(t, Step(s, e));
  }

  lemma SoundOf(s: Tracker)
    requires Whole(s)
    ensures Sound(s) && Consistent(s) && Grounded(s) && Traced(s)
  {
  }

  lemma {:induction false} StepWhole(s: Tracker, e: Event)
    requires Whole(s) && Enabled(s, e)
    ensures Consistent(s) && Whole(Step(s, e))
  {
    hide Step, Consistent, Accounted, Timed, Retried, Filed, Traced, Enabled;
    StepTraced(s, e);
    StepSound(s, e);
    StepRetried(s, e);
    StepFiled(s, e);
  }
}
