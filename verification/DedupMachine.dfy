/** The dedup bio as documented: a fixed pool of entries, each in exactly one list, tree or
    slot, and three write functions that never let a message start inside another one. */
module DedupMachine {
  import opened Wrappers
  import opened Octets

  datatype State = Free | Active | Pending | Replied | Partial | Cancelled
  datatype Entry = Entry(state: State, reply: Str, expires: int)
  datatype Mode = Direct | FinishPartial | FinishData
  datatype Reason = Expired | Withdrawn | WriteError
  datatype Note = Accepted(i: nat) | Released(i: nat, reason: Reason) | Freed(i: nat)

  const WOULD_BLOCK := -1
  const SLACK := 10000  // fr_bio_dedup_timer() also expires what is due within 10 ms

  /** `tree` lists the entries of the expiry tree in order; `incoming` is the entry being shown
      to the receive callback.  `wire` is what the next bio accepted, `begun` the messages of
      which it accepted something, `log` the callbacks and returns to the free list. */
  datatype Dedup = Dedup(
    entries: seq<Entry>, active: seq<nat>, pending: seq<nat>, free: seq<nat>, tree: seq<nat>,
    partial: Option<nat>, incoming: Option<nat>, buffer: Str, mode: Mode, lifetime: nat,
    wire: Str, begun: seq<Str>, log: seq<Note>)

  function Indices(n: nat): (s: seq<nat>)
    ensures |s| == n && forall i :: 0 <= i < n ==> s[i] == i
  {
    seq(n, i => i)
  }

  /** fr_bio_dedup_alloc(). */
  function Alloc(n: nat, lifetime: nat): Dedup {
    Dedup(seq(n, _ => Entry(Free, [], 0)), [], [], Indices(n), [], None, None, [], Direct, lifetime, [], [], [])
  }

  // ---- lists --------------------------------------------------------------------

  function Remove(l: seq<nat>, i: nat): seq<nat> {
    if l == [] then [] else if l[0] == i then l[1..] else [l[0]] + Remove(l[1..], i)
  }

  /** Insertion by expiry time, after entries with the same time. */
  function Insert(l: seq<nat>, entries: seq<Entry>, i: nat): seq<nat> {
    if l == [] || i >= |entries| || (l[0] < |entries| && entries[i].expires < entries[l[0]].expires) then [i] + l
    else [l[0]] + Insert(l[1..], entries, i)
  }

  // ---- moving one entry -----------------------------------------------------------

  /** Takes entry i out of the place its state names. */
  function Lift(s: Dedup, i: nat): (r: Dedup)
    requires i < |s.entries|
    ensures |r.entries| == |s.entries|
  {
    match s.entries[i].state
    case Free => s.(free := Remove(s.free, i))
    case Active => s.(active := Remove(s.active, i))
    case Pending => s.(pending := Remove(s.pending, i))
    case Replied => s.(tree := Remove(s.tree, i))
    case Partial => s.(partial := None)
    case Cancelled => s.(partial := None)
  }

  /** Puts entry i, which is nowhere, where `e` says. */
  function Place(s: Dedup, i: nat, e: Entry): (r: Dedup)
    requires i < |s.entries|
    ensures |r.entries| == |s.entries|
  {
    var t := s.(entries := s.entries[i := e]);
    match e.state
    case Free => t.(free := [i] + t.free)
    case Active => t.(active := t.active + [i])
    case Pending => t.(pending := t.pending + [i])
    case Replied => t.(tree := Insert(t.tree, t.entries, i))
    case Partial => t.(partial := Some(i))
    case Cancelled => t.(partial := Some(i))
  }

  function Move(s: Dedup, i: nat, e: Entry): (r: Dedup)
    requires i < |s.entries|
    ensures |r.entries| == |s.entries|
  {
    Place(Lift(s, i), i, e)
  }

  function MoveTo(s: Dedup, i: nat, st: State): (r: Dedup)
    requires i < |s.entries|
    ensures |r.entries| == |s.entries|
  {
    Move(s, i, s.entries[i].(state := st))
  }

  /** Entry i is not the one being received. */
  predicate Idle(s: Dedup, i: nat) { i < |s.entries| && s.incoming != Some(i) }

  // ---- every entry is in exactly one place --------------------------------------------

  ghost predicate Distinct(l: seq<nat>) {
    forall a, b :: 0 <= a < b < |l| ==> l[a] != l[b]
  }

  /** Entry i is where its state says and nowhere else. */
  ghost predicate Home(s: Dedup, i: nat)
    requires i < |s.entries|
  {
    var st := s.entries[i].state;
    && (i in s.free <==> st == Free)
    && (i in s.active <==> st == Active && s.incoming != Some(i))
    && (i in s.pending <==> st == Pending)
    && (i in s.tree <==> st == Replied)
    && (s.partial == Some(i) <==> st == Partial || st == Cancelled)
    && (s.incoming == Some(i) ==> st == Active)
    && (st == Pending ==> s.entries[i].reply != [])
    && (st == Active ==> s.entries[i].expires == 0)
  }

  ghost predicate Members(s: Dedup, l: seq<nat>) {
    Distinct(l) && forall i :: i in l ==> i < |s.entries|
  }

  ghost predicate Placed(s: Dedup) {
    && Members(s, s.active) && Members(s, s.pending) && Members(s, s.free) && Members(s, s.tree)
    && (s.partial.Some? ==> s.partial.v < |s.entries|)
    && (s.incoming.Some? ==> s.incoming.v < |s.entries|)
    && (forall i :: 0 <= i < |s.entries| ==> Home(s, i))
  }

  lemma DistinctCons(x: nat, r: seq<nat>)
    ensures Distinct([x] + r) <==> x !in r && Distinct(r)
  {
    var l := [x] + r;
    if Distinct(l) {
      forall k | 0 <= k < |r|
        ensures r[k] != x
      {
        assert l[0] != l[k + 1];
      }
      forall a, b | 0 <= a < b < |r|
        ensures r[a] != r[b]
      {
        assert l[a + 1] != l[b + 1];
      }
    }
  }

  lemma {:induction false} RemoveMembers(l: seq<nat>, i: nat)
    requires Distinct(l)
    ensures Distinct(Remove(l, i))
    ensures forall j :: j in Remove(l, i) <==> j in l && j != i
    ensures i in l ==> |Remove(l, i)| == |l| - 1
  {
    hide Distinct;
    if l != [] {
      assert l == [l[0]] + l[1..];
      DistinctCons(l[0], l[1..]);
      if l[0] != i {
        RemoveMembers(l[1..], i);
        DistinctCons(l[0], Remove(l[1..], i));
      }
    }
  }

  lemma {:induction false} InsertMembers(l: seq<nat>, entries: seq<Entry>, i: nat)
    requires Distinct(l) && i !in l
    ensures Distinct(Insert(l, entries, i))
    ensures forall j :: j in Insert(l, entries, i) <==> j in l || j == i
  {
    hide Distinct;
    DistinctCons(i, l);
    if l != [] {
      assert l == [l[0]] + l[1..];
      DistinctCons(l[0], l[1..]);
      InsertMembers(l[1..], entries, i);
      DistinctCons(l[0], Insert(l[1..], entries, i));
    }
  }

  /** Entry i taken out: all others are at home, and it is in no list and no slot. */
  ghost predicate Lifted(s: Dedup, i: nat) {
    && i < |s.entries| && s.incoming != Some(i)
    && Members(s, s.active) && Members(s, s.pending) && Members(s, s.free) && Members(s, s.tree)
    && (s.partial.Some? ==> s.partial.v < |s.entries|)
    && (s.incoming.Some? ==> s.incoming.v < |s.entries|)
    && i !in s.active && i !in s.pending && i !in s.free && i !in s.tree && s.partial != Some(i)
    && (forall j :: 0 <= j < |s.entries| && j != i ==> Home(s, j))
  }

  lemma {:induction false} LiftLifts(s: Dedup, i: nat)
    requires Placed(s) && Idle(s, i)
    ensures Lifted(Lift(s, i), i)
  {
    hide Distinct;
    assert Home(s, i);
    RemoveMembers(s.free, i);
    RemoveMembers(s.active, i);
    RemoveMembers(s.pending, i);
    RemoveMembers(s.tree, i);
    var t := Lift(s, i);
    forall j | 0 <= j < |s.entries| && j != i
      ensures Home(t, j)
    {
      assert Home(s, j);
    }
  }

  lemma {:induction false} PlacePlaces(s: Dedup, i: nat, e: Entry)
    requires Lifted(s, i)
    requires e.state in {Partial, Cancelled} ==> s.partial == None
    requires e.state == Pending ==> e.reply != []
    requires e.state == Active ==> e.expires == 0
    ensures Placed(Place(s, i, e))
  {
    hide Distinct;
    var t := Place(s, i, e);
    DistinctAppend(s.active, i);
    DistinctAppend(s.pending, i);
    DistinctCons(i, s.free);
    InsertMembers(s.tree, s.entries[i := e], i);
    forall j | 0 <= j < |s.entries|
      ensures Home(t, j)
    {
      if j != i {
        assert Home(s, j);
      }
    }
  }

  lemma DistinctAppend(l: seq<nat>, i: nat)
    requires Distinct(l) && i !in l
    ensures Distinct(l + [i])
  {
  }

  /** The pool law: moving an entry from the place its state names to the place its new state
      names keeps every entry in exactly one place. */
  lemma {:induction false} MovePlaced(s: Dedup, i: nat, e: Entry)
    requires Placed(s) && Idle(s, i)
    requires e.state in {Partial, Cancelled} ==> s.partial == None || s.partial == Some(i)
    requires e.state == Pending ==> e.reply != []
    requires e.state != Active
    ensures Placed(Move(s, i, e))
  {
    hide Lift, Place;
    LiftLifts(s, i);
    LiftPartial(s, i);
    PlacePlaces(Lift(s, i), i, e);
  }

  lemma LiftPartial(s: Dedup, i: nat)
    requires Placed(s) && Idle(s, i)
    ensures s.partial == None || s.partial == Some(i) ==> Lift(s, i).partial == None
    ensures |Lift(s, i).entries| == |s.entries|
  {
    assert Home(s, i);
  }

  // ---- the steps of the machine -----------------------------------------------------

  predicate Held(s: Dedup, i: nat) {
    Idle(s, i) && s.entries[i].state in {Active, Pending, Replied, Partial}
  }

  /** fr_bio_dedup_release(): one callback; a partly written entry is only marked. */
  function Release(s: Dedup, i: nat, reason: Reason): (r: Dedup)
    requires i < |s.entries|
    ensures |r.entries| == |s.entries|
  {
    var t := s.(log := s.log + [Released(i, reason)]);
    if t.entries[i].state == Partial then MoveTo(t, i, Cancelled)
    else MoveTo(t.(log := t.log + [Freed(i)]), i, Free)
  }

  /** fr_bio_dedup_replied(). */
  function MarkReplied(s: Dedup, i: nat, now: int): (r: Dedup)
    requires i < |s.entries|
    ensures |r.entries| == |s.entries|
  {
    if s.entries[i].state == Replied then s
    else Move(s, i, s.entries[i].(state := Replied, expires := now + s.lifetime))
  }

  /** What the next bio takes of n octets when it answers r: all it likes, at most n. */
  function Accept(r: int, n: nat): int { if r > n then n else r }

  /** A message of which the next bio took k > 0 octets, and the rest is kept. */
  function Begin(s: Dedup, m: Str, k: int): (r: Dedup)
    requires 0 < k <= |m|
    ensures |r.entries| == |s.entries|
  {
    s.(wire := s.wire + m[..k], begun := s.begun + [m], buffer := m[k..])
  }

  /** fr_bio_dedup_blocked(): entry i is partly written. */
  function Blocked(s: Dedup, i: nat, k: int): (r: Dedup)
    requires i < |s.entries| && 0 < k < |s.entries[i].reply|
    ensures |r.entries| == |s.entries|
  {
    MoveTo(Begin(s, s.entries[i].reply, k), i, Partial).(mode := FinishPartial)
  }

  /** Offer the reply of entry i to the next bio, in direct mode. */
  function SendReply(s: Dedup, i: nat, now: int, answer: int): (r: (Dedup, int))
    requires i < |s.entries| && s.entries[i].reply != []
    ensures |r.0.entries| == |s.entries|
  {
    var m := s.entries[i].reply;
    var k := Accept(answer, |m|);
    if k == |m| then (MarkReplied(Begin(s, m, k), i, now), k)
    else if k == 0 || k == WOULD_BLOCK then (MoveTo(s, i, Pending), |m|)
    else if k < 0 then (Release(s, i, WriteError), k)
    else (Blocked(s, i, k), k)
  }

  /** fr_bio_dedup_respond(). */
  function Respond(s: Dedup, i: nat, now: int, answer: int): (r: (Dedup, int))
    requires i < |s.entries|
    ensures |r.0.entries| == |s.entries|
  {
    var e := s.entries[i];
    if e.reply == [] then (s, 0)
    else match e.state
      case Active =>
        if s.mode != Direct then (Move(s, i, e.(state := Pending, expires := now + s.lifetime)), |e.reply|)
        else SendReply(s, i, now, answer)
      case Replied =>
        if s.mode == Direct then SendReply(s, i, now, answer) else (MoveTo(s, i, Pending), |e.reply|)
      case _ => (s, WOULD_BLOCK)
  }

  lemma {:induction false} HeadPending(s: Dedup)
    requires Placed(s) && s.pending != []
    ensures Idle(s, s.pending[0]) && s.entries[s.pending[0]].state == Pending && s.entries[s.pending[0]].reply != []
  {
    assert s.pending[0] in s.pending;
    assert Home(s, s.pending[0]);
  }

  /** Releasing a pending entry, or moving it on, shortens the pending list. */
  lemma {:induction false} LeavesPending(s: Dedup, i: nat, e: Entry)
    requires Placed(s) && i < |s.entries| && s.entries[i].state == Pending && e.state != Pending
    ensures |Move(s, i, e).pending| == |s.pending| - 1
  {
    assert Home(s, i);
    RemoveMembers(s.pending, i);
  }

  /** fr_bio_dedup_flush_pending(): replies go out in order until one is not taken whole; one
      of which nothing is taken stays at the head.  Returns what is left of the answers. */
  function FlushPending(s: Dedup, now: int, rs: seq<int>): (r: (Dedup, int, seq<int>))
    requires Placed(s) && s.mode == Direct
    ensures |r.0.entries| == |s.entries|
    decreases |s.pending|
  {
    if s.pending == [] then (s, 0, rs)
    else
      HeadPending(s);
      var i := s.pending[0];
      var e := s.entries[i];
      if e.expires <= now then
        ReleasePlaced(s, i, Expired);
        FlushPending(Release(s, i, Expired), now, rs)
      else
        var k := Accept(if rs == [] then 0 else rs[0], |e.reply|);
        var rest := if rs == [] then [] else rs[1..];
        if k <= 0 then (s, k, rest)
        else if k == |e.reply| then
          var t := Begin(s, e.reply, k);
          PlacedAnyStream(s, t);
          MovePlaced(t, i, e.(state := Replied));
          LeavesPending(t, i, e.(state := Replied));
          FlushPending(MoveTo(t, i, Replied), now, rest)
        else (Blocked(s, i, k), WOULD_BLOCK, rest)
  }

  /** Finish the message in the local buffer: fr_bio_dedup_buffer_write(). */
  function BufferWrite(s: Dedup, answer: int): (r: (Dedup, int))
    ensures |r.0.entries| == |s.entries|
  {
    var k := Accept(answer, |s.buffer|);
    if k <= 0 then (s, k)
    else
      var t := s.(wire := s.wire + s.buffer[..k], buffer := s.buffer[k..]);
      if t.buffer != [] then (t, 0) else (t, k)
  }

  /** The entry whose partly written reply is now out: it waits for its expiry time, or is
      released if that is past, or goes to the free list if it was cancelled meanwhile. */
  function Settle(s: Dedup, i: nat, now: int): (r: Dedup)
    requires i < |s.entries|
    ensures |r.entries| == |s.entries|
  {
    if s.entries[i].state == Cancelled then MoveTo(s.(log := s.log + [Freed(i)]), i, Free)
    else if s.entries[i].expires <= now then
      MoveTo(s.(log := s.log + [Released(i, Expired), Freed(i)]), i, Free)
    else MoveTo(s, i, Replied)
  }

  /** None of the answers takes a part of n octets. */
  predicate AllOrNothing(rs: seq<int>, n: nat) {
    forall k :: 0 <= k < |rs| ==> rs[k] <= 0 || rs[k] >= n
  }

  /** The application's packet for entry `item`, or raw data, or None to flush.  A packet that is
      partly written must be the entry's reply. */
  ghost predicate CanWrite(s: Dedup, item: Option<nat>, data: Option<Str>, rs: seq<int>) {
    item.Some? && data.Some? ==>
      && Idle(s, item.v) && s.entries[item.v].state in {Active, Replied}
      && (s.entries[item.v].reply == data.v || AllOrNothing(rs, |data.v|))
  }

  /** fr_bio_dedup_write(). */
  function DirectWrite(s: Dedup, item: Option<nat>, data: Option<Str>, now: int, answer: int): (r: (Dedup, int))
    requires CanWrite(s, item, data, [answer])
    ensures |r.0.entries| == |s.entries|
  {
    if data.None? then (s, answer)
    else
      var m := data.v;
      var k := Accept(answer, |m|);
      if k <= 0 then (s, k)
      else if k == |m| then
        (if item.Some? then MarkReplied(Begin(s, m, k), item.v, now) else Begin(s, m, k), k)
      else if item.None? then (Begin(s, m, k).(mode := FinishData), k)
      else assert [answer][0] == k; (Blocked(s, item.v, k), k)
  }

  /** What has to be finished before anything else is written: fr_bio_dedup_write_partial()
      and fr_bio_dedup_write_data(), up to the flush of the pending list. */
  function Unblock(s: Dedup, now: int): (r: Dedup)
    requires s.mode == FinishPartial ==> s.partial.Some? && s.partial.v < |s.entries|
    ensures |r.entries| == |s.entries|
  {
    (if s.mode == FinishPartial then Settle(s, s.partial.v, now) else s).(mode := Direct)
  }

  // ---- the pool law for each step -----------------------------------------------------

  /** Where entries are does not depend on the stream, the log or the write function. */
  lemma PlacedAnyStream(s: Dedup, t: Dedup)
    requires s == t.(wire := s.wire, begun := s.begun, buffer := s.buffer, log := s.log, mode := s.mode)
    ensures Placed(s) <==> Placed(t)
  {
    assert forall i :: 0 <= i < |s.entries| ==> (Home(s, i) <==> Home(t, i));
  }

  lemma {:induction false} ReleasePlaced(s: Dedup, i: nat, reason: Reason)
    requires Placed(s) && Held(s, i)
    ensures Placed(Release(s, i, reason))
    ensures s.entries[i].state == Pending ==> |Release(s, i, reason).pending| == |s.pending| - 1
  {
    var t := s.(log := s.log + [Released(i, reason)]);
    var u := t.(log := t.log + [Freed(i)]);
    PlacedAnyStream(s, t);
    PlacedAnyStream(s, u);
    assert Home(s, i);
    if s.entries[i].state == Partial {
      MovePlaced(t, i, t.entries[i].(state := Cancelled));
    } else {
      MovePlaced(u, i, u.entries[i].(state := Free));
      if s.entries[i].state == Pending {
        LeavesPending(u, i, u.entries[i].(state := Free));
      }
    }
  }

  /** What a move leaves alone. */
  ghost predicate SameElsewhere(s: Dedup, t: Dedup) {
    && t.mode == s.mode && t.buffer == s.buffer && t.wire == s.wire && t.begun == s.begun && t.log == s.log
    && t.lifetime == s.lifetime && t.incoming == s.incoming
  }

  lemma {:induction false} LiftElsewhere(s: Dedup, i: nat)
    requires i < |s.entries|
    ensures var t := Lift(s, i); SameElsewhere(s, t) && t.entries == s.entries
    ensures s.entries[i].state !in {Partial, Cancelled} ==> Lift(s, i).partial == s.partial
  {
  }

  lemma {:induction false} MoveElsewhere(s: Dedup, i: nat, e: Entry)
    requires i < |s.entries|
    ensures var t := Move(s, i, e);
      && SameElsewhere(s, t) && t.entries == s.entries[i := e]
      && (s.entries[i].state !in {Partial, Cancelled} && e.state !in {Partial, Cancelled} ==> t.partial == s.partial)
  {
    hide Lift, Insert;
    LiftElsewhere(s, i);
  }

  lemma {:induction false} ReleaseElsewhere(s: Dedup, i: nat, reason: Reason)
    requires i < |s.entries|
    ensures var t := Release(s, i, reason);
      && t.mode == s.mode && t.buffer == s.buffer && t.wire == s.wire && t.begun == s.begun
      && t.lifetime == s.lifetime && t.incoming == s.incoming
      && t.entries == s.entries[i := s.entries[i].(state := if s.entries[i].state == Partial then Cancelled else Free)]
      && (s.entries[i].state !in {Partial, Cancelled} ==> t.partial == s.partial)
  {
    hide Move;
    var t := s.(log := s.log + [Released(i, reason)]);
    var u := t.(log := t.log + [Freed(i)]);
    MoveElsewhere(t, i, t.entries[i].(state := Cancelled));
    MoveElsewhere(u, i, u.entries[i].(state := Free));
  }
}
