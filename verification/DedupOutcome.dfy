/** What the return value of each operation of the dedup bio says about its outcome, read off the
    wire, the callbacks and the states of the entries; and where every entry is afterwards. */
module DedupOutcome {
  import opened Wrappers
  import opened Octets
  import opened DedupMachine
  import opened DedupRuns
  import opened DedupFlush

  ghost predicate SameStream(s: Dedup, t: Dedup) {
    t.wire == s.wire && t.begun == s.begun && t.buffer == s.buffer && t.mode == s.mode
  }

  /** The next bio took k octets of a new message m. */
  ghost predicate Took(s: Dedup, t: Dedup, m: Str, k: int) {
    0 < k <= |m| && t.wire == s.wire + m[..k] && t.begun == s.begun + [m] && t.buffer == m[k..]
  }

  /** At most entry i has changed. */
  ghost predicate OnlyEntry(s: Dedup, t: Dedup, i: nat, e: Entry) {
    && i < |s.entries| && t.entries == s.entries[i := e]
    && t.incoming == s.incoming && t.lifetime == s.lifetime
  }

  // ---- responding --------------------------------------------------------------------------

  /** The whole reply of entry i is on the wire. */
  ghost predicate IsSent(s: Dedup, i: nat, t: Dedup)
    requires i < |s.entries| == |t.entries|
  {
    var m := s.entries[i].reply;
    && Took(s, t, m, |m|) && t.mode == Direct
    && t.entries[i].state == Replied && t.pending == s.pending && t.log == s.log
  }

  /** The reply is last in the queue and nothing of it is on the wire. */
  ghost predicate IsQueued(s: Dedup, i: nat, t: Dedup)
    requires i < |s.entries| == |t.entries|
  {
    && SameStream(s, t) && s.entries[i].state in {Active, Replied}
    && t.entries[i].state == Pending && t.pending == s.pending + [i] && t.log == s.log
  }

  /** Of the reply k octets are on the wire and the others in the local buffer. */
  ghost predicate IsCut(s: Dedup, i: nat, k: int, t: Dedup)
    requires i < |s.entries| == |t.entries|
  {
    var m := s.entries[i].reply;
    && k < |m| && Took(s, t, m, k) && t.mode == FinishPartial && t.partial == Some(i)
    && t.entries[i].state == Partial && t.pending == s.pending && t.log == s.log
  }

  /** The application is told that its reply could not be written, and the entry is free. */
  ghost predicate IsRefused(s: Dedup, i: nat, t: Dedup)
    requires i < |s.entries| == |t.entries|
  {
    && SameStream(s, t) && t.entries[i].state == Free
    && t.pending == s.pending && t.log == s.log + [Released(i, WriteError), Freed(i)]
  }

  /** The reply is offered to the next bio. */
  predicate Offered(s: Dedup, i: nat)
    requires i < |s.entries|
  {
    s.mode == Direct && s.entries[i].reply != [] && s.entries[i].state in {Active, Replied}
  }

  /** The entry's new expiry time: a first reply that is sent, or queued behind an unfinished
      message, starts its lifetime. */
  function ExpiresAfter(s: Dedup, i: nat, now: int, answer: int): int
    requires i < |s.entries|
  {
    var e := s.entries[i];
    if e.reply != [] && e.state == Active && (s.mode != Direct || answer >= |e.reply|) then now + s.lifetime
    else e.expires
  }

  lemma {:induction false} SendReplyOutcome(s: Dedup, i: nat, now: int, answer: int)
    requires Inv(s) && Held(s, i) && Offered(s, i)
    ensures var (t, c) := SendReply(s, i, now, answer); var m := s.entries[i].reply;
      && (answer >= |m| ==> c == |m| && IsSent(s, i, t))
      && (0 < answer < |m| ==> c == answer && IsCut(s, i, c, t))
      && (answer in {0, WOULD_BLOCK} ==> c == |m| && IsQueued(s, i, t))
      && (answer < WOULD_BLOCK ==> c == answer && IsRefused(s, i, t))
      && OnlyEntry(s, t, i, s.entries[i].(state := t.entries[i].state, expires := ExpiresAfter(s, i, now, answer)))
  {
    hide Move, Inv;
    var e := s.entries[i];
    var m := e.reply;
    if answer >= |m| {
      var b := Begin(s, m, |m|);
      var f := e.(state := Replied, expires := now + s.lifetime);
      MoveElsewhere(b, i, f);
      MoveQueue(b, i, f);
    } else if answer > 0 {
      var b := Begin(s, m, answer);
      MoveElsewhere(b, i, e.(state := Partial));
      MoveQueue(b, i, e.(state := Partial));
      MoveToSlot(b, i);
    } else if answer in {0, WOULD_BLOCK} {
      MoveElsewhere(s, i, e.(state := Pending));
      MoveQueue(s, i, e.(state := Pending));
    } else {
      ReleaseElsewhere(s, i, WriteError);
      var u := s.(log := s.log + [Released(i, WriteError)] + [Freed(i)]);
      MoveElsewhere(u, i, e.(state := Free));
      MoveQueue(u, i, e.(state := Free));
      assert u.log == s.log + [Released(i, WriteError), Freed(i)];
    }
  }

  /** The queue after a move of an entry that was not in it. */
  lemma MoveQueue(s: Dedup, i: nat, e: Entry)
    requires i < |s.entries| && s.entries[i].state != Pending
    ensures Move(s, i, e).pending == if e.state == Pending then s.pending + [i] else s.pending
  {
  }

  /** What fr_bio_dedup_respond() returns: 0 if there is no reply; "would block" if this entry is
      already queued or partly written; an error, the next bio's, exactly if the next bio fails, and
      then the application has been told and the entry is free; less than the reply exactly if
      so much of it is on the wire and the entry is partly written; the size of the reply exactly
      if all of it is on the wire or this call has queued it. */
  lemma {:induction false} RespondOutcome(s: Dedup, i: nat, now: int, answer: int)
    requires Inv(s) && Held(s, i)
    ensures var (t, c) := Respond(s, i, now, answer); var e := s.entries[i]; var m := e.reply;
      && (c == 0 <==> m == [])
      && (c == WOULD_BLOCK <==> m != [] && e.state in {Pending, Partial})
      && (c in {0, WOULD_BLOCK} ==> t == s)
      && (c < WOULD_BLOCK <==> IsRefused(s, i, t))
      && (c < WOULD_BLOCK <==> Offered(s, i) && answer < WOULD_BLOCK) && (c < WOULD_BLOCK ==> c == answer)
      && (0 < c < |m| <==> t.entries[i].state == Partial && e.state != Partial)
      && (0 < c < |m| <==> Offered(s, i) && 0 < answer < |m|) && (0 < c < |m| ==> c == answer && IsCut(s, i, c, t))
      && (c == |m| > 0 <==> IsSent(s, i, t) || IsQueued(s, i, t))
      && (IsSent(s, i, t) <==> Offered(s, i) && answer >= |m|)
      && c <= |m|
  {
    hide Inv, Move, SendReply, Took;
    var e := s.entries[i];
    if Offered(s, i) {
      SendReplyOutcome(s, i, now, answer);
      NotPartial(s, i);
      SentGrows(s, i, SendReply(s, i, now, answer).0);
    } else if e.reply != [] && e.state in {Active, Replied} {
      QueuedOutcome(s, i, now, answer);
    } else {
      SameIsNot(s, i);
    }
  }

  lemma SentGrows(s: Dedup, i: nat, t: Dedup)
    requires i < |s.entries| == |t.entries|
    ensures SameStream(s, t) ==> !IsSent(s, i, t)
  {
  }

  lemma SameIsNot(s: Dedup, i: nat)
    requires i < |s.entries|
    ensures !IsSent(s, i, s) && !IsQueued(s, i, s) && !IsRefused(s, i, s)
  {
  }

  lemma {:induction false} QueuedOutcome(s: Dedup, i: nat, now: int, answer: int)
    requires Inv(s) && Held(s, i) && !Offered(s, i)
    requires s.entries[i].reply != [] && s.entries[i].state in {Active, Replied}
    ensures var (t, c) := Respond(s, i, now, answer); var e := s.entries[i];
      && c == |e.reply| && IsQueued(s, i, t) && !IsSent(s, i, t)
      && OnlyEntry(s, t, i, e.(state := Pending, expires := ExpiresAfter(s, i, now, answer)))
  {
    hide Inv, Move;
    var e := s.entries[i];
    var f := e.(state := Pending, expires := now + s.lifetime);
    MoveElsewhere(s, i, f);
    MoveQueue(s, i, f);
    MoveElsewhere(s, i, e.(state := Pending));
    MoveQueue(s, i, e.(state := Pending));
  }

  /** Nothing changes but the entry that is responded to, and of it only its state and expiry
      time; its lifetime starts when a first reply is sent, or queued behind another message. */
  lemma {:induction false} RespondEntry(s: Dedup, i: nat, now: int, answer: int)
    requires Inv(s) && Held(s, i)
    ensures var t := Respond(s, i, now, answer).0; var e := s.entries[i];
      OnlyEntry(s, t, i, e.(state := t.entries[i].state, expires := ExpiresAfter(s, i, now, answer)))
  {
    hide Inv, Move, SendReply;
    var e := s.entries[i];
    if Offered(s, i) {
      SendReplyOutcome(s, i, now, answer);
    } else if e.reply != [] && e.state in {Active, Replied} {
      QueuedOutcome(s, i, now, answer);
    } else {
      assert s.entries[i := e] == s.entries;
    }
  }

  // ---- writing ------------------------------------------------------------------------------

  /** What a packet, or a flush without one, returns when the next bio answers a. */
  function PacketCode(data: Option<Str>, a: int): int {
    if data.Some? && a > |data.v| then |data.v| else a
  }

  /** The packet is written as far as the next bio takes it; its entry, if there is one, has been
      replied to, or is partly written. */
  ghost predicate Packet(s: Dedup, item: Option<nat>, data: Option<Str>, now: int, a: int, t: Dedup) {
    var k := PacketCode(data, a);
    if data.None? || k <= 0 then t == s
    else
      && Took(s, t, data.v, k)
      && t.mode == (if k == |data.v| then Direct else if item.Some? then FinishPartial else FinishData)
      && t.log == s.log && t.pending == s.pending
      && (item.None? ==> t.entries == s.entries && t.incoming == s.incoming)
      && (item.Some? ==> item.v < |s.entries| && OnlyEntry(s, t, item.v, PacketEntry(s, item.v, k == |data.v|, now)))
  }

  function PacketEntry(s: Dedup, i: nat, whole: bool, now: int): Entry
    requires i < |s.entries|
  {
    var e := s.entries[i];
    if !whole then e.(state := Partial)
    else if e.state == Active then e.(state := Replied, expires := now + s.lifetime)
    else e.(state := Replied)
  }

  lemma {:induction false} DirectWriteOutcome(s: Dedup, item: Option<nat>, data: Option<Str>, now: int, a: int)
    requires Inv(s) && s.mode == Direct && CanWrite(s, item, data, [a])
    ensures var (t, c) := DirectWrite(s, item, data, now, a);
      c == PacketCode(data, a) && Packet(s, item, data, now, a, t)
  {
    hide Inv, Move;
    if data.Some? && PacketCode(data, a) > 0 && item.Some? {
      var i, m, k := item.v, data.v, PacketCode(data, a);
      var e := s.entries[i];
      if k == |m| {
        var b, f := Begin(s, m, k), e.(state := Replied, expires := now + s.lifetime);
        MoveElsewhere(b, i, f);
        MoveQueue(b, i, f);
        assert e.state == Replied ==> s.entries[i := e] == s.entries;
      } else {
        assert [a][0] == k;
        var b, f := Begin(s, m, k), e.(state := Partial);
        MoveElsewhere(b, i, f);
        MoveQueue(b, i, f);
      }
    }
  }

  /** The rest of an unfinished message: nothing or a part of it is taken, and nothing else
      happens; or all of it, and only then is the return value positive. */
  lemma {:induction false} BufferWriteOutcome(s: Dedup, a: int)
    requires Inv(s) && s.mode != Direct
    ensures var (t, k) := BufferWrite(s, a);
      && (k > 0 <==> a >= |s.buffer|)
      && (a >= |s.buffer| ==> t == s.(wire := s.wire + s.buffer, buffer := []))
      && (a < |s.buffer| ==> StillUnfinished(s, a, t, k))
  {
    hide Pool;
    if a >= |s.buffer| {
      assert s.buffer[..|s.buffer|] == s.buffer && s.buffer[|s.buffer|..] == [];
    }
  }

  ghost predicate StillUnfinished(s: Dedup, a: int, t: Dedup, c: int)
    requires a < |s.buffer|
  {
    if a <= 0 then t == s && c == a
    else t == s.(wire := s.wire + s.buffer[..a], buffer := s.buffer[a..]) && c == 0
  }

  /** What becomes of an entry whose partly written reply is out at last: it is free if it was
      cancelled meanwhile, or if its time has passed, which the application is told then; and
      otherwise waits for its time. */
  lemma {:induction false} SettleOutcome(s: Dedup, i: nat, now: int)
    requires Pool(s) && s.partial == Some(i) && i < |s.entries|
    ensures var t := Settle(s, i, now); var e := s.entries[i];
      && OnlyEntry(s, t, i, e.(state := if e.state == Partial && e.expires > now then Replied else Free))
      && (i in t.tree <==> e.state == Partial && e.expires > now)
      && (i in t.free <==> e.state == Cancelled || e.expires <= now)
      && t.log == s.log + SettleNotes(s, i, now)
      && t.partial == None && t.pending == s.pending && SameStream(s, t)
  {
    hide Move, Sorted, Tenured, Distinct;
    var e := s.entries[i];
    PartialSlot(s, i);
    SettlePool(s, i, now);
    MoveElsewhere(s, i, e.(state := Replied));
    MoveQueue(s, i, e.(state := Replied));
    forall notes
      ensures var u := MoveTo(s.(log := s.log + notes), i, Free);
        u.pending == s.pending && SameElsewhere(s.(log := s.log + notes), u)
        && u.entries == s.entries[i := e.(state := Free)]
    {
      MoveElsewhere(s.(log := s.log + notes), i, e.(state := Free));
      MoveQueue(s.(log := s.log + notes), i, e.(state := Free));
    }
    assert s.log + [] == s.log;
    assert Home(Settle(s, i, now), i);
  }

  /** What the application is told of it, and the return to the free list. */
  function SettleNotes(s: Dedup, i: nat, now: int): seq<Note>
    requires i < |s.entries|
  {
    if s.entries[i].state == Cancelled then [Freed(i)]
    else if s.entries[i].expires <= now then [Released(i, Expired), Freed(i)]
    else []
  }

  /** How many of the queued replies leave the queue once the unfinished message is out; the
      answer to the first that is not taken whole; and the answers left for the packet. */
  function Leaving(s: Dedup, now: int, rs: seq<int>): nat { Handled(s.pending, s.entries, now, Rest(rs)) }
  function Stop(s: Dedup, now: int, rs: seq<int>): Option<int> { FirstShort(s.pending, s.entries, now, Rest(rs)) }
  function Answers(s: Dedup, now: int, rs: seq<int>): seq<int> { Unused(s.pending, s.entries, now, Rest(rs)) }

  function PartialNotes(s: Dedup, now: int): seq<Note> {
    if s.partial.Some? && s.partial.v < |s.entries| then SettleNotes(s, s.partial.v, now) else []
  }

  /** An entry that is not queued changes only if it is the partly written one. */
  function SettledEntry(s: Dedup, j: nat, now: int): Entry
    requires j < |s.entries|
  {
    var e := s.entries[j];
    if s.partial != Some(j) then e
    else e.(state := if e.state == Partial && e.expires > now then Replied else Free)
  }

  /** The unfinished message is out, its entry is settled, and the queue is flushed. */
  ghost predicate Drained(s: Dedup, now: int, rs: seq<int>, v: Dedup) {
    var n, short := Leaving(s, now, rs), Stop(s, now, rs);
    && v.pending == s.pending[n..]
    && v.begun == s.begun + Replies(s.pending[..n], s.entries, now)
    && v.log == s.log + PartialNotes(s, now) + Drops(s.pending[..n], s.entries, now)
    && v.mode == (if short.Some? && short.v > 0 then FinishPartial else Direct)
    && v.incoming == s.incoming && v.lifetime == s.lifetime
    && Settled(s, n, now, v)
    && forall j :: 0 <= j < |s.entries| && s.entries[j].state != Pending ==> v.entries[j] == SettledEntry(s, j, now)
  }

  lemma {:induction false} UnblockOutcome(s: Dedup, now: int)
    requires Finished(s)
    ensures s.mode == FinishPartial ==> s.partial.v < |s.entries|
    ensures var u := Unblock(s, now);
      && u.pending == s.pending && u.begun == s.begun && u.log == s.log + PartialNotes(s, now)
      && u.incoming == s.incoming && u.lifetime == s.lifetime && |u.entries| == |s.entries|
      && forall j :: 0 <= j < |s.entries| ==> u.entries[j] == SettledEntry(s, j, now)
  {
    hide Settle, Sorted, Tenured, Flatten;
    UnblockInv(s, now);
    if s.mode == FinishPartial {
      SettleOutcome(s, s.partial.v, now);
    } else {
      assert s.log + [] == s.log;
    }
  }

  /** The state in which the packet is written, or the flush has stopped. */
  function Drain(s: Dedup, now: int, rs: seq<int>): (Dedup, int, seq<int>)
    requires Inv(s) && s.mode != Direct && First(rs) >= |s.buffer|
  {
    BufferWriteOutcome(s, First(rs));
    BufferWriteInv(s, First(rs));
    var t := BufferWrite(s, First(rs)).0;
    UnblockInv(t, now);
    FlushPending(Unblock(t, now), now, Rest(rs))
  }

  lemma {:induction false} DrainOutcome(s: Dedup, now: int, rs: seq<int>)
    requires Inv(s) && s.mode != Direct && First(rs) >= |s.buffer|
    ensures var (v, c, left) := Drain(s, now, rs);
      && Inv(v) && Drained(s, now, rs, v)
      && c == CodeOf(Stop(s, now, rs)) && left == Answers(s, now, rs)
  {
    hide Placed, Sorted, Tenured, Streamed, BufferWrite, Unblock, FlushPending, Handled, FirstShort, Unused,
      Replies, Drops, KeptBack, Settled, CodeOf;
    BufferWriteOutcome(s, First(rs));
    BufferWriteInv(s, First(rs));
    var t := BufferWrite(s, First(rs)).0;
    UnblockInv(t, now);
    UnblockOutcome(t, now);
    var u := Unblock(t, now);
    FlushInv(u, now, Rest(rs));
    FlushOrder(u, now, Rest(rs));
    var (v, c, left) := FlushPending(u, now, Rest(rs));
    assert forall j :: 0 <= j < |s.entries| ==> u.entries[j] == SettledEntry(s, j, now);
    QueueUntouched(s, u, now);
    ListedOnly(s.pending, s.entries, u.entries, now, Rest(rs));
    var n := Leaving(s, now, rs);
    assert forall i :: i in s.pending[..n] ==> i in s.pending;
    ListedOnly(s.pending[..n], s.entries, u.entries, now, Rest(rs));
    KeptBackMode(u, n, Stop(s, now, rs), v);
    SettledFrame(s, u, n, now, v);
    forall j | 0 <= j < |s.entries| && s.entries[j].state != Pending
      ensures v.entries[j] == SettledEntry(s, j, now)
    {
      assert u.entries[j].state != Pending;
    }
  }

  /** A queued entry is not the partly written one. */
  lemma {:induction false} QueueUntouched(s: Dedup, u: Dedup, now: int)
    requires Placed(s) && |u.entries| == |s.entries|
    requires forall j :: 0 <= j < |s.entries| ==> u.entries[j] == SettledEntry(s, j, now)
    ensures forall i :: i in s.pending ==> i < |s.entries| && u.entries[i] == s.entries[i]
  {
    forall i | i in s.pending
      ensures i < |s.entries| && u.entries[i] == s.entries[i]
    {
      assert Home(s, i);
    }
  }

  lemma KeptBackMode(s: Dedup, n: nat, short: Option<int>, t: Dedup)
    requires KeptBack(s, n, short, t)
    ensures t.mode == if short.Some? && short.v > 0 then FinishPartial else Direct
  {
  }

  lemma SettledFrame(s: Dedup, u: Dedup, n: nat, now: int, t: Dedup)
    requires Settled(u, n, now, t) && u.pending == s.pending && |u.entries| == |s.entries|
    requires forall i :: i in s.pending ==> i < |s.entries| && u.entries[i] == s.entries[i]
    ensures Settled(s, n, now, t)
  {
    assert forall j :: 0 <= j < |s.pending| ==> s.pending[j] in s.pending;
  }

  /** The packet comes after the flush unless that has stopped at a reply. */
  ghost predicate AfterDrain(s: Dedup, item: Option<nat>, data: Option<Str>, now: int, rs: seq<int>,
                             v: Dedup, t: Dedup, c: int) {
    && Inv(v) && Drained(s, now, rs, v)
    && if CodeOf(Stop(s, now, rs)) < 0 then t == v && c == CodeOf(Stop(s, now, rs))
       else
         && v.mode == Direct && c == PacketCode(data, First(Answers(s, now, rs)))
         && Packet(v, item, data, now, First(Answers(s, now, rs)), t)
  }

  /** my->bio.write() in each of its three functions: the packet is written directly; or an
      unfinished message comes first, and nothing else happens unless all of it is taken; then its
      entry is settled, the queue is flushed in order, and the packet is written only if the
      flush did not stop at a reply that is refused or partly taken. */
  lemma {:induction false} WriteOutcome(s: Dedup, item: Option<nat>, data: Option<Str>, now: int, rs: seq<int>)
    requires Inv(s) && CanWrite(s, item, data, rs)
    ensures var (t, c) := Write(s, item, data, now, rs);
      && (s.mode == Direct ==> c == PacketCode(data, First(rs)) && Packet(s, item, data, now, First(rs), t))
      && (s.mode != Direct && First(rs) < |s.buffer| ==> StillUnfinished(s, First(rs), t, c))
      && (s.mode != Direct && First(rs) >= |s.buffer| ==> exists v :: AfterDrain(s, item, data, now, rs, v, t, c))
  {
    hide Placed, Sorted, Tenured, Streamed, DirectWrite, BufferWrite, Unblock, FlushPending, CanWrite, Packet, Drained,
      CodeOf, Handled, FirstShort, Unused;
    if s.mode == Direct {
      StillCanWrite(s, s, item, data, rs, 0);
      assert rs[0..] == rs;
      DirectWriteOutcome(s, item, data, now, First(rs));
    } else {
      BufferWriteOutcome(s, First(rs));
      BufferWriteInv(s, First(rs));
      if First(rs) >= |s.buffer| {
        var t := BufferWrite(s, First(rs)).0;
        UnblockInv(t, now);
        var u := Unblock(t, now);
        FlushInv(u, now, Rest(rs));
        var (v, c, rest) := FlushPending(u, now, Rest(rs));
        ItemSurvives(s, t, u, v, item, data, rs, rest);
        DrainOutcome(s, now, rs);
        assert Drain(s, now, rs) == (v, c, rest);
        if c >= 0 {
          DirectWriteOutcome(v, item, data, now, First(rest));
        }
        var (t', c') := Write(s, item, data, now, rs);
        assert AfterDrain(s, item, data, now, rs, v, t', c');
      }
    }
  }

  /** The replies that go out before the packet. */
  function Queue(s: Dedup, now: int, rs: seq<int>): seq<Str> {
    if s.mode != Direct && First(rs) >= |s.buffer|
    then Replies(s.pending[..Leaving(s, now, rs)], s.entries, now) else []
  }

  /** What the entry of the packet is afterwards. */
  ghost predicate WroteFor(s: Dedup, i: nat, m: Str, now: int, t: Dedup, c: int)
    requires i < |s.entries| == |t.entries|
  {
    t.entries[i] == if c <= 0 then s.entries[i] else PacketEntry(s, i, c == |m|, now)
  }

  /** What the return value of a write says about the packet: it is the number of its octets on
      the wire, which follow those of the queue, the others being in the local buffer; or it is not
      positive, and nothing of the packet is on the wire and its entry is as before. */
  lemma {:induction false} WriteCodeMeans(s: Dedup, item: Option<nat>, m: Str, now: int, rs: seq<int>)
    requires Inv(s) && CanWrite(s, item, Some(m), rs)
    ensures var (t, c) := Write(s, item, Some(m), now, rs);
      && Inv(t) && c <= |m|
      && (c > 0 ==> t.begun == s.begun + Queue(s, now, rs) + [m] && t.buffer == m[c..])
      && (c <= 0 ==> t.begun == s.begun + Queue(s, now, rs))
      && (item.Some? ==> WroteFor(s, item.v, m, now, t, c))
  {
    hide Inv, Write, Drained, Replies, CodeOf, Handled, FirstShort, Unused, StillUnfinished;
    WriteInv(s, item, Some(m), now, rs);
    WriteOutcome(s, item, Some(m), now, rs);
    var (t, c) := Write(s, item, Some(m), now, rs);
    assert s.begun + [] == s.begun;
    if s.mode != Direct && First(rs) < |s.buffer| {
      StillUnfinishedMeans(s, First(rs), t, c);
    } else if s.mode != Direct {
      var v :| AfterDrain(s, item, Some(m), now, rs, v, t, c);
      DrainedMeans(s, item, now, rs, v);
      CodeOfNone(Stop(s, now, rs));
    }
  }

  lemma StillUnfinishedMeans(s: Dedup, a: int, t: Dedup, c: int)
    requires a < |s.buffer| && StillUnfinished(s, a, t, c)
    ensures c <= 0 && t.begun == s.begun && t.entries == s.entries
  {
  }

  lemma CodeOfNone(short: Option<int>)
    ensures CodeOf(short) <= 0
  {
  }

  lemma {:induction false} DrainedMeans(s: Dedup, item: Option<nat>, now: int, rs: seq<int>, v: Dedup)
    requires Inv(s) && s.mode != Direct && First(rs) >= |s.buffer|
    requires Drained(s, now, rs, v)
    requires item.Some? ==> Idle(s, item.v) && s.entries[item.v].state in {Active, Replied}
    ensures v.begun == s.begun + Queue(s, now, rs) && v.lifetime == s.lifetime && |v.entries| == |s.entries|
    ensures item.Some? ==> v.entries[item.v] == s.entries[item.v]
  {
    if item.Some? {
      PartialSlot(s, item.v);
    }
  }

  // ---- cancelling, expiring, receiving --------------------------------------------------------

  lemma {:induction false} RemoveOrder(l: seq<nat>, k: nat)
    requires Distinct(l) && k < |l|
    ensures Remove(l, l[k]) == l[..k] + l[k + 1..]
  {
    if k > 0 {
      assert l == [l[0]] + l[1..];
      DistinctCons(l[0], l[1..]);
      assert l[k] == l[1..][k - 1] && l[k] != l[0];
      RemoveOrder(l[1..], k - 1);
    }
  }

  /** Releasing an entry calls the application once, with the reason.  The entry is free and the
      next to be used, unless a part of its reply is on the wire: then it keeps its slot until the
      rest is.  Queued replies keep their order and nothing is written. */
  lemma {:induction false} ReleaseOutcome(s: Dedup, i: nat, reason: Reason)
    requires Inv(s) && Held(s, i)
    ensures var t := Release(s, i, reason); var e := s.entries[i];
      && OnlyEntry(s, t, i, e.(state := if e.state == Partial then Cancelled else Free)) && SameStream(s, t)
      && t.log == s.log + [Released(i, reason)] + (if e.state == Partial then [] else [Freed(i)])
      && t.free == (if e.state == Partial then s.free else [i] + s.free) && t.partial == s.partial
      && (e.state != Pending ==> t.pending == s.pending)
      && forall k :: 0 <= k < |s.pending| && s.pending[k] == i ==> t.pending == s.pending[..k] + s.pending[k + 1..]
  {
    hide Sorted, Tenured, Flatten;
    ReleaseElsewhere(s, i, reason);
    PartialSlot(s, i);
    assert Home(s, i);
    forall k | 0 <= k < |s.pending| && s.pending[k] == i
      ensures Remove(s.pending, i) == s.pending[..k] + s.pending[k + 1..]
    {
      assert s.pending[k] in s.pending;
      RemoveOrder(s.pending, k);
    }
  }

  /** fr_bio_dedup_entry_cancel(): the application is told that the entry was cancelled. */
  lemma {:induction false} CancelOutcome(s: Dedup, i: nat)
    requires Inv(s) && Held(s, i)
    ensures var t := Step(s, Cancel(i)); var partly := s.entries[i].state == Partial;
      && t.log == s.log + [Released(i, Withdrawn)] + (if partly then [] else [Freed(i)])
      && t.entries[i].state == (if partly then Cancelled else Free) && SameStream(s, t)
  {
    hide Inv, Release;
    ReleaseOutcome(s, i, Withdrawn);
  }

  function ExpiryNotes(l: seq<nat>): seq<Note> {
    if l == [] then [] else [Released(l[0], Expired), Freed(l[0])] + ExpiryNotes(l[1..])
  }

  /** The timer releases the first d entries of the tree, in order, each with one call; they are
      due within 10 ms and the ones after them are not. */
  ghost predicate Expires(s: Dedup, limit: int, d: nat, t: Dedup) {
    && d <= |s.tree| && t.tree == s.tree[d..]
    && t.log == s.log + ExpiryNotes(s.tree[..d])
    && SameStream(s, t) && t.pending == s.pending && t.partial == s.partial
    && (forall k :: 0 <= k < |s.tree| && s.tree[k] < |s.entries| ==>
          (k < d <==> s.entries[s.tree[k]].expires <= limit))
  }

  ghost predicate ExpiresDue(s: Dedup, limit: int, t: Dedup) { exists d: nat :: Expires(s, limit, d, t) }

  lemma {:induction false} ExpireOutcome(s: Dedup, limit: int)
    requires Inv(s)
    ensures ExpiresDue(s, limit, Expire(s, limit))
    decreases |s.tree|
  {
    hide Placed, Sorted, Tenured, Streamed, Release, Expires;
    if s.tree == [] {
      ExpiresNone(s, limit);
      assert Expires(s, limit, 0, Expire(s, limit));
    } else {
      HeadReplied(s);
      var i := s.tree[0];
      if s.entries[i].expires > limit {
        ExpiresNone(s, limit);
        assert Expires(s, limit, 0, Expire(s, limit));
      } else {
        ReleasePlaced(s, i, Expired);
        LeavesTree(s, i, Expired);
        ReleaseInv(s, i, Expired);
        var u := Release(s, i, Expired);
        ExpireOutcome(u, limit);
        var d: nat :| Expires(u, limit, d, Expire(u, limit));
        ExpiresOne(s, limit, d, Expire(u, limit));
      }
    }
  }

  lemma {:induction false} ExpiresNone(s: Dedup, limit: int)
    requires Pool(s) && (s.tree == [] || s.entries[s.tree[0]].expires > limit)
    ensures Expires(s, limit, 0, s)
  {
    NothingDue(s, limit);
    assert s.log + [] == s.log;
    forall k | 0 <= k < |s.tree|
      ensures s.tree[k] < |s.entries| && s.entries[s.tree[k]].expires > limit
    {
      assert s.tree[k] in s.tree;
      assert Home(s, s.tree[k]);
    }
  }

  lemma {:induction false} ExpiresOne(s: Dedup, limit: int, d: nat, t: Dedup)
    requires Inv(s) && s.tree != [] && Held(s, s.tree[0]) && s.entries[s.tree[0]].state == Replied
    requires s.entries[s.tree[0]].expires <= limit
    requires Expires(Release(s, s.tree[0], Expired), limit, d, t)
    ensures Expires(s, limit, d + 1, t)
  {
    hide Sorted, Tenured, Flatten, Release, Distinct;
    var i := s.tree[0];
    var u := Release(s, i, Expired);
    ReleaseOutcome(s, i, Expired);
    TreeHeadLeaves(s);
    assert s.tree[d + 1..] == u.tree[d..] && s.tree[..d + 1][1..] == u.tree[..d];
    var notes, rest := [Released(i, Expired), Freed(i)], ExpiryNotes(u.tree[..d]);
    assert s.log + [Released(i, Expired)] + [Freed(i)] + rest == s.log + (notes + rest);
    forall k | 0 <= k < |s.tree| && s.tree[k] < |s.entries|
      ensures k < d + 1 <==> s.entries[s.tree[k]].expires <= limit
    {
      if k > 0 {
        assert s.tree[k] == u.tree[k - 1];
        assert u.entries[s.tree[k]].expires == s.entries[s.tree[k]].expires;
      }
    }
  }

  lemma TreeHeadLeaves(s: Dedup)
    requires s.tree != [] && s.tree[0] < |s.entries| && s.entries[s.tree[0]].state == Replied
    ensures Release(s, s.tree[0], Expired).tree == s.tree[1..]
  {
  }

  /** fr_bio_dedup_timer(): everything due within the next 10 ms, and nothing else. */
  lemma {:induction false} TimerOutcome(s: Dedup, now: int)
    requires Inv(s)
    ensures ExpiresDue(s, now + 10000, Step(s, Timer(now)))
  {
    hide Inv, Expire, ExpiresDue;
    ExpireOutcome(s, now + 10000);
  }

  /** A packet that is received takes the first free entry, clean.  If the application wants it
      the entry goes to the end of the active list; if not, all is as before. */
  lemma {:induction false} ReceiveOutcome(s: Dedup)
    requires Inv(s) && s.free != [] && s.incoming == None
    ensures var i := s.free[0]; var a := Step(s, Arrival);
      && Inv(a) && i < |s.entries| && a.incoming == Some(i)
      && Step(a, Decision(true)) ==
           s.(free := s.free[1..], active := s.active + [i], entries := s.entries[i := Entry(Active, [], 0)],
              log := s.log + [Accepted(i)])
      && Step(a, Decision(false)) == s.(entries := s.entries[i := Entry(Free, [], 0)])
  {
    hide Inv;
    ArriveInv(s);
    assert [s.free[0]] + s.free[1..] == s.free;
  }
}
