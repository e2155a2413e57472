/** The lines of the dedup bio that do not do what its header comment, its state names and its
    own assertions say, taken as they are written with assertions off, and exactly when the
    pool law survives them. */
module DedupAsWritten {
  import opened Wrappers
  import opened Octets
  import opened DedupMachine
  import opened DedupRuns
  import opened DedupFlush

  // ---- the expiry tree ---------------------------------------------------------------------

  predicate Tied(s: Dedup, expires: int) {
    exists j :: j in s.tree && j < |s.entries| && s.entries[j].expires == expires
  }

  /** fr_rb_insert() into the expiry tree: it compares expiry times only, so an entry with the time
      of another one is not inserted, and nobody looks.  The entry is put in the state `e`. */
  function InsertAsWritten(s: Dedup, i: nat, e: Entry): (r: Dedup)
    requires i < |s.entries|
    ensures |r.entries| == |s.entries|
  {
    var t := s.(entries := s.entries[i := e]);
    if Tied(s, e.expires) then t else t.(tree := Insert(t.tree, t.entries, i))
  }

  /** fr_bio_dedup_replied(). */
  function MarkRepliedAsWritten(s: Dedup, i: nat, now: int): (r: Dedup)
    requires i < |s.entries|
    ensures |r.entries| == |s.entries|
  {
    if s.entries[i].state == Replied then s
    else InsertAsWritten(Lift(s, i), i, s.entries[i].(state := Replied, expires := now + s.lifetime))
  }

  /** Where the insertion is refused the entry is nowhere. */
  lemma {:induction false} InsertAsWrittenIff(s: Dedup, i: nat, e: Entry)
    requires Lifted(s, i) && e.state == Replied
    ensures Placed(InsertAsWritten(s, i, e)) <==> !Tied(s, e.expires)
    ensures !Tied(s, e.expires) ==> InsertAsWritten(s, i, e) == Place(s, i, e)
    ensures Tied(s, e.expires) ==> !Home(InsertAsWritten(s, i, e), i)
  {
    if Tied(s, e.expires) {
      assert !Home(InsertAsWritten(s, i, e), i);
    } else {
      PlacePlaces(s, i, e);
    }
  }

  /** A sent reply is kept for duplicates exactly if no other one expires at the same time. */
  lemma {:induction false} MarkRepliedAsWrittenIff(s: Dedup, i: nat, now: int)
    requires Placed(s) && Idle(s, i) && s.entries[i].state != Replied
    ensures Placed(MarkRepliedAsWritten(s, i, now)) <==> !Tied(s, now + s.lifetime)
    ensures !Tied(s, now + s.lifetime) ==> MarkRepliedAsWritten(s, i, now) == MarkReplied(s, i, now)
    ensures Tied(s, now + s.lifetime) ==> !Home(MarkRepliedAsWritten(s, i, now), i)
  {
    hide Lift, InsertAsWritten, Place;
    LiftLifts(s, i);
    LiftElsewhere(s, i);
    LiftKeepsTree(s, i);
    InsertAsWrittenIff(Lift(s, i), i, s.entries[i].(state := Replied, expires := now + s.lifetime));
  }

  lemma LiftKeepsTree(s: Dedup, i: nat)
    requires i < |s.entries| && s.entries[i].state != Replied
    ensures Lift(s, i).tree == s.tree
  {
  }

  // ---- releasing ---------------------------------------------------------------------------

  /** Line 403: a pending entry is unlinked through the head of the active list, which does nothing
      if that list is empty. */
  function LiftAsWritten(s: Dedup, i: nat): (r: Dedup)
    requires i < |s.entries|
    ensures |r.entries| == |s.entries|
  {
    if s.entries[i].state == Pending && s.active == [] then s else Lift(s, i)
  }

  /** fr_bio_dedup_release() with line 403 as it is, and otherwise as documented. */
  function UnlinkAsWritten(s: Dedup, i: nat, reason: Reason): Dedup
    requires i < |s.entries|
  {
    var t := s.(log := s.log + [Released(i, reason)]);
    if s.entries[i].state == Partial then MoveTo(t, i, Cancelled)
    else Place(LiftAsWritten(t.(log := t.log + [Freed(i)]), i), i, s.entries[i].(state := Free))
  }

  /** fr_bio_dedup_release(): in addition, the state is not set to FREE. */
  function ReleaseAsWritten(s: Dedup, i: nat, reason: Reason): (r: Dedup)
    requires i < |s.entries|
    ensures |r.entries| == |s.entries|
  {
    var t := s.(log := s.log + [Released(i, reason)]);
    if s.entries[i].state == Partial then t.(entries := t.entries[i := t.entries[i].(state := Cancelled)])
    else var u := LiftAsWritten(t, i); u.(free := [i] + u.free, log := u.log + [Freed(i)])
  }

  /** Line 403 by itself: a release keeps the pool law exactly unless the entry is pending and no
      entry is active; it is then in the pending list and in the free list. */
  lemma {:induction false} UnlinkAsWrittenIff(s: Dedup, i: nat, reason: Reason)
    requires Placed(s) && Held(s, i)
    ensures var t := UnlinkAsWritten(s, i, reason);
      && (Placed(t) <==> !(s.entries[i].state == Pending && s.active == []))
      && (Placed(t) ==> t == Release(s, i, reason))
      && (!Placed(t) ==> i in t.pending && i in t.free)
  {
    hide Place, Move;
    ReleasePlaced(s, i, reason);
    assert Home(s, i);
    if s.entries[i].state == Pending && s.active == [] {
      FreedStillListed(s.(log := s.log + [Released(i, reason)] + [Freed(i)]), i, s.entries[i].(state := Free));
    } else {
      MoveIsPlace(s.(log := s.log + [Released(i, reason)] + [Freed(i)]), i, s.entries[i].(state := Free));
    }
  }

  lemma MoveIsPlace(s: Dedup, i: nat, e: Entry)
    requires i < |s.entries|
    ensures Move(s, i, e) == Place(Lift(s, i), i, e)
  {
  }

  lemma FreedStillListed(s: Dedup, i: nat, e: Entry)
    requires i < |s.entries| && i in s.pending && e.state == Free
    ensures var t := Place(s, i, e); i in t.pending && i in t.free && !Placed(t)
  {
    assert !Home(Place(s, i, e), i);
  }

  /** With the missing FREE a release keeps the pool law only for a partly written entry. */
  lemma {:induction false} ReleaseAsWrittenIff(s: Dedup, i: nat, reason: Reason)
    requires Placed(s) && Held(s, i)
    ensures var t := ReleaseAsWritten(s, i, reason);
      && (Placed(t) <==> s.entries[i].state == Partial)
      && (s.entries[i].state == Partial ==> t == Release(s, i, reason))
      && (s.entries[i].state != Partial ==> !Home(t, i))
  {
    assert Home(s, i);
    ReleasePlaced(s, i, reason);
    var t := ReleaseAsWritten(s, i, reason);
    if s.entries[i].state == Partial {
      assert t == Release(s, i, reason);
    } else {
      assert i in t.free && t.entries[i].state != Free;
      assert !Home(t, i);
    }
  }

  // ---- replying ----------------------------------------------------------------------------

  /** fr_bio_dedup_blocked(): the entry is put into the partial slot, but marked PENDING. */
  function BlockedAsWritten(s: Dedup, i: nat, k: int): (r: Dedup)
    requires i < |s.entries| && 0 < k < |s.entries[i].reply|
    ensures |r.entries| == |s.entries|
  {
    var t := Lift(Begin(s, s.entries[i].reply, k), i);
    t.(entries := t.entries[i := t.entries[i].(state := Pending)], partial := Some(i), mode := FinishPartial)
  }

  /** The end of fr_bio_dedup_respond(). */
  function SendReplyAsWritten(s: Dedup, i: nat, now: int, answer: int): (r: Dedup)
    requires i < |s.entries| && s.entries[i].reply != []
    ensures |r.entries| == |s.entries|
  {
    var m := s.entries[i].reply;
    var k := Accept(answer, |m|);
    if k == |m| then MarkRepliedAsWritten(Begin(s, m, k), i, now)
    else if k == 0 || k == WOULD_BLOCK then MoveTo(s, i, Pending)
    else if k < 0 then ReleaseAsWritten(s, i, WriteError)
    else BlockedAsWritten(s, i, k)
  }

  lemma {:induction false} BlockedAsWrittenBreaks(s: Dedup, i: nat, k: int)
    requires i < |s.entries| && 0 < k < |s.entries[i].reply|
    ensures !Home(BlockedAsWritten(s, i, k), i)
  {
  }

  /** The condition under which a reply is sent as documented. */
  predicate CleanSend(s: Dedup, i: nat, now: int, answer: int)
    requires i < |s.entries|
  {
    var m := s.entries[i].reply;
    var k := Accept(answer, |m|);
    k in {0, WOULD_BLOCK} || (k == |m| && (s.entries[i].state == Replied || !Tied(s, now + s.lifetime)))
  }

  lemma MarkAfterBegin(s: Dedup, i: nat, m: Str, now: int)
    requires Inv(s) && Held(s, i) && s.mode == Direct && m != []
    ensures var t := Begin(s, m, |m|);
      if s.entries[i].state == Replied || !Tied(s, now + s.lifetime)
      then MarkRepliedAsWritten(t, i, now) == MarkReplied(t, i, now)
      else !Home(MarkRepliedAsWritten(t, i, now), i)
  {
    hide MarkRepliedAsWritten, Home, Lift, Place;
    var t := Begin(s, m, |m|);
    PlacedAnyStream(s, t);
    if s.entries[i].state == Replied {
      MarkRepliedTwice(t, i, now);
    } else {
      MarkRepliedAsWrittenIff(t, i, now);
    }
  }

  lemma MarkRepliedTwice(s: Dedup, i: nat, now: int)
    requires i < |s.entries| && s.entries[i].state == Replied
    ensures MarkRepliedAsWritten(s, i, now) == s
  {
  }

  /** A reply sent as written is sent as documented, and keeps every entry where its state says,
      exactly when the next bio takes nothing of it without an error, or all of it and no other reply
      expires at the same time. */
  lemma {:induction false} SendReplyAsWrittenIff(s: Dedup, i: nat, now: int, answer: int)
    requires Inv(s) && Held(s, i) && s.entries[i].reply != [] && s.mode == Direct
    ensures var t := SendReplyAsWritten(s, i, now, answer);
      && (Placed(t) <==> CleanSend(s, i, now, answer))
      && (Placed(t) ==> t == SendReply(s, i, now, answer).0)
  {
    hide Placed, MarkReplied, MarkRepliedAsWritten, Move, Release, ReleaseAsWritten, BlockedAsWritten, Home;
    SendReplyInv(s, i, now, answer);
    NotPartial(s, i);
    var m := s.entries[i].reply;
    var k := Accept(answer, |m|);
    var t := SendReplyAsWritten(s, i, now, answer);
    if k == |m| {
      MarkAfterBegin(s, i, m, now);
    } else if WOULD_BLOCK > k {
      ReleaseAsWrittenIff(s, i, WriteError);
    } else if k > 0 {
      BlockedAsWrittenBreaks(s, i, k);
    }
    if !CleanSend(s, i, now, answer) {
      NotHomeNotPlaced(t, i);
    }
  }

  lemma NotHomeNotPlaced(s: Dedup, i: nat)
    requires i < |s.entries| && !Home(s, i)
    ensures !Placed(s)
  {
  }

  // ---- flushing -----------------------------------------------------------------------------

  /** One round of fr_bio_dedup_flush_pending(): the head is taken off the list before it is
      known what the next bio says, and stays off it. */
  function FlushHeadAsWritten(s: Dedup, now: int, answer: int): (r: Dedup)
    requires s.pending != [] && s.pending[0] < |s.entries|
    ensures |r.entries| == |s.entries| && r.pending == s.pending[1..]
  {
    var i, t := s.pending[0], s.(pending := s.pending[1..]);
    var e := s.entries[i];
    if e.expires <= now then
      t.(free := [i] + t.free, log := t.log + [Released(i, Expired), Freed(i)])
    else
      var k := Accept(answer, |e.reply|);
      if k <= 0 then t
      else if k == |e.reply| then InsertAsWritten(Begin(t, e.reply, k), i, e.(state := Replied))
      else Begin(t, e.reply, k).(partial := Some(i), mode := FinishPartial)
  }

  predicate CleanHead(s: Dedup, now: int, answer: int)
    requires s.pending != [] && s.pending[0] < |s.entries|
  {
    var e := s.entries[s.pending[0]];
    e.expires > now && answer >= |e.reply| && !Tied(s, e.expires)
  }

  /** A round of the flush as written is one as documented exactly when the head has not expired, the
      next bio takes all of its reply, and no other reply expires at the same time; otherwise the
      head is lost, or listed under a state that is not its own. */
  lemma {:induction false} FlushHeadAsWrittenIff(s: Dedup, now: int, answer: int)
    requires Inv(s) && s.pending != [] && s.mode == Direct
    ensures s.pending[0] < |s.entries| && s.entries[s.pending[0]].reply != []
    ensures var i := s.pending[0]; var t, m := FlushHeadAsWritten(s, now, answer), s.entries[i].reply;
      && (Placed(t) <==> CleanHead(s, now, answer))
      && (Placed(t) ==> t == MoveTo(Begin(s, m, |m|), i, Replied))
      && (!Placed(t) ==> !Home(t, i))
  {
    HeadPending(s);
    var i := s.pending[0];
    var e := s.entries[i];
    var t := FlushHeadAsWritten(s, now, answer);
    assert s.pending == [i] + s.pending[1..];
    DistinctCons(i, s.pending[1..]);
    if e.expires > now && answer >= |e.reply| {
      var u := Begin(s, e.reply, |e.reply|);
      PlacedAnyStream(s, u);
      LiftLifts(u, i);
      assert Lift(u, i) == Begin(s.(pending := s.pending[1..]), e.reply, |e.reply|);
      InsertAsWrittenIff(Lift(u, i), i, e.(state := Replied));
      assert Tied(Lift(u, i), e.expires) <==> Tied(s, e.expires);
    } else {
      assert t.entries[i].state == Pending && i !in t.pending;
      assert !Home(t, i);
    }
  }

  /** The end of fr_bio_dedup_write_partial(): a PENDING entry is taken for a cancelled one. */
  function SettleAsWritten(s: Dedup, i: nat): Dedup
    requires i < |s.entries| && s.entries[i].state == Pending
  {
    s.(partial := None, entries := s.entries[i := s.entries[i].(state := Free)], free := [i] + s.free,
       log := s.log + [Freed(i)])
  }

  // ---- a partly written reply -----------------------------------------------------------

  lemma {:induction false} RemoveAbsent(l: seq<nat>, i: nat)
    requires i !in l
    ensures Remove(l, i) == l
  {
    if l != [] {
      RemoveAbsent(l[1..], i);
      assert l == [l[0]] + l[1..];
    }
  }

  /** The entry is in no list, and marked as if it were in the pending list. */
  lemma {:induction false} BlockedAsWrittenState(s: Dedup, i: nat, k: int)
    requires Inv(s) && Held(s, i) && s.mode == Direct && 0 < k < |s.entries[i].reply|
    ensures var t := BlockedAsWritten(s, i, k);
      && t.entries[i].state == Pending && i !in t.pending && t.free == s.free && t.log == s.log
      && t.buffer == s.entries[i].reply[k..] && t.partial == Some(i) && |t.entries| == |s.entries|
  {
    NotPartial(s, i);
    LiftLifts(s, i);
    LiftElsewhere(s, i);
  }

  /** A reply of which the next bio takes only k octets, followed by the write that takes the rest:
      the entry is back in the free list and was never released. */
  lemma {:induction false} NeverReleasedAsWritten(s: Dedup, i: nat, now: int, k: int, answer: int)
    requires Inv(s) && Held(s, i) && s.mode == Direct && 0 < k < |s.entries[i].reply|
    requires answer >= |s.entries[i].reply| - k
    ensures var (u, c) := BufferWrite(SendReplyAsWritten(s, i, now, k), answer);
      && c > 0 && i < |u.entries| && u.entries[i].state == Pending
      && var w := SettleAsWritten(u, i);
         && w.log == s.log + [Freed(i)] && w.free == [i] + s.free
         && TenureOf(s.log, i) == Leased && TenureOf(w.log, i) == Broken
  {
    hide BlockedAsWritten, TenureOf;
    assert SendReplyAsWritten(s, i, now, k) == BlockedAsWritten(s, i, k);
    BlockedAsWrittenState(s, i, k);
    TenureAt(s, i);
    TenureAppend(s.log, Freed(i), i);
  }

  /** The same with a cancel in between: the entry is put into the free list by the cancel and
      once more when the rest is out. */
  lemma {:induction false} FreedTwiceAsWritten(s: Dedup, i: nat, now: int, k: int, answer: int)
    requires Inv(s) && Held(s, i) && s.mode == Direct && 0 < k < |s.entries[i].reply|
    requires answer >= |s.entries[i].reply| - k
    ensures var (u, c) := BufferWrite(ReleaseAsWritten(SendReplyAsWritten(s, i, now, k), i, Withdrawn), answer);
      && c > 0 && i < |u.entries| && u.entries[i].state == Pending
      && var w := SettleAsWritten(u, i);
         && w.log == s.log + [Released(i, Withdrawn), Freed(i), Freed(i)] && w.free == [i, i] + s.free
         && TenureOf(w.log, i) == Broken && !Distinct(w.free)
  {
    hide BlockedAsWritten, TenureOf, Distinct;
    BlockedAsWrittenState(s, i, k);
    var t := BlockedAsWritten(s, i, k);
    assert SendReplyAsWritten(s, i, now, k) == t;
    RemoveAbsent(t.pending, i);
    var a, b := Released(i, Withdrawn), Freed(i);
    TenureAppend(s.log, a, i);
    TenureAppend(s.log + [a], b, i);
    TenureAppend(s.log + [a] + [b], b, i);
    TenureAt(s, i);
    assert s.log + [a] + [b] + [b] == s.log + [a, b, b];
    assert [i] + ([i] + s.free) == [i, i] + s.free;
    DistinctCons(i, [i] + s.free);
  }

  // ---- replies without an expiry time ---------------------------------------------------

  /** A first reply of which the next bio takes nothing is queued without an expiry time, although
      nothing is partly written (which the assertion at line 273 of src/lib/bio/dedup.c denies for
      pending entries).  The next flush sends what it would send without it: when the turn of the
      reply comes it is dropped as expired. */
  lemma {:induction false} FirstReplyNeverSent(s: Dedup, i: nat, now: int, answer: int, later: int, rs: seq<int>)
    requires Inv(s) && Idle(s, i) && s.mode == Direct
    requires s.entries[i].state == Active && s.entries[i].reply != []
    requires answer in {0, WOULD_BLOCK} && later >= 0
    ensures var t := Respond(s, i, now, answer).0;
      && Inv(t) && t.mode == Direct && t.partial == None && t.pending == s.pending + [i]
      && t.entries == s.entries[i := s.entries[i].(state := Pending)]
      && var u, n := FlushPending(t, later, rs).0, Handled(t.pending, t.entries, later, rs);
         && u.begun == s.begun + Replies(if n <= |s.pending| then s.pending[..n] else s.pending, s.entries, later)
         && u.entries[i].state == if n <= |s.pending| then Pending else Free
  {
    hide FlushPending, Placed, Sorted, Tenured, Streamed;
    QueuedFirst(s, i, now, answer);
    var t := Respond(s, i, now, answer).0;
    FlushOrder(t, later, rs);
    var n, k := Handled(t.pending, t.entries, later, rs), |s.pending|;
    assert t.pending[k] == i;
    assert Replies([], t.entries, later) == [] && [i][1..] == [];
    assert Replies([i], t.entries, later) == [];
    RepliesConcat(s.pending, [i], t.entries, later);
    assert Replies(s.pending, t.entries, later) + [] == Replies(s.pending, t.entries, later);
    assert n <= k ==> t.pending[..n] == s.pending[..n];
    assert n > k ==> t.pending[..n] == s.pending + [i];
    ListedOnly(if n <= k then s.pending[..n] else s.pending, s.entries, t.entries, later, rs);
  }

  lemma {:induction false} QueuedFirst(s: Dedup, i: nat, now: int, answer: int)
    requires Inv(s) && Idle(s, i) && s.mode == Direct
    requires s.entries[i].state == Active && s.entries[i].reply != [] && answer in {0, WOULD_BLOCK}
    ensures var t := Respond(s, i, now, answer).0;
      && Inv(t) && t.mode == Direct && t.partial == None && t.pending == s.pending + [i] && t.begun == s.begun
      && t.entries == s.entries[i := s.entries[i].(state := Pending)] && t.entries[i].expires == 0
      && i !in s.pending
  {
    assert Home(s, i);
    RespondInv(s, i, now, answer);
    MoveElsewhere(s, i, s.entries[i].(state := Pending));
  }

  /** What line 273 of src/lib/bio/dedup.c asserts of a pending entry, that an entry is partly written,
      is so exactly while the write function is the one that finishes it.  It is not when a reply was
      queued because nothing of it was taken, or behind unfinished raw data. */
  lemma {:induction false} PendingBehindPartialIff(s: Dedup, i: nat, now: int, answer: int)
    requires Inv(s) && Held(s, i) && s.entries[i].reply != []
    ensures var t := Respond(s, i, now, answer).0;
      && (t.entries[i].state == Pending ==> (t.partial.Some? <==> s.mode == FinishPartial))
      && (s.entries[i].state in {Active, Replied} && s.mode != Direct ==> t.entries[i].state == Pending)
      && (s.entries[i].state in {Active, Replied} && s.mode == Direct && answer in {0, WOULD_BLOCK} ==>
            t.entries[i].state == Pending)
  {
    hide Placed, Sorted, Tenured, Flatten, Lift, Place;
    RespondInv(s, i, now, answer);
    var e := s.entries[i];
    MoveElsewhere(s, i, e.(state := Pending));
    MoveElsewhere(s, i, e.(state := Pending, expires := now + s.lifetime));
    if s.mode == Direct && e.state in {Active, Replied} {
      SendReplyStates(s, i, now, answer);
    }
  }

  lemma {:induction false} SendReplyStates(s: Dedup, i: nat, now: int, answer: int)
    requires Inv(s) && Held(s, i) && s.entries[i].reply != [] && s.mode == Direct
    requires s.entries[i].state in {Active, Replied}
    ensures var t := SendReply(s, i, now, answer).0;
      t.entries[i].state == Pending ==> t.mode == Direct
  {
    hide Placed, Sorted, Tenured, Flatten, Move;
    var m := s.entries[i].reply;
    var k := Accept(answer, |m|);
    NotPartial(s, i);
    var e := s.entries[i];
    MoveElsewhere(s, i, e.(state := Pending));
    ReleaseElsewhere(s, i, WriteError);
    if k > 0 {
      MoveElsewhere(Begin(s, m, k), i, e.(state := Replied, expires := now + s.lifetime));
      MoveElsewhere(Begin(s, m, k), i, e.(state := Partial));
    }
  }

  /** A first reply that is partly written has no expiry time either, whether it was sent by
      fr_bio_dedup_respond() or by fr_bio_dedup_write(): as soon as the rest is out its entry is
      released. */
  lemma {:induction false} FirstReplyReleasedAtOnce(s: Dedup, i: nat, now: int, k: int, answer: int, later: int)
    requires Inv(s) && Idle(s, i) && s.mode == Direct && s.entries[i].state == Active
    requires 0 < k < |s.entries[i].reply| && answer >= |s.entries[i].reply| - k && later >= 0
    ensures DirectWrite(s, Some(i), Some(s.entries[i].reply), now, k).0 == Respond(s, i, now, k).0
    ensures var (t, c) := BufferWrite(Respond(s, i, now, k).0, answer);
      && c > 0 && Finished(t)
      && var u := Unblock(t, later);
         u.log == s.log + [Released(i, Expired), Freed(i)] && i < |u.entries| && u.entries[i].state == Free
  {
    hide Move, Sorted, Tenured, Flatten;
    assert Home(s, i);
    var b := Blocked(s, i, k);
    assert Respond(s, i, now, k).0 == b;
    BlockedInv(s, i, k);
    MoveElsewhere(Begin(s, s.entries[i].reply, k), i, s.entries[i].(state := Partial));
    MoveToSlot(Begin(s, s.entries[i].reply, k), i);
    BufferWriteInv(b, answer);
    var t := BufferWrite(b, answer).0;
    MoveElsewhere(t.(log := t.log + [Released(i, Expired), Freed(i)]), i, t.entries[i].(state := Free));
  }

  // ---- the write function is not reset ---------------------------------------------------

  /** fr_bio_dedup_write_partial() and fr_bio_dedup_write_data() from the point where the message
      in the buffer is out: the write function is reset only after a flush that did not fail. */
  function UnblockAsWritten(s: Dedup, now: int, rs: seq<int>): Dedup
    requires Finished(s)
  {
    UnblockInv(s, now);
    var (t, c, _) := FlushPending(Unblock(s, now), now, rs);
    if c < 0 && t.mode == Direct then t.(mode := s.mode) else t
  }

  /** As written the bio ends up with the right write function exactly if no error is the answer
      to the first unexpired pending reply that is not taken whole.  Otherwise it keeps the function
      that insists on an unfinished message, and there is none. */
  lemma {:induction false} UnblockAsWrittenIff(s: Dedup, now: int, rs: seq<int>)
    requires Finished(s)
    ensures var t, short := UnblockAsWritten(s, now, rs), FirstShort(s.pending, s.entries, now, rs);
      && (Streamed(t) <==> short.None? || short.v >= 0)
      && (!Streamed(t) ==> t.mode == s.mode != Direct && t.buffer == [] && t.partial == None)
  {
    hide Placed, Sorted, Tenured, Flatten, FlushPending, Settle;
    UnblockInv(s, now);
    var u := Unblock(s, now);
    FlushInv(u, now, rs);
    FlushOrder(u, now, rs);
    UnblockPending(s, now);
    ListedOnly(s.pending, s.entries, u.entries, now, rs);
  }

  lemma {:induction false} UnblockPending(s: Dedup, now: int)
    requires Finished(s)
    ensures s.mode == FinishPartial ==> s.partial.v < |s.entries|
    ensures var t := Unblock(s, now);
      && t.pending == s.pending && |t.entries| == |s.entries|
      && forall i :: i in s.pending && i < |s.entries| ==> t.entries[i] == s.entries[i]
  {
    hide Sorted, Tenured, Flatten;
    UnblockInv(s, now);
    if s.mode == FinishPartial {
      PartialSlot(s, s.partial.v);
      assert Home(s, s.partial.v);
    }
  }

  // ---- settling ------------------------------------------------------

  /** The middle of fr_bio_dedup_write_partial() for an entry that is marked as the documentation
      says: the slot is cleared first, so a release only marks the entry as cancelled; an entry that
      goes into the tree is marked ACTIVE. */
  function SettleMarkedAsWritten(s: Dedup, i: nat, now: int): (r: Dedup)
    requires i < |s.entries| && s.entries[i].state in {Partial, Cancelled}
    ensures |r.entries| == |s.entries|
  {
    var e, t := s.entries[i], s.(partial := None);
    if e.state == Cancelled then Place(t.(log := t.log + [Freed(i)]), i, e.(state := Free))
    else if e.expires <= now then
      t.(log := t.log + [Released(i, Expired)], entries := t.entries[i := e.(state := Cancelled)])
    else InsertAsWritten(t, i, e.(state := Active))
  }

  /** It keeps the pool law exactly if the entry was cancelled meanwhile. */
  lemma {:induction false} SettleMarkedAsWrittenIff(s: Dedup, i: nat, now: int)
    requires Placed(s) && s.partial == Some(i)
    ensures i < |s.entries| && s.entries[i].state in {Partial, Cancelled}
    ensures var t := SettleMarkedAsWritten(s, i, now);
      && (Placed(t) <==> s.entries[i].state == Cancelled)
      && (Placed(t) ==> t == Settle(s, i, now))
      && (!Placed(t) ==> !Home(t, i))
  {
    PartialSlot(s, i);
    NotIncoming(s, i);
    assert Home(s, i);
    var t, e := SettleMarkedAsWritten(s, i, now), s.entries[i];
    if e.state == Cancelled {
      var u := s.(log := s.log + [Freed(i)]);
      PlacedAnyStream(s, u);
      MovePlaced(u, i, e.(state := Free));
      assert t == MoveTo(u, i, Free);
    } else {
      assert i !in t.active;
      assert !Home(t, i);
    }
  }
}
