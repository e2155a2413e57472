/** What every run of the dedup bio keeps: the pool partition, the order of the expiry tree,
    one release per accepted entry, and the integrity of the octet stream. */
module DedupRuns {
  import opened Wrappers
  import opened Octets
  import opened DedupMachine

  // ---- one release per accepted entry ---------------------------------------------------

  /** Where an entry stands with the application: not handed out, handed out, released but
      not yet free; or the callbacks came in an impossible order. */
  datatype Tenure = Vacant | Leased | Returned | Broken

  function After(was: Tenure, n: Note): Tenure {
    match n
    case Accepted(_) => if was == Vacant then Leased else Broken
    case Released(_, _) => if was == Leased then Returned else Broken
    case Freed(_) => if was == Returned then Vacant else Broken
  }

  function TenureOf(log: seq<Note>, i: nat): Tenure {
    if log == [] then Vacant
    else
      var was, n := TenureOf(log[..|log| - 1], i), log[|log| - 1];
      if n.i == i then After(was, n) else was
  }

  lemma TenureAppend(log: seq<Note>, n: Note, i: nat)
    ensures TenureOf(log + [n], i) == if n.i == i then After(TenureOf(log, i), n) else TenureOf(log, i)
  {
    assert (log + [n])[..|log|] == log;
  }

  function TenureIn(st: State): Tenure {
    match st
    case Free => Vacant
    case Cancelled => Returned
    case _ => Leased
  }

  /** The log agrees with the states: in particular it is never broken, so each entry that
      was accepted is released exactly once before it is free again. */
  ghost predicate Tenured(s: Dedup) {
    forall i :: 0 <= i < |s.entries| ==>
      TenureOf(s.log, i) == if s.incoming == Some(i) then Vacant else TenureIn(s.entries[i].state)
  }

  // ---- the expiry tree is in order --------------------------------------------------------

  ghost predicate Sorted(l: seq<nat>, entries: seq<Entry>) {
    && (forall a :: 0 <= a < |l| ==> l[a] < |entries|)
    && (forall a, b :: 0 <= a < b < |l| ==> entries[l[a]].expires <= entries[l[b]].expires)
  }

  lemma SortedCons(x: nat, l: seq<nat>, entries: seq<Entry>)
    ensures Sorted([x] + l, entries) <==>
      x < |entries| && Sorted(l, entries) && forall j :: j in l ==> entries[x].expires <= entries[j].expires
  {
    var m := [x] + l;
    if Sorted(m, entries) {
      assert m[0] == x;
      forall a | 0 <= a < |l|
        ensures l[a] < |entries| && entries[x].expires <= entries[l[a]].expires
      {
        assert m[a + 1] == l[a];
      }
      forall a, b | 0 <= a < b < |l|
        ensures entries[l[a]].expires <= entries[l[b]].expires
      {
        assert m[a + 1] == l[a] && m[b + 1] == l[b];
      }
    }
  }

  lemma {:induction false} RemoveSorted(l: seq<nat>, entries: seq<Entry>, i: nat)
    requires Distinct(l) && Sorted(l, entries)
    ensures Sorted(Remove(l, i), entries)
  {
    hide Sorted, Distinct;
    if l != [] {
      assert l == [l[0]] + l[1..];
      SortedCons(l[0], l[1..], entries);
      DistinctCons(l[0], l[1..]);
      if l[0] != i {
        RemoveSorted(l[1..], entries, i);
        RemoveMembers(l[1..], i);
        SortedCons(l[0], Remove(l[1..], i), entries);
      }
    }
  }

  lemma {:induction false} InsertSorted(l: seq<nat>, entries: seq<Entry>, i: nat)
    requires i < |entries| && Sorted(l, entries) && Distinct(l) && i !in l
    ensures Sorted(Insert(l, entries, i), entries)
  {
    hide Sorted, Distinct;
    SortedCons(i, l, entries);
    if l != [] {
      assert l == [l[0]] + l[1..];
      SortedCons(l[0], l[1..], entries);
      DistinctCons(l[0], l[1..]);
      InsertSorted(l[1..], entries, i);
      InsertMembers(l[1..], entries, i);
      SortedCons(l[0], Insert(l[1..], entries, i), entries);
    }
  }

  lemma SortedFrame(l: seq<nat>, entries: seq<Entry>, i: nat, e: Entry)
    requires Sorted(l, entries) && i < |entries| && i !in l
    ensures Sorted(l, entries[i := e])
  {
    assert forall a :: 0 <= a < |l| ==> l[a] in l;
  }

  // ---- the pool -------------------------------------------------------------------------------

  ghost predicate Pool(s: Dedup) { Placed(s) && Sorted(s.tree, s.entries) && Tenured(s) }

  lemma PoolAnyStream(s: Dedup, t: Dedup)
    requires s == t.(wire := s.wire, begun := s.begun, buffer := s.buffer, mode := s.mode)
    ensures Pool(s) <==> Pool(t)
  {
    PlacedAnyStream(s, t);
  }

  lemma {:induction false} MoveSorted(s: Dedup, i: nat, e: Entry)
    requires Placed(s) && Idle(s, i) && Sorted(s.tree, s.entries)
    ensures var t := Move(s, i, e); Sorted(t.tree, t.entries)
  {
    hide Sorted, Placed;
    LiftLifts(s, i);
    TreeDistinct(s);
    RemoveSorted(s.tree, s.entries, i);
    var u := Lift(s, i);
    assert u.tree == s.tree || u.tree == Remove(s.tree, i);
    SortedFrame(u.tree, s.entries, i, e);
    if e.state == Replied {
      InsertSorted(u.tree, s.entries[i := e], i);
    }
  }

  lemma TreeDistinct(s: Dedup)
    requires Placed(s)
    ensures Distinct(s.tree)
  {
  }

  /** A move between states of the same tenure. */
  lemma {:induction false} MovePool(s: Dedup, i: nat, e: Entry)
    requires Pool(s) && Idle(s, i)
    requires e.state in {Partial, Cancelled} ==> s.partial == None || s.partial == Some(i)
    requires e.state == Pending ==> e.reply != []
    requires e.state != Active && TenureIn(e.state) == TenureIn(s.entries[i].state)
    ensures Pool(Move(s, i, e))
  {
    hide Placed, Sorted, Move, TenureOf;
    MovePlaced(s, i, e);
    MoveSorted(s, i, e);
    MoveElsewhere(s, i, e);
  }

  lemma {:induction false} TenureFrame(log: seq<Note>, ns: seq<Note>, j: nat)
    requires forall k :: 0 <= k < |ns| ==> ns[k].i != j
    ensures TenureOf(log + ns, j) == TenureOf(log, j)
  {
    if ns == [] {
      assert log + ns == log;
    } else {
      var rest, n := ns[..|ns| - 1], ns[|ns| - 1];
      TenureFrame(log, rest, j);
      TenureAppend(log + rest, n, j);
      assert log + ns == log + rest + [n];
    }
  }

  /** A move that goes with notes about the same entry. */
  lemma {:induction false} MoveNotesPool(s: Dedup, i: nat, e: Entry, ns: seq<Note>)
    requires Pool(s) && Idle(s, i) && forall k :: 0 <= k < |ns| ==> ns[k].i == i
    requires e.state in {Partial, Cancelled} ==> s.partial == None || s.partial == Some(i)
    requires e.state !in {Active, Pending}
    requires TenureOf(s.log + ns, i) == TenureIn(e.state)
    ensures Pool(Move(s.(log := s.log + ns), i, e))
  {
    hide Placed, Sorted, Move, TenureOf;
    var t := s.(log := s.log + ns);
    PlacedAnyStream(s, t);
    MovePlaced(t, i, e);
    MoveSorted(t, i, e);
    MoveElsewhere(t, i, e);
    var u := Move(t, i, e);
    forall j | 0 <= j < |s.entries|
      ensures TenureOf(u.log, j) == if u.incoming == Some(j) then Vacant else TenureIn(u.entries[j].state)
    {
      if j != i {
        TenureFrame(s.log, ns, j);
      }
    }
  }

  lemma {:induction false} ReleasePool(s: Dedup, i: nat, reason: Reason)
    requires Pool(s) && Held(s, i)
    ensures Pool(Release(s, i, reason))
  {
    hide Placed, Sorted, Move;
    var a, b := Released(i, reason), Freed(i);
    TenureAppend(s.log, a, i);
    TenureAppend(s.log + [a], b, i);
    assert s.log + [a] + [b] == s.log + [a, b];
    PartialSlot(s, i);
    if s.entries[i].state == Partial {
      MoveNotesPool(s, i, s.entries[i].(state := Cancelled), [a]);
    } else {
      MoveNotesPool(s, i, s.entries[i].(state := Free), [a, b]);
    }
  }

  lemma PartialSlot(s: Dedup, i: nat)
    requires Placed(s) && i < |s.entries|
    ensures s.partial == Some(i) <==> s.entries[i].state in {Partial, Cancelled}
  {
    assert Home(s, i);
  }

  // ---- the stream is made of whole messages -------------------------------------------

  function Flatten(ms: seq<Str>): Str {
    if ms == [] then [] else Flatten(ms[..|ms| - 1]) + ms[|ms| - 1]
  }

  lemma FlattenAppend(ms: seq<Str>, m: Str)
    ensures Flatten(ms + [m]) == Flatten(ms) + m
  {
    assert (ms + [m])[..|ms|] == ms;
  }

  /** The buffer is less than the whole of the last message begun. */
  ghost predicate Ends(s: Dedup) {
    s.buffer != [] ==> s.begun != [] && |s.buffer| < |s.begun[|s.begun| - 1]|
  }

  /** What the next bio took, followed by the local buffer, is a row of whole messages; the
      buffer holds something exactly while a message is unfinished. */
  ghost predicate Streamed(s: Dedup) {
    && s.wire + s.buffer == Flatten(s.begun) && Ends(s)
    && (s.buffer == [] <==> s.mode == Direct)
    && (s.partial.Some? <==> s.mode == FinishPartial)
  }

  ghost predicate Inv(s: Dedup) { Pool(s) && Streamed(s) }

  lemma BeginStream(s: Dedup, m: Str, k: int)
    requires Inv(s) && s.mode == Direct && 0 < k <= |m|
    ensures var t := Begin(s, m, k);
      Pool(t) && t.wire + t.buffer == Flatten(t.begun) && (t.buffer == [] <==> k == |m|) && Ends(t)
  {
    hide Pool;
    PoolAnyStream(s, Begin(s, m, k));
    FlattenAppend(s.begun, m);
    assert s.wire + [] == s.wire;
    assert s.wire + m[..k] + m[k..] == s.wire + m;
  }

  /** An entry that leaves the write path alone: pool and stream are kept by a move between
      states other than partly written. */
  lemma {:induction false} MoveInv(s: Dedup, i: nat, e: Entry)
    requires Inv(s) && Held(s, i) && s.entries[i].state != Partial
    requires e.state in {Pending, Replied} && (e.state == Pending ==> e.reply != [])
    ensures Inv(Move(s, i, e))
  {
    hide Pool, Move, Flatten;
    MovePool(s, i, e);
    MoveElsewhere(s, i, e);
  }

  lemma {:induction false} ReleaseInv(s: Dedup, i: nat, reason: Reason)
    requires Inv(s) && Held(s, i)
    ensures Inv(Release(s, i, reason))
  {
    hide Pool, Move, Flatten;
    ReleasePool(s, i, reason);
    ReleaseElsewhere(s, i, reason);
    ReleaseSlot(s, i, reason);
  }

  lemma {:induction false} ReleaseSlot(s: Dedup, i: nat, reason: Reason)
    requires Pool(s) && Held(s, i)
    ensures Release(s, i, reason).partial.Some? <==> s.partial.Some?
  {
    PartialSlot(s, i);
  }

  lemma {:induction false} BlockedInv(s: Dedup, i: nat, k: int)
    requires Inv(s) && Held(s, i) && s.mode == Direct && 0 < k < |s.entries[i].reply|
    ensures Inv(Blocked(s, i, k))
  {
    hide Pool, Move, Flatten;
    var m := s.entries[i].reply;
    var t := Begin(s, m, k);
    BeginStream(s, m, k);
    MovePool(t, i, t.entries[i].(state := Partial));
    MoveElsewhere(t, i, t.entries[i].(state := Partial));
    MoveToSlot(t, i);
    PoolAnyStream(MoveTo(t, i, Partial), Blocked(s, i, k));
  }

  lemma MoveToSlot(s: Dedup, i: nat)
    requires i < |s.entries|
    ensures MoveTo(s, i, Partial).partial == Some(i)
  {
  }

  lemma {:induction false} RepliedInv(s: Dedup, i: nat, m: Str, now: int)
    requires Inv(s) && Held(s, i) && s.mode == Direct && m != []
    ensures Inv(MarkReplied(Begin(s, m, |m|), i, now))
  {
    hide Pool, Move, Flatten;
    BeginStream(s, m, |m|);
    NotPartial(s, i);
    var t := Begin(s, m, |m|);
    if t.entries[i].state != Replied {
      MoveInv(t, i, t.entries[i].(state := Replied, expires := now + s.lifetime));
    }
  }

  lemma NotPartial(s: Dedup, i: nat)
    requires Inv(s) && i < |s.entries| && s.mode != FinishPartial
    ensures s.entries[i].state !in {Partial, Cancelled}
  {
    assert Home(s, i);
  }

  lemma {:induction false} SendReplyInv(s: Dedup, i: nat, now: int, r: int)
    requires Inv(s) && Held(s, i) && s.entries[i].reply != [] && s.mode == Direct
    ensures Inv(SendReply(s, i, now, r).0)
  {
    hide Inv, Move, Release, MarkReplied, Blocked;
    var m := s.entries[i].reply;
    var k := Accept(r, |m|);
    NotPartial(s, i);
    if k == |m| {
      RepliedInv(s, i, m, now);
    } else if k == 0 || k == WOULD_BLOCK {
      MoveInv(s, i, s.entries[i].(state := Pending));
    } else if k < 0 {
      ReleaseInv(s, i, WriteError);
    } else {
      BlockedInv(s, i, k);
    }
  }

  lemma {:induction false} RespondInv(s: Dedup, i: nat, now: int, r: int)
    requires Inv(s) && Held(s, i)
    ensures Inv(Respond(s, i, now, r).0)
  {
    hide Inv, Move, SendReply;
    var e := s.entries[i];
    if e.reply != [] && e.state in {Active, Replied} {
      if s.mode == Direct {
        SendReplyInv(s, i, now, r);
      } else {
        MoveInv(s, i, e.(state := Pending, expires := now + s.lifetime));
        MoveInv(s, i, e.(state := Pending));
      }
    }
  }

  /** Flushing keeps everything, goes on only while nothing is left unfinished, and touches
      only entries that were pending. */
  lemma {:induction false} FlushInv(s: Dedup, now: int, rs: seq<int>)
    requires Inv(s) && s.mode == Direct
    ensures var (t, c, rest) := FlushPending(s, now, rs);
      && Inv(t) && (c >= 0 ==> t.mode == Direct)
      && t.incoming == s.incoming && t.lifetime == s.lifetime && |t.entries| == |s.entries|
      && |rest| <= |rs| && rest == rs[|rs| - |rest|..]
      && forall j :: 0 <= j < |s.entries| && s.entries[j].state != Pending ==> t.entries[j] == s.entries[j]
    decreases |s.pending|
  {
    hide Placed, Sorted, Tenured, Streamed, Move, Release, Blocked;
    if s.pending != [] {
      HeadPending(s);
      var i := s.pending[0];
      var e := s.entries[i];
      if e.expires <= now {
        ReleaseInv(s, i, Expired);
        ReleasePlaced(s, i, Expired);
        ReleaseElsewhere(s, i, Expired);
        FlushInv(Release(s, i, Expired), now, rs);
      } else {
        var k := Accept(if rs == [] then 0 else rs[0], |e.reply|);
        if k == |e.reply| {
          var t := Begin(s, e.reply, k);
          SentInv(s, e.reply);
          MoveInv(t, i, e.(state := Replied));
          LeavesPending(t, i, e.(state := Replied));
          MoveElsewhere(t, i, e.(state := Replied));
          FlushInv(MoveTo(t, i, Replied), now, if rs == [] then [] else rs[1..]);
        } else if k > 0 {
          BlockedInv(s, i, k);
          BlockedElsewhere(s, i, k);
        }
      }
    }
  }

  lemma SentInv(s: Dedup, m: Str)
    requires Inv(s) && s.mode == Direct && m != []
    ensures Inv(Begin(s, m, |m|))
  {
    hide Pool, Flatten;
    BeginStream(s, m, |m|);
  }

  lemma {:induction false} BlockedElsewhere(s: Dedup, i: nat, k: int)
    requires i < |s.entries| && 0 < k < |s.entries[i].reply|
    ensures var t := Blocked(s, i, k);
      && t.incoming == s.incoming && t.lifetime == s.lifetime
      && t.entries == s.entries[i := s.entries[i].(state := Partial)]
  {
    hide Move;
    var t := Begin(s, s.entries[i].reply, k);
    MoveElsewhere(t, i, t.entries[i].(state := Partial));
  }

  // ---- writing ----------------------------------------------------------------------------

  /** The message in the buffer is out, but the write function is not reset yet. */
  ghost predicate Finished(s: Dedup) {
    && Pool(s) && s.buffer == [] && s.wire == Flatten(s.begun) && s.mode != Direct
    && (s.partial.Some? <==> s.mode == FinishPartial)
  }

  lemma {:induction false} BufferWriteInv(s: Dedup, r: int)
    requires Inv(s) && s.mode != Direct
    ensures var (t, k) := BufferWrite(s, r);
      (if k > 0 then Finished(t) else Inv(t)) && t.entries == s.entries && t.incoming == s.incoming
  {
    hide Pool, Flatten;
    var (t, k) := BufferWrite(s, r);
    PoolAnyStream(s, t);
    var a := Accept(r, |s.buffer|);
    if a > 0 {
      assert s.wire + s.buffer[..a] + s.buffer[a..] == s.wire + s.buffer;
      assert t.wire + [] == t.wire;
    }
  }

  lemma {:induction false} SettlePool(s: Dedup, i: nat, now: int)
    requires Pool(s) && s.partial == Some(i) && i < |s.entries|
    ensures var t := Settle(s, i, now); Pool(t) && t.partial == None
  {
    hide Placed, Sorted, Move;
    PartialSlot(s, i);
    NotIncoming(s, i);
    var a, b, e := Released(i, Expired), Freed(i), s.entries[i];
    TenureAppend(s.log, b, i);
    TenureAppend(s.log, a, i);
    TenureAppend(s.log + [a], b, i);
    assert s.log + [a] + [b] == s.log + [a, b];
    MoveLeavesSlot(s.(log := s.log + [b]), i, Free);
    MoveLeavesSlot(s.(log := s.log + [a, b]), i, Free);
    MoveLeavesSlot(s, i, Replied);
    if e.state == Cancelled {
      MoveNotesPool(s, i, e.(state := Free), [b]);
    } else if e.expires <= now {
      MoveNotesPool(s, i, e.(state := Free), [a, b]);
    } else {
      MovePool(s, i, e.(state := Replied));
    }
  }

  lemma NotIncoming(s: Dedup, i: nat)
    requires Placed(s) && i < |s.entries| && s.entries[i].state != Active
    ensures s.incoming != Some(i)
  {
    assert Home(s, i);
  }

  lemma MoveLeavesSlot(s: Dedup, i: nat, st: State)
    requires i < |s.entries| && s.entries[i].state in {Partial, Cancelled} && st !in {Partial, Cancelled}
    ensures MoveTo(s, i, st).partial == None
  {
  }

  lemma {:induction false} SettleElsewhere(s: Dedup, i: nat, now: int)
    requires i < |s.entries|
    ensures var t := Settle(s, i, now);
      && t.wire == s.wire && t.begun == s.begun && t.buffer == s.buffer
      && t.incoming == s.incoming && t.lifetime == s.lifetime
      && |t.entries| == |s.entries| && forall j :: 0 <= j < |s.entries| && j != i ==> t.entries[j] == s.entries[j]
  {
    hide Move;
    var e := s.entries[i];
    MoveElsewhere(s, i, e.(state := Replied));
    MoveElsewhere(s.(log := s.log + [Freed(i)]), i, e.(state := Free));
    MoveElsewhere(s.(log := s.log + [Released(i, Expired), Freed(i)]), i, e.(state := Free));
  }

  /** Once the unfinished message is out the bio is writable, and only the entry that was
      partly written has changed. */
  lemma {:induction false} UnblockInv(s: Dedup, now: int)
    requires Finished(s)
    ensures s.mode == FinishPartial ==> s.partial.v < |s.entries|
    ensures var t := Unblock(s, now);
      && Inv(t) && t.mode == Direct && t.incoming == s.incoming && |t.entries| == |s.entries|
      && forall j :: 0 <= j < |s.entries| && s.partial != Some(j) ==> t.entries[j] == s.entries[j]
  {
    hide Sorted, Tenured, Settle, Flatten;
    var t := s;
    if s.mode == FinishPartial {
      t := Settle(s, s.partial.v, now);
      SettlePool(s, s.partial.v, now);
      SettleElsewhere(s, s.partial.v, now);
    }
    PoolAnyStream(t, Unblock(s, now));
    assert t.wire + [] == t.wire;
  }

  lemma {:induction false} DirectWriteInv(s: Dedup, item: Option<nat>, data: Option<Str>, now: int, r: int)
    requires Inv(s) && s.mode == Direct && CanWrite(s, item, data, [r])
    ensures Inv(DirectWrite(s, item, data, now, r).0)
  {
    hide Inv, Move, MarkReplied, Blocked;
    if data.Some? {
      var m := data.v;
      var k := Accept(r, |m|);
      if k <= 0 {
      } else if k == |m| {
        SentInv(s, m);
        if item.Some? {
          RepliedInv(s, item.v, m, now);
        }
      } else {
        if item.Some? {
          assert [r][0] == k;
          BlockedInv(s, item.v, k);
        } else {
          BlockedDataInv(s, m, k);
        }
      }
    }
  }

  lemma BlockedDataInv(s: Dedup, m: Str, k: int)
    requires Inv(s) && s.mode == Direct && 0 < k < |m|
    ensures Inv(Begin(s, m, k).(mode := FinishData))
  {
    hide Pool, Flatten;
    BeginStream(s, m, k);
    PoolAnyStream(Begin(s, m, k), Begin(s, m, k).(mode := FinishData));
  }

  function First(rs: seq<int>): int { if rs == [] then 0 else rs[0] }
  function Rest(rs: seq<int>): seq<int> { if rs == [] then [] else rs[1..] }

  /** The same entry, and one of the later answers. */
  lemma {:induction false} StillCanWrite(s: Dedup, t: Dedup, item: Option<nat>, data: Option<Str>,
                                         rs: seq<int>, n: nat)
    requires CanWrite(s, item, data, rs) && t.incoming == s.incoming && |t.entries| == |s.entries|
    requires item.Some? && data.Some? ==> t.entries[item.v] == s.entries[item.v]
    requires n <= |rs|
    ensures CanWrite(t, item, data, [First(rs[n..])])
  {
    assert n < |rs| ==> rs[n..][0] == rs[n];
  }

  /** my->bio.write, whichever of the three functions it is. */
  function Write(s: Dedup, item: Option<nat>, data: Option<Str>, now: int, rs: seq<int>): (r: (Dedup, int))
    requires Inv(s) && CanWrite(s, item, data, rs)
    ensures |r.0.entries| == |s.entries|
  {
    if s.mode == Direct then
      StillCanWrite(s, s, item, data, rs, 0);
      assert rs[0..] == rs;
      DirectWrite(s, item, data, now, First(rs))
    else
      BufferWriteInv(s, First(rs));
      var (t, k) := BufferWrite(s, First(rs));
      if k <= 0 then (t, k)
      else
        UnblockInv(t, now);
        var u := Unblock(t, now);
        var (v, c, rest) := FlushPending(u, now, Rest(rs));
        FlushInv(u, now, Rest(rs));
        ItemSurvives(s, t, u, v, item, data, rs, rest);
        if c < 0 then (v, c) else DirectWrite(v, item, data, now, First(rest))
  }

  /** The entry a packet is written for is neither the partly written one nor pending. */
  lemma {:induction false} ItemSurvives(s: Dedup, t: Dedup, u: Dedup, v: Dedup, item: Option<nat>,
                                        data: Option<Str>, rs: seq<int>, rest: seq<int>)
    requires Inv(s) && Finished(t) && CanWrite(s, item, data, rs)
    requires |rest| <= |Rest(rs)| && rest == Rest(rs)[|Rest(rs)| - |rest|..]
    requires t.entries == s.entries && t.incoming == s.incoming
    requires u.incoming == t.incoming && |u.entries| == |t.entries|
    requires forall j :: 0 <= j < |t.entries| && t.partial != Some(j) ==> u.entries[j] == t.entries[j]
    requires v.incoming == u.incoming && |v.entries| == |u.entries|
    requires forall j :: 0 <= j < |u.entries| && u.entries[j].state != Pending ==> v.entries[j] == u.entries[j]
    ensures CanWrite(v, item, data, [First(rest)])
  {
    if item.Some? && data.Some? {
      PartialSlot(t, item.v);
    }
    StillCanWrite(s, v, item, data, rs, |rs| - |rest|);
    assert rest == rs[|rs| - |rest|..];
  }

  lemma {:induction false} WriteInv(s: Dedup, item: Option<nat>, data: Option<Str>, now: int, rs: seq<int>)
    requires Inv(s) && CanWrite(s, item, data, rs)
    ensures Inv(Write(s, item, data, now, rs).0)
  {
    hide Placed, Sorted, Tenured, Streamed, DirectWrite, BufferWrite, Unblock, FlushPending, CanWrite;
    if s.mode == Direct {
      StillCanWrite(s, s, item, data, rs, 0);
      assert rs[0..] == rs;
      DirectWriteInv(s, item, data, now, First(rs));
    } else {
      BufferWriteInv(s, First(rs));
      var (t, k) := BufferWrite(s, First(rs));
      if k > 0 {
        UnblockInv(t, now);
        var u := Unblock(t, now);
        FlushInv(u, now, Rest(rs));
        var (v, c, rest) := FlushPending(u, now, Rest(rs));
        ItemSurvives(s, t, u, v, item, data, rs, rest);
        if c >= 0 {
          DirectWriteInv(v, item, data, now, First(rest));
        }
      }
    }
  }

  // ---- receiving ---------------------------------------------------------------------------

  /** The first half of fr_bio_dedup_read(): an entry leaves the free list and is shown to the
      receive callback, which may respond to and cancel other entries. */
  function Arrive(s: Dedup): (r: Dedup)
    requires s.free != [] && s.free[0] < |s.entries|
    ensures |r.entries| == |s.entries|
  {
    s.(free := s.free[1..], entries := s.entries[s.free[0] := Entry(Active, [], 0)], incoming := Some(s.free[0]))
  }

  /** The second half: the callback wants the packet, or the entry goes back. */
  function Decide(s: Dedup, accept: bool): (r: Dedup)
    requires s.incoming.Some? && s.incoming.v < |s.entries|
    ensures |r.entries| == |s.entries|
  {
    var i := s.incoming.v;
    if accept then s.(incoming := None, active := s.active + [i], log := s.log + [Accepted(i)])
    else s.(incoming := None, entries := s.entries[i := s.entries[i].(state := Free)], free := [i] + s.free)
  }

  lemma {:induction false} ArriveInv(s: Dedup)
    requires Inv(s) && s.free != [] && s.incoming == None
    ensures s.free[0] < |s.entries| && Inv(Arrive(s))
  {
    hide Distinct, Sorted, TenureOf, Flatten;
    var i := s.free[0];
    assert s.free == [i] + s.free[1..];
    DistinctCons(i, s.free[1..]);
    assert i in s.free;
    assert Home(s, i);
    var t := Arrive(s);
    forall j | 0 <= j < |s.entries|
      ensures Home(t, j)
    {
      assert Home(s, j);
    }
    SortedFrame(s.tree, s.entries, i, Entry(Active, [], 0));
    assert forall j :: j in t.free ==> j in s.free;
  }

  lemma {:induction false} DecideInv(s: Dedup, accept: bool)
    requires Inv(s) && s.incoming.Some?
    ensures s.incoming.v < |s.entries| && Inv(Decide(s, accept))
  {
    hide Distinct, Sorted, TenureOf, Flatten;
    var i := s.incoming.v;
    assert Home(s, i);
    var t := Decide(s, accept);
    DistinctAppend(s.active, i);
    DistinctCons(i, s.free);
    SortedFrame(s.tree, s.entries, i, s.entries[i].(state := Free));
    forall j | 0 <= j < |s.entries|
      ensures Home(t, j)
    {
      assert Home(s, j);
    }
    forall j | 0 <= j < |s.entries|
      ensures TenureOf(t.log, j) == TenureIn(t.entries[j].state)
    {
      TenureAppend(s.log, Accepted(i), j);
    }
  }

  // ---- timers ------------------------------------------------------------------------------------

  /** fr_bio_dedup_timer(): release from the front of the tree while it is due. */
  function Expire(s: Dedup, limit: int): (r: Dedup)
    requires Placed(s)
    ensures |r.entries| == |s.entries|
    decreases |s.tree|
  {
    if s.tree == [] then s
    else
      HeadReplied(s);
      var i := s.tree[0];
      if s.entries[i].expires > limit then s
      else
        ReleasePlaced(s, i, Expired);
        LeavesTree(s, i, Expired);
        Expire(Release(s, i, Expired), limit)
  }

  lemma {:induction false} HeadReplied(s: Dedup)
    requires Placed(s) && s.tree != []
    ensures Held(s, s.tree[0]) && s.entries[s.tree[0]].state == Replied
  {
    assert s.tree[0] in s.tree;
    assert Home(s, s.tree[0]);
  }

  lemma {:induction false} LeavesTree(s: Dedup, i: nat, reason: Reason)
    requires Placed(s) && i < |s.entries| && s.entries[i].state == Replied
    ensures |Release(s, i, reason).tree| == |s.tree| - 1
  {
    assert Home(s, i);
    RemoveMembers(s.tree, i);
  }

  /** The timer releases exactly the replied entries that are due, and touches no other. */
  lemma {:induction false} ExpireInv(s: Dedup, limit: int)
    requires Inv(s)
    ensures var t := Expire(s, limit);
      && Inv(t) && |t.entries| == |s.entries|
      && forall j :: 0 <= j < |s.entries| ==>
           if s.entries[j].state == Replied && s.entries[j].expires <= limit
           then t.entries[j].state == Free
           else t.entries[j] == s.entries[j]
    decreases |s.tree|
  {
    hide Placed, Sorted, Tenured, Streamed, Release;
    if s.tree == [] {
      NothingDue(s, limit);
    } else {
      HeadReplied(s);
      var i := s.tree[0];
      if s.entries[i].expires > limit {
        NothingDue(s, limit);
      } else {
        ReleasePlaced(s, i, Expired);
        LeavesTree(s, i, Expired);
        ReleaseInv(s, i, Expired);
        ReleaseElsewhere(s, i, Expired);
        ExpireInv(Release(s, i, Expired), limit);
      }
    }
  }

  /** The tree is in order: if its first entry is not due, none is. */
  lemma {:induction false} NothingDue(s: Dedup, limit: int)
    requires Pool(s) && (s.tree == [] || s.entries[s.tree[0]].expires > limit)
    ensures forall j :: 0 <= j < |s.entries| && s.entries[j].state == Replied ==> s.entries[j].expires > limit
  {
    forall j | 0 <= j < |s.entries| && s.entries[j].state == Replied
      ensures s.entries[j].expires > limit
    {
      assert Home(s, j);
      var k :| 0 <= k < |s.tree| && s.tree[k] == j;
    }
  }

  // ---- every run -------------------------------------------------------------------------------

  datatype Event =
    | Arrival
    | Decision(accept: bool)
    | SetReply(i: nat, reply: Str)
    | Reply(i: nat, now: int, r: int)
    | Output(item: Option<nat>, data: Option<Str>, now: int, rs: seq<int>)
    | Cancel(i: nat)
    | Timer(now: int)

  /** What the bio demands of its caller, and of the pool when a packet arrives. */
  ghost predicate Enabled(s: Dedup, e: Event) {
    match e
    case Arrival => s.incoming == None && s.free != []
    case Decision(_) => s.incoming.Some?
    case SetReply(i, _) => Idle(s, i) && s.entries[i].state in {Active, Replied}
    case Reply(i, _, _) => Held(s, i)
    case Output(item, data, _, rs) => CanWrite(s, item, data, rs)
    case Cancel(i) => Held(s, i)
    case Timer(_) => true
  }

  function Step(s: Dedup, e: Event): (r: Dedup)
    requires Inv(s) && Enabled(s, e)
    ensures |r.entries| == |s.entries|
  {
    match e
    case Arrival => ArriveInv(s); Arrive(s)
    case Decision(accept) => DecideInv(s, accept); Decide(s, accept)
    case SetReply(i, reply) => s.(entries := s.entries[i := s.entries[i].(reply := reply)])
    case Reply(i, now, r) => Respond(s, i, now, r).0
    case Output(item, data, now, rs) => Write(s, item, data, now, rs).0
    case Cancel(i) => Release(s, i, Withdrawn)
    case Timer(now) => Expire(s, now + SLACK)
  }

  lemma {:induction false} SetReplyInv(s: Dedup, i: nat, reply: Str)
    requires Inv(s) && Enabled(s, SetReply(i, reply))
    ensures Inv(Step(s, SetReply(i, reply)))
  {
    hide Distinct, TenureOf, Flatten;
    var t := Step(s, SetReply(i, reply));
    forall j | 0 <= j < |s.entries|
      ensures Home(t, j)
    {
      assert Home(s, j);
    }
  }

  /** Every step keeps the pool partition, the tree order, the tenures and the stream. */
  lemma {:induction false} StepInv(s: Dedup, e: Event)
    requires Inv(s) && Enabled(s, e)
    ensures Inv(Step(s, e))
  {
    hide Inv, Respond, Write, Release, Expire, Arrive, Decide, CanWrite;
    match e
    case Arrival => ArriveInv(s);
    case Decision(accept) => DecideInv(s, accept);
    case SetReply(i, reply) => SetReplyInv(s, i, reply);
    case Reply(i, now, r) => RespondInv(s, i, now, r);
    case Output(item, data, now, rs) => WriteInv(s, item, data, now, rs);
    case Cancel(i) => ReleaseInv(s, i, Withdrawn);
    case Timer(now) => ExpireInv(s, now + SLACK);
  }

  /** t is reached from s by these events. */
  ghost predicate Reaches(s: Dedup, events: seq<Event>, t: Dedup)
    decreases |events|
  {
    if events == [] then s == t
    else Inv(s) && Enabled(s, events[0]) && Reaches(Step(s, events[0]), events[1..], t)
  }

  lemma {:induction false} RunInv(s: Dedup, events: seq<Event>, t: Dedup)
    requires Inv(s) && Reaches(s, events, t)
    ensures Inv(t)
    decreases |events|
  {
    hide Inv, Step;
    if events != [] {
      StepInv(s, events[0]);
      RunInv(Step(s, events[0]), events[1..], t);
    }
  }

  lemma {:induction false} AllocInv(n: nat, lifetime: nat)
    ensures Inv(Alloc(n, lifetime))
  {
    var s := Alloc(n, lifetime);
    assert forall i :: 0 <= i < n ==> s.free[i] == i;
    assert s.wire + s.buffer == [];
    forall i | 0 <= i < n
      ensures Home(s, i)
    {
      assert s.free[i] in s.free;
    }
  }

  /** The same without the invariant: the events are enabled one after the other. */
  ghost predicate Runs(s: Dedup, events: seq<Event>, t: Dedup)
    decreases |events|
  {
    if events == [] then s == t
    else Inv(s) ==> Enabled(s, events[0]) && Runs(Step(s, events[0]), events[1..], t)
  }

  /** The invariant in Reaches() costs nothing: every run of enabled events from a fresh bio is
      one of its runs. */
  lemma {:induction false} EveryRunReaches(n: nat, lifetime: nat, events: seq<Event>, t: Dedup)
    ensures Runs(Alloc(n, lifetime), events, t) <==> Reaches(Alloc(n, lifetime), events, t)
  {
    hide Inv, Alloc;
    AllocInv(n, lifetime);
    RunsReach(Alloc(n, lifetime), events, t);
  }

  lemma {:induction false} RunsReach(s: Dedup, events: seq<Event>, t: Dedup)
    requires Inv(s)
    ensures Runs(s, events, t) <==> Reaches(s, events, t)
    decreases |events|
  {
    hide Inv, Step, Enabled;
    if events != [] && Enabled(s, events[0]) {
      StepInv(s, events[0]);
      RunsReach(Step(s, events[0]), events[1..], t);
    }
  }

  // ---- main results ---------------------------------------------------------------------------

  /** Stream integrity: in every reachable state all messages begun but the last are on the
      wire whole and in order, followed by all of the last one but what the local buffer still
      holds; nothing else is ever in between. */
  lemma {:induction false} StreamIntegrity(n: nat, lifetime: nat, events: seq<Event>, s: Dedup)
    requires Reaches(Alloc(n, lifetime), events, s)
    ensures s.wire + s.buffer == Flatten(s.begun)
    ensures s.begun != [] ==>
      var last := s.begun[|s.begun| - 1];
      |s.buffer| <= |last| && s.wire == Flatten(s.begun[..|s.begun| - 1]) + last[..|last| - |s.buffer|]
  {
    hide Inv, Flatten, Alloc, Reaches;
    RunFromAlloc(n, lifetime, events, s);
    StreamOf(s);
  }

  /** Everything that holds at the start holds in every reachable state. */
  lemma {:induction false} RunFromAlloc(n: nat, lifetime: nat, events: seq<Event>, s: Dedup)
    requires Reaches(Alloc(n, lifetime), events, s)
    ensures Inv(s) && |s.entries| == n
  {
    AllocInv(n, lifetime);
    hide Inv, Reaches;
    RunInv(Alloc(n, lifetime), events, s);
    RunSize(Alloc(n, lifetime), events, s);
  }

  lemma {:induction false} StreamOf(s: Dedup)
    requires Inv(s)
    ensures s.wire + s.buffer == Flatten(s.begun)
    ensures s.begun != [] ==>
      var last := s.begun[|s.begun| - 1];
      |s.buffer| <= |last| && s.wire == Flatten(s.begun[..|s.begun| - 1]) + last[..|last| - |s.buffer|]
  {
    hide Pool;
    if s.begun != [] {
      CutEnd(s.wire, s.buffer, Flatten(s.begun[..|s.begun| - 1]), s.begun[|s.begun| - 1]);
    }
  }

  lemma CutEnd(wire: Str, buffer: Str, before: Str, last: Str)
    requires wire + buffer == before + last && |buffer| <= |last|
    ensures wire == before + last[..|last| - |buffer|]
  {
    assert wire == (wire + buffer)[..|wire|] == (before + last)[..|wire|];
  }

  ghost function AsSet(l: seq<nat>): set<nat> { set i | i in l }

  lemma {:induction false} AsSetSize(l: seq<nat>)
    requires Distinct(l)
    ensures |AsSet(l)| == |l|
  {
    if l != [] {
      assert l == [l[0]] + l[1..];
      DistinctCons(l[0], l[1..]);
      AsSetSize(l[1..]);
      assert AsSet(l) == {l[0]} + AsSet(l[1..]);
    }
  }

  function Slot(o: Option<nat>): seq<nat> { if o.Some? then [o.v] else [] }

  lemma DistinctConcat(a: seq<nat>, b: seq<nat>)
    requires Distinct(a) && Distinct(b) && forall i :: i in a ==> i !in b
    ensures Distinct(a + b)
  {
    assert forall k :: 0 <= k < |a| ==> a[k] in a;
    assert forall k :: 0 <= k < |b| ==> b[k] in b;
  }

  /** All places in a row. */
  function Places(s: Dedup): seq<nat> {
    s.free + (s.active + (s.pending + (s.tree + (Slot(s.partial) + Slot(s.incoming)))))
  }

  /** Pool partition: in every reachable state each of the n entries is in exactly one of the
      five places or being received, its state names which, and the sizes add up to n; so the
      free list is empty only when all n entries are in use. */
  lemma {:induction false} PoolPartition(n: nat, lifetime: nat, events: seq<Event>, s: Dedup)
    requires Reaches(Alloc(n, lifetime), events, s)
    ensures |s.entries| == n && forall i :: 0 <= i < n ==> Home(s, i)
    ensures Distinct(Places(s)) && (forall i: nat :: i in Places(s) <==> i < n) && |Places(s)| == n
  {
    hide Alloc, Reaches;
    RunFromAlloc(n, lifetime, events, s);
    PlacesAddUp(s);
  }

  lemma {:induction false} PlacesAddUp(s: Dedup)
    requires Placed(s)
    ensures Distinct(Places(s)) && (forall i: nat :: i in Places(s) <==> i < |s.entries|) && |Places(s)| == |s.entries|
  {
    hide Distinct;
    PlacesDisjoint(s);
    SlotDistinct(s.partial);
    SlotDistinct(s.incoming);
    DistinctConcat(Slot(s.partial), Slot(s.incoming));
    DistinctConcat(s.tree, Slot(s.partial) + Slot(s.incoming));
    DistinctConcat(s.pending, s.tree + (Slot(s.partial) + Slot(s.incoming)));
    DistinctConcat(s.active, s.pending + (s.tree + (Slot(s.partial) + Slot(s.incoming))));
    DistinctConcat(s.free, s.active + (s.pending + (s.tree + (Slot(s.partial) + Slot(s.incoming)))));
    AsSetSize(Places(s));
    IndicesDistinct(|s.entries|);
    AsSetSize(Indices(|s.entries|));
    assert AsSet(Places(s)) == AsSet(Indices(|s.entries|));
  }

  lemma {:induction false} PlacesDisjoint(s: Dedup)
    requires Placed(s)
    ensures forall i: nat :: i in Places(s) <==> i < |s.entries|
    ensures forall i :: i in s.free ==> i !in s.active + (s.pending + (s.tree + (Slot(s.partial) + Slot(s.incoming))))
    ensures forall i :: i in s.active ==> i !in s.pending + (s.tree + (Slot(s.partial) + Slot(s.incoming)))
    ensures forall i :: i in s.pending ==> i !in s.tree + (Slot(s.partial) + Slot(s.incoming))
    ensures forall i :: i in s.tree ==> i !in Slot(s.partial) + Slot(s.incoming)
    ensures forall i :: i in Slot(s.partial) ==> i !in Slot(s.incoming)
  {
    hide Distinct;
    forall i: nat
      ensures i in Places(s) <==> i < |s.entries|
      ensures i in s.free ==> i !in s.active + (s.pending + (s.tree + (Slot(s.partial) + Slot(s.incoming))))
      ensures i in s.active ==> i !in s.pending + (s.tree + (Slot(s.partial) + Slot(s.incoming)))
      ensures i in s.pending ==> i !in s.tree + (Slot(s.partial) + Slot(s.incoming))
      ensures i in s.tree ==> i !in Slot(s.partial) + Slot(s.incoming)
      ensures i in Slot(s.partial) ==> i !in Slot(s.incoming)
    {
      if i < |s.entries| {
        assert Home(s, i);
      }
    }
  }

  lemma SlotDistinct(o: Option<nat>)
    ensures Distinct(Slot(o))
  {
  }

  lemma IndicesDistinct(n: nat)
    ensures Distinct(Indices(n)) && forall i: nat :: i in Indices(n) <==> i < n
  {
    forall i: nat
      ensures i in Indices(n) <==> i < n
    {
      if i < n {
        assert Indices(n)[i] == i;
      }
    }
  }

  lemma {:induction false} RunSize(s: Dedup, events: seq<Event>, t: Dedup)
    requires Inv(s) && Reaches(s, events, t)
    ensures |t.entries| == |s.entries|
    decreases |events|
  {
    hide Inv, Step;
    if events != [] {
      StepInv(s, events[0]);
      RunSize(Step(s, events[0]), events[1..], t);
    }
  }

  /** How often entry i was accepted, released and returned to the free list. */
  function Acceptances(log: seq<Note>, i: nat): nat {
    if log == [] then 0
    else Acceptances(log[..|log| - 1], i) + if log[|log| - 1] == Accepted(i) then 1 else 0
  }
  function Releases(log: seq<Note>, i: nat): nat {
    if log == [] then 0
    else
      var n := log[|log| - 1];
      Releases(log[..|log| - 1], i) + if n.Released? && n.i == i then 1 else 0
  }

  lemma {:induction false} TenureCounts(log: seq<Note>, i: nat)
    requires TenureOf(log, i) != Broken
    ensures Acceptances(log, i) == Releases(log, i) + if TenureOf(log, i) == Leased then 1 else 0
  {
    if log != [] {
      TenureCounts(log[..|log| - 1], i);
    }
  }

  lemma TenureAt(s: Dedup, i: nat)
    requires Inv(s) && i < |s.entries|
    ensures TenureOf(s.log, i) != Broken && (TenureOf(s.log, i) == Leased <==> Held(s, i))
  {
    assert Home(s, i);
  }

  /** One release per acceptance: in every reachable state every entry was released as often as
      it was accepted, or once less while it is held; no callback ever comes out of order, also
      not for an entry cancelled while partly written. */
  lemma {:induction false} OneReleaseEach(n: nat, lifetime: nat, events: seq<Event>, s: Dedup, i: nat)
    requires Reaches(Alloc(n, lifetime), events, s) && i < n
    ensures |s.entries| == n && TenureOf(s.log, i) != Broken
    ensures Acceptances(s.log, i) == Releases(s.log, i) + if Held(s, i) then 1 else 0
  {
    hide Inv, Alloc, Reaches, TenureOf, Acceptances, Releases;
    RunFromAlloc(n, lifetime, events, s);
    TenureAt(s, i);
    TenureCounts(s.log, i);
  }
}
