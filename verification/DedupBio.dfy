/** The dedup bio as it runs: lists, slots, buffer and write function are fields that its
    functions reassign.  Every public operation is a step of the machine and keeps Inv. */
module DedupBio {
  import opened Wrappers
  import opened Octets
  import opened M = DedupMachine
  import opened R = DedupRuns

  /** Lifting an entry and logging do not get in each other's way. */
  lemma LiftLog(s: Dedup, i: nat, log: seq<Note>)
    requires i < |s.entries|
    ensures Lift(s.(log := log), i) == Lift(s, i).(log := log)
  {
  }

  lemma PlacedOf(s: Dedup)
    requires Inv(s)
    ensures Placed(s) && (s.mode == Direct <==> s.buffer == [])
  {
  }

  class Bio {
    const lifetime: nat
    var entries: seq<Entry>
    var active: seq<nat>
    var pending: seq<nat>
    var free: seq<nat>
    var tree: seq<nat>
    var partial: Option<nat>
    var incoming: Option<nat>
    var buffer: Str
    var mode: Mode
    ghost var wire: Str
    ghost var begun: seq<Str>
    ghost var log: seq<Note>

    ghost function View(): Dedup
      reads this
    {
      Dedup(entries, active, pending, free, tree, partial, incoming, buffer, mode, lifetime, wire, begun, log)
    }

    /** fr_bio_dedup_alloc(). */
    constructor (n: nat, lifetime: nat)
      ensures View() == Alloc(n, lifetime) && Inv(View())
    {
      this.lifetime := lifetime;
      entries := seq(n, _ => Entry(Free, [], 0));
      active, pending, free, tree := [], [], Indices(n), [];
      partial, incoming, buffer, mode := None, None, [], Direct;
      wire, begun, log := [], [], [];
      new;
      AllocInv(n, lifetime);
    }

    /** Take an entry off the list, tree or slot its state names. */
    method Unlink(i: nat)
      requires i < |entries| && entries[i].state != Free
      modifies this`active, this`tree, this`pending, this`partial
      ensures View() == Lift(old(View()), i)
    {
      match entries[i].state
      case Active => active := Remove(active, i);
      case Replied => tree := Remove(tree, i);
      case Pending => pending := Remove(pending, i);
      case Partial => partial := None;
      case Cancelled => partial := None;
    }

    /** Back to the free list. */
    method ToFree(i: nat)
      requires i < |entries|
      modifies this`entries, this`free
      ensures View() == Place(old(View()), i, old(entries[i]).(state := Free))
    {
      entries := entries[i := entries[i].(state := Free)];
      free := [i] + free;
    }

    /** Wait for the expiry time it has. */
    method ToTree(i: nat)
      requires i < |entries| && entries[i].state != Free
      modifies this`active, this`tree, this`pending, this`partial, this`entries
      ensures View() == MoveTo(old(View()), i, Replied)
    {
      hide Lift;
      Unlink(i);
      entries := entries[i := entries[i].(state := Replied)];
      tree := Insert(tree, entries, i);
    }

    /** fr_bio_dedup_release(). */
    method Release(i: nat, reason: Reason)
      requires Held(View(), i)
      modifies this
      ensures View() == M.Release(old(View()), i, reason)
    {
      hide Lift;
      LiftLog(View(), i, log + [Released(i, reason)]);
      log := log + [Released(i, reason)];
      var partly := entries[i].state == Partial;
      Unlink(i);
      if partly {
        partial := Some(i);
        entries := entries[i := entries[i].(state := Cancelled)];
        return;
      }
      log := log + [Freed(i)];
      LiftLog(old(View()), i, log);
      ToFree(i);
    }

    /** fr_bio_dedup_replied(). */
    method MarkReplied(i: nat, now: int)
      requires i < |entries| && entries[i].state in {Active, Replied}
      modifies this`active, this`entries, this`tree
      ensures View() == M.MarkReplied(old(View()), i, now)
    {
      if entries[i].state == Replied {
        return;
      }
      active := Remove(active, i);
      entries := entries[i := entries[i].(state := Replied, expires := now + lifetime)];
      tree := Insert(tree, entries, i);
    }

    /** The next bio's write(). */
    method Offer(m: Str, answer: int) returns (k: int)
      modifies this`wire, this`begun
      ensures k == Accept(answer, |m|)
      ensures wire == if k > 0 then old(wire) + m[..k] else old(wire)
      ensures begun == if k > 0 then old(begun) + [m] else old(begun)
    {
      k := if answer > |m| then |m| else answer;
      if k > 0 {
        wire, begun := wire + m[..k], begun + [m];
      }
    }

    /** fr_bio_dedup_blocked(), after the next bio took k octets. */
    method Blocked(i: nat, k: int)
      requires i < |entries| && 0 < k < |entries[i].reply| && entries[i].state in {Active, Replied, Pending}
      modifies this
      ensures wire == old(wire) && begun == old(begun) && log == old(log) && incoming == old(incoming)
      ensures var s := old(View());
        View() == MoveTo(s.(buffer := s.entries[i].reply[k..]), i, Partial).(mode := FinishPartial)
    {
      buffer := entries[i].reply[k..];
      Unlink(i);
      partial := Some(i);
      entries := entries[i := entries[i].(state := Partial)];
      mode := FinishPartial;
    }

    /** fr_bio_dedup_respond(). */
    method Respond(i: nat, now: int, answer: int) returns (rcode: int)
      requires Inv(View()) && Held(View(), i)
      modifies this
      ensures (View(), rcode) == M.Respond(old(View()), i, now, answer) && Inv(View())
    {
      RespondInv(View(), i, now, answer);
      var e := entries[i];
      if e.reply == [] {
        return 0;
      }
      if e.state == Pending || e.state == Partial {
        return WOULD_BLOCK;
      }
      if mode != Direct {
        Unlink(i);
        entries := entries[i := if e.state == Active then e.(state := Pending, expires := now + lifetime)
                                else e.(state := Pending)];
        pending := pending + [i];
        return |e.reply|;
      }
      rcode := SendReply(i, now, answer);
    }

    /** The end of fr_bio_dedup_respond(): the bio is writable. */
    method SendReply(i: nat, now: int, answer: int) returns (rcode: int)
      requires Inv(View()) && Held(View(), i) && entries[i].state in {Active, Replied}
      requires entries[i].reply != [] && mode == Direct
      modifies this
      ensures (View(), rcode) == M.SendReply(old(View()), i, now, answer)
    {
      var e := entries[i];
      var k := Offer(e.reply, answer);
      rcode := k;
      if k == |e.reply| {
        MarkReplied(i, now);
      } else if k == 0 || k == WOULD_BLOCK {
        Unlink(i);
        pending := pending + [i];
        entries := entries[i := e.(state := Pending)];
        rcode := |e.reply|;
      } else if k < 0 {
        Release(i, WriteError);
      } else {
        Blocked(i, k);
      }
    }

    /** fr_bio_dedup_flush_pending(). */
    method FlushPending(now: int, rs: seq<int>) returns (rcode: int, rest: seq<int>)
      requires Inv(View()) && mode == Direct
      modifies this
      ensures (View(), rcode, rest) == M.FlushPending(old(View()), now, rs) && Inv(View())
    {
      FlushInv(View(), now, rs);
      ghost var goal := M.FlushPending(View(), now, rs);
      rest := rs;
      while pending != []
        invariant Inv(View()) && mode == Direct
        invariant goal == M.FlushPending(View(), now, rest)
        decreases |pending|
      {
        var blocked;
        blocked, rcode, rest := FlushHead(now, rest, goal);
        if blocked {
          return;
        }
      }
      return 0, rest;
    }

    /** One round of it: the head expires, goes out, or stops the flush. */
    method FlushHead(now: int, rs: seq<int>, ghost goal: (Dedup, int, seq<int>))
      returns (blocked: bool, rcode: int, rest: seq<int>)
      requires Inv(View()) && mode == Direct && pending != []
      requires goal == M.FlushPending(View(), now, rs)
      modifies this
      ensures blocked ==> goal == (View(), rcode, rest)
      ensures !blocked ==> Inv(View()) && mode == Direct && |pending| < old(|pending|)
      ensures !blocked ==> goal == M.FlushPending(View(), now, rest)
    {
      hide Move, M.Release;
      ghost var s := View();
      PlacedOf(s);
      HeadPending(s);
      var i := pending[0];
      var e := entries[i];
      rest := rs;
      if e.expires <= now {
        ReleaseInv(s, i, Expired);
        ReleasePlaced(s, i, Expired);
        ReleaseElsewhere(s, i, Expired);
        Release(i, Expired);
        return false, 0, rest;
      }
      var k := Offer(e.reply, First(rs));
      rest := Rest(rs);
      if k <= 0 {
        return true, k, rest;
      }
      if k == |e.reply| {
        SentInv(s, e.reply);
        ghost var t := Begin(s, e.reply, k);
        MoveInv(t, i, e.(state := Replied));
        LeavesPending(t, i, e.(state := Replied));
        MoveElsewhere(t, i, e.(state := Replied));
        assert View() == t;
        ToTree(i);
        return false, 0, rest;
      }
      Blocked(i, k);
      return true, WOULD_BLOCK, rest;
    }

    /** fr_bio_dedup_buffer_write(). */
    method BufferWrite(answer: int) returns (rcode: int)
      requires buffer != []
      modifies this`wire, this`buffer
      ensures (View(), rcode) == M.BufferWrite(old(View()), answer)
    {
      var k := if answer > |buffer| then |buffer| else answer;
      if k <= 0 {
        return k;
      }
      wire, buffer := wire + buffer[..k], buffer[k..];
      if buffer != [] {
        return 0;
      }
      return k;
    }

    /** The middle of fr_bio_dedup_write_partial(): what becomes of the entry. */
    method Settle(i: nat, now: int)
      requires i < |entries| && entries[i].state in {Partial, Cancelled}
      modifies this
      ensures View() == M.Settle(old(View()), i, now)
    {
      if entries[i].state == Partial && entries[i].expires > now {
        ToTree(i);
        return;
      }
      log := log + if entries[i].state == Partial then [Released(i, Expired), Freed(i)] else [Freed(i)];
      Unlink(i);
      ToFree(i);
    }

    /** my->bio.write(): fr_bio_dedup_write(), or fr_bio_dedup_write_partial() and
        fr_bio_dedup_write_data(), which finish the message in the buffer first. */
    method Write(item: Option<nat>, data: Option<Str>, now: int, rs: seq<int>) returns (rcode: int)
      requires Inv(View()) && CanWrite(View(), item, data, rs)
      modifies this
      ensures (View(), rcode) == R.Write(old(View()), item, data, now, rs) && Inv(View())
    {
      hide Placed, Sorted, Tenured, Streamed, M.DirectWrite, M.BufferWrite, M.Settle, M.FlushPending, CanWrite;
      ghost var s := View();
      WriteInv(s, item, data, now, rs);
      PlacedOf(s);
      if mode == Direct {
        StillCanWrite(s, s, item, data, rs, 0);
        assert rs[0..] == rs;
        rcode := DirectWrite(item, data, now, First(rs));
        return;
      }
      BufferWriteInv(s, First(rs));
      rcode := BufferWrite(First(rs));
      if rcode <= 0 {
        return;
      }
      ghost var t := View();
      UnblockInv(t, now);
      if mode == FinishPartial {
        PartialSlot(t, partial.v);
        Settle(partial.v, now);
      }
      mode := Direct;
      ghost var u := View();
      assert u == Unblock(t, now);
      FlushInv(u, now, Rest(rs));
      var rest;
      rcode, rest := FlushPending(now, Rest(rs));
      if rcode < 0 {
        return;
      }
      ItemSurvives(s, t, u, View(), item, data, rs, rest);
      rcode := DirectWrite(item, data, now, First(rest));
    }

    /** fr_bio_dedup_write(). */
    method DirectWrite(item: Option<nat>, data: Option<Str>, now: int, answer: int) returns (rcode: int)
      requires Inv(View()) && mode == Direct && CanWrite(View(), item, data, [answer])
      modifies this
      ensures (View(), rcode) == M.DirectWrite(old(View()), item, data, now, answer)
    {
      if data.None? {
        return answer;
      }
      rcode := Offer(data.v, answer);
      if rcode <= 0 {
        return;
      }
      if rcode == |data.v| {
        assert data.v[rcode..] == [] == buffer;
        if item.Some? {
          MarkReplied(item.v, now);
        }
        return;
      }
      if item.None? {
        buffer := data.v[rcode..];
        mode := FinishData;
        return;
      }
      assert [answer][0] == rcode;
      Blocked(item.v, rcode);
    }

    /** fr_bio_dedup_read(), up to the receive callback: the next bio gave `got`.  There must be
        a free entry for a packet. */
    method Read(got: int) returns (shown: Option<nat>)
      requires Inv(View()) && incoming == None && (got > 0 ==> free != [])
      modifies this
      ensures got <= 0 ==> View() == old(View()) && shown == None
      ensures got > 0 ==> View() == Step(old(View()), Arrival) && shown.Some? && shown == incoming
      ensures Inv(View())
    {
      if got <= 0 {
        return None;
      }
      ArriveInv(View());
      var i := free[0];
      free := free[1..];
      entries := entries[i := Entry(Active, [], 0)];
      incoming := Some(i);
      return incoming;
    }

    /** The rest of fr_bio_dedup_read(). */
    method Receive(accept: bool)
      requires Inv(View()) && incoming.Some?
      modifies this
      ensures View() == Step(old(View()), Decision(accept)) && Inv(View())
    {
      DecideInv(View(), accept);
      var i := incoming.v;
      incoming := None;
      if !accept {
        entries := entries[i := entries[i].(state := Free)];
        free := [i] + free;
        return;
      }
      active := active + [i];
      log := log + [Accepted(i)];
    }

    /** fr_bio_dedup_entry_cancel(). */
    method Cancel(i: nat)
      requires Inv(View()) && Held(View(), i)
      modifies this
      ensures View() == Step(old(View()), R.Cancel(i)) && Inv(View())
    {
      ReleaseInv(View(), i, Withdrawn);
      Release(i, Withdrawn);
    }

    /** fr_bio_dedup_timer(). */
    method Timer(now: int)
      requires Inv(View())
      modifies this
      ensures View() == Step(old(View()), R.Timer(now)) && Inv(View())
    {
      var limit := now + SLACK;
      ghost var goal := Expire(View(), limit);
      while tree != []
        invariant Inv(View()) && goal == Expire(View(), limit)
        decreases |tree|
      {
        HeadReplied(View());
        var i := tree[0];
        if entries[i].expires > limit {
          break;
        }
        ReleaseInv(View(), i, Expired);
        LeavesTree(View(), i, Expired);
        Release(i, Expired);
      }
    }
  }
}
