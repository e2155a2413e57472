/** The tracker as it runs: the tree, the requests and the counters are updated in place. */
module SnifferTracker {
  import opened Wrappers
  import opened Octets
  import opened Sniffer
  import opened SnifferAccounts

  lemma ConsistentSilent(s: Tracker, id: nat, silent: bool, at: TimeVal)
    requires Consistent(s) && id in s.live
    ensures Consistent(s.(live := s.live[id := s.live[id].(silent := silent, when := at)]))
  {
  }

  lemma LiveEntry(s: Tracker, id: nat)
    requires Consistent(s) && id in s.live
    ensures s.live[id].rtRsp > 0 ==> s.live[id].rspCode.Some?
  {
  }

  lemma FreeConsistent(s: Tracker, id: nat)
    requires Consistent(s) && id in s.live
    ensures Consistent(s.(live := s.live - {id}, tree := s.tree - {s.live[id].key}))
  {
  }

  class RequestTracker {
    const timeout: nat
    const filtered: bool
    const asked: bool
    var now: int
    var count: nat
    var live: map<nat, Request>
    var tree: map<Key, nat>
    var lost: Counts
    var reused: Counts
    var unlinked: Counts
    var retries: Counts
    ghost var past: Tally
    ghost var fates: map<nat, Closing>
    ghost var log: seq<Note>
    ghost var strays: seq<Octet>

    ghost function View(): Tracker
      reads this
    {
      Tracker(timeout, filtered, asked, now, count, live, tree, Tally(lost, reused, unlinked, retries),
              past, fates, log, strays)
    }

    constructor (timeout: nat, filtered: bool, asked: bool, now: int)
      ensures View() == Start(timeout, filtered, asked, now) && Sound(View())
    {
      this.timeout, this.filtered, this.asked, this.now, count := timeout, filtered, asked, now, 0;
      live, tree, lost, reused, unlinked, retries := map[], map[], map[], map[], map[], map[];
      past, fates, log, strays := ZERO_TALLY, map[], [], [];
      new;
      StartSound(timeout, filtered, asked, now);
    }

    /** _request_free(): a request marked as being in the tree must be found there. */
    method RequestFree(id: nat)
      requires Consistent(View()) && id in live
      modifies this`live, this`tree
      ensures live == old(live) - {id} && tree == old(tree) - {old(live[id].key)}
    {
      var r := live[id];
      if r.inTree {
        assert r.key in tree && tree[r.key] == id;
        tree := tree - {r.key};
      }
      live := live - {id};
    }

    /** The counting half of rs_packet_cleanup(). */
    method CountClosing(r: Request)
      requires r.rtRsp > 0 ==> r.rspCode.Some?
      modifies this`lost, this`retries
      ensures Tally(lost, reused, unlinked, retries) ==
              CloseTally(old(Tally(lost, reused, unlinked, retries)), r, r.silent)
    {
      hide Inc;
      if !r.silent {
        if !r.linked {
          lost := Inc(lost, r.code);
        }
      }
      if r.rtReq > 0 {
        var times := if r.rtReq > MAX_RETRIES then MAX_RETRIES else r.rtReq;
        retries := Inc(retries, r.code * (MAX_RETRIES + 1) + times);
      }
      if r.rtRsp > 0 {
        var times := if r.rtRsp > MAX_RETRIES then MAX_RETRIES else r.rtRsp;
        retries := Inc(retries, r.rspCode.v * (MAX_RETRIES + 1) + times);
      }
    }

    /** rs_packet_cleanup(); nothing is counted while radsniff exits. */
    method PacketCleanup(exiting: bool, id: nat, ghost cause: Cause, ghost code: Octet, at: TimeVal)
      requires Consistent(View()) && id in live
      modifies this
      ensures !exiting ==> View() == Cleanup(old(View()), id, old(live[id].silent), cause, code, at)
      ensures exiting ==>
        var s := old(View());
        View() == s.(live := s.live - {id}, tree := s.tree - {s.live[id].key}) && Consistent(View())
    {
      hide CloseTally, ClosingOf, Micros, FateOf, Consistent;
      if exiting {
        FreeConsistent(View(), id);
        RequestFree(id);
        return;
      }
      var r := live[id];
      LiveEntry(View(), id);
      CountClosing(r);
      fates := fates[id := ClosingOf(r, cause, code)];
      log := log + [Closed(id, FateOf(r, cause), Micros(at), cause)];
      ConsistentSame(old(View()), View());
      RequestFree(id);
    }

    /** RS_CLEANUP_NOW(). */
    method CleanupNow(id: nat, silent: bool, ghost cause: Cause, ghost code: Octet, at: TimeVal)
      requires Consistent(View()) && id in live && cause != TimedOut
      modifies this
      ensures View() == Cleanup(old(View()), id, silent, cause, code, at)
    {
      hide Consistent, Micros;
      ConsistentSilent(View(), id, silent, at);
      live := live[id := live[id].(silent := silent, when := at)];
      PacketCleanup(false, id, cause, code, at);
      assert live == old(live) - {id};
    }

    method ProcessResponse(at: TimeVal, key: Key, code: Octet, v: Verdict)
      requires Sound(View()) && Enabled(View(), ResponseSeen(at, key, code, v))
      modifies this
      ensures View() == Step(old(View()), ResponseSeen(at, key, code, v)) && Sound(View())
    {
      hide Response, Accounted, Timed;
      StepSound(View(), ResponseSeen(at, key, code, v));
      now := Micros(at);
      MatchResponse(at, key, code, v);
      count := count + 1;
    }

    /** The response half of rs_packet_process(). */
    method MatchResponse(at: TimeVal, key: Key, code: Octet, v: Verdict)
      requires Consistent(View())
      modifies this
      ensures View() == Response(old(View()), at, key, code, v)
    {
      hide Cleanup, Consistent, AddMs, Micros;
      TreeEntry(View(), key);
      if key in tree {
        var id := tree[key];
        if !v.code {
          CleanupNow(id, true, Dropped, code, at);
        } else if v.verified && v.decoded {
          if !v.attrs {
            CleanupNow(id, true, Dropped, code, at);
          } else {
            LinkResponse(id, at, code);
          }
        }
      } else if v.code && v.decoded && !asked {
        unlinked := Inc(unlinked, code);
        strays := strays + [code];
      }
    }

    /** A response that matched: a first one, or a retransmission. */
    method LinkResponse(id: nat, at: TimeVal, code: Octet)
      requires id in live
      modifies this`live, this`log
      ensures var r := old(live[id]);
        live == old(live)[id := if r.linked then r.(rtRsp := r.rtRsp + 1, when := AddMs(at, timeout))
                                else r.(linked := true, rspCode := Some(code), when := AddMs(at, timeout))]
      ensures log == old(log) + [Replied(id, Micros(at), code)]
    {
      var r := live[id];
      if r.linked {
        r := r.(rtRsp := r.rtRsp + 1);
      } else {
        r := r.(rspCode := Some(code));
      }
      live := live[id := r.(linked := true, when := AddMs(at, timeout))];
      log := log + [Replied(id, Micros(at), code)];
    }

    method ProcessRequest(at: TimeVal, key: Key, vector: Str, code: Octet, v: Verdict)
      requires Sound(View()) && Enabled(View(), RequestSeen(at, key, vector, code, v))
      modifies this
      ensures View() == Step(old(View()), RequestSeen(at, key, vector, code, v)) && Sound(View())
    {
      hide Retire, Transmit, Accounted, Timed;
      StepSound(View(), RequestSeen(at, key, vector, code, v));
      now := Micros(at);
      if v.code && v.verified && v.decoded {
        RetireReused(at, key, vector, code);
        if v.attrs {
          SendRequest(at, key, vector, code);
        }
      }
      count := count + 1;
    }

    /** The id was reused before the old request timed out. */
    method RetireReused(at: TimeVal, key: Key, vector: Str, code: Octet)
      requires Consistent(View())
      modifies this
      ensures View() == Retire(old(View()), at, key, vector, code)
    {
      if key in tree && live[tree[key]].vector != vector {
        var id := tree[key];
        if !live[id].linked {
          reused := Inc(reused, code);
          CleanupNow(id, true, IdReused, code, at);
        } else {
          CleanupNow(id, false, IdReused, code, at);
        }
      }
    }

    /** A retransmission, or a new request, whose insertion never conflicts. */
    method SendRequest(at: TimeVal, key: Key, vector: Str, code: Octet)
      requires Consistent(View())
      modifies this
      ensures View() == Transmit(old(View()), at, key, vector, code)
    {
      hide Consistent, Micros, AddMs;
      TreeEntry(View(), key);
      var id, r;
      if key in tree {
        id := tree[key];
        r := live[id];
        r := r.(rtReq := r.rtReq + 1, linked := false);
      } else {
        id := count;
        r := Request(key, vector, code, false, at, 0, 0, None, filtered, false);
      }
      if !r.inTree {
        assert key !in tree;
        tree := tree[key := id];
        r := r.(inTree := true);
      }
      live := live[id := r.(when := AddMs(at, timeout))];
      log := log + [Sent(id, Micros(at), key, vector, code)];
    }

    /** The cleanup timer of a request fires. */
    method TimerFires(at: TimeVal, id: nat)
      requires Sound(View()) && Enabled(View(), TimerFired(at, id))
      modifies this
      ensures View() == Step(old(View()), TimerFired(at, id)) && Sound(View())
    {
      hide Accounted, Timed;
      StepSound(View(), TimerFired(at, id));
      now := Micros(at);
      PacketCleanup(false, id, TimedOut, live[id].code, at);
    }

    /** rs_stats_process() clears the interval. */
    method ClearInterval(at: TimeVal)
      requires Sound(View()) && Enabled(View(), IntervalEnd(at))
      modifies this
      ensures View() == Step(old(View()), IntervalEnd(at)) && Sound(View())
    {
      hide Accounted, Timed, Together;
      StepSound(View(), IntervalEnd(at));
      now := Micros(at);
      past := Together(past, Tally(lost, reused, unlinked, retries));
      lost, reused, unlinked, retries := map[], map[], map[], map[];
    }
  }
}
