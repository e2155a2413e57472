/** A whole step of the dedup bio with all its lines as they are written: from any state the
    documented machine can be in, it does what the machine does exactly if a condition holds that
    can be read off the state and the event; otherwise it breaks the pool law. */
module DedupStep {
  import opened Wrappers
  import opened Octets
  import opened DedupMachine
  import opened DedupRuns
  import opened DedupFlush
  import opened DedupAsWritten

  // ---- entries a step does not touch --------------------------------------------------------

  /** Entry j is as it was and where it was. */
  ghost predicate Untouched(s: Dedup, t: Dedup, j: nat) {
    && j < |s.entries| == |t.entries| && t.entries[j] == s.entries[j]
    && (j in t.free <==> j in s.free) && (j in t.active <==> j in s.active)
    && (j in t.pending <==> j in s.pending) && (j in t.tree <==> j in s.tree)
    && (t.partial == Some(j) <==> s.partial == Some(j)) && t.incoming == s.incoming
  }

  lemma HomeUntouched(s: Dedup, t: Dedup, j: nat)
    requires Untouched(s, t, j)
    ensures Home(s, j) <==> Home(t, j)
  {
  }

  lemma {:induction false} InsertIn(l: seq<nat>, entries: seq<Entry>, i: nat)
    ensures forall j :: j in Insert(l, entries, i) <==> j in l || j == i
  {
    if l != [] {
      InsertIn(l[1..], entries, i);
    }
  }

  lemma {:induction false} RemoveIn(l: seq<nat>, i: nat)
    ensures forall j :: j != i ==> (j in Remove(l, i) <==> j in l)
  {
    if l != [] {
      RemoveIn(l[1..], i);
    }
  }

  lemma {:induction false} InsertUntouched(s: Dedup, i: nat, e: Entry, j: nat)
    requires i < |s.entries| && j < |s.entries| && j != i
    ensures Untouched(s, InsertAsWritten(s, i, e), j)
  {
    InsertIn(s.tree, s.entries[i := e], i);
  }

  lemma {:induction false} LiftUntouched(s: Dedup, i: nat, j: nat)
    requires i < |s.entries| && j < |s.entries| && j != i
    requires s.entries[i].state !in {Partial, Cancelled}
    ensures Untouched(s, Lift(s, i), j)
  {
    RemoveIn(s.free, i);
    RemoveIn(s.active, i);
    RemoveIn(s.pending, i);
    RemoveIn(s.tree, i);
  }

  lemma UntouchedTwice(s: Dedup, t: Dedup, u: Dedup, j: nat)
    requires Untouched(s, t, j) && Untouched(t, u, j)
    ensures Untouched(s, u, j)
  {
  }

  lemma {:induction false} FlushHeadUntouched(s: Dedup, now: int, answer: int, j: nat)
    requires s.pending != [] && s.pending[0] < |s.entries| && j < |s.entries| && j != s.pending[0]
    requires s.partial != Some(j)
    ensures Untouched(s, FlushHeadAsWritten(s, now, answer), j)
  {
    var i, t := s.pending[0], s.(pending := s.pending[1..]);
    assert s.pending == [i] + s.pending[1..];
    var e := s.entries[i];
    var k := Accept(answer, |e.reply|);
    if e.expires > now && k == |e.reply| > 0 {
      InsertUntouched(Begin(t, e.reply, k), i, e.(state := Replied), j);
    }
  }

  // ---- the flush ----------------------------------------------------------------------------

  /** fr_bio_dedup_flush_pending(). */
  function FlushAsWritten(s: Dedup, now: int, rs: seq<int>): (r: (Dedup, int, seq<int>))
    ensures |r.0.entries| == |s.entries|
    decreases |s.pending|
  {
    if s.pending == [] || s.pending[0] >= |s.entries| then (s, 0, rs)
    else
      var e, t := s.entries[s.pending[0]], FlushHeadAsWritten(s, now, First(rs));
      if e.expires <= now then FlushAsWritten(t, now, rs)
      else
        var k := Accept(First(rs), |e.reply|);
        if k <= 0 then (t, k, Rest(rs))
        else if k == |e.reply| then FlushAsWritten(t, now, Rest(rs))
        else (t, WOULD_BLOCK, Rest(rs))
  }

  lemma {:induction false} FlushUntouched(s: Dedup, now: int, rs: seq<int>, j: nat)
    requires s.partial == None && j < |s.entries| && j !in s.pending
    ensures Untouched(s, FlushAsWritten(s, now, rs).0, j)
    decreases |s.pending|
  {
    hide FlushHeadAsWritten, Untouched;
    UntouchedSelf(s, j);
    if s.pending != [] && s.pending[0] < |s.entries| {
      assert s.pending[0] in s.pending;
      var t := FlushHeadAsWritten(s, now, First(rs));
      FlushHeadUntouched(s, now, First(rs), j);
      FlushHeadSlot(s, now, First(rs));
      var e := s.entries[s.pending[0]];
      if e.expires <= now {
        FlushUntouched(t, now, rs, j);
        UntouchedTwice(s, t, FlushAsWritten(t, now, rs).0, j);
      } else if Accept(First(rs), |e.reply|) == |e.reply| > 0 {
        FlushUntouched(t, now, Rest(rs), j);
        UntouchedTwice(s, t, FlushAsWritten(t, now, Rest(rs)).0, j);
      }
    }
  }

  lemma UntouchedSelf(s: Dedup, j: nat)
    requires j < |s.entries|
    ensures Untouched(s, s, j)
  {
  }

  lemma FlushHeadSlot(s: Dedup, now: int, answer: int)
    requires s.pending != [] && s.pending[0] < |s.entries|
    ensures var e, t := s.entries[s.pending[0]], FlushHeadAsWritten(s, now, answer);
      && t.incoming == s.incoming
      && (t.partial == s.partial || (e.expires > now && 0 < Accept(answer, |e.reply|) < |e.reply|))
  {
  }

  /** Answers not used yet are left over, and the entry being received stays. */
  lemma {:induction false} FlushAsWrittenRest(s: Dedup, now: int, rs: seq<int>)
    ensures var (t, c, rest) := FlushAsWritten(s, now, rs);
      && t.incoming == s.incoming && |rest| <= |rs| && rest == rs[|rs| - |rest|..]
      && (s.mode == Direct && c >= 0 ==> t.mode == Direct) && (s.partial == None && c >= 0 ==> t.partial == None)
    decreases |s.pending|
  {
    if s.pending != [] && s.pending[0] < |s.entries| {
      var e, t := s.entries[s.pending[0]], FlushHeadAsWritten(s, now, First(rs));
      if e.expires <= now {
        FlushAsWrittenRest(t, now, rs);
      } else if Accept(First(rs), |e.reply|) == |e.reply| > 0 {
        FlushAsWrittenRest(t, now, Rest(rs));
      }
    }
  }

  /** Every pending reply is still valid, is taken whole, and expires at a time of its own. */
  ghost predicate CleanFlush(s: Dedup, now: int, rs: seq<int>) {
    && |s.pending| <= |rs|
    && (forall j :: 0 <= j < |s.pending| && s.pending[j] < |s.entries| ==> CleanAt(s, j, now, rs[j]))
    && (forall j, k :: 0 <= j < k < |s.pending| && s.pending[j] < |s.entries| && s.pending[k] < |s.entries| ==>
          s.entries[s.pending[j]].expires != s.entries[s.pending[k]].expires)
  }

  ghost predicate CleanAt(s: Dedup, j: nat, now: int, answer: int)
    requires j < |s.pending| && s.pending[j] < |s.entries|
  {
    var e := s.entries[s.pending[j]];
    e.expires > now && answer >= |e.reply| && !Tied(s, e.expires)
  }

  /** After a clean round the head is in the tree. */
  lemma {:induction false} TiedAfter(s: Dedup, u: Dedup, i: nat, x: int)
    requires i < |s.entries| && u.entries == s.entries[i := s.entries[i].(state := Replied)]
    requires forall j :: j in u.tree <==> j in s.tree || j == i
    ensures Tied(u, x) <==> Tied(s, x) || s.entries[i].expires == x
  {
    if Tied(s, x) {
      var j :| j in s.tree && j < |s.entries| && s.entries[j].expires == x;
      assert j in u.tree && u.entries[j].expires == x;
    }
    if s.entries[i].expires == x {
      assert i in u.tree && u.entries[i].expires == x;
    }
  }

  /** An entry behind the head is as before; it is tied if it was, or if the head has its time. */
  ghost predicate TailAt(s: Dedup, u: Dedup, j: nat)
    requires s.pending != [] && s.pending[0] < |s.entries| == |u.entries| && j < |s.entries|
  {
    var x := s.entries[j].expires;
    u.entries[j] == s.entries[j] && (Tied(u, x) <==> (Tied(s, x) || s.entries[s.pending[0]].expires == x))
  }

  ghost predicate HeadGone(s: Dedup, u: Dedup) {
    && s.pending != [] && s.pending[0] < |s.entries| == |u.entries| && u.pending == s.pending[1..]
    && forall j :: 0 <= j < |u.pending| && u.pending[j] < |s.entries| ==> TailAt(s, u, u.pending[j])
  }

  lemma {:induction false} CleanTail(s: Dedup, u: Dedup, now: int, rs: seq<int>)
    requires rs != [] && HeadGone(s, u)
    requires CleanFlush(s, now, rs)
    ensures CleanFlush(u, now, rs[1..])
  {
    hide Tied;
    forall j | 0 <= j < |u.pending| && u.pending[j] < |u.entries|
      ensures CleanAt(u, j, now, rs[1..][j])
    {
      assert u.pending[j] == s.pending[j + 1] && rs[1..][j] == rs[j + 1] && TailAt(s, u, u.pending[j]);
      assert CleanAt(s, j + 1, now, rs[j + 1]);
      assert s.entries[s.pending[0]].expires != s.entries[s.pending[j + 1]].expires;
    }
    forall j, k | 0 <= j < k < |u.pending| && u.pending[j] < |u.entries| && u.pending[k] < |u.entries|
      ensures u.entries[u.pending[j]].expires != u.entries[u.pending[k]].expires
    {
      assert TailAt(s, u, u.pending[j]) && TailAt(s, u, u.pending[k]);
      assert s.entries[s.pending[j + 1]].expires != s.entries[s.pending[k + 1]].expires;
    }
  }

  lemma {:induction false} CleanWhole(s: Dedup, u: Dedup, now: int, rs: seq<int>)
    requires rs != [] && HeadGone(s, u)
    requires CleanHead(s, now, rs[0]) && CleanFlush(u, now, rs[1..])
    ensures CleanFlush(s, now, rs)
  {
    hide Tied;
    forall j | 0 <= j < |s.pending| && s.pending[j] < |s.entries|
      ensures CleanAt(s, j, now, rs[j])
      ensures j > 0 ==> s.entries[s.pending[0]].expires != s.entries[s.pending[j]].expires
    {
      if j > 0 {
        assert u.pending[j - 1] == s.pending[j] && rs[1..][j - 1] == rs[j] && TailAt(s, u, u.pending[j - 1]);
        assert CleanAt(u, j - 1, now, rs[1..][j - 1]);
      }
    }
    forall j, k | 0 <= j < k < |s.pending| && s.pending[j] < |s.entries| && s.pending[k] < |s.entries|
      ensures s.entries[s.pending[j]].expires != s.entries[s.pending[k]].expires
    {
      if j > 0 {
        assert u.pending[j - 1] == s.pending[j] && u.pending[k - 1] == s.pending[k];
        assert TailAt(s, u, u.pending[j - 1]) && TailAt(s, u, u.pending[k - 1]);
      }
    }
  }

  lemma {:induction false} CleanFlushCons(s: Dedup, u: Dedup, now: int, rs: seq<int>)
    requires Placed(s) && s.pending != [] && s.pending[0] < |s.entries| && rs != []
    requires u.pending == s.pending[1..]
    requires u.entries == s.entries[s.pending[0] := s.entries[s.pending[0]].(state := Replied)]
    requires forall j :: j in u.tree <==> j in s.tree || j == s.pending[0]
    ensures CleanFlush(s, now, rs) <==> CleanHead(s, now, rs[0]) && CleanFlush(u, now, rs[1..])
  {
    hide Tied, Home;
    var i, tail := s.pending[0], s.pending[1..];
    assert s.pending == [i] + tail;
    DistinctCons(i, tail);
    forall j | 0 <= j < |tail| && tail[j] < |s.entries|
      ensures TailAt(s, u, tail[j])
    {
      assert tail[j] in tail;
      TiedAfter(s, u, i, s.entries[tail[j]].expires);
    }
    if CleanFlush(s, now, rs) {
      assert CleanAt(s, 0, now, rs[0]);
      CleanTail(s, u, now, rs);
    }
    if CleanHead(s, now, rs[0]) && CleanFlush(u, now, rs[1..]) {
      CleanWhole(s, u, now, rs);
    }
  }

  /** Some entry that was pending is not where its state says. */
  ghost predicate PendingHarmed(s: Dedup, t: Dedup) {
    |t.entries| == |s.entries| && exists j :: 0 <= j < |s.entries| && s.entries[j].state == Pending && !Home(t, j)
  }

  /** The flush as written is the flush as documented exactly if it is clean. */
  lemma {:induction false} FlushAsWrittenIff(s: Dedup, now: int, rs: seq<int>)
    requires Inv(s) && s.mode == Direct
    ensures CleanFlush(s, now, rs) ==> FlushAsWritten(s, now, rs) == FlushPending(s, now, rs)
    ensures !CleanFlush(s, now, rs) ==> PendingHarmed(s, FlushAsWritten(s, now, rs).0)
    decreases |s.pending|
  {
    hide Placed, Sorted, Tenured, Streamed, Move, Release, Blocked, FlushHeadAsWritten, CleanFlush, Home, Tied;
    if s.pending == [] {
      NothingToFlush(s, now, rs);
    } else {
      FlushHeadAsWrittenIff(s, now, First(rs));
      var i := s.pending[0];
      if CleanHead(s, now, First(rs)) {
        FlushSent(s, now, rs);
        HeadOnce(s);
        var m := s.entries[i].reply;
        var u := MoveTo(Begin(s, m, |m|), i, Replied);
        HeadInTree(s);
        CleanFlushCons(s, u, now, rs);
        FlushAsWrittenIff(u, now, Rest(rs));
        StillHarmed(s, u, FlushAsWritten(u, now, Rest(rs)).0);
      } else {
        HeadHarmed(s, now, rs);
      }
    }
  }

  lemma NothingToFlush(s: Dedup, now: int, rs: seq<int>)
    requires s.pending == []
    ensures CleanFlush(s, now, rs)
  {
  }

  lemma {:induction false} HeadInTree(s: Dedup)
    requires Placed(s) && s.pending != [] && s.pending[0] < |s.entries|
    requires s.entries[s.pending[0]].state == Pending && s.entries[s.pending[0]].reply != []
    ensures var i := s.pending[0]; var m := s.entries[i].reply; var u := MoveTo(Begin(s, m, |m|), i, Replied);
      forall j :: j in u.tree <==> j in s.tree || j == i
  {
    var i := s.pending[0];
    InsertIn(s.tree, s.entries[i := s.entries[i].(state := Replied)], i);
  }

  lemma StillHarmed(s: Dedup, u: Dedup, t: Dedup)
    requires s.pending != [] && s.pending[0] < |s.entries|
    requires u.entries == s.entries[s.pending[0] := s.entries[s.pending[0]].(state := Replied)]
    ensures PendingHarmed(u, t) ==> PendingHarmed(s, t)
  {
  }

  /** A head that is not clean is lost for good. */
  lemma {:induction false} HeadHarmed(s: Dedup, now: int, rs: seq<int>)
    requires Inv(s) && s.mode == Direct && s.pending != [] && s.pending[0] < |s.entries|
    requires !CleanHead(s, now, First(rs))
    ensures !CleanFlush(s, now, rs) && PendingHarmed(s, FlushAsWritten(s, now, rs).0)
  {
    hide Placed, Sorted, Tenured, FlushHeadAsWritten, Home, Tied, Untouched;
    var i, t := s.pending[0], FlushHeadAsWritten(s, now, First(rs));
    assert CleanFlush(s, now, rs) ==> CleanAt(s, 0, now, rs[0]);
    FlushHeadAsWrittenIff(s, now, First(rs));
    FlushHeadSlot(s, now, First(rs));
    HeadOnce(s);
    NotHomeNotPlaced(t, i);
    var e := s.entries[i];
    var final := FlushAsWritten(s, now, rs).0;
    if e.expires <= now {
      FlushUntouched(t, now, rs, i);
      HomeUntouched(t, final, i);
    } else if Accept(First(rs), |e.reply|) == |e.reply| {
      FlushUntouched(t, now, Rest(rs), i);
      HomeUntouched(t, final, i);
    }
    assert !Home(final, i);
  }

  lemma {:induction false} HeadOnce(s: Dedup)
    requires Placed(s) && s.pending != []
    ensures s.pending[0] < |s.entries| && s.entries[s.pending[0]].state == Pending
    ensures s.pending[0] !in s.pending[1..]
  {
    HeadPending(s);
    assert s.pending == [s.pending[0]] + s.pending[1..];
    DistinctCons(s.pending[0], s.pending[1..]);
  }

  // ---- writing ------------------------------------------------------------------------------

  /** fr_bio_dedup_write(). */
  function DirectWriteAsWritten(s: Dedup, item: Option<nat>, data: Option<Str>, now: int, answer: int): (r: Dedup)
    requires CanWrite(s, item, data, [answer])
    ensures |r.entries| == |s.entries|
  {
    if data.None? then s
    else
      var m := data.v;
      var k := Accept(answer, |m|);
      if k <= 0 then s
      else if k == |m| then
        if item.Some? then MarkRepliedAsWritten(Begin(s, m, k), item.v, now) else Begin(s, m, k)
      else if item.None? then Begin(s, m, k).(mode := FinishData)
      else assert [answer][0] == k; BlockedAsWritten(s, item.v, k)
  }

  /** A packet for an entry is not partly taken, and the entry finds its place in the tree. */
  predicate CleanWrite(s: Dedup, item: Option<nat>, data: Option<Str>, tied: bool, answer: int) {
    item.Some? && item.v < |s.entries| && data.Some? && answer > 0 ==>
      answer >= |data.v| && (data.v == [] || s.entries[item.v].state == Replied || !tied)
  }

  lemma {:induction false} DirectWriteAsWrittenIff(s: Dedup, item: Option<nat>, data: Option<Str>, now: int,
                                                   answer: int)
    requires Inv(s) && s.mode == Direct && CanWrite(s, item, data, [answer])
    ensures var t := DirectWriteAsWritten(s, item, data, now, answer);
      if CleanWrite(s, item, data, Tied(s, now + s.lifetime), answer)
      then t == DirectWrite(s, item, data, now, answer).0
      else item.Some? && item.v < |t.entries| && !Home(t, item.v)
  {
    hide Placed, Sorted, Tenured, MarkReplied, MarkRepliedAsWritten, BlockedAsWritten, Blocked, Home, Tied;
    if item.Some? && data.Some? && answer > 0 && data.v != [] {
      assert [answer][0] == answer;
      var k := Accept(answer, |data.v|);
      if k == |data.v| {
        MarkAfterBegin(s, item.v, data.v, now);
      } else {
        BlockedAsWrittenBreaks(s, item.v, k);
      }
    }
  }

  lemma {:induction false} MarkUntouched(s: Dedup, i: nat, now: int, j: nat)
    requires i < |s.entries| && j < |s.entries| && j != i && s.entries[i].state in {Active, Replied}
    ensures Untouched(s, MarkRepliedAsWritten(s, i, now), j)
  {
    hide Lift, InsertAsWritten, Untouched;
    UntouchedSelf(s, j);
    if s.entries[i].state != Replied {
      var e := s.entries[i].(state := Replied, expires := now + s.lifetime);
      LiftUntouched(s, i, j);
      LiftElsewhere(s, i);
      InsertUntouched(Lift(s, i), i, e, j);
      UntouchedTwice(s, Lift(s, i), InsertAsWritten(Lift(s, i), i, e), j);
    }
  }

  lemma {:induction false} DirectWriteUntouched(s: Dedup, item: Option<nat>, data: Option<Str>, now: int,
                                                answer: int, j: nat)
    requires CanWrite(s, item, data, [answer]) && j < |s.entries| && s.partial != Some(j)
    requires item.Some? && data.Some? ==> item.v != j
    ensures Untouched(s, DirectWriteAsWritten(s, item, data, now, answer), j)
  {
    hide MarkRepliedAsWritten, Lift;
    if data.Some? && Accept(answer, |data.v|) > 0 && item.Some? {
      assert [answer][0] == answer;
      var k := Accept(answer, |data.v|);
      LiftUntouched(s, item.v, j);
      LiftElsewhere(s, item.v);
      if k == |data.v| {
        MarkUntouched(Begin(s, data.v, k), item.v, now, j);
      } else {
        LiftUntouched(Begin(s, data.v, k), item.v, j);
        LiftElsewhere(Begin(s, data.v, k), item.v);
      }
    }
  }

  /** What fr_bio_dedup_write_partial() and fr_bio_dedup_write_data() do once the message in the
      buffer is out, up to the flush. */
  function SettledAsWritten(s: Dedup, now: int): (r: Dedup)
    requires Finished(s)
    ensures |r.entries| == |s.entries|
  {
    UnblockInv(s, now);
    if s.mode == FinishPartial then
      PartialSlot(s, s.partial.v);
      SettleMarkedAsWritten(s, s.partial.v, now).(mode := Direct)
    else s.(mode := Direct)
  }

  /** my->bio.write(), whichever of the three functions it is: the write function is reset only after
      a flush that did not fail. */
  function WriteAsWritten(s: Dedup, item: Option<nat>, data: Option<Str>, now: int, rs: seq<int>): (r: Dedup)
    requires Inv(s) && CanWrite(s, item, data, rs)
    ensures |r.entries| == |s.entries|
  {
    if s.mode == Direct then
      StillCanWrite(s, s, item, data, rs, 0);
      assert rs[0..] == rs;
      DirectWriteAsWritten(s, item, data, now, First(rs))
    else
      BufferWriteInv(s, First(rs));
      var (t, k) := BufferWrite(s, First(rs));
      if k <= 0 then t
      else
        var u := SettledAsWritten(t, now);
        var (v, c, rest) := FlushAsWritten(u, now, Rest(rs));
        if c < 0 then if v.mode == Direct then v.(mode := s.mode) else v
        else
          ItemKept(s, t, u, v, item, data, now, rs);
          DirectWriteAsWritten(v, item, data, now, First(rest))
  }

  /** Settling and flushing as written leave the entry a packet is written for alone. */
  lemma {:induction false} ItemKept(s: Dedup, t: Dedup, u: Dedup, v: Dedup, item: Option<nat>, data: Option<Str>,
                                    now: int, rs: seq<int>)
    requires Inv(s) && s.mode != Direct && CanWrite(s, item, data, rs)
    requires t == BufferWrite(s, First(rs)).0 && BufferWrite(s, First(rs)).1 > 0 && Finished(t)
    requires u == SettledAsWritten(t, now) && v == FlushAsWritten(u, now, Rest(rs)).0
    ensures CanWrite(v, item, data, [First(FlushAsWritten(u, now, Rest(rs)).2)])
    ensures item.Some? && data.Some? ==> Untouched(t, v, item.v)
  {
    hide Placed, Sorted, Tenured, Flatten, SettleMarkedAsWritten, Untouched, Streamed;
    BufferWriteInv(s, First(rs));
    var rest := FlushAsWritten(u, now, Rest(rs)).2;
    SettledUntouched(t, now);
    FlushAsWrittenRest(u, now, Rest(rs));
    if item.Some? && data.Some? {
      var i := item.v;
      NotQueued(t, i);
      assert Untouched(t, u, i);
      PendingSame(t, u, i);
      FlushUntouched(u, now, Rest(rs), i);
      UntouchedTwice(t, u, v, i);
      EntrySame(t, v, i);
    }
    StillCanWrite(s, v, item, data, rs, |rs| - |rest|);
    assert rest == rs[|rs| - |rest|..];
  }

  lemma EntrySame(s: Dedup, t: Dedup, i: nat)
    requires Untouched(s, t, i)
    ensures i < |s.entries| == |t.entries| && t.entries[i] == s.entries[i]
  {
  }

  lemma PendingSame(s: Dedup, t: Dedup, i: nat)
    requires Untouched(s, t, i) && i !in s.pending
    ensures i !in t.pending
  {
  }

  lemma NotQueued(s: Dedup, i: nat)
    requires Placed(s) && i < |s.entries| && s.entries[i].state in {Active, Replied}
    ensures i !in s.pending && s.partial != Some(i)
  {
    assert Home(s, i);
  }

  /** Only the partly written entry is touched by settling, and the slot is free afterwards. */
  lemma {:induction false} SettledUntouched(s: Dedup, now: int)
    requires Finished(s)
    ensures var t := SettledAsWritten(s, now);
      && t.partial == None && t.incoming == s.incoming && t.pending == s.pending && t.mode == Direct
      && forall j :: 0 <= j < |s.entries| && s.partial != Some(j) ==> Untouched(s, t, j)
  {
    hide Placed, Sorted, Tenured, Flatten;
    UnblockInv(s, now);
    if s.mode == FinishPartial {
      PartialSlot(s, s.partial.v);
      var i := s.partial.v;
      forall j | 0 <= j < |s.entries| && j != i
        ensures Untouched(s, SettledAsWritten(s, now), j)
      {
        InsertUntouched(s.(partial := None), i, s.entries[i].(state := Active), j);
      }
    }
  }

  ghost predicate PendingTied(s: Dedup, expires: int) {
    exists j :: j in s.pending && j < |s.entries| && s.entries[j].expires == expires
  }

  /** What a clean flush leaves: all answers are used in order, and the pending entries are in the
      tree. */
  lemma {:induction false} CleanFlushLeaves(s: Dedup, now: int, rs: seq<int>, x: int)
    requires Inv(s) && s.mode == Direct && CleanFlush(s, now, rs)
    ensures var (t, c, rest) := FlushPending(s, now, rs);
      && c == 0 && t.mode == Direct && rest == rs[|s.pending|..]
      && (Tied(t, x) <==> Tied(s, x) || PendingTied(s, x))
    decreases |s.pending|
  {
    hide Placed, Sorted, Tenured, Streamed, Move, Release, Blocked, Tied, PendingTied;
    if s.pending == [] {
      NonePending(s, x);
    } else {
      HeadOnce(s);
      var i := s.pending[0];
      assert CleanAt(s, 0, now, rs[0]);
      FlushSent(s, now, rs);
      var m := s.entries[i].reply;
      var u := MoveTo(Begin(s, m, |m|), i, Replied);
      HeadInTree(s);
      CleanFlushCons(s, u, now, rs);
      CleanFlushLeaves(u, now, Rest(rs), x);
      TiedAfter(s, u, i, x);
      PendingCons(s, u, x);
    }
  }

  lemma NonePending(s: Dedup, x: int)
    requires s.pending == []
    ensures !PendingTied(s, x)
  {
  }

  lemma {:induction false} PendingCons(s: Dedup, u: Dedup, x: int)
    requires s.pending != [] && s.pending[0] < |s.entries| && u.pending == s.pending[1..]
    requires u.entries == s.entries[s.pending[0] := s.entries[s.pending[0]].(state := Replied)]
    ensures PendingTied(s, x) <==> s.entries[s.pending[0]].expires == x || PendingTied(u, x)
  {
    var i := s.pending[0];
    assert s.pending == [i] + u.pending;
    if PendingTied(u, x) {
      var j :| j in u.pending && j < |u.entries| && u.entries[j].expires == x;
      assert j in s.pending && s.entries[j].expires == x;
    }
    if PendingTied(s, x) {
      var j :| j in s.pending && j < |s.entries| && s.entries[j].expires == x;
      assert j == i || (j in u.pending && u.entries[j].expires == x);
    }
  }

  /** Cleanness looks at the pending entries and the tree only. */
  ghost predicate SameQueue(s: Dedup, t: Dedup) {
    && |t.entries| == |s.entries| && t.pending == s.pending && t.tree == s.tree && t.lifetime == s.lifetime
    && (forall j :: j in s.pending + s.tree && j < |s.entries| ==> t.entries[j] == s.entries[j])
  }

  lemma {:induction false} SameQueueSame(s: Dedup, t: Dedup, now: int, rs: seq<int>, x: int)
    requires SameQueue(s, t)
    ensures CleanFlush(s, now, rs) <==> CleanFlush(t, now, rs)
    ensures Tied(s, x) <==> Tied(t, x)
    ensures PendingTied(s, x) <==> PendingTied(t, x)
  {
    forall y
      ensures Tied(s, y) <==> Tied(t, y)
    {
      SameTied(s, t, y);
    }
    forall j | 0 <= j < |s.pending| && s.pending[j] < |s.entries|
      ensures t.entries[s.pending[j]] == s.entries[s.pending[j]]
    {
      assert s.pending[j] in s.pending + s.tree;
    }
    SamePendingTied(s, t, x);
    if |s.pending| <= |rs| {
      assert forall j :: 0 <= j < |s.pending| && s.pending[j] < |s.entries| ==>
        (CleanAt(s, j, now, rs[j]) <==> CleanAt(t, j, now, rs[j]));
    }
  }

  lemma SameTied(s: Dedup, t: Dedup, x: int)
    requires SameQueue(s, t)
    ensures Tied(s, x) <==> Tied(t, x)
  {
    assert forall j :: j in s.tree ==> j in s.pending + s.tree;
  }

  lemma SamePendingTied(s: Dedup, t: Dedup, x: int)
    requires SameQueue(s, t)
    ensures PendingTied(s, x) <==> PendingTied(t, x)
  {
    assert forall j :: j in s.pending ==> j in s.pending + s.tree;
  }

  /** A write is done as documented if it is not blocked any more by a reply that was partly written,
      unless that was cancelled, if the flush is clean, and the packet itself. */
  ghost predicate CleanOutput(s: Dedup, item: Option<nat>, data: Option<Str>, now: int, rs: seq<int>) {
    var x := now + s.lifetime;
    if s.mode == Direct then CleanWrite(s, item, data, Tied(s, x), First(rs))
    else
      First(rs) < |s.buffer| ||
      ( && (s.partial.Some? && s.partial.v < |s.entries| ==> s.entries[s.partial.v].state == Cancelled)
        && CleanFlush(s, now, Rest(rs))
        && CleanWrite(s, item, data, Tied(s, x) || PendingTied(s, x), First(Rest(rs)[|s.pending|..])))
  }

  /** The message in the buffer is out: what the three parts of the rest of the write are. */
  ghost predicate Parts(s: Dedup, item: Option<nat>, data: Option<Str>, now: int, rs: seq<int>, t: Dedup, u: Dedup,
                        v: Dedup, c: int, rest: seq<int>) {
    && Inv(s) && s.mode != Direct && CanWrite(s, item, data, rs) && First(rs) >= |s.buffer|
    && t == BufferWrite(s, First(rs)).0 && Finished(t)
    && u == SettledAsWritten(t, now) && (v, c, rest) == FlushAsWritten(u, now, Rest(rs))
  }

  lemma {:induction false} PartsOf(s: Dedup, item: Option<nat>, data: Option<Str>, now: int, rs: seq<int>)
    requires Inv(s) && s.mode != Direct && CanWrite(s, item, data, rs) && First(rs) >= |s.buffer|
    ensures var (t, k) := BufferWrite(s, First(rs));
      && k > 0 && Finished(t) && t.entries == s.entries && t.pending == s.pending && t.tree == s.tree
      && t.partial == s.partial && t.mode == s.mode && t.lifetime == s.lifetime && t.incoming == s.incoming
  {
    hide Pool, Flatten;
    BufferWriteInv(s, First(rs));
  }

  /** The end of the write leaves entry j alone: the packet is not for it. */
  lemma {:induction false} EndUntouched(s: Dedup, item: Option<nat>, data: Option<Str>, now: int, rs: seq<int>,
                                        t: Dedup, u: Dedup, v: Dedup, c: int, rest: seq<int>, j: nat)
    requires Parts(s, item, data, now, rs, t, u, v, c, rest)
    requires j < |v.entries| && (item.Some? && data.Some? ==> item.v != j) && !Home(v, j)
    ensures !Placed(WriteAsWritten(s, item, data, now, rs))
  {
    hide Inv, Finished, SettledAsWritten, FlushAsWritten, DirectWriteAsWritten, Placed, Home, Untouched, CanWrite;
    PartsOf(s, item, data, now, rs);
    var w := WriteAsWritten(s, item, data, now, rs);
    if c < 0 {
      HomeMode(v, s.mode, j);
    } else {
      ItemKept(s, t, u, v, item, data, now, rs);
      SettledUntouched(t, now);
      FlushAsWrittenRest(u, now, Rest(rs));
      DirectWriteUntouched(v, item, data, now, First(rest), j);
      HomeUntouched(v, w, j);
    }
    NotHomeNotPlaced(w, j);
  }

  lemma HomeMode(s: Dedup, mode: Mode, j: nat)
    requires j < |s.entries|
    ensures Home(s.(mode := mode), j) <==> Home(s, j)
  {
  }

  lemma {:induction false} UncleanSettle(s: Dedup, item: Option<nat>, data: Option<Str>, now: int, rs: seq<int>,
                                         t: Dedup, u: Dedup, v: Dedup, c: int, rest: seq<int>, i: nat)
    requires Parts(s, item, data, now, rs, t, u, v, c, rest)
    requires s.partial == Some(i) && i < |s.entries| && s.entries[i].state != Cancelled
    ensures !Placed(WriteAsWritten(s, item, data, now, rs))
  {
    hide Sorted, Tenured, Flatten, FlushAsWritten, SettleMarkedAsWritten, Home, Untouched, CanWrite;
    PartsOf(s, item, data, now, rs);
    PartialSlot(t, i);
    SettleMarkedAsWrittenIff(t, i, now);
    HomeMode(SettleMarkedAsWritten(t, i, now), Direct, i);
    SettledUntouched(t, now);
    NotInPending(t, i);
    FlushUntouched(u, now, Rest(rs), i);
    HomeUntouched(u, v, i);
    ItemIsIdle(s, item, data, rs, i);
    EntrySame(u, v, i);
    EndUntouched(s, item, data, now, rs, t, u, v, c, rest, i);
  }

  lemma NotInPending(s: Dedup, i: nat)
    requires Placed(s) && i < |s.entries| && s.entries[i].state != Pending
    ensures i !in s.pending
  {
    assert Home(s, i);
  }

  lemma ItemIsIdle(s: Dedup, item: Option<nat>, data: Option<Str>, rs: seq<int>, j: nat)
    requires CanWrite(s, item, data, rs) && j < |s.entries| && s.entries[j].state !in {Active, Replied}
    ensures item.Some? && data.Some? ==> item.v != j
  {
  }

  /** A cancelled entry, or none, is settled as documented. */
  lemma {:induction false} CleanSettle(s: Dedup, item: Option<nat>, data: Option<Str>, now: int, rs: seq<int>, t: Dedup)
    requires Inv(s) && s.mode != Direct && CanWrite(s, item, data, rs) && First(rs) >= |s.buffer|
    requires t == BufferWrite(s, First(rs)).0 && Finished(t)
    requires s.partial.Some? && s.partial.v < |s.entries| ==> s.entries[s.partial.v].state == Cancelled
    ensures var u := Unblock(t, now);
      && SettledAsWritten(t, now) == u && SameQueue(s, u)
      && forall j :: 0 <= j < |s.entries| && s.entries[j].state != Cancelled ==> u.entries[j] == s.entries[j]
  {
    hide Sorted, Tenured, Flatten, Placed, CanWrite;
    PartsOf(s, item, data, now, rs);
    UnblockInv(t, now);
    if t.mode == FinishPartial {
      var i := t.partial.v;
      PartialSlot(t, i);
      SettleMarkedAsWrittenIff(t, i, now);
      NotInTree(t, i);
      NotInPending(t, i);
    }
  }

  lemma NotInTree(s: Dedup, i: nat)
    requires Placed(s) && i < |s.entries| && s.entries[i].state != Replied
    ensures i !in s.tree
  {
    assert Home(s, i);
  }

  lemma {:induction false} UncleanFlush(s: Dedup, item: Option<nat>, data: Option<Str>, now: int, rs: seq<int>,
                                        t: Dedup, u: Dedup, v: Dedup, c: int, rest: seq<int>)
    requires Parts(s, item, data, now, rs, t, u, v, c, rest)
    requires s.partial.Some? && s.partial.v < |s.entries| ==> s.entries[s.partial.v].state == Cancelled
    requires !CleanFlush(s, now, Rest(rs))
    ensures !Placed(WriteAsWritten(s, item, data, now, rs))
  {
    hide Inv, Finished, SettledAsWritten, FlushAsWritten, CleanFlush, Unblock, CanWrite, Home, SameQueue;
    PartsOf(s, item, data, now, rs);
    CleanSettle(s, item, data, now, rs, t);
    UnblockInv(t, now);
    SameQueueSame(s, u, now, Rest(rs), 0);
    FlushAsWrittenIff(u, now, Rest(rs));
    var j :| 0 <= j < |u.entries| && u.entries[j].state == Pending && !Home(v, j);
    UnblockPending(t, now);
    OnlyQueuedPending(t, u, j);
    ItemIsIdle(s, item, data, rs, j);
    EndUntouched(s, item, data, now, rs, t, u, v, c, rest, j);
  }

  /** Settling makes no entry pending. */
  lemma OnlyQueuedPending(s: Dedup, u: Dedup, j: nat)
    requires Finished(s) && Inv(u) && u.pending == s.pending && j < |s.entries| == |u.entries|
    requires u.entries[j].state == Pending
    ensures s.entries[j].state == Pending
  {
    assert Home(u, j);
    assert Home(s, j);
  }

  lemma {:induction false} CleanEnd(s: Dedup, item: Option<nat>, data: Option<Str>, now: int, rs: seq<int>,
                                    t: Dedup, u: Dedup, v: Dedup, c: int, rest: seq<int>)
    requires Parts(s, item, data, now, rs, t, u, v, c, rest)
    requires s.partial.Some? && s.partial.v < |s.entries| ==> s.entries[s.partial.v].state == Cancelled
    requires CleanFlush(s, now, Rest(rs))
    ensures var w, x := WriteAsWritten(s, item, data, now, rs), now + s.lifetime;
      if CleanWrite(s, item, data, Tied(s, x) || PendingTied(s, x), First(Rest(rs)[|s.pending|..]))
      then w == Write(s, item, data, now, rs).0 else !Placed(w)
  {
    hide Inv, Finished, SettledAsWritten, FlushAsWritten, FlushPending, CleanFlush, Unblock, CanWrite, Home, Placed,
         SameQueue, DirectWrite, DirectWriteAsWritten, Tied, PendingTied;
    PartsOf(s, item, data, now, rs);
    CleanSettle(s, item, data, now, rs, t);
    UnblockInv(t, now);
    SameQueueSame(s, u, now, Rest(rs), now + s.lifetime);
    FlushAsWrittenIff(u, now, Rest(rs));
    FlushInv(u, now, Rest(rs));
    QueueLength(s, u);
    CleanFlushLeaves(u, now, Rest(rs), now + s.lifetime);
    ItemKept(s, t, u, v, item, data, now, rs);
    ItemEntry(t, v, item, data);
    FlushLifetime(u, now, Rest(rs));
    DirectWriteAsWrittenIff(v, item, data, now, First(rest));
    SameCleanWrite(s, v, item, data, Tied(v, now + s.lifetime), First(rest));
    if !CleanWrite(v, item, data, Tied(v, now + s.lifetime), First(rest)) {
      NotHomeNotPlaced(WriteAsWritten(s, item, data, now, rs), item.v);
    }
  }

  lemma QueueLength(s: Dedup, u: Dedup)
    requires SameQueue(s, u)
    ensures u.pending == s.pending && u.lifetime == s.lifetime
  {
  }

  lemma ItemEntry(t: Dedup, v: Dedup, item: Option<nat>, data: Option<Str>)
    requires item.Some? && data.Some? ==> Untouched(t, v, item.v)
    ensures item.Some? && data.Some? ==> item.v < |t.entries| == |v.entries| && v.entries[item.v] == t.entries[item.v]
  {
  }

  lemma SameCleanWrite(s: Dedup, v: Dedup, item: Option<nat>, data: Option<Str>, tied: bool, answer: int)
    requires item.Some? && data.Some? ==> item.v < |s.entries| == |v.entries| && v.entries[item.v] == s.entries[item.v]
    ensures CleanWrite(s, item, data, tied, answer) <==> CleanWrite(v, item, data, tied, answer)
  {
  }

  lemma {:induction false} FlushLifetime(s: Dedup, now: int, rs: seq<int>)
    requires Inv(s) && s.mode == Direct
    ensures FlushPending(s, now, rs).0.lifetime == s.lifetime
    decreases |s.pending|
  {
    hide Placed, Sorted, Tenured, Streamed, Move, Release;
    if s.pending != [] {
      HeadPending(s);
      var i := s.pending[0];
      var e := s.entries[i];
      if e.expires <= now {
        FlushExpired(s, now, rs);
        ReleaseElsewhere(s, i, Expired);
        FlushLifetime(Release(s, i, Expired), now, rs);
      } else {
        var k := Accept(First(rs), |e.reply|);
        if k > 0 {
          MoveElsewhere(Begin(s, e.reply, k), i, e.(state := Replied));
          MoveElsewhere(Begin(s, e.reply, k), i, e.(state := Partial));
          if k == |e.reply| {
            FlushSent(s, now, rs);
            FlushLifetime(MoveTo(Begin(s, e.reply, k), i, Replied), now, Rest(rs));
          }
        }
      }
    }
  }

  /** A write as written is the write as documented exactly if it is clean; otherwise some entry is
      not where its state says. */
  lemma {:induction false} WriteAsWrittenIff(s: Dedup, item: Option<nat>, data: Option<Str>, now: int, rs: seq<int>)
    requires Inv(s) && CanWrite(s, item, data, rs)
    ensures var w := WriteAsWritten(s, item, data, now, rs);
      if CleanOutput(s, item, data, now, rs) then w == Write(s, item, data, now, rs).0 else !Placed(w)
  {
    hide Inv, Finished, SettledAsWritten, FlushAsWritten, FlushPending, CleanFlush, CanWrite, Home, Placed,
         DirectWrite, DirectWriteAsWritten, Tied, PendingTied, CleanWrite;
    if s.mode == Direct {
      StillCanWrite(s, s, item, data, rs, 0);
      assert rs[0..] == rs;
      DirectWriteAsWrittenIff(s, item, data, now, First(rs));
      if !CleanOutput(s, item, data, now, rs) {
        NotHomeNotPlaced(WriteAsWritten(s, item, data, now, rs), item.v);
      }
    } else if First(rs) >= |s.buffer| {
      PartsOf(s, item, data, now, rs);
      var t := BufferWrite(s, First(rs)).0;
      var u := SettledAsWritten(t, now);
      var (v, c, rest) := FlushAsWritten(u, now, Rest(rs));
      if s.partial.Some? && s.partial.v < |s.entries| && s.entries[s.partial.v].state != Cancelled {
        UncleanSettle(s, item, data, now, rs, t, u, v, c, rest, s.partial.v);
      } else if !CleanFlush(s, now, Rest(rs)) {
        UncleanFlush(s, item, data, now, rs, t, u, v, c, rest);
      } else {
        CleanEnd(s, item, data, now, rs, t, u, v, c, rest);
      }
    } else {
      StillBlocked(s, First(rs));
    }
  }

  lemma StillBlocked(s: Dedup, answer: int)
    requires answer < |s.buffer|
    ensures BufferWrite(s, answer).1 <= 0
  {
  }

  // ---- timers --------------------------------------------------------------------------------

  /** fr_bio_dedup_timer(). */
  function ExpireAsWritten(s: Dedup, limit: int): (r: Dedup)
    ensures |r.entries| == |s.entries|
    decreases |s.tree|
  {
    if s.tree == [] || s.tree[0] >= |s.entries| || s.entries[s.tree[0]].expires > limit then s
    else
      var i := s.tree[0];
      var notes := [Released(i, Expired), Freed(i)];
      ExpireAsWritten(s.(tree := s.tree[1..], free := [i] + s.free, log := s.log + notes), limit)
  }

  lemma {:induction false} ExpireKeepsFreed(s: Dedup, limit: int, i: nat)
    requires i in s.free
    ensures i in ExpireAsWritten(s, limit).free && ExpireAsWritten(s, limit).entries == s.entries
    decreases |s.tree|
  {
    if s.tree != [] && s.tree[0] < |s.entries| && s.entries[s.tree[0]].expires <= limit {
      var j := s.tree[0];
      ExpireKeepsFreed(s.(tree := s.tree[1..], free := [j] + s.free, log := s.log + [Released(j, Expired), Freed(j)]),
                       limit, i);
    }
  }

  ghost predicate NoneDue(s: Dedup, limit: int) {
    forall j :: 0 <= j < |s.entries| && s.entries[j].state == Replied ==> s.entries[j].expires > limit
  }

  lemma {:induction false} ExpireAsWrittenIff(s: Dedup, limit: int)
    requires Inv(s)
    ensures NoneDue(s, limit) ==> ExpireAsWritten(s, limit) == s == Expire(s, limit)
    ensures !NoneDue(s, limit) ==> !Placed(ExpireAsWritten(s, limit))
  {
    hide Tenured, Streamed, Home;
    if s.tree == [] || s.entries[s.tree[0]].expires > limit {
      NothingDue(s, limit);
    } else {
      HeadReplied(s);
      var i := s.tree[0];
      var t := s.(tree := s.tree[1..], free := [i] + s.free, log := s.log + [Released(i, Expired), Freed(i)]);
      ExpireKeepsFreed(t, limit, i);
      FreedNotFree(ExpireAsWritten(s, limit), i);
    }
  }

  lemma FreedNotFree(s: Dedup, i: nat)
    requires i < |s.entries| && i in s.free && s.entries[i].state != Free
    ensures !Placed(s)
  {
    assert !Home(s, i);
  }

  // ---- every step ---------------------------------------------------------------------------

  /** One event, with every line as it is written. */
  function StepAsWritten(s: Dedup, e: Event): Dedup
    requires Inv(s) && Enabled(s, e)
  {
    match e
    case Reply(i, now, r) =>
      var x := s.entries[i];
      if x.reply != [] && x.state in {Active, Replied} && s.mode == Direct then SendReplyAsWritten(s, i, now, r)
      else Respond(s, i, now, r).0
    case Output(item, data, now, rs) => WriteAsWritten(s, item, data, now, rs)
    case Cancel(i) => ReleaseAsWritten(s, i, Withdrawn)
    case Timer(now) => ExpireAsWritten(s, now + SLACK)
    case _ => Step(s, e)
  }

  /** When an event is handled as documented. */
  ghost predicate Clean(s: Dedup, e: Event)
    requires Enabled(s, e)
  {
    match e
    case Reply(i, now, r) =>
      s.entries[i].reply != [] && s.entries[i].state in {Active, Replied} && s.mode == Direct ==>
        CleanSend(s, i, now, r)
    case Output(item, data, now, rs) => CleanOutput(s, item, data, now, rs)
    case Cancel(i) => s.entries[i].state == Partial
    case Timer(now) => NoneDue(s, now + SLACK)
    case _ => true
  }

  /** For every state the documented machine can be in and every event: the code as written does what
      the machine does if and only if the event is clean, and if it is not, some entry ends up where
      its state does not say. */
  lemma {:induction false} StepAsWrittenIff(s: Dedup, e: Event)
    requires Inv(s) && Enabled(s, e)
    ensures StepAsWritten(s, e) == Step(s, e) <==> Clean(s, e)
    ensures Placed(StepAsWritten(s, e)) <==> Clean(s, e)
  {
    hide Placed, Sorted, Tenured, Streamed, Respond, Write, WriteAsWritten, CleanOutput, SendReplyAsWritten, Release,
         ReleaseAsWritten, Expire, ExpireAsWritten, NoneDue, CanWrite, CleanSend;
    StepInv(s, e);
    match e
    case Reply(i, now, r) =>
      if s.entries[i].reply != [] && s.entries[i].state in {Active, Replied} && s.mode == Direct {
        SendReplyAsWrittenIff(s, i, now, r);
        RespondSends(s, i, now, r);
      }
    case Output(item, data, now, rs) => WriteAsWrittenIff(s, item, data, now, rs);
    case Cancel(i) => ReleaseAsWrittenIff(s, i, Withdrawn);
    case Timer(now) => ExpireAsWrittenIff(s, now + SLACK);
    case _ =>
  }

  lemma RespondSends(s: Dedup, i: nat, now: int, r: int)
    requires i < |s.entries| && s.entries[i].reply != [] && s.entries[i].state in {Active, Replied} && s.mode == Direct
    ensures Respond(s, i, now, r) == SendReply(s, i, now, r)
  {
  }

  // ---- every run ----------------------------------------------------------------------------

  /** A run of the code as written during which every entry is always where its state says. */
  ghost predicate RunsAsWritten(s: Dedup, events: seq<Event>, t: Dedup)
    decreases |events|
  {
    if events == [] then s == t
    else
      && Inv(s) && Enabled(s, events[0]) && Placed(StepAsWritten(s, events[0]))
      && RunsAsWritten(StepAsWritten(s, events[0]), events[1..], t)
  }

  /** As long as the pool law holds the code as written runs as the documented machine does, so that
      all that is proved of its runs holds. */
  lemma {:induction false} RunAsWritten(s: Dedup, events: seq<Event>, t: Dedup)
    requires Inv(s) && RunsAsWritten(s, events, t)
    ensures Reaches(s, events, t) && Inv(t)
    decreases |events|
  {
    hide Inv, Step, StepAsWritten, Enabled, Placed, Clean;
    if events != [] {
      StepAsWrittenIff(s, events[0]);
      StepInv(s, events[0]);
      RunAsWritten(Step(s, events[0]), events[1..], t);
    }
  }
}
