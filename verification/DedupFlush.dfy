/** What a flush of the pending list does, read off the list and the next bio's answers: which
    replies go out, in which order, and what becomes of each entry. */
module DedupFlush {
  import opened Wrappers
  import opened Octets
  import opened DedupMachine
  import opened DedupRuns

  /** How many entries leave the pending list: expired ones, replies taken whole, and the one
      that is partly taken, up to the first reply that is not taken whole. */
  function Handled(pending: seq<nat>, entries: seq<Entry>, now: int, rs: seq<int>): (n: nat)
    ensures n <= |pending|
  {
    if pending == [] || pending[0] >= |entries| then 0
    else
      var e := entries[pending[0]];
      if e.expires <= now then 1 + Handled(pending[1..], entries, now, rs)
      else
        var k := Accept(First(rs), |e.reply|);
        if k <= 0 then 0
        else if k < |e.reply| then 1
        else 1 + Handled(pending[1..], entries, now, Rest(rs))
  }

  /** The answer to the first unexpired reply that is not taken whole. */
  function FirstShort(pending: seq<nat>, entries: seq<Entry>, now: int, rs: seq<int>): Option<int> {
    if pending == [] || pending[0] >= |entries| then None
    else
      var e := entries[pending[0]];
      if e.expires <= now then FirstShort(pending[1..], entries, now, rs)
      else
        var k := Accept(First(rs), |e.reply|);
        if k <= 0 || k < |e.reply| then Some(k) else FirstShort(pending[1..], entries, now, Rest(rs))
  }

  /** The replies of the entries that have not expired, in order. */
  function Replies(l: seq<nat>, entries: seq<Entry>, now: int): seq<Str> {
    if l == [] then []
    else
      (if l[0] < |entries| && entries[l[0]].expires > now then [entries[l[0]].reply] else [])
      + Replies(l[1..], entries, now)
  }

  /** The answers that are left: one is used up for every reply that is offered. */
  function Unused(pending: seq<nat>, entries: seq<Entry>, now: int, rs: seq<int>): seq<int> {
    if pending == [] || pending[0] >= |entries| then rs
    else
      var e := entries[pending[0]];
      if e.expires <= now then Unused(pending[1..], entries, now, rs)
      else if Accept(First(rs), |e.reply|) < |e.reply| then Rest(rs)
      else Unused(pending[1..], entries, now, Rest(rs))
  }

  /** The callbacks for the entries that have expired, in order. */
  function Drops(l: seq<nat>, entries: seq<Entry>, now: int): seq<Note> {
    if l == [] then []
    else
      (if l[0] < |entries| && entries[l[0]].expires <= now then [Released(l[0], Expired), Freed(l[0])] else [])
      + Drops(l[1..], entries, now)
  }

  /** All of these look only at entries that are listed. */
  lemma {:induction false} ListedOnly(l: seq<nat>, es: seq<Entry>, fs: seq<Entry>, now: int, rs: seq<int>)
    requires |es| == |fs| && forall i :: i in l && i < |es| ==> es[i] == fs[i]
    ensures Handled(l, es, now, rs) == Handled(l, fs, now, rs)
    ensures FirstShort(l, es, now, rs) == FirstShort(l, fs, now, rs)
    ensures Replies(l, es, now) == Replies(l, fs, now)
    ensures Unused(l, es, now, rs) == Unused(l, fs, now, rs)
    ensures Drops(l, es, now) == Drops(l, fs, now)
  {
    if l != [] {
      assert l[0] in l;
      ListedOnly(l[1..], es, fs, now, rs);
      ListedOnly(l[1..], es, fs, now, Rest(rs));
    }
  }

  /** What became of the entry at position j of the pending list. */
  function Became(e: Entry, j: nat, n: nat, now: int, blocked: bool): State {
    if j >= n then Pending
    else if e.expires <= now then Free
    else if j == n - 1 && blocked then Partial
    else Replied
  }

  function CodeOf(short: Option<int>): int {
    if short.None? then 0 else if short.v <= 0 then short.v else WOULD_BLOCK
  }

  /** Entry by entry. */
  ghost predicate Settled(s: Dedup, n: nat, now: int, t: Dedup) {
    && |t.entries| == |s.entries|
    && forall j :: 0 <= j < |s.pending| && s.pending[j] < |s.entries| ==>
         var e := s.entries[s.pending[j]];
         t.entries[s.pending[j]] == e.(state := Became(e, j, n, now, t.mode != Direct))
  }

  /** The local buffer holds what the next bio left of the last reply, if it took a part. */
  ghost predicate KeptBack(s: Dedup, n: nat, short: Option<int>, t: Dedup) {
    if short.Some? && short.v > 0 then
      && 0 < n <= |s.pending| && s.pending[n - 1] < |s.entries|
      && short.v < |s.entries[s.pending[n - 1]].reply|
      && t.mode == FinishPartial && t.partial == Some(s.pending[n - 1])
      && t.buffer == s.entries[s.pending[n - 1]].reply[short.v..]
    else t.mode == Direct && t.buffer == s.buffer && t.partial == s.partial
  }

  /** The flush as a whole. */
  ghost predicate Flushed(s: Dedup, now: int, rs: seq<int>, t: Dedup, c: int, left: seq<int>) {
    var n, short := Handled(s.pending, s.entries, now, rs), FirstShort(s.pending, s.entries, now, rs);
    && t.pending == s.pending[n..]
    && t.begun == s.begun + Replies(s.pending[..n], s.entries, now)
    && t.log == s.log + Drops(s.pending[..n], s.entries, now)
    && c == CodeOf(short) && left == Unused(s.pending, s.entries, now, rs)
    && KeptBack(s, n, short, t)
    && Settled(s, n, now, t)
  }

  lemma {:induction false} SettledCons(s: Dedup, u: Dedup, n: nat, now: int, t: Dedup)
    requires Placed(s) && s.pending != [] && s.pending[0] < |s.entries| == |u.entries| == |t.entries|
    requires u.pending == s.pending[1..] && u.entries == s.entries[s.pending[0] := u.entries[s.pending[0]]]
    requires var e := s.entries[s.pending[0]];
      t.entries[s.pending[0]] == e.(state := if e.expires > now then Replied else Free)
    requires Settled(u, n, now, t) && (t.mode != Direct ==> n > 0)
    ensures Settled(s, n + 1, now, t)
  {
    var tail := s.pending[1..];
    assert s.pending == [s.pending[0]] + tail;
    DistinctCons(s.pending[0], tail);
    forall j | 0 <= j < |s.pending| && s.pending[j] < |s.entries|
      ensures var e := s.entries[s.pending[j]];
        t.entries[s.pending[j]] == e.(state := Became(e, j, n + 1, now, t.mode != Direct))
    {
      if j > 0 {
        assert s.pending[j] == tail[j - 1];
        assert s.pending[j] in tail;
      }
    }
  }

  /** The head, handled, and then the flush of what is left. */
  lemma {:induction false} FlushedCons(s: Dedup, u: Dedup, now: int, rs: seq<int>, rest: seq<int>,
                                       t: Dedup, c: int, left: seq<int>)
    requires Placed(s) && s.pending != [] && s.pending[0] < |s.entries| == |u.entries| == |t.entries|
    requires u.pending == s.pending[1..] && u.entries == s.entries[s.pending[0] := u.entries[s.pending[0]]]
    requires var e := s.entries[s.pending[0]];
      if e.expires > now
      then
        && Accept(First(rs), |e.reply|) == |e.reply| > 0 && rest == Rest(rs)
        && u.begun == s.begun + [e.reply] && u.log == s.log
      else rest == rs && u.begun == s.begun && u.log == s.log + [Released(s.pending[0], Expired), Freed(s.pending[0])]
    requires u.buffer == s.buffer && u.partial == s.partial
    requires var e := s.entries[s.pending[0]];
      t.entries[s.pending[0]] == e.(state := if e.expires > now then Replied else Free)
    requires Flushed(u, now, rest, t, c, left)
    ensures Flushed(s, now, rs, t, c, left)
  {
    hide Settled, KeptBack, Handled, FirstShort, Unused, Replies, Drops, Accept;
    var i, tail := s.pending[0], s.pending[1..];
    assert s.pending == [i] + tail;
    DistinctCons(i, tail);
    ListedOnly(tail, s.entries, u.entries, now, rest);
    HeadHandled(s.pending, s.entries, now, rs, rest);
    var n, short := Handled(tail, u.entries, now, rest), FirstShort(tail, u.entries, now, rest);
    ListedOnly(tail[..n], s.entries, u.entries, now, rest);
    assert s.pending[n + 1..] == tail[n..];
    var sent, dropped := Replies(tail[..n], s.entries, now), Drops(tail[..n], s.entries, now);
    var notes := [Released(i, Expired), Freed(i)];
    assert s.begun + [s.entries[i].reply] + sent == s.begun + ([s.entries[i].reply] + sent);
    assert s.log + notes + dropped == s.log + (notes + dropped);
    KeptBackCons(s, u, n, short, t);
    SettledCons(s, u, n, now, t);
  }

  /** The head is handled, and so is as much of the tail as without it. */
  lemma {:induction false} HeadHandled(l: seq<nat>, es: seq<Entry>, now: int, rs: seq<int>, rest: seq<int>)
    requires l != [] && l[0] < |es|
    requires var e := es[l[0]];
      if e.expires > now then Accept(First(rs), |e.reply|) == |e.reply| > 0 && rest == Rest(rs) else rest == rs
    ensures var n := Handled(l[1..], es, now, rest); var e := es[l[0]];
      && Handled(l, es, now, rs) == n + 1
      && FirstShort(l, es, now, rs) == FirstShort(l[1..], es, now, rest)
      && Unused(l, es, now, rs) == Unused(l[1..], es, now, rest)
      && Replies(l[..n + 1], es, now) ==
         (if e.expires > now then [e.reply] else []) + Replies(l[1..][..n], es, now)
      && Drops(l[..n + 1], es, now) ==
         (if e.expires > now then [] else [Released(l[0], Expired), Freed(l[0])]) + Drops(l[1..][..n], es, now)
  {
    var n := Handled(l[1..], es, now, rest);
    assert l[..n + 1][1..] == l[1..][..n];
  }

  lemma KeptBackCons(s: Dedup, u: Dedup, n: nat, short: Option<int>, t: Dedup)
    requires Placed(s) && s.pending != [] && s.pending[0] < |s.entries| == |u.entries|
    requires u.pending == s.pending[1..] && u.entries == s.entries[s.pending[0] := u.entries[s.pending[0]]]
    requires u.buffer == s.buffer && u.partial == s.partial
    requires KeptBack(u, n, short, t)
    ensures KeptBack(s, n + 1, short, t) && (t.mode != Direct ==> n > 0)
  {
    if short.Some? && short.v > 0 {
      PendingAt(s, n);
    }
  }

  /** The head is taken off the pending list by any move to another state. */
  lemma HeadLeaves(s: Dedup, e: Entry)
    requires s.pending != [] && s.pending[0] < |s.entries| && s.entries[s.pending[0]].state == Pending
    requires e.state != Pending
    ensures Move(s, s.pending[0], e).pending == s.pending[1..]
  {
  }

  lemma {:induction false} BlockedHead(s: Dedup, k: int)
    requires s.pending != [] && s.pending[0] < |s.entries| && s.entries[s.pending[0]].state == Pending
    requires 0 < k < |s.entries[s.pending[0]].reply|
    ensures var i := s.pending[0]; var t := Blocked(s, i, k);
      && t.pending == s.pending[1..] && t.begun == s.begun + [s.entries[i].reply] && t.mode == FinishPartial
      && t.log == s.log && t.partial == Some(i) && t.buffer == s.entries[i].reply[k..]
      && t.entries == s.entries[i := s.entries[i].(state := Partial)]
  {
    hide Move;
    var i := s.pending[0];
    var u := Begin(s, s.entries[i].reply, k);
    HeadLeaves(u, u.entries[i].(state := Partial));
    MoveElsewhere(u, i, u.entries[i].(state := Partial));
    MoveToSlot(u, i);
  }

  lemma {:induction false} ReleaseHead(s: Dedup)
    requires s.pending != [] && s.pending[0] < |s.entries| && s.entries[s.pending[0]].state == Pending
    ensures var i := s.pending[0]; var t := Release(s, i, Expired);
      t.pending == s.pending[1..] && t.log == s.log + [Released(i, Expired), Freed(i)]
  {
    hide Move;
    var i := s.pending[0];
    var u := s.(log := s.log + [Released(i, Expired)] + [Freed(i)]);
    HeadLeaves(u, s.entries[i].(state := Free));
    MoveElsewhere(u, i, s.entries[i].(state := Free));
    assert u.log == s.log + [Released(i, Expired), Freed(i)];
  }

  lemma {:induction false} PendingAt(s: Dedup, j: nat)
    requires Placed(s) && j < |s.pending|
    ensures s.pending[j] < |s.entries| && s.entries[s.pending[j]].state == Pending
    ensures j > 0 ==> s.pending[j] != s.pending[0]
  {
    assert s.pending[j] in s.pending;
    assert Home(s, s.pending[j]);
  }

  /** A reply that is not taken whole ends the flush. */
  lemma {:induction false} HeadStops(l: seq<nat>, es: seq<Entry>, now: int, rs: seq<int>, k: int)
    requires l != [] && l[0] < |es|
    requires var e := es[l[0]]; e.expires > now && k == Accept(First(rs), |e.reply|) && k < |e.reply|
    ensures Handled(l, es, now, rs) == if k <= 0 then 0 else 1
    ensures FirstShort(l, es, now, rs) == Some(k) && Unused(l, es, now, rs) == Rest(rs)
    ensures Replies(l[..0], es, now) == [] && Drops(l[..0], es, now) == []
    ensures Replies(l[..1], es, now) == [es[l[0]].reply] && Drops(l[..1], es, now) == []
  {
    hide Accept;
    assert l[..1][1..] == [];
  }

  lemma {:induction false} SettledHead(s: Dedup, now: int, t: Dedup)
    requires Placed(s) && s.pending != [] && s.pending[0] < |s.entries| && s.entries[s.pending[0]].expires > now
    requires var i := s.pending[0];
      if t.mode == Direct then t.entries == s.entries else t.entries == s.entries[i := s.entries[i].(state := Partial)]
    ensures Settled(s, if t.mode == Direct then 0 else 1, now, t)
  {
    hide Placed;
    forall j | 0 <= j < |s.pending|
      ensures s.pending[j] < |s.entries| && s.entries[s.pending[j]].state == Pending
      ensures j > 0 ==> s.pending[j] != s.pending[0]
    {
      PendingAt(s, j);
    }
  }

  lemma {:induction false} StopsAtHead(s: Dedup, now: int, rs: seq<int>, k: int)
    requires Placed(s) && s.mode == Direct && s.pending != [] && s.pending[0] < |s.entries|
    requires var e := s.entries[s.pending[0]];
      e.expires > now && k == Accept(First(rs), |e.reply|) && k < |e.reply|
    ensures k <= 0 ==> Flushed(s, now, rs, s, k, Rest(rs))
    ensures k > 0 ==> Flushed(s, now, rs, Blocked(s, s.pending[0], k), WOULD_BLOCK, Rest(rs))
  {
    hide Blocked, Placed, Accept, Settled, Handled, FirstShort, Unused, Replies, Drops;
    assert s.begun + [] == s.begun && s.log + [] == s.log;
    PendingAt(s, 0);
    HeadStops(s.pending, s.entries, now, rs, k);
    if k > 0 {
      BlockedHead(s, k);
      SettledHead(s, now, Blocked(s, s.pending[0], k));
    } else {
      SettledHead(s, now, s);
    }
  }

  /** Replies go out in the order of the queue: what is begun is the replies of the unexpired
      entries of a prefix of the pending list, in order, and the rest of the list stays as it
      is.  Every entry of the prefix has expired and is released and free, or its reply is out, or
      it is the last one and partly written, and the buffer has the rest of it.  One answer is
      used up for every reply that is offered. */
  lemma {:induction false} FlushOrder(s: Dedup, now: int, rs: seq<int>)
    requires Inv(s) && s.mode == Direct
    ensures var (t, c, left) := FlushPending(s, now, rs); Flushed(s, now, rs, t, c, left)
    decreases |s.pending|
  {
    hide Move, Release, Blocked, Flushed, Sorted, Tenured, Streamed, Placed;
    if s.pending == [] {
      FlushedNone(s, now, rs);
    } else {
      HeadPending(s);
      var i := s.pending[0];
      var e := s.entries[i];
      if e.expires <= now {
        FlushExpired(s, now, rs);
        FlushOrder(Release(s, i, Expired), now, rs);
        var (t, c, left) := FlushPending(Release(s, i, Expired), now, rs);
        FlushedCons(s, Release(s, i, Expired), now, rs, rs, t, c, left);
      } else {
        var k := Accept(First(rs), |e.reply|);
        if k < |e.reply| {
          StopsAtHead(s, now, rs, k);
        } else {
          FlushSent(s, now, rs);
          var u := MoveTo(Begin(s, e.reply, k), i, Replied);
          FlushOrder(u, now, Rest(rs));
          var (t, c, left) := FlushPending(u, now, Rest(rs));
          FlushedCons(s, u, now, rs, Rest(rs), t, c, left);
        }
      }
    }
  }

  lemma FlushedNone(s: Dedup, now: int, rs: seq<int>)
    requires s.pending == [] && s.mode == Direct
    ensures Flushed(s, now, rs, s, 0, rs)
  {
    assert s.begun + [] == s.begun && s.log + [] == s.log;
  }

  lemma {:induction false} FlushExpired(s: Dedup, now: int, rs: seq<int>)
    requires Inv(s) && s.mode == Direct && s.pending != []
    ensures s.pending[0] < |s.entries|
    ensures var i := s.pending[0]; var u := Release(s, i, Expired);
      && Inv(u) && u.mode == Direct && u.pending == s.pending[1..] && u.begun == s.begun
      && u.buffer == s.buffer && u.partial == s.partial && u.log == s.log + [Released(i, Expired), Freed(i)]
      && u.entries == s.entries[i := s.entries[i].(state := Free)]
      && FlushPending(u, now, rs).0.entries[i] == u.entries[i]
  {
    hide Move, Release, Sorted, Tenured, Streamed, Placed;
    HeadPending(s);
    var i := s.pending[0];
    ReleaseInv(s, i, Expired);
    ReleaseElsewhere(s, i, Expired);
    ReleaseHead(s);
    FlushInv(Release(s, i, Expired), now, rs);
  }

  lemma DirectEmpty(s: Dedup)
    requires Inv(s) && s.mode == Direct
    ensures s.buffer == [] && s.partial == None
  {
  }

  lemma {:induction false} FlushSent(s: Dedup, now: int, rs: seq<int>)
    requires Inv(s) && s.mode == Direct && s.pending != []
    ensures s.pending[0] < |s.entries| && s.entries[s.pending[0]].reply != []
    ensures var i := s.pending[0]; var m := s.entries[i].reply; var u := MoveTo(Begin(s, m, |m|), i, Replied);
      && Inv(u) && u.mode == Direct && u.pending == s.pending[1..] && u.begun == s.begun + [m]
      && u.buffer == s.buffer && u.partial == s.partial && u.log == s.log
      && u.entries == s.entries[i := s.entries[i].(state := Replied)]
      && FlushPending(u, now, Rest(rs)).0.entries[i] == u.entries[i]
  {
    hide Move, Release, Sorted, Tenured, Streamed, Placed;
    HeadPending(s);
    var i := s.pending[0];
    var e := s.entries[i];
    var t := Begin(s, e.reply, |e.reply|);
    assert t.buffer == [] == s.buffer by {
      DirectEmpty(s);
    }
    SentInv(s, e.reply);
    MoveInv(t, i, e.(state := Replied));
    MoveElsewhere(t, i, e.(state := Replied));
    HeadLeaves(t, e.(state := Replied));
    FlushInv(MoveTo(t, i, Replied), now, Rest(rs));
  }

  /** A queued reply is dropped without being offered exactly when its turn comes and its
      expiry time has passed by then. */
  lemma {:induction false} DroppedIffExpired(s: Dedup, now: int, rs: seq<int>, j: nat)
    requires Inv(s) && s.mode == Direct && j < |s.pending|
    ensures s.pending[j] < |s.entries|
    ensures var t, i := FlushPending(s, now, rs).0, s.pending[j];
      t.entries[i].state == Free <==>
      j < Handled(s.pending, s.entries, now, rs) && s.entries[i].expires <= now
  {
    PendingAt(s, j);
    FlushOrder(s, now, rs);
  }

  lemma {:induction false} RepliesConcat(k: seq<nat>, l: seq<nat>, entries: seq<Entry>, now: int)
    ensures Replies(k + l, entries, now) == Replies(k, entries, now) + Replies(l, entries, now)
  {
    if k == [] {
      assert k + l == l;
    } else {
      assert (k + l)[1..] == k[1..] + l;
      RepliesConcat(k[1..], l, entries, now);
    }
  }
}
