/** Runs of the dedup bio from its allocation to states in which its lines do harm. */
module DedupWitness {
  import opened Wrappers
  import opened DedupMachine
  import opened DedupRuns
  import opened DedupAsWritten

  lemma {:induction false} ReachStep(s: Dedup, events: seq<Event>, t: Dedup, e: Event)
    requires Inv(s) && Reaches(s, events, t) && Inv(t) && Enabled(t, e)
    ensures Reaches(s, events + [e], Step(t, e)) && Inv(Step(t, e))
    decreases |events|
  {
    hide Inv, Step, Enabled;
    StepInv(t, e);
    if events == [] {
      assert (events + [e])[1..] == [];
    } else {
      StepInv(s, events[0]);
      ReachStep(Step(s, events[0]), events[1..], t, e);
      assert (events + [e])[1..] == events[1..] + [e];
    }
  }

  /** Two packets arrived and were accepted. */
  function TwoHeld(lifetime: nat): Dedup {
    Dedup([Entry(Active, [], 0), Entry(Active, [], 0)], [0, 1], [], [], [], None, None, [], Direct,
          lifetime, [], [], [Accepted(0), Accepted(1)])
  }

  const TWO_HELD := [Arrival, Decision(true), Arrival, Decision(true)]

  lemma {:induction false} TwoHeldReached(lifetime: nat)
    ensures Inv(TwoHeld(lifetime)) && Reaches(Alloc(2, lifetime), TWO_HELD, TwoHeld(lifetime))
  {
    hide Inv, Reaches, Indices;
    var s := Alloc(2, lifetime);
    AllocInv(2, lifetime);
    assert s.entries == [Entry(Free, [], 0), Entry(Free, [], 0)] && s.free == [0, 1];
    ReachNone(s);
    ReachStep(s, [], s, Arrival);
    var a := Step(s, Arrival);
    assert a.free == [1] && a.entries == [Entry(Active, [], 0), Entry(Free, [], 0)];
    ReachStep(s, [] + [Arrival], a, Decision(true));
    var b := Step(a, Decision(true));
    ReachStep(s, [] + [Arrival] + [Decision(true)], b, Arrival);
    var c := Step(b, Arrival);
    ReachStep(s, [] + [Arrival] + [Decision(true)] + [Arrival], c, Decision(true));
    assert Step(c, Decision(true)) == TwoHeld(lifetime);
    assert [] + [Arrival] + [Decision(true)] + [Arrival] + [Decision(true)] == TWO_HELD;
  }

  lemma ReachNone(s: Dedup)
    ensures Reaches(s, [], s)
  {
  }

  /** The first reply is then partly taken and the second one queued. */
  function Blockade(lifetime: nat): Dedup {
    Dedup([Entry(Partial, [1, 2], 0), Entry(Pending, [3], lifetime)], [], [1], [], [], Some(0), None,
          [2], FinishPartial, lifetime, [1], [[1, 2]], [Accepted(0), Accepted(1)])
  }

  const BLOCKADE := [SetReply(0, [1, 2]), SetReply(1, [3]), Reply(0, 0, 1), Reply(1, 0, 0)]

  lemma {:induction false} BlockadeReached(lifetime: nat)
    ensures Inv(Blockade(lifetime)) && Reaches(Alloc(2, lifetime), TWO_HELD + BLOCKADE, Blockade(lifetime))
  {
    hide Inv, Reaches, Alloc;
    AllocInv(2, lifetime);
    TwoHeldReached(lifetime);
    var s, t, es := Alloc(2, lifetime), TwoHeld(lifetime), TWO_HELD;
    ReachStep(s, es, t, SetReply(0, [1, 2]));
    var a := Step(t, SetReply(0, [1, 2]));
    ReachStep(s, es + [SetReply(0, [1, 2])], a, SetReply(1, [3]));
    var b := Step(a, SetReply(1, [3]));
    ReachStep(s, es + [SetReply(0, [1, 2])] + [SetReply(1, [3])], b, Reply(0, 0, 1));
    var c := Step(b, Reply(0, 0, 1));
    assert c.active == [1] && c.buffer == [2] && c.wire == [1];
    ReachStep(s, es + [SetReply(0, [1, 2])] + [SetReply(1, [3])] + [Reply(0, 0, 1)], c, Reply(1, 0, 0));
    assert Step(c, Reply(1, 0, 0)) == Blockade(lifetime);
    assert es + [SetReply(0, [1, 2])] + [SetReply(1, [3])] + [Reply(0, 0, 1)] + [Reply(1, 0, 0)] == es + BLOCKADE;
  }

  /** In that state, a write during which the next bio takes the rest of the first reply and then
      fails leaves the bio with the write function for an unfinished message, and no message. */
  lemma {:induction false} StuckAsWritten(lifetime: nat, answer: int)
    requires lifetime > 0 && answer < 0
    ensures Reaches(Alloc(2, lifetime), TWO_HELD + BLOCKADE, Blockade(lifetime))
    ensures var (t, c) := BufferWrite(Blockade(lifetime), 1);
      && c == 1 && Finished(t)
      && var u := UnblockAsWritten(t, 0, [answer]); u.mode == FinishPartial && u.buffer == [] && u.partial == None
  {
    hide Inv, Reaches, Alloc, UnblockAsWritten, Finished;
    BlockadeReached(lifetime);
    BufferWriteInv(Blockade(lifetime), 1);
    UnblockAsWrittenIff(BufferWrite(Blockade(lifetime), 1).0, 0, [answer]);
  }

  /** In that state no entry is active: a cancel of the queued reply, with line 403 as it is, leaves
      the entry in the pending list and puts it into the free list. */
  lemma {:induction false} CancelledTwiceListed(lifetime: nat)
    ensures Reaches(Alloc(2, lifetime), TWO_HELD + BLOCKADE, Blockade(lifetime))
    ensures Enabled(Blockade(lifetime), Cancel(1))
    ensures var t := UnlinkAsWritten(Blockade(lifetime), 1, Withdrawn); 1 in t.pending && 1 in t.free && !Placed(t)
  {
    hide Inv, Reaches, Alloc, UnlinkAsWritten;
    BlockadeReached(lifetime);
    InvPlaced(Blockade(lifetime));
    UnlinkAsWrittenIff(Blockade(lifetime), 1, Withdrawn);
  }

  lemma InvPlaced(s: Dedup)
    requires Inv(s)
    ensures Placed(s)
  {
  }
}
