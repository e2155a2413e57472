/** Chains of bios: what a well-formed chain is, and the walks over it that free it, shut it
    down, and carry end-of-file upwards.  Position 0 is the top of the chain. */
module BioChain {
  datatype Io = Working | Failing | Null | Shut

  /** The part of a bio the walks change: its read and write functions, whether it has a
      destructor, and which callbacks are still set. */
  datatype Cell = Cell(read: Io, write: Io, destructor: bool,
                       privShutdown: bool, privEof: bool, appShutdown: bool, appEof: bool)

  class Bio {
    var prev: Bio?
    var next: Bio?
    var cell: Cell
    ghost var freed: bool
  }

  ghost predicate Linked(nodes: seq<Bio>)
    reads nodes
  {
    && nodes != []
    && (forall i, j :: 0 <= i < j < |nodes| ==> nodes[i] != nodes[j])
    && nodes[0].prev == null && nodes[|nodes| - 1].next == null
    && (forall i {:trigger nodes[i].next} :: 0 <= i < |nodes| - 1 ==> nodes[i].next == nodes[i + 1])
    && (forall i {:trigger nodes[i].prev} :: 0 < i < |nodes| ==> nodes[i].prev == nodes[i - 1])
    && (forall i :: 0 <= i < |nodes| ==> !nodes[i].freed)
  }

  ghost function View(nodes: seq<Bio>): (c: seq<Cell>)
    reads nodes
    ensures |c| == |nodes|
    ensures forall i :: 0 <= i < |nodes| ==> c[i] == nodes[i].cell
  {
    seq(|nodes|, i requires 0 <= i < |nodes| reads nodes => nodes[i].cell)
  }

  // ---- building ----------------------------------------------------------------

  /** fr_bio_chain(): puts a lone bio on top of a chain. */
  method Chain(first: Bio, second: Bio, ghost rest: seq<Bio>)
    requires Linked([first]) && Linked([second] + rest) && first !in [second] + rest
    modifies first, second
    ensures Linked([first, second] + rest)
    ensures first.cell == old(first.cell) && second.cell == old(second.cell)
  {
    ghost var below := [second] + rest;
    ghost var nodes := [first, second] + rest;
    assert nodes == [first] + below;
    assert below[0] == second;
    first.next := second;
    second.prev := first;
    assert forall i :: 0 < i < |nodes| ==> nodes[i] == below[i - 1];
  }

  /** fr_bio_unchain(): takes a bio with neighbours on both sides out of its chain. */
  method Unchain(bio: Bio, ghost nodes: seq<Bio>, ghost k: nat)
    requires Linked(nodes) && 0 < k < |nodes| - 1 && nodes[k] == bio
    modifies nodes
    ensures Linked(nodes[..k] + nodes[k + 1..]) && Linked([bio])
    ensures View(nodes) == old(View(nodes))
  {
    bio.prev.next := bio.next;
    bio.next.prev := bio.prev;
    bio.prev, bio.next := null, null;
    ghost var left := nodes[..k] + nodes[k + 1..];
    assert forall i :: 0 <= i < |left| ==> left[i] == if i < k then nodes[i] else nodes[i + 1];
  }

  // ---- freeing -------------------------------------------------------------------

  /** The lowest bio that refuses to be freed, or -1. */
  ghost function LastRefusal(nodes: seq<Bio>, refuses: set<Bio>): (k: int)
    ensures -1 <= k < |nodes|
    ensures k >= 0 ==> nodes[k] in refuses
    ensures forall i :: k < i < |nodes| ==> nodes[i] !in refuses
  {
    if nodes == [] then -1
    else if nodes[|nodes| - 1] in refuses then |nodes| - 1
    else LastRefusal(nodes[..|nodes| - 1], refuses)
  }

  lemma LastRefusalUnique(nodes: seq<Bio>, refuses: set<Bio>, k: int)
    requires -1 <= k < |nodes|
    requires k >= 0 ==> nodes[k] in refuses
    requires forall i :: k < i < |nodes| ==> nodes[i] !in refuses
    ensures LastRefusal(nodes, refuses) == k
  {
  }

  /** talloc_free() of one bio: its destructor insists that it is in no chain. */
  method TallocFree(bio: Bio, refuses: set<Bio>) returns (r: int)
    requires bio.prev == null && bio.next == null && !bio.freed
    modifies bio`freed
    ensures r == if bio in refuses then -1 else 0
    ensures bio.freed <==> bio !in refuses
  {
    if bio in refuses {
      return -1;
    }
    bio.freed := true;
    return 0;
  }

  /** The outcome of freeing `nodes`, whose cells were `was`, from the top when the bios above
      position k were spared by the refusal at k. */
  ghost predicate FreedDownTo(nodes: seq<Bio>, k: int, was: seq<Cell>)
    requires -1 <= k < |nodes| == |was|
    reads nodes
  {
    && (k >= 0 ==> Linked(nodes[..k + 1]))
    && CellsAfter(nodes, k, was)
  }

  ghost predicate CellsAfter(nodes: seq<Bio>, k: int, was: seq<Cell>)
    requires -1 <= k < |nodes| == |was|
    reads nodes
  {
    && (k >= 0 ==> nodes[k].cell == was[k])
    && (forall i :: 0 <= i < k ==> nodes[i].cell == was[i].(read := Failing, write := Failing))
    && (forall i :: k < i < |nodes| ==> nodes[i].freed)
  }

  lemma FreedAbove(nodes: seq<Bio>, k: nat, was: seq<Cell>)
    requires 0 < k < |nodes| == |was|
    requires CellsAfter(nodes[1..], k - 1, was[1..])
    requires Linked(nodes[..k + 1]) && nodes[0].cell == was[0].(read := Failing, write := Failing)
    ensures FreedDownTo(nodes, k, was)
  {
    assert forall i :: 0 < i < |nodes| ==> nodes[i] == nodes[1..][i - 1] && was[i] == was[1..][i - 1];
  }

  lemma FreedBelow(nodes: seq<Bio>, k: int, was: seq<Cell>)
    requires nodes != [] && |nodes| == |was| && -1 <= k <= 0
    requires |nodes| > 1 ==> FreedDownTo(nodes[1..], -1, was[1..])
    requires if k < 0 then nodes[0].freed else Linked([nodes[0]]) && nodes[0].cell == was[0]
    ensures FreedDownTo(nodes, k, was)
  {
    assert nodes[..1] == [nodes[0]];
    assert forall i :: 0 < i < |nodes| ==> nodes[i] == nodes[1..][i - 1];
  }

  /** A chain without its top is a chain once the link back to the top is cut. */
  method CutTop(next: Bio, ghost nodes: seq<Bio>)
    requires Linked(nodes) && |nodes| > 1 && nodes[1] == next
    modifies next`prev
    ensures Linked(nodes[1..])
  {
    ghost var below := nodes[1..];
    assert forall i :: 0 <= i < |below| ==> below[i] == nodes[i + 1];
    next.prev := null;
  }

  /** The link back to the top makes it a chain again. */
  method Relink(bio: Bio, next: Bio, ghost below: seq<Bio>)
    requires Linked(below) && below[0] == next
    requires bio !in below && bio.prev == null && bio.next == next && !bio.freed
    modifies next`prev
    ensures Linked([bio] + below)
  {
    ghost var nodes := [bio] + below;
    assert forall i :: 0 < i < |nodes| ==> nodes[i] == below[i - 1];
    next.prev := bio;
  }

  /** fr_bio_free().  From the middle of a chain nothing happens.  From the top, bios go from
      the bottom up until one refuses: what is left is a well-formed chain, a prefix of the
      original one; every bio above the refusing one fails reads and writes, the refusing one
      is as it was; nothing is left exactly when nothing refuses. */
  method Free(bio: Bio, refuses: set<Bio>, ghost nodes: seq<Bio>) returns (r: int)
    requires bio.prev == null ==> Linked(nodes) && nodes[0] == bio
    modifies if bio.prev == null then set n | n in nodes else {}
    ensures old(bio.prev) != null ==> r == -1
    ensures old(bio.prev) == null ==>
      && r == (if LastRefusal(nodes, refuses) < 0 then 0 else -1)
      && FreedDownTo(nodes, LastRefusal(nodes, refuses), old(View(nodes)))
    decreases |nodes|
  {
    if bio.prev != null {
      return -1;
    }
    r := FreeTop(bio, refuses, nodes);
  }

  method FreeTop(bio: Bio, refuses: set<Bio>, ghost nodes: seq<Bio>) returns (r: int)
    requires Linked(nodes) && nodes[0] == bio
    modifies nodes
    ensures r == if LastRefusal(nodes, refuses) < 0 then 0 else -1
    ensures FreedDownTo(nodes, LastRefusal(nodes, refuses), old(View(nodes)))
    decreases |nodes|
  {
    hide Linked, LastRefusal, FreedDownTo;
    LinkedTop(nodes);
    var next := bio.next;
    ghost var k, was := LastRefusal(nodes, refuses), View(nodes);
    if next != null {
      ghost var below := nodes[1..];
      LastRefusalBelow(nodes, refuses);
      CutTop(next, nodes);
      ViewBelow(nodes, was);
      r := FreeTop(next, refuses, below);
      if r < 0 {
        Rechain(bio, next, nodes, k, was);
        return -1;
      }
      bio.next := null;
    } else {
      LastRefusalOne(nodes, refuses);
    }
    r := FreeAlone(bio, refuses, nodes, was);
  }

  /** The way back up after a refusal further down. */
  method Rechain(bio: Bio, next: Bio, ghost nodes: seq<Bio>, ghost k: nat, ghost was: seq<Cell>)
    requires 0 < k < |nodes| == |was| && nodes[0] == bio && nodes[1] == next && bio !in nodes[1..]
    requires bio.prev == null && bio.next == next && !bio.freed && bio.cell == was[0]
    requires FreedDownTo(nodes[1..], k - 1, was[1..])
    modifies bio`cell, next`prev
    ensures FreedDownTo(nodes, k, was)
  {
    hide Linked;
    ghost var left := nodes[1..][..k];
    LinkedTop(left);
    Relink(bio, next, left);
    assert nodes[..k + 1] == [bio] + left;
    MarkFailing(bio, nodes[..k + 1]);
    FreedAbove(nodes, k, was);
  }

  /** The bio stands alone: it goes, or refuses. */
  method FreeAlone(bio: Bio, refuses: set<Bio>, ghost nodes: seq<Bio>, ghost was: seq<Cell>) returns (r: int)
    requires nodes != [] && |nodes| == |was| && nodes[0] == bio && bio !in nodes[1..]
    requires bio.prev == null && bio.next == null && !bio.freed && bio.cell == was[0]
    requires |nodes| > 1 ==> FreedDownTo(nodes[1..], -1, was[1..])
    modifies bio`freed
    ensures r == if bio in refuses then -1 else 0
    ensures FreedDownTo(nodes, if bio in refuses then 0 else -1, was)
  {
    r := TallocFree(bio, refuses);
    FreedBelow(nodes, if bio in refuses then 0 else -1, was);
  }

  lemma ViewBelow(nodes: seq<Bio>, was: seq<Cell>)
    requires nodes != [] && View(nodes) == was
    ensures View(nodes[1..]) == was[1..]
  {
  }

  lemma LastRefusalOne(nodes: seq<Bio>, refuses: set<Bio>)
    requires |nodes| == 1
    ensures LastRefusal(nodes, refuses) == if nodes[0] in refuses then 0 else -1
  {
  }

  lemma LinkedTop(nodes: seq<Bio>)
    requires Linked(nodes)
    ensures nodes != [] && nodes[0] !in nodes[1..]
    ensures nodes[0].prev == null && !nodes[0].freed
    ensures nodes[0].next == if |nodes| > 1 then nodes[1] else null
  {
  }

  /** bio->read = fr_bio_fail_read, bio->write = fr_bio_fail_write. */
  method MarkFailing(bio: Bio, ghost nodes: seq<Bio>)
    requires Linked(nodes)
    modifies bio`cell
    ensures Linked(nodes) && bio.cell == old(bio.cell).(read := Failing, write := Failing)
  {
    bio.cell := bio.cell.(read := Failing, write := Failing);
  }

  lemma LastRefusalBelow(nodes: seq<Bio>, refuses: set<Bio>)
    requires |nodes| > 1
    ensures LastRefusal(nodes, refuses) ==
      var k := LastRefusal(nodes[1..], refuses);
      if k >= 0 then k + 1 else if nodes[0] in refuses then 0 else -1
  {
    var k := LastRefusal(nodes[1..], refuses);
    LastRefusalUnique(nodes, refuses, if k >= 0 then k + 1 else if nodes[0] in refuses then 0 else -1);
  }

  /** Calling again after a refusal, once nothing refuses any more, frees all that was left. */
  method FreeThenRetry(bio: Bio, refuses: set<Bio>, ghost nodes: seq<Bio>) returns (r: int)
    requires Linked(nodes) && nodes[0] == bio
    modifies nodes
    ensures r == 0 && forall i :: 0 <= i < |nodes| ==> nodes[i].freed
  {
    r := Free(bio, refuses, nodes);
    if r < 0 {
      ghost var k := LastRefusal(nodes, refuses);
      ghost var left := nodes[..k + 1];
      LinkedTop(left);
      r := Free(bio, {}, left);
      assert forall i :: 0 <= i <= k ==> nodes[i] == left[i];
    }
  }

  // ---- end of file -------------------------------------------------------------------

  /** The callbacks a walk makes: a private handler is asked and answers, or the application
      handler of the top bio runs. */
  datatype Call = Asked(at: nat, eof: bool) | App

  /** The walk of fr_bio_eof() above position i.  The k-th handler asked gives answers[k];
      one for which there is no answer says "not at EOF". */
  function EofAbove(c: seq<Cell>, i: nat, answers: seq<bool>): (r: (seq<Cell>, seq<Call>))
    requires i < |c|
    ensures |r.0| == |c|
    decreases i
  {
    if i == 0 then
      if c[0].appEof then (c[0 := c[0].(appEof := false)], [App]) else (c, [])
    else if !c[i - 1].privEof then EofAbove(c, i - 1, answers)
    else if answers == [] || !answers[0] then (c, [Asked(i - 1, false)])
    else
      var (c', calls) := EofAbove(c[i - 1 := c[i - 1].(privEof := false)], i - 1, answers[1..]);
      (c', [Asked(i - 1, true)] + calls)
  }

  function Eof(c: seq<Cell>, i: nat, answers: seq<bool>): (r: (seq<Cell>, seq<Call>))
    requires i < |c|
    ensures |r.0| == |c|
  {
    EofAbove(c[i := c[i].(read := Null)], i, answers)
  }

  /** fr_bio_eof() on the linked bios. */
  method BioEof(bio: Bio, answers: seq<bool>, ghost nodes: seq<Bio>, ghost i: nat) returns (ghost calls: seq<Call>)
    requires Linked(nodes) && i < |nodes| && nodes[i] == bio
    modifies nodes
    ensures Linked(nodes)
    ensures (View(nodes), calls) == Eof(old(View(nodes)), i, answers)
  {
    hide Linked, EofAbove;
    SetCell(bio, bio.cell.(read := Null), nodes, i);
    ghost var goal := EofAbove(View(nodes), i, answers);
    var cur: Bio, left := bio, answers;
    ghost var j: nat, todo := i, goal;
    calls := [];
    assert [] + goal.1 == goal.1;
    while true
      invariant Linked(nodes) && j < |nodes| && nodes[j] == cur
      invariant todo == EofAbove(View(nodes), j, left)
      invariant goal == (todo.0, calls + todo.1)
      decreases j
    {
      LinkedAt(nodes, j);
      EofCases(View(nodes), j, left);
      var prev := cur.prev;
      if prev == null {
        if cur.cell.appEof {
          SetCell(cur, cur.cell.(appEof := false), nodes, 0);
          calls := calls + [App];
        } else {
          assert calls + [] == calls;
        }
        break;
      }
      cur := prev;
      j := j - 1;
      if !cur.cell.privEof {
        continue;
      }
      if left == [] || !left[0] {
        calls := calls + [Asked(j, false)];
        break;
      }
      left := left[1..];
      SetCell(cur, cur.cell.(privEof := false), nodes, j);
      todo := EofAbove(View(nodes), j, left);
      assert calls + ([Asked(j, true)] + todo.1) == calls + [Asked(j, true)] + todo.1;
      calls := calls + [Asked(j, true)];
    }
  }

  lemma LinkedAt(nodes: seq<Bio>, i: nat)
    requires Linked(nodes) && i < |nodes|
    ensures nodes[i].prev == if i == 0 then null else nodes[i - 1]
    ensures nodes[i].next == if i == |nodes| - 1 then null else nodes[i + 1]
  {
  }

  lemma {:induction false} EofCases(c: seq<Cell>, i: nat, answers: seq<bool>)
    requires i < |c|
    ensures i == 0 && c[0].appEof ==> EofAbove(c, i, answers) == (c[0 := c[0].(appEof := false)], [App])
    ensures i == 0 && !c[0].appEof ==> EofAbove(c, i, answers) == (c, [])
    ensures i > 0 && !c[i - 1].privEof ==> EofAbove(c, i, answers) == EofAbove(c, i - 1, answers)
    ensures i > 0 && c[i - 1].privEof && (answers == [] || !answers[0]) ==>
      EofAbove(c, i, answers) == (c, [Asked(i - 1, false)])
    ensures i > 0 && c[i - 1].privEof && answers != [] && answers[0] ==>
      var r := EofAbove(c[i - 1 := c[i - 1].(privEof := false)], i - 1, answers[1..]);
      EofAbove(c, i, answers) == (r.0, [Asked(i - 1, true)] + r.1)
  {
  }

  /** An assignment to one bio's callbacks or functions changes one cell and no link. */
  method SetCell(bio: Bio, cell: Cell, ghost nodes: seq<Bio>, ghost i: nat)
    requires Linked(nodes) && i < |nodes| && nodes[i] == bio
    modifies bio`cell
    ensures Linked(nodes) && View(nodes) == old(View(nodes))[i := cell]
  {
    bio.cell := cell;
  }

  // ---- end of file over whole runs -----------------------------------------------------

  /** A call of a handler that is still set. */
  ghost predicate Armed(c: seq<Cell>, call: Call) {
    match call
    case App => |c| > 0 && c[0].appEof
    case Asked(j, _) => j < |c| && c[j].privEof
  }

  /** After `first`, `later` cannot happen any more: the application hears once, and a
      handler that said "at EOF" is not asked again. */
  ghost predicate Excludes(first: Call, later: Call) {
    match first
    case App => later != App
    case Asked(j, eof) => eof ==> !(later.Asked? && later.at == j)
  }

  ghost predicate OnceEach(log: seq<Call>) {
    forall p, q :: 0 <= p < q < |log| ==> Excludes(log[p], log[q])
  }

  /** The walk from position i calls only handlers that are set, in order upwards, and
      unsets the ones that must not be called again; no handler is ever set. */
  lemma {:induction false} EofAboveCalls(c: seq<Cell>, i: nat, answers: seq<bool>)
    requires i < |c|
    ensures var (c', calls) := EofAbove(c, i, answers);
      && (forall x :: x in calls ==> Armed(c, x) && (x.Asked? ==> x.at < i))
      && (forall x, y :: x in calls && Armed(c', y) ==> Excludes(x, y))
      && (forall y :: Armed(c', y) ==> Armed(c, y))
      && OnceEach(calls)
    decreases i
  {
    if i > 0 {
      if !c[i - 1].privEof {
        EofAboveCalls(c, i - 1, answers);
      } else if answers != [] && answers[0] {
        var d := c[i - 1 := c[i - 1].(privEof := false)];
        EofAboveCalls(d, i - 1, answers[1..]);
        var (c', calls) := EofAbove(d, i - 1, answers[1..]);
        assert forall y :: Armed(d, y) ==> Armed(c, y) && Excludes(Asked(i - 1, true), y);
      }
    }
  }

  datatype EofEvent = EofEvent(at: nat, answers: seq<bool>)

  /** Any number of fr_bio_eof() calls, from any positions, with any answers. */
  function EofRun(c: seq<Cell>, events: seq<EofEvent>): (r: (seq<Cell>, seq<Call>))
    requires forall k :: 0 <= k < |events| ==> events[k].at < |c|
    decreases |events|
  {
    if events == [] then (c, [])
    else
      var (c', calls) := Eof(c, events[0].at, events[0].answers);
      var (c'', log) := EofRun(c', events[1..]);
      (c'', calls + log)
  }

  /** Over every run the application EOF callback runs at most once, and a private handler
      that answered "at EOF" is never asked again. */
  lemma {:induction false} EofRunOnceEach(c: seq<Cell>, events: seq<EofEvent>)
    requires forall k :: 0 <= k < |events| ==> events[k].at < |c|
    ensures OnceEach(EofRun(c, events).1)
    ensures forall x :: x in EofRun(c, events).1 ==> Armed(c, x)
    decreases |events|
  {
    if events != [] {
      var i, answers := events[0].at, events[0].answers;
      var d := c[i := c[i].(read := Null)];
      assert forall x :: Armed(d, x) <==> Armed(c, x);
      EofAboveCalls(d, i, answers);
      var (c', calls) := Eof(c, i, answers);
      EofRunOnceEach(c', events[1..]);
      var log := EofRun(c', events[1..]).1;
      OnceEachConcat(calls, log);
    }
  }

  lemma OnceEachConcat(a: seq<Call>, b: seq<Call>)
    requires OnceEach(a) && OnceEach(b)
    requires forall x, y :: x in a && y in b ==> Excludes(x, y)
    ensures OnceEach(a + b)
  {
  }

  function Handlers(c: seq<Cell>, i: nat): (n: nat)
    requires i <= |c|
    ensures n <= i
  {
    if i == 0 then 0 else Handlers(c, i - 1) + if c[i - 1].privEof then 1 else 0
  }

  lemma {:induction false} HandlersFrame(c: seq<Cell>, d: seq<Cell>, i: nat)
    requires i <= |c| == |d| && forall k :: 0 <= k < i ==> c[k].privEof == d[k].privEof
    ensures Handlers(c, i) == Handlers(d, i)
  {
    if i > 0 {
      HandlersFrame(c, d, i - 1);
    }
  }

  predicate FirstYes(answers: seq<bool>, n: nat) {
    n <= |answers| && forall k :: 0 <= k < n ==> answers[k]
  }

  lemma FirstYesTail(answers: seq<bool>, n: nat)
    requires answers != [] && answers[0] && n >= 1
    ensures FirstYes(answers, n) <==> FirstYes(answers[1..], n - 1)
  {
    if FirstYes(answers[1..], n - 1) {
      assert forall k :: 0 < k < n ==> answers[k] == answers[1..][k - 1];
    }
  }

  /** The application hears of EOF exactly when it still wants to and every private handler
      above the caller that is still set says "at EOF". */
  lemma {:induction false} AppHearsIff(c: seq<Cell>, i: nat, answers: seq<bool>)
    requires i < |c|
    ensures App in EofAbove(c, i, answers).1 <==>
      c[0].appEof && FirstYes(answers, Handlers(c, i))
    decreases i
  {
    if i > 0 {
      if !c[i - 1].privEof {
        AppHearsIff(c, i - 1, answers);
      } else if answers != [] && answers[0] {
        var d := c[i - 1 := c[i - 1].(privEof := false)];
        HandlersFrame(c, d, i - 1);
        AppHearsIff(d, i - 1, answers[1..]);
        FirstYesTail(answers, Handlers(c, i));
      }
    }
  }

  /** Handlers that are set strictly between positions j and i. */
  function Between(c: seq<Cell>, j: nat, i: nat): (n: int)
    requires j < i <= |c|
  {
    Handlers(c, i) - Handlers(c, j + 1)
  }

  lemma {:induction false} HandlersMonotone(c: seq<Cell>, j: nat, i: nat)
    requires j <= i <= |c|
    ensures Handlers(c, j) <= Handlers(c, i)
  {
    if j < i {
      HandlersMonotone(c, j, i - 1);
    }
  }

  /** The handler at j is asked exactly if it is set and above the caller, and all set handlers
      in between said "at EOF"; what it says is the next answer. */
  ghost predicate AskedFor(c: seq<Cell>, i: nat, answers: seq<bool>, j: nat, eof: bool)
    requires i < |c|
  {
    && j < i && c[j].privEof
    && var n := Between(c, j, i);
       n >= 0 && FirstYes(answers, n) && eof == (n < |answers| && answers[n])
  }

  lemma {:induction false} AskedIff(c: seq<Cell>, i: nat, answers: seq<bool>, j: nat, eof: bool)
    requires i < |c|
    ensures Asked(j, eof) in EofAbove(c, i, answers).1 <==> AskedFor(c, i, answers, j, eof)
    decreases i
  {
    hide EofAbove, FirstYes;
    EofCases(c, i, answers);
    NoneYes(answers);
    if i > 0 {
      if j < i {
        HandlersMonotone(c, j + 1, i);
        if j < i - 1 {
          HandlersMonotone(c, j + 1, i - 1);
        }
      }
      if !c[i - 1].privEof {
        AskedIff(c, i - 1, answers, j, eof);
      } else if answers != [] && answers[0] {
        var d := c[i - 1 := c[i - 1].(privEof := false)];
        AskedIff(d, i - 1, answers[1..], j, eof);
        if j < i - 1 {
          HandlersFrame(c, d, i - 1);
          HandlersFrame(c, d, j + 1);
          FirstYesTail(answers, Between(c, j, i));
        }
      }
    }
  }

  lemma NoneYes(answers: seq<bool>)
    ensures FirstYes(answers, 0)
    ensures forall n :: FirstYes(answers, n) && n > 0 ==> answers != [] && answers[0]
  {
  }

  /** Calls go upwards: each handler asked is above the one asked before, the application hears
      last, and nobody is asked after a "not at EOF". */
  ghost predicate Upwards(calls: seq<Call>) {
    forall p, q :: 0 <= p < q < |calls| ==> Precedes(calls[p], calls[q])
  }

  predicate Precedes(x: Call, y: Call) { x.Asked? && x.eof && (y.Asked? ==> y.at < x.at) }

  /** What a call leaves of a cell: the caller reads nothing any more, a handler that said "at
      EOF" is unset, and so is the application's once it has been called. */
  function Quenched(x: Cell, caller: bool, saidYes: bool, appHeard: bool): Cell {
    Cell(if caller then Null else x.read, x.write, x.destructor, x.privShutdown,
         x.privEof && !saidYes, x.appShutdown, x.appEof && !appHeard)
  }

  lemma UpwardsCons(i: nat, calls: seq<Call>)
    requires Upwards(calls) && forall x :: x in calls && x.Asked? ==> x.at < i
    ensures Upwards([Asked(i, true)] + calls)
  {
    var all := [Asked(i, true)] + calls;
    forall p, q | 0 <= p < q < |all|
      ensures Precedes(all[p], all[q])
    {
      assert all[q] == calls[q - 1] && calls[q - 1] in calls;
      if p > 0 {
        assert all[p] == calls[p - 1];
      }
    }
  }

  lemma UpwardsFew()
    ensures Upwards([]) && forall x :: Upwards([x])
  {
  }

  lemma {:induction false} EofAboveExact(c: seq<Cell>, i: nat, answers: seq<bool>)
    requires i < |c|
    ensures var (c', calls) := EofAbove(c, i, answers);
      && Upwards(calls)
      && (forall x :: x in calls && x.Asked? ==> x.at < i)
      && forall j :: 0 <= j < |c| ==>
        c'[j] == Quenched(c[j], false, Asked(j, true) in calls, j == 0 && App in calls)
    decreases i
  {
    hide EofAbove, Upwards;
    EofCases(c, i, answers);
    UpwardsFew();
    if i > 0 {
      if !c[i - 1].privEof {
        EofAboveExact(c, i - 1, answers);
      } else if answers != [] && answers[0] {
        var d := c[i - 1 := c[i - 1].(privEof := false)];
        EofAboveExact(d, i - 1, answers[1..]);
        var calls := EofAbove(d, i - 1, answers[1..]).1;
        UpwardsCons(i - 1, calls);
        assert forall x :: x in [Asked(i - 1, true)] + calls <==> x == Asked(i - 1, true) || x in calls;
      }
    }
  }

  /** fr_bio_eof() on any chain: which handlers hear of it, with which answer, in which order;
      when the application does; and what every bio of the chain is afterwards. */
  lemma {:induction false} EofExact(c: seq<Cell>, i: nat, answers: seq<bool>)
    requires i < |c|
    ensures var (c', calls) := Eof(c, i, answers);
      && Upwards(calls)
      && (forall j: nat, eof: bool :: Asked(j, eof) in calls <==> AskedFor(c, i, answers, j, eof))
      && (App in calls <==> c[0].appEof && FirstYes(answers, Handlers(c, i)))
      && forall j :: 0 <= j < |c| ==>
        c'[j] == Quenched(c[j], j == i, Asked(j, true) in calls, j == 0 && App in calls)
  {
    var d := c[i := c[i].(read := Null)];
    EofAboveExact(d, i, answers);
    AppHearsIff(d, i, answers);
    HandlersFrame(c, d, i);
    forall j: nat, eof: bool
      ensures Asked(j, eof) in EofAbove(d, i, answers).1 <==> AskedFor(c, i, answers, j, eof)
    {
      AskedIff(d, i, answers, j, eof);
      if j < i {
        HandlersFrame(c, d, j + 1);
      }
    }
  }

  // ---- shutdown ------------------------------------------------------------------------

  /** Positions of the private shutdown handlers that are set, from i on. */
  function ToShut(c: seq<Cell>, i: nat): seq<nat>
    requires i <= |c|
    decreases |c| - i
  {
    if i == |c| then [] else (if c[i].privShutdown then [i] else []) + ToShut(c, i + 1)
  }

  function ShutCell(x: Cell): Cell { x.(read := Shut, write := Shut, destructor := false, privShutdown := false) }

  /** fr_bio_shutdown(): private handlers from top to bottom, then the application. */
  function Shutdown(c: seq<Cell>): (seq<Cell>, seq<nat>, bool)
    requires c != []
  {
    (seq(|c|, k requires 0 <= k < |c| =>
       if k == 0 then ShutCell(c[0]).(appShutdown := false) else ShutCell(c[k])),
     ToShut(c, 0), c[0].appShutdown)
  }

  /** The walk back to the first bio of the chain. */
  method Top(bio: Bio, ghost nodes: seq<Bio>, ghost i: nat) returns (top: Bio)
    requires Linked(nodes) && i < |nodes| && nodes[i] == bio
    ensures top == nodes[0]
  {
    top := bio;
    ghost var j: nat := i;
    while top.prev != null
      invariant j < |nodes| && nodes[j] == top
      decreases j
    {
      LinkedAt(nodes, j);
      top := top.prev;
      j := j - 1;
    }
  }

  /** The walk down of fr_bio_shutdown(). */
  method ShutWalk(first: Bio, ghost nodes: seq<Bio>) returns (ghost priv: seq<nat>)
    requires Linked(nodes) && nodes[0] == first
    modifies nodes
    ensures Linked(nodes) && priv == ToShut(old(View(nodes)), 0)
    ensures forall k :: 0 <= k < |nodes| ==> nodes[k].cell == ShutCell(old(nodes[k].cell))
  {
    hide Linked, ShutCell;
    LinkedTop(nodes);
    priv := [];
    var cur: Bio? := first;
    ghost var j := 0;
    ghost var c := View(nodes);
    while cur != null
      invariant Linked(nodes) && 0 <= j <= |nodes|
      invariant cur == if j < |nodes| then nodes[j] else null
      invariant forall k :: 0 <= k < |nodes| ==> View(nodes)[k] == if k < j then ShutCell(c[k]) else c[k]
      invariant ToShut(c, 0) == priv + ToShut(c, j)
      decreases |nodes| - j
    {
      LinkedAt(nodes, j);
      assert cur.cell == View(nodes)[j] == c[j];
      assert priv + ([j] + ToShut(c, j + 1)) == priv + [j] + ToShut(c, j + 1);
      assert [] + ToShut(c, j + 1) == ToShut(c, j + 1);
      if cur.cell.privShutdown {
        priv := priv + [j];
      }
      SetCell(cur, ShutCell(cur.cell), nodes, j);
      cur := cur.next;
      j := j + 1;
    }
    assert priv + [] == priv;
  }

  /** fr_bio_shutdown(), and fr_bio_shutdown_intermediate(): from any position of the chain
      the outcome is that of starting at the top. */
  method BioShutdown(bio: Bio, ghost nodes: seq<Bio>, ghost i: nat) returns (ghost priv: seq<nat>, app: bool)
    requires Linked(nodes) && i < |nodes| && nodes[i] == bio
    modifies nodes
    ensures Linked(nodes)
    ensures (View(nodes), priv, app) == Shutdown(old(View(nodes)))
  {
    var first := Top(bio, nodes, i);
    ghost var c := View(nodes);
    priv := ShutWalk(first, nodes);
    assert View(nodes)[0] == ShutCell(c[0]);
    app := first.cell.appShutdown;
    SetCell(first, first.cell.(appShutdown := false), nodes, 0);
    assert View(nodes) == Shutdown(c).0;
  }

  /** A second shutdown calls nobody and changes nothing; every bio of the chain has the
      shutdown functions and no destructor. */
  lemma {:induction false} ShutdownOnce(c: seq<Cell>)
    requires c != []
    ensures var d := Shutdown(c).0;
      && Shutdown(d) == (d, [], false)
      && forall k :: 0 <= k < |d| ==> d[k].read == Shut && d[k].write == Shut && !d[k].destructor
  {
    var d := Shutdown(c).0;
    NoneToShut(d, 0);
    assert Shutdown(d).0 == d;
  }

  /** fr_bio_shutdown() on any chain: the private handlers that were set run once each from the
      top down, the application runs exactly if its handler was set, and afterwards every bio
      refuses to read and write and is left to be freed without its destructor. */
  lemma {:induction false} ShutdownExact(c: seq<Cell>)
    requires c != []
    ensures var (d, priv, app) := Shutdown(c);
      && (forall k :: k in priv <==> 0 <= k < |c| && c[k].privShutdown)
      && (forall p, q :: 0 <= p < q < |priv| ==> priv[p] < priv[q])
      && (app <==> c[0].appShutdown)
      && |d| == |c|
      && forall k :: 0 <= k < |c| ==>
        d[k] == Cell(Shut, Shut, false, false, c[k].privEof, k > 0 && c[k].appShutdown, c[k].appEof)
  {
    ToShutExact(c, 0);
  }

  lemma {:induction false} NoneToShut(c: seq<Cell>, i: nat)
    requires i <= |c| && forall k :: 0 <= k < |c| ==> !c[k].privShutdown
    ensures ToShut(c, i) == []
    decreases |c| - i
  {
    if i < |c| {
      NoneToShut(c, i + 1);
    }
  }

  /** Handlers run in order, each once: the list is strictly increasing and holds exactly the
      positions whose handler was set. */
  lemma {:induction false} ToShutExact(c: seq<Cell>, i: nat)
    requires i <= |c|
    ensures forall k :: k in ToShut(c, i) <==> i <= k < |c| && c[k].privShutdown
    ensures forall p, q :: 0 <= p < q < |ToShut(c, i)| ==> ToShut(c, i)[p] < ToShut(c, i)[q]
    decreases |c| - i
  {
    if i < |c| {
      ToShutExact(c, i + 1);
      var rest := ToShut(c, i + 1);
      assert forall q :: 0 <= q < |rest| ==> rest[q] in rest;
    }
  }
}
