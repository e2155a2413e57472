/** fr_bio_buf_t: a window [read, write) sliding through a fixed array, used as a queue. */
module BioBuffer {
  import opened Octets

  /** What is observable of a buffer: its size, how far the window is from the start, and
      the octets in the window. */
  datatype Window = Window(size: nat, read: nat, contents: Str) {
    ghost predicate Fits() { read + |contents| <= size }
    function Room(): int { size - read - |contents| }
  }

  function Compact(w: Window): Window {
    if w.read == 0 || w.contents == [] then w else w.(read := 0)
  }

  /** fr_bio_buf_read(): what is taken, and the window left. */
  function Take(w: Window, n: nat): (Str, Window) {
    if w.contents == [] || n == 0 then ([], w)
    else
      var k := if n > |w.contents| then |w.contents| else n;
      var rest := w.contents[k..];
      var read := w.read + k;
      (w.contents[..k],
       if rest == [] then Window(w.size, 0, [])
       else if w.size - read < read then Compact(Window(w.size, read, rest))
       else Window(w.size, read, rest))
  }

  /** fr_bio_buf_write(): the return value, and the window left. */
  function Put(w: Window, b: Str): (int, Window) {
    if w.Room() < |b| then (-w.Room(), w) else (|b|, w.(contents := w.contents + b))
  }

  /** fr_bio_buf_write_undo(). */
  function Undo(w: Window, n: nat): Window
    requires n <= |w.contents|
  {
    var c := w.contents[..|w.contents| - n];
    if c == [] then Window(w.size, 0, []) else w.(contents := c)
  }

  // ---- runs ------------------------------------------------------------------

  datatype Op = Read(n: nat) | Write(b: Str) | MakeRoom | WriteUndo(n: nat)

  /** A window together with all octets read so far and all octets accepted and not undone. */
  datatype History = History(w: Window, taken: Str, kept: Str)

  ghost predicate Legal(h: History, op: Op) {
    op.WriteUndo? ==> op.n <= |h.w.contents|
  }

  function Step(h: History, op: Op): History
    requires Legal(h, op)
  {
    match op
    case Read(n) => var (out, w) := Take(h.w, n); h.(w := w, taken := h.taken + out)
    case Write(b) =>
      var (r, w) := Put(h.w, b);
      History(w, h.taken, if r == |b| then h.kept + b else h.kept)
    case MakeRoom => h.(w := Compact(h.w))
    case WriteUndo(n) =>
      History(Undo(h.w, n), h.taken, if n <= |h.kept| then h.kept[..|h.kept| - n] else [])
  }

  ghost predicate LegalRun(h: History, ops: seq<Op>)
    decreases |ops|
  {
    ops != [] ==> Legal(h, ops[0]) && LegalRun(Step(h, ops[0]), ops[1..])
  }

  function Run(h: History, ops: seq<Op>): History
    requires LegalRun(h, ops)
    decreases |ops|
  {
    if ops == [] then h else Run(Step(h, ops[0]), ops[1..])
  }

  /** Octets leave in the order they came: read so far, followed by what is in the window,
      is what was accepted.  The window never drifts past the middle of the array, and an
      empty one stands at its start. */
  ghost predicate Fifo(h: History) {
    && h.w.Fits()
    && h.taken + h.w.contents == h.kept
    && 2 * h.w.read <= h.w.size
    && (h.w.contents == [] ==> h.w.read == 0)
  }

  lemma {:induction false} ReadKeepsFifo(h: History, n: nat)
    requires Fifo(h)
    ensures Fifo(Step(h, Read(n)))
  {
    var (out, w) := Take(h.w, n);
    assert out + w.contents == h.w.contents;
    assert h.taken + out + w.contents == h.taken + (out + w.contents);
  }

  lemma {:induction false} WriteKeepsFifo(h: History, b: Str)
    requires Fifo(h)
    ensures Fifo(Step(h, Write(b)))
  {
    assert h.taken + (h.w.contents + b) == h.taken + h.w.contents + b;
  }

  lemma {:induction false} UndoKeepsFifo(h: History, n: nat)
    requires Fifo(h) && n <= |h.w.contents|
    ensures Fifo(Step(h, WriteUndo(n)))
  {
    assert h.kept[..|h.kept| - n] == h.taken + h.w.contents[..|h.w.contents| - n];
  }

  lemma {:induction false} StepKeepsFifo(h: History, op: Op)
    requires Fifo(h) && Legal(h, op)
    ensures Fifo(Step(h, op)) && Step(h, op).w.size == h.w.size
  {
    match op
    case Read(n) => ReadKeepsFifo(h, n);
    case Write(b) => WriteKeepsFifo(h, b);
    case MakeRoom =>
    case WriteUndo(n) => UndoKeepsFifo(h, n);
  }

  /** The queue law and the half-capacity bound hold after every run of operations. */
  lemma {:induction false} RunKeepsFifo(h: History, ops: seq<Op>)
    requires Fifo(h) && LegalRun(h, ops)
    ensures Fifo(Run(h, ops)) && Run(h, ops).w.size == h.w.size
    decreases ops
  {
    if ops != [] {
      StepKeepsFifo(h, ops[0]);
      RunKeepsFifo(Step(h, ops[0]), ops[1..]);
    }
  }

  /** After any run on a fresh buffer a write is refused only if it would take the contents
      past half of the size; compaction makes everything that is unused available; a refused
      write changes nothing, and is reported by a negative value exactly if some room is left. */
  lemma {:induction false} RoomAfterRun(size: nat, ops: seq<Op>, b: Str)
    requires LegalRun(History(Window(size, 0, []), [], []), ops)
    ensures var w := Run(History(Window(size, 0, []), [], []), ops).w; var (r, w') := Put(w, b);
      && w.size == size
      && (|w.contents| + |b| <= size / 2 ==> r == |b| && w'.contents == w.contents + b)
      && Put(Compact(w), b).0 == (if |w.contents| + |b| <= size then |b| else |w.contents| - size)
      && (w.Room() < |b| ==> w' == w && (r < 0 <==> w.Room() > 0))
  {
    RunKeepsFifo(History(Window(size, 0, []), [], []), ops);
  }

  // ---- how much a read takes, and where it leaves the window -------------------------

  function Smaller(a: nat, b: nat): (m: nat)
    ensures (m == a || m == b) && m <= a && m <= b
  {
    if a < b then a else b
  }

  /** A read of n takes all it can, from the front, and leaves the rest.  The window moves along
      by as much, except that it goes back to the start when it is emptied or would stand past
      the middle. */
  lemma TakeExact(w: Window, n: nat)
    ensures var m := Smaller(n, |w.contents|); var (out, left) := Take(w, n);
      && out == w.contents[..m]
      && left.contents == w.contents[m..]
      && left.size == w.size
      && left.read == (if m == 0 then w.read
                       else if m == |w.contents| || 2 * (w.read + m) > w.size then 0 else w.read + m)
  {
  }

  /** After every run on a fresh buffer: a read of n returns the next n octets accepted, or all
      that are left if there are fewer; a read of at least the contents returns all of them and
      leaves an empty window at the start. */
  lemma {:induction false} ReadAfterRun(size: nat, ops: seq<Op>, n: nat)
    requires LegalRun(History(Window(size, 0, []), [], []), ops)
    ensures var h := Run(History(Window(size, 0, []), [], []), ops); var t := Step(h, Read(n));
      && t.kept == h.kept
      && t.taken == h.kept[..Smaller(|h.taken| + n, |h.kept|)]
      && t.w.contents == h.kept[|t.taken|..]
      && (n >= |h.w.contents| ==> Take(h.w, n) == (h.w.contents, Window(size, 0, [])))
  {
    var h := Run(History(Window(size, 0, []), [], []), ops);
    RunKeepsFifo(History(Window(size, 0, []), [], []), ops);
    ReadStep(h, n);
    TakeExact(h.w, n);
    assert h.w.contents[..|h.w.contents|] == h.w.contents;
    assert h.w.contents[|h.w.contents|..] == [];
  }

  lemma ReadStep(h: History, n: nat)
    requires Fifo(h)
    ensures var t := Step(h, Read(n));
      && Fifo(t) && t.kept == h.kept && t.w.size == h.w.size
      && t.taken == h.kept[..Smaller(|h.taken| + n, |h.kept|)]
      && t.w.contents == h.kept[|t.taken|..]
  {
    var t := Step(h, Read(n));
    ReadKeepsFifo(h, n);
    TakeExact(h.w, n);
    assert |t.taken| == Smaller(|h.taken| + n, |h.kept|);
    assert t.taken + t.w.contents == h.kept;
  }

  function Sum(ns: seq<nat>): nat { if ns == [] then 0 else ns[0] + Sum(ns[1..]) }

  function Reads(ns: seq<nat>): (ops: seq<Op>)
    ensures |ops| == |ns| && forall k :: 0 <= k < |ns| ==> ops[k] == Read(ns[k])
  {
    if ns == [] then [] else [Read(ns[0])] + Reads(ns[1..])
  }

  /** However a number of octets is divided into reads, the same octets are taken. */
  lemma {:induction false} ReadsAddUp(h: History, ns: seq<nat>)
    requires Fifo(h)
    ensures LegalRun(h, Reads(ns))
    ensures var t := Run(h, Reads(ns));
      && t.kept == h.kept
      && t.taken == h.kept[..Smaller(|h.taken| + Sum(ns), |h.kept|)]
      && t.w.contents == h.kept[|t.taken|..]
    decreases ns
  {
    hide Take;
    if ns == [] {
      assert h.kept[..|h.taken|] == h.taken && h.kept[|h.taken|..] == h.w.contents;
    } else {
      assert Reads(ns)[0] == Read(ns[0]) && Reads(ns)[1..] == Reads(ns[1..]);
      ReadStep(h, ns[0]);
      ReadsAddUp(Step(h, Read(ns[0])), ns[1..]);
    }
  }

  /** After every run on a fresh buffer a write is accepted whole exactly if it fits between the
      window and the end of the array, and then the octets follow those accepted before; an undo
      takes back the last n octets accepted and nothing else; compaction moves the window to the
      start and changes no octet. */
  lemma {:induction false} WriteAfterRun(size: nat, ops: seq<Op>, b: Str, n: nat)
    requires LegalRun(History(Window(size, 0, []), [], []), ops)
    ensures var h := Run(History(Window(size, 0, []), [], []), ops);
      && var t := Step(h, Write(b)); var end := h.w.read + |h.w.contents|;
      && (end + |b| <= size ==>
            Put(h.w, b).0 == |b| && t.kept == h.kept + b && t.w.contents == h.w.contents + b)
      && (end + |b| > size ==> Put(h.w, b).0 == end - size && t == h)
      && t.w.read == h.w.read
      && Compact(h.w) == Window(size, 0, h.w.contents)
      && (n <= |h.w.contents| ==>
            && |h.w.contents| <= |h.kept|
            && Step(h, WriteUndo(n)).kept == h.kept[..|h.kept| - n]
            && Undo(h.w, n).contents == h.w.contents[..|h.w.contents| - n]
            && (n < |h.w.contents| ==> Undo(h.w, n).read == h.w.read))
  {
    RunKeepsFifo(History(Window(size, 0, []), [], []), ops);
  }

  // ---- the buffer in memory ------------------------------------------------------

  class Buffer {
    var data: array<Octet>
    var read: nat
    var write: nat

    /** fr_bio_buf_verify(). */
    ghost predicate Valid()
      reads this
    {
      read <= write <= data.Length
    }

    ghost function View(): Window
      requires Valid()
      reads this, data
    {
      Window(data.Length, read, data[read..write])
    }

    constructor (size: nat)
      ensures Valid() && fresh(data) && View() == Window(size, 0, [])
    {
      data := new Octet[size];
      read, write := 0, 0;
      new;
      assert data[0..0] == [];
    }

    method Reset()
      requires Valid()
      modifies this
      ensures Valid() && data == old(data) && View() == Window(data.Length, 0, [])
    {
      read, write := 0, 0;
    }

    method WriteRoom() returns (n: nat)
      requires Valid()
      ensures n == View().Room()
    {
      n := data.Length - write;
    }

    method MakeRoom() returns (room: nat)
      requires Valid()
      modifies this, data
      ensures Valid() && data == old(data)
      ensures View() == Compact(old(View())) && room == View().Room()
    {
      var used := write - read;
      if read != 0 && used != 0 {
        MemMove(data, 0, read, used);
        read := 0;
        write := used;
      }
      room := WriteRoom();
    }

    method Read(n: nat) returns (out: Str)
      requires Valid()
      modifies this, data
      ensures Valid() && data == old(data)
      ensures (out, View()) == Take(old(View()), n)
      ensures out == old(View()).contents[..Smaller(n, |old(View()).contents|)]
      ensures View().contents == old(View()).contents[Smaller(n, |old(View()).contents|)..]
    {
      var used := write - read;
      if used == 0 || n == 0 {
        return [];
      }
      var size := if n > used then used else n;
      out := data[read..read + size];
      assert out == data[read..write][..size];
      read := read + size;
      assert data[read..write] == old(data[read..write])[size..];
      if read == write {
        Reset();
      } else if data.Length - read < read {
        var _ := MakeRoom();
      }
    }

    /** The octets src[at..at + n], which may already stand at the write position, but nowhere
        else in the buffer. */
    method Write(src: array<Octet>, at: nat, n: nat) returns (r: int)
      requires Valid() && at + n <= src.Length
      requires src == data ==> at == write
      modifies this, data
      ensures Valid() && data == old(data)
      ensures (r, View()) == Put(old(View()), old(src[at..at + n]))
    {
      var room := WriteRoom();
      if room < n {
        return -room;
      }
      CopyIn(src, at, n);
      return n;
    }

    /** The octets are copied behind the window unless they are there already. */
    method CopyIn(src: array<Octet>, at: nat, n: nat)
      requires Valid() && at + n <= src.Length && write + n <= data.Length
      requires src == data ==> at == write
      modifies this`write, data
      ensures Valid() && data == old(data) && read == old(read) && write == old(write) + n
      ensures data[read..write] == old(data[read..write]) + old(src[at..at + n])
    {
      if src != data {
        forall i | 0 <= i < n {
          data[write + i] := src[at + i];
        }
      }
      assert data[write..write + n] == old(src[at..at + n]);
      assert data[read..write + n] == data[read..write] + data[write..write + n];
      write := write + n;
    }

    method WriteUndo(n: nat)
      requires Valid() && read + n <= write
      modifies this
      ensures Valid() && data == old(data)
      ensures View() == Undo(old(View()), n)
    {
      assert data[read..write - n] == data[read..write][..write - n - read];
      write := write - n;
      if read == write {
        Reset();
      }
    }
  }
}
