/** What a text demands of the output, laid out without regard to the room: headers, which are
    written whether they fit or not, and loads of data, which are refused if they do not fit.
    From the layout and the room alone it can be told whether the encoder writes the attribute,
    returns an error, or writes outside of its output. */
module RawLayout {
  import opened Octets
  import Hex
  import opened RawText
  import opened RawWire
  import opened RawRoundTrip
  import opened RawParts
  import opened RawRoom

  /** A load of `size` octets is taken only if there is room for `need`. */
  datatype Item = Head(size: nat) | Load(size: nat, need: nat)

  /** `ok` says that nothing but the room can stop the text from being encoded. */
  datatype Layout = Layout(items: seq<Item>, ok: bool)

  const STOP := Layout([], false)

  function Size(items: seq<Item>): nat {
    if items == [] then 0 else items[0].size + Size(items[1..])
  }

  function Need(it: Item): nat { if it.Head? then it.size else it.need }

  datatype Kind = Writes | Errs | Spill

  function KindOf(r: Outcome): Kind {
    match r
    case Done(_) => Writes
    case Fails(_) => Errs
    case Spills => Spill
  }

  /** Item by item. */
  function Walk(items: seq<Item>, ok: bool, room: int): Kind {
    if items == [] then if ok then Writes else Errs
    else if room < Need(items[0]) then if items[0].Head? then Spill else Errs
    else Walk(items[1..], ok, room - items[0].size)
  }

  // ---- the layout of a text ----------------------------------------------------------------

  /** Data is seen to be complete only while there is room: a string at its closing quote, hex
      digits at what follows them. */
  function LayData(s: Str): Layout
    decreases |s|
  {
    if s == [] || !IsSpace(s[0]) then STOP
    else
      var t := SkipWs(s[1..]);
      if t != [] && t[0] == LBRACE then LayGroup(t)
      else if t != [] && t[0] == QUOTE then
        var q := QuotedBody(t[1..]);
        if q.Err? || q.v == [] then STOP else Layout([Load(|q.v|, |q.v| + 1)], true)
      else
        var h := Hex.HexDecode(t, 0, |t|);
        if h.Bad? || h.b == [] then STOP
        else Layout([Load(|h.b|, |h.b| + if Hex.HexLeft(t) == [] then 0 else 1)], true)
  }

  /** One layout after the other. */
  function InFront(t: Layout, g: Layout): Layout { Layout(t.items + g.items, g.ok) }

  function LayGroup(s: Str): Layout
    decreases |s|
  {
    var k := FindClose(s, 0);
    if k < 0 then STOP
    else
      var t, rest := LayTlv(SkipWs(s[1..k])), SkipWs(s[k + 1..]);
      if !t.ok || rest == [] then t
      else InFront(t, LayGroup(rest))
  }

  function LayTlv(s: Str): Layout
    decreases |s|
  {
    match AttrNum(s)
    case Err(_) => STOP
    case Ok((_, rest)) => Under(2, if rest[0] == DOT then LayTlv(rest[1..]) else LayData(rest), 253)
  }

  /** A header in front of at most `limit` octets. */
  function Under(head: nat, v: Layout, limit: nat): Layout {
    Layout([Head(head)] + v.items, v.ok && Size(v.items) <= limit)
  }

  /** A header in front of any number of octets. */
  function Behind(head: nat, v: Layout): Layout { Layout([Head(head)] + v.items, v.ok) }

  function LayVsa(s: Str): Layout {
    match VendorNum(s)
    case Err(_) => STOP
    case Ok((_, rest)) => Under(4, LayTlv(rest), 249)
  }

  function LayEvs(s: Str): Layout {
    match VendorNum(s)
    case Err(_) => STOP
    case Ok((_, rest)) =>
      match AttrNum(rest)
      case Err(_) => STOP
      case Ok((_, rest')) => Behind(5, LayData(rest'))
  }

  function LayBody(m: nat, s: Str): Layout { if m == 26 then LayEvs(s) else LayData(s) }

  function LayExt(s: Str): Layout {
    match AttrNum(s)
    case Err(_) => STOP
    case Ok((m, rest)) => Under(1, LayBody(m, rest), 252)
  }

  function LayRest(n: nat, rest: Str): Layout {
    if n == 26 then LayVsa(rest)
    else if !IsExtended(n) then LayData(rest)
    else if rest == [] || rest[0] != DOT then STOP
    else LayExt(rest[1..])
  }

  /** What a long extended attribute puts behind the two octets every attribute starts with. */
  function LayLong(s: Str): Layout {
    match AttrNum(s)
    case Err(_) => STOP
    case Ok((m, rest)) => Behind(2, LayBody(m, rest))
  }

  /** A whole attribute; a long one is cut into fragments once it is laid out. */
  datatype Plan = Plan(items: seq<Item>, ok: bool, long: bool)

  function LayAttr(s: Str): Plan {
    match AttrNum(s)
    case Err(_) => Plan([], false, false)
    case Ok((n, rest)) =>
      if n in {245, 246} && rest[0] == DOT then
        var v := Behind(2, LayLong(rest[1..]));
        Plan(v.items, v.ok, true)
      else
        var v := Under(2, LayRest(n, rest), 253);
        Plan(v.items, v.ok, false)
  }

  /** How long the attribute is on the wire. */
  function Length(p: Plan): nat {
    var n := Size(p.items);
    if p.long && n >= 4 then Plenty(n - 4) else n
  }

  // ---- the layout and the room, in closed form ---------------------------------------------------

  /** The room it takes to write all items: up to the last one, and what that needs. */
  function Enough(items: seq<Item>): nat {
    if items == [] then 0 else Size(items[..|items| - 1]) + Need(items[|items| - 1])
  }

  /** Item k is a header that begins where all before it is written, and ends past the room. */
  ghost predicate HeadSpillsAt(items: seq<Item>, k: int, room: int) {
    && 0 <= k < |items| && items[k].Head?
    && (k == 0 || Enough(items[..k]) <= room) && room < Size(items[..k]) + items[k].size
  }

  ghost predicate HeadSpills(items: seq<Item>, room: int) { exists k :: HeadSpillsAt(items, k, room) }

  /** All is written but the copies of the header that fragmentation makes. */
  ghost predicate FragmentsSpill(p: Plan, room: int) {
    p.long && p.ok && Enough(p.items) <= room < Length(p)
  }

  ghost predicate Overruns(p: Plan, room: int) { HeadSpills(p.items, room) || FragmentsSpill(p, room) }

  ghost predicate Completes(p: Plan, room: int) { p.ok && Enough(p.items) <= room && Length(p) <= room }

  /** Every item takes room, and a load at most one octet more than it leaves behind. */
  ghost predicate Proper(items: seq<Item>) {
    forall k :: 0 <= k < |items| ==> items[k].size >= 1 && items[k].size <= Need(items[k]) <= items[k].size + 1
  }

  lemma {:induction false} EnoughCons(x: Item, tail: seq<Item>)
    ensures Size([x] + tail) == x.size + Size(tail)
    ensures Enough([x] + tail) == if tail == [] then Need(x) else x.size + Enough(tail)
  {
    var l := [x] + tail;
    assert l[1..] == tail;
    if tail == [] {
      assert l[..0] == [];
    } else {
      var a := tail[..|tail| - 1];
      assert l[..|l| - 1] == [x] + a;
      assert ([x] + a)[1..] == a;
    }
  }

  lemma {:induction false} WalkWrites(items: seq<Item>, room: int)
    requires Proper(items) && room >= 0
    ensures Walk(items, true, room) == Writes <==> Enough(items) <= room
    ensures items != [] ==> Enough(items) >= 1
  {
    if items != [] {
      var x, tail := items[0], items[1..];
      assert items == [x] + tail;
      EnoughCons(x, tail);
      assert Proper(tail) by {
        assert forall k :: 0 <= k < |tail| ==> tail[k] == items[k + 1];
      }
      if room >= x.size {
        WalkWrites(tail, room - x.size);
      } else {
        WalkWrites(tail, 0);
      }
    }
  }

  lemma {:induction false} SpillsLater(x: Item, tail: seq<Item>, j: int, room: int)
    requires HeadSpillsAt(tail, j, room - x.size) && room >= Need(x)
    ensures HeadSpillsAt([x] + tail, j + 1, room)
  {
    assert ([x] + tail)[..j + 1] == [x] + tail[..j];
    EnoughCons(x, tail[..j]);
  }

  lemma {:induction false} SomeHeadSpills(items: seq<Item>, ok: bool, room: int)
    requires Walk(items, ok, room) == Spill
    ensures HeadSpills(items, room)
  {
    hide HeadSpillsAt;
    var x, tail := items[0], items[1..];
    assert items == [x] + tail;
    if room < Need(x) {
      assert HeadSpillsAt(items, 0, room) by { FirstSpills(items, room); }
    } else {
      SomeHeadSpills(tail, ok, room - x.size);
      var j :| HeadSpillsAt(tail, j, room - x.size);
      SpillsLater(x, tail, j, room);
    }
  }

  lemma FirstSpills(items: seq<Item>, room: int)
    requires items != [] && items[0].Head? && room < items[0].size
    ensures HeadSpillsAt(items, 0, room)
  {
  }

  /** Item by item, the walk spills exactly if a header does. */
  lemma {:induction false} WalkSpills(items: seq<Item>, ok: bool, room: int)
    requires Proper(items) && room >= 0
    ensures Walk(items, ok, room) == Spill <==> HeadSpills(items, room)
  {
    if Walk(items, ok, room) == Spill {
      SomeHeadSpills(items, ok, room);
    }
    if HeadSpills(items, room) {
      var k :| HeadSpillsAt(items, k, room);
      WalkWrites(items[..k], room);
      WalkConcat(items[..k], items[k..], ok, room);
      assert items == items[..k] + items[k..];
    }
  }

  // ---- item by item is what the encoder does ------------------------------------------------

  /** The encoder does what the layout says, and what it writes is as long as the layout says. */
  ghost predicate Follows(r: Outcome, l: Layout, room: nat) {
    KindOf(r) == Walk(l.items, l.ok, room) && (r.Done? ==> |r.b| == Size(l.items))
  }

  lemma {:induction false} SizeConcat(a: seq<Item>, b: seq<Item>)
    ensures Size(a + b) == Size(a) + Size(b)
  {
    if a == [] {
      assert a + b == b;
    } else {
      assert (a + b)[1..] == a[1..] + b;
      SizeConcat(a[1..], b);
    }
  }

  lemma {:induction false} WalkConcat(a: seq<Item>, b: seq<Item>, ok: bool, room: int)
    ensures Walk(a + b, ok, room) ==
      var w := Walk(a, true, room); if w == Writes then Walk(b, ok, room - Size(a)) else w
  {
    if a == [] {
      assert a + b == b;
    } else {
      assert (a + b)[1..] == a[1..] + b;
      WalkConcat(a[1..], b, ok, room - a[0].size);
    }
  }

  lemma WalkUnder(head: nat, v: Layout, limit: nat, room: int)
    ensures var l := Under(head, v, limit);
      && Walk(l.items, l.ok, room) == (if room < head then Spill else Walk(v.items, l.ok, room - head))
      && Size(l.items) == head + Size(v.items)
  {
    assert ([Head(head)] + v.items)[1..] == v.items;
  }

  lemma {:induction false} WalkOk(items: seq<Item>, room: int)
    ensures Walk(items, false, room) == (if Walk(items, true, room) == Writes then Errs else Walk(items, true, room))
  {
    if items != [] {
      WalkOk(items[1..], room - items[0].size);
    }
  }

  /** A header, what follows it, and the test of its length. */
  lemma {:induction false} UnderFollows(r: Outcome, v: Layout, head: nat, limit: nat, room: nat, whole: Outcome)
    requires room >= head ==> Follows(r, v, room - head)
    requires if room < head then whole == Spills
             else if !r.Done? then whole == r
             else if |r.b| > limit then whole.Fails?
             else whole.Done? && |whole.b| == head + |r.b|
    ensures Follows(whole, Under(head, v, limit), room)
  {
    WalkUnder(head, v, limit, room);
    WalkOk(v.items, room - head);
  }

  lemma WalkLoad(size: nat, need: nat, room: int)
    ensures Walk([Load(size, need)], true, room) == (if room < need then Errs else Writes)
    ensures Size([Load(size, need)]) == size
  {
    var l := [Load(size, need)];
    assert l[1..] == [];
  }

  lemma {:induction false} HexFollows(s: Str, room: nat)
    ensures var h := Hex.HexDecode(s, 0, |s|);
      Follows(PutHex(s, room),
              if h.Bad? || h.b == [] then STOP
              else Layout([Load(|h.b|, |h.b| + if Hex.HexLeft(s) == [] then 0 else 1)], true), room)
  {
    hide Hex.HexDecode, Hex.HexLeft;
    var h := Hex.HexDecode(s, 0, |s|);
    if h.Bytes? {
      Hex.HexNeedExact(s, 0, room, |s|);
      WalkLoad(|h.b|, |h.b| + if Hex.HexLeft(s) == [] then 0 else 1, room);
    } else if room >= |s| {
      Hex.HexRoom(s, 0, room);
    } else {
      Hex.HexLess(s, 0, room, |s|);
    }
  }

  lemma {:induction false} DataFollows(s: Str, room: nat)
    ensures Follows(PutData(s, room), LayData(s), room)
    decreases |s|
  {
    hide PutGroup, LayGroup, PutHex, Hex.HexDecode;
    if s != [] && IsSpace(s[0]) {
      var t := SkipWs(s[1..]);
      if t != [] && t[0] == LBRACE {
        GroupFollows(t, room);
      } else if t != [] && t[0] == QUOTE {
        var q := QuotedBody(t[1..]);
        if q.Ok? {
          WalkLoad(|q.v|, |q.v| + 1, room);
        }
      } else {
        HexFollows(t, room);
      }
    }
  }

  lemma {:induction false} LayGroupCases(s: Str)
    ensures var k := FindClose(s, 0);
      if k < 0 then LayGroup(s) == STOP
      else
        var t, rest := LayTlv(SkipWs(s[1..k])), SkipWs(s[k + 1..]);
        LayGroup(s) == if !t.ok || rest == [] then t else InFront(t, LayGroup(rest))
  {
  }

  /** The last TLV of a group, or one that stops it. */
  lemma {:induction false} LastFollows(r: Outcome, l: Layout, room: nat)
    requires Follows(r, l, room)
    ensures Follows(if r.Fails? then Fails(0) else r, l, room)
  {
  }

  /** A TLV of a group, and the rest of the group behind it. */
  lemma {:induction false} MoreFollows(r: Outcome, l: Layout, rest: Outcome, g: Layout, room: nat)
    requires Follows(r, l, room) && l.ok
    requires r.Done? ==> |r.b| <= room && Follows(rest, g, room - |r.b|)
    ensures Follows(if r.Spills? then Spills else if r.Fails? then Fails(0) else After(r.b, rest), InFront(l, g), room)
  {
    WalkConcat(l.items, g.items, g.ok, room);
    SizeConcat(l.items, g.items);
  }

  lemma {:induction false} StopsFollows(r: Outcome, l: Layout, room: nat)
    requires Follows(r, l, room) && !l.ok
    ensures !r.Done?
  {
    WalkOk(l.items, room);
  }

  lemma {:induction false} GroupFollows(s: Str, room: nat)
    ensures Follows(PutGroup(s, room), LayGroup(s), room)
    decreases |s|
  {
    hide PutGroup, LayGroup, PutTlv, LayTlv, FindClose, SkipWs, Follows, After, InFront;
    PutGroupCases(s, room);
    LayGroupCases(s);
    var k := FindClose(s, 0);
    if k < 0 {
      StopFollows(room);
    } else {
      var t, rest := SkipWs(s[1..k]), SkipWs(s[k + 1..]);
      var l, r := LayTlv(t), PutTlv(t, room);
      TlvFollows(t, room);
      if !l.ok {
        StopsFollows(r, l, room);
        LastFollows(r, l, room);
      } else if rest == [] {
        LastFollows(r, l, room);
      } else {
        var left := if r.Done? then room - |r.b| else 0;
        GroupFollows(rest, left);
        MoreFollows(r, l, PutGroup(rest, left), LayGroup(rest), room);
      }
    }
  }

  lemma StopFollows(room: nat)
    ensures Follows(Fails(0), STOP, room)
  {
  }

  lemma WalkStop(room: int)
    ensures Walk([], false, room) == Errs
  {
  }

  lemma {:induction false} TlvFollows(s: Str, room: nat)
    ensures Follows(PutTlv(s, room), LayTlv(s), room)
    decreases |s|
  {
    hide PutData, LayData, AttrNum, Low, Under, Walk, Size;
    WalkStop(room);
    var n := AttrNum(s);
    if n.Ok? {
      var rest := n.v.1;
      if room >= 2 {
        TlvFollows(rest[1..], room - 2);
        DataFollows(rest, room - 2);
      }
      var r := if room < 2 then Spills
               else if rest[0] == DOT then PutTlv(rest[1..], room - 2) else PutData(rest, room - 2);
      UnderFollows(r, if rest[0] == DOT then LayTlv(rest[1..]) else LayData(rest), 2, 253, room, PutTlv(s, room));
    }
  }

  lemma BehindIsUnder(head: nat, v: Layout)
    ensures Behind(head, v) == Under(head, v, Size(v.items))
  {
  }

  lemma {:induction false} VsaFollows(s: Str, room: nat)
    ensures Follows(PutVsa(s, room), LayVsa(s), room)
  {
    hide PutTlv, LayTlv, VendorNum, VendorOctets, Under, Walk, Size;
    WalkStop(room);
    var v := VendorNum(s);
    if v.Ok? {
      var r := if room < 4 then Spills else PutTlv(v.v.1, room - 4);
      if room >= 4 {
        TlvFollows(v.v.1, room - 4);
      }
      UnderFollows(r, LayTlv(v.v.1), 4, 249, room, PutVsa(s, room));
    }
  }

  lemma {:induction false} EvsFollows(s: Str, room: nat)
    ensures Follows(PutEvs(s, room), LayEvs(s), room)
  {
    hide PutData, LayData, VendorNum, AttrNum, VendorOctets, Under, Walk, Size;
    WalkStop(room);
    var v := VendorNum(s);
    if v.Ok? {
      var m := AttrNum(v.v.1);
      if m.Ok? {
        var r, l := if room < 5 then Spills else PutData(m.v.1, room - 5), LayData(m.v.1);
        if room >= 5 {
          DataFollows(m.v.1, room - 5);
        }
        BehindIsUnder(5, l);
        UnderFollows(r, l, 5, Size(l.items), room, PutEvs(s, room));
      }
    }
  }

  lemma {:induction false} BodyFollows(m: nat, s: Str, room: nat)
    ensures Follows(PutBody(m, s, room), LayBody(m, s), room)
  {
    hide PutData, LayData, PutEvs, LayEvs, Follows;
    DataFollows(s, room);
    EvsFollows(s, room);
  }

  lemma {:induction false} ExtFollows(s: Str, room: nat)
    ensures Follows(PutExt(s, room), LayExt(s), room)
  {
    hide PutBody, LayBody, AttrNum, Low, Under, Walk, Size;
    WalkStop(room);
    var m := AttrNum(s);
    if m.Ok? {
      var r := if room < 1 then Spills else PutBody(m.v.0, m.v.1, room - 1);
      if room >= 1 {
        BodyFollows(m.v.0, m.v.1, room - 1);
      }
      UnderFollows(r, LayBody(m.v.0, m.v.1), 1, 252, room, PutExt(s, room));
    }
  }

  lemma {:induction false} RestFollows(n: nat, s: Str, room: nat)
    ensures Follows(PutRest(n, s, room), LayRest(n, s), room)
  {
    hide PutData, LayData, PutVsa, LayVsa, PutExt, LayExt, Walk, Size;
    WalkStop(room);
    VsaFollows(s, room);
    DataFollows(s, room);
    if s != [] {
      ExtFollows(s[1..], room);
    }
  }
}
