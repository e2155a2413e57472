/** The verdict in numbers, for attributes whose data is hex digits or a string. */
module RawSizes {
  import opened Octets
  import opened RawText
  import opened RawPrinting
  import opened RawWire
  import opened RawRoundTrip
  import opened RawRoom
  import opened RawLayout
  import opened RawVerdict

  predicate SimpleTlv(t: Tlv) { if t.Leaf? then !t.d.Group? else SimpleTlv(t.sub) }

  predicate Simple(a: Attr) { if a.Vsa? then SimpleTlv(a.t) else !a.d.Group? }

  function TlvDepth(t: Tlv): nat { if t.Leaf? then 1 else 1 + TlvDepth(t.sub) }

  function TlvData(t: Tlv): Data { if t.Leaf? then t.d else TlvData(t.sub) }

  /** The octets in front of the data, counting one header of a long attribute. */
  function HeadOctets(a: Attr): nat {
    match a
    case Plain(_, _) => 2
    case Vsa(_, t) => 6 + 2 * TlvDepth(t)
    case Ext(_, _, _) => 3
    case ExtVs(_, _, _, _) => 8
    case Long(_, _, _) => 4
    case LongVs(_, _, _, _) => 9
  }

  /** A string needs room for its closing quote to be seen. */
  function DataNeed(d: Data): nat
    requires !d.Group?
  {
    if d.b == [] then 0 else if d.Quoted? then |d.b| + 1 else |d.b|
  }

  function LeafNeed(a: Attr): nat
    requires Simple(a)
  {
    if a.Vsa? then SimpleData(a.t); DataNeed(TlvData(a.t)) else DataNeed(a.d)
  }

  lemma SimpleData(t: Tlv)
    requires SimpleTlv(t)
    ensures !TlvData(t).Group?
  {
  }

  /** The items are headers of h octets together, and then at most one load. */
  ghost predicate Shaped(items: seq<Item>, h: nat, need: nat) {
    forall ok: bool, room: nat :: Walk(items, ok, room) ==
      if room < h then Spill else if room < h + need || !ok then Errs else Writes
  }

  lemma {:induction false} ShapedUnder(head: nat, v: Layout, limit: nat, h: nat, need: nat)
    requires Shaped(v.items, h, need)
    ensures Shaped(Under(head, v, limit).items, head + h, need)
    ensures Shaped(Behind(head, v).items, head + h, need)
  {
    var items := [Head(head)] + v.items;
    assert items[1..] == v.items;
    forall ok: bool, room: nat
      ensures Walk(items, ok, room) ==
        if room < head + h then Spill else if room < head + h + need || !ok then Errs else Writes
    {
      if room >= head {
        var left: nat := room - head;
        assert Walk(items, ok, room) == Walk(v.items, ok, left);
      }
    }
  }

  lemma {:induction false} DataShaped(d: Data)
    requires !d.Group?
    ensures Shaped(PlanData(d, false).items, 0, DataNeed(d))
  {
    var items := PlanData(d, false).items;
    if d.b != [] {
      assert items[1..] == [];
    }
  }

  lemma {:induction false} TlvShaped(t: Tlv)
    requires SimpleTlv(t)
    ensures !TlvData(t).Group?
    ensures Shaped(PlanTlv(t, false).items, 2 * TlvDepth(t), DataNeed(TlvData(t)))
    decreases t
  {
    hide Shaped, Under, PlanData;
    if t.Leaf? {
      DataShaped(t.d);
      ShapedUnder(2, PlanData(t.d, false), 253, 0, DataNeed(t.d));
    } else {
      TlvShaped(t.sub);
      ShapedUnder(2, PlanTlv(t.sub, false), 253, 2 * TlvDepth(t.sub), DataNeed(TlvData(t.sub)));
    }
  }

  lemma {:induction false} AttrShaped(a: Attr)
    requires Simple(a)
    ensures Shaped(PlanAttr(a).items, HeadOctets(a), LeafNeed(a))
  {
    hide Shaped, Under, Behind, PlanData, PlanTlv;
    var need := LeafNeed(a);
    if a.Vsa? {
      TlvShaped(a.t);
      ShapedUnder(4, PlanTlv(a.t, false), 249, 2 * TlvDepth(a.t), need);
      ShapedUnder(2, Under(4, PlanTlv(a.t, false), 249), 253, 4 + 2 * TlvDepth(a.t), need);
    } else {
      var l := PlanData(a.d, false);
      DataShaped(a.d);
      ShapedUnder(5, l, 0, 0, need);
      ShapedUnder(1, l, 252, 0, need);
      ShapedUnder(2, l, 253, 0, need);
      ShapedUnder(1, Behind(5, l), 252, 5, need);
      ShapedUnder(2, Behind(5, l), 0, 5, need);
      ShapedUnder(2, Under(1, l, 252), 253, 1, need);
      ShapedUnder(2, Under(1, Behind(5, l), 252), 253, 6, need);
      ShapedUnder(2, Behind(2, l), 0, 2, need);
      ShapedUnder(2, Behind(2, Behind(5, l)), 0, 7, need);
    }
  }

  /** Exactly what happens to a printed attribute with hex or string data, for every room: it spills
      if the headers do not fit, or if headers and data fit and the fragments do not; it is an error
      if the data does not fit the room or its length octets; otherwise it is written. */
  lemma {:induction false} SimpleVerdict(a: Attr, room: nat)
    requires Printable(a) && Simple(a)
    ensures KindOf(PutRfc(Print(a), room)) ==
      if room < HeadOctets(a) then Spill
      else if room < HeadOctets(a) + LeafNeed(a) || !Fits(a) then Errs
      else if room < |Wire(a)| then Spill
      else Writes
  {
    hide PutRfc, LayAttr, PlanAttr, Encode, Walk, Length, Fits, Wire, ParseAttr, Print;
    AttrDecided(Print(a), room);
    LayoutOfPrint(a);
    LayoutEncodes(Print(a));
    AttrShaped(a);
    EncodePrinted(a);
  }

  lemma {:induction false} EncodePrinted(a: Attr)
    requires Printable(a)
    ensures Encode(Print(a)) == if Fits(a) then Ok(Wire(a)) else Err(0)
  {
    hide Fits, Wire, ParseAttr, Print;
    ParseOfPrint(a);
  }

  /** With the output unit_test_attribute starts with, 1024 octets, "245.1" with a string spills
      exactly if the string has 1005 to 1019 characters. */
  lemma {:induction false} SpillsAt1024(b: Str)
    requires Quotable(b)
    ensures PutRfc(Print(Long(245, 1, Quoted(b))), 1024).Spills? <==> 1005 <= |b| <= 1019
  {
    hide PutRfc, Print, Fragments;
    var a := Long(245, 1, Quoted(b));
    SimpleVerdict(a, 1024);
    FragmentsSize(Low(245), Low(1), b);
    assert Wire(a) == Fragments(Low(245), Low(1), b);
  }
}
