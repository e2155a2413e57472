/** Which of three things the encoder does with a text and an output: write the attribute, return
    an error, or write outside of the output.  The layout of the text decides, for every text and
    every room; for printed attributes the layout is read off the attribute. */
module RawVerdict {
  import opened Octets
  import Hex
  import opened RawText
  import opened RawPrinting
  import opened RawWire
  import opened RawRoundTrip
  import opened RawParts
  import opened RawRoom
  import opened RawLayout

  // ---- layouts are proper ---------------------------------------------------------------------

  lemma ProperConcat(a: seq<Item>, b: seq<Item>)
    requires Proper(a) && Proper(b)
    ensures Proper(a + b)
  {
  }

  lemma ProperHead(n: nat, b: seq<Item>)
    requires n >= 1 && Proper(b)
    ensures Proper([Head(n)] + b)
  {
  }

  lemma ProperLoad(n: nat, slack: nat)
    requires n >= 1 && slack <= 1
    ensures Proper([Load(n, n + slack)])
  {
  }

  lemma {:induction false} DataProper(s: Str)
    ensures Proper(LayData(s).items)
    decreases |s|
  {
    hide Proper, Hex.HexDecode, Hex.HexLeft, QuotedBody, LayGroup;
    ProperNone();
    if s != [] && IsSpace(s[0]) {
      var t := SkipWs(s[1..]);
      GroupProper(t);
      var h := Hex.HexDecode(t, 0, |t|);
      if h.Bytes? && h.b != [] {
        ProperLoad(|h.b|, if Hex.HexLeft(t) == [] then 0 else 1);
      }
      if t != [] {
        var q := QuotedBody(t[1..]);
        if q.Ok? && q.v != [] {
          ProperLoad(|q.v|, 1);
        }
      }
    }
  }

  lemma {:induction false} GroupProper(s: Str)
    ensures Proper(LayGroup(s).items)
    decreases |s|
  {
    hide Proper;
    var k := FindClose(s, 0);
    if k >= 0 {
      TlvProper(SkipWs(s[1..k]));
      GroupProper(SkipWs(s[k + 1..]));
      ProperConcat(LayTlv(SkipWs(s[1..k])).items, LayGroup(SkipWs(s[k + 1..])).items);
    } else {
      ProperNone();
    }
  }

  lemma ProperNone()
    ensures Proper([])
  {
  }

  lemma {:induction false} TlvProper(s: Str)
    ensures Proper(LayTlv(s).items)
    decreases |s|
  {
    hide Proper;
    ProperNone();
    var n := AttrNum(s);
    if n.Ok? {
      var rest := n.v.1;
      TlvProper(rest[1..]);
      DataProper(rest);
      ProperHead(2, if rest[0] == DOT then LayTlv(rest[1..]).items else LayData(rest).items);
    }
  }

  lemma {:induction false} BodyProper(m: nat, s: Str)
    ensures Proper(LayBody(m, s).items)
  {
    hide Proper, LayData;
    ProperNone();
    DataProper(s);
    var v := VendorNum(s);
    if v.Ok? {
      var k := AttrNum(v.v.1);
      if k.Ok? {
        DataProper(k.v.1);
        ProperHead(5, LayData(k.v.1).items);
      }
    }
  }

  lemma {:induction false} VsaProper(s: Str)
    ensures Proper(LayVsa(s).items)
  {
    hide Proper, LayTlv;
    ProperNone();
    var v := VendorNum(s);
    if v.Ok? {
      TlvProper(v.v.1);
      ProperHead(4, LayTlv(v.v.1).items);
    }
  }

  lemma {:induction false} ExtProper(s: Str)
    ensures Proper(LayExt(s).items)
  {
    hide Proper, LayBody;
    ProperNone();
    var m := AttrNum(s);
    if m.Ok? {
      BodyProper(m.v.0, m.v.1);
      ProperHead(1, LayBody(m.v.0, m.v.1).items);
    }
  }

  lemma {:induction false} RestProper(n: nat, s: Str)
    ensures Proper(LayRest(n, s).items)
  {
    hide Proper, LayData, LayVsa, LayExt;
    ProperNone();
    DataProper(s);
    VsaProper(s);
    if s != [] {
      ExtProper(s[1..]);
    }
  }

  lemma {:induction false} LongProper(s: Str)
    ensures Proper(LayLong(s).items)
  {
    hide Proper, LayBody;
    ProperNone();
    var m := AttrNum(s);
    if m.Ok? {
      BodyProper(m.v.0, m.v.1);
      ProperHead(2, LayBody(m.v.0, m.v.1).items);
    }
  }

  lemma {:induction false} AttrProper(s: Str)
    ensures Proper(LayAttr(s).items)
  {
    hide Proper, LayRest, LayLong;
    ProperNone();
    var num := AttrNum(s);
    if num.Ok? {
      var (n, rest) := num.v;
      LongProper(rest[1..]);
      RestProper(n, rest);
      ProperHead(2, LayLong(rest[1..]).items);
      ProperHead(2, LayRest(n, rest).items);
    }
  }

  // ---- the verdict ------------------------------------------------------------------------------

  /** The encoder follows the walk, except that fragments may spill when all is written. */
  ghost predicate Decided(r: Outcome, p: Plan, room: nat) {
    var w := Walk(p.items, p.ok, room);
    && KindOf(r) == (if w == Writes && Length(p) > room then Spill else w)
    && (r.Done? ==> |r.b| == Length(p))
  }

  lemma {:induction false} LongDecided(n: Octet, s: Str, room: nat)
    requires room >= 2
    ensures var v := Behind(2, LayLong(s)); Decided(PutLong(n, s, room), Plan(v.items, v.ok, true), room)
  {
    hide PutBody, LayBody, AttrNum, Low, Walk, Size, Fragments, Plenty;
    WalkStop(room - 2);
    WalkUnder(2, LayLong(s), Size(LayLong(s).items), room);
    BehindIsUnder(2, LayLong(s));
    var m := AttrNum(s);
    if m.Ok? {
      var l := LayBody(m.v.0, m.v.1);
      WalkUnder(2, l, Size(l.items), room - 2);
      BehindIsUnder(2, l);
      if room >= 4 {
        BodyFollows(m.v.0, m.v.1, room - 4);
        var r := PutBody(m.v.0, m.v.1, room - 4);
        if r.Done? {
          FragmentsPlenty(n, Low(m.v.0), r.b);
        }
      }
    }
  }

  lemma FragmentsPlenty(typ: Octet, ext: Octet, p: Str)
    ensures |Fragments(typ, ext, p)| == Plenty(|p|)
  {
    FragmentsSize(typ, ext, p);
  }

  lemma {:induction false} AttrDecided(s: Str, room: nat)
    ensures Decided(PutRfc(s, room), LayAttr(s), room)
  {
    hide PutLong, LayLong, PutRest, LayRest, AttrNum, Low, Walk, Size, Under, Plenty;
    WalkStop(room);
    var num := AttrNum(s);
    if num.Ok? {
      var (n, rest) := num.v;
      if n in {245, 246} && rest[0] == DOT {
        if room < 2 {
          BehindIsUnder(2, LayLong(rest[1..]));
          WalkUnder(2, LayLong(rest[1..]), Size(LayLong(rest[1..]).items), room);
        } else {
          LongDecided(Low(n), rest[1..], room);
        }
      } else {
        var l, r := LayRest(n, rest), if room < 2 then Spills else PutRest(n, rest, room - 2);
        if room >= 2 {
          RestFollows(n, rest, room - 2);
        }
        UnderFollows(r, l, 2, 253, room, PutRfc(s, room));
        AttrProper(s);
        WritesFits(LayAttr(s), room);
        WalkOk(LayAttr(s).items, room);
      }
    }
  }

  /** Without fragments, what is walked through is not longer than the room. */
  lemma {:induction false} WritesFits(p: Plan, room: nat)
    requires Proper(p.items) && !p.long
    ensures Walk(p.items, true, room) == Writes ==> Length(p) <= room
  {
    WalkWrites(p.items, room);
    if p.items != [] {
      var n := |p.items| - 1;
      SizeConcat(p.items[..n], [p.items[n]]);
      assert p.items == p.items[..n] + [p.items[n]];
      assert Size([p.items[n]]) == p.items[n].size by { assert [p.items[n]][1..] == []; }
    }
  }

  /** For every text and every room, exactly when the encoder writes outside of its output, and
      exactly when it writes the attribute: it spills if and only if a header starts where all
      before it is written and ends past the room, or all is written and only the fragments are
      longer than the room. */
  lemma {:induction false} RoomVerdict(s: Str, room: nat)
    ensures var p, r := LayAttr(s), PutRfc(s, room);
      && (r.Spills? <==> Overruns(p, room))
      && (r.Done? <==> Completes(p, room))
      && (r.Done? ==> |r.b| == Length(p))
  {
    hide PutRfc, LayAttr, Walk, HeadSpills, Enough, Length, Size, Proper;
    var p := LayAttr(s);
    AttrDecided(s, room);
    AttrProper(s);
    WalkSpills(p.items, p.ok, room);
    WalkWrites(p.items, room);
    WalkOk(p.items, room);
    if !p.long {
      WritesFits(p, room);
    }
  }

  lemma {:induction false} PartVerdict(r: Outcome, l: Layout, room: nat)
    requires Follows(r, l, room) && Proper(l.items)
    ensures r.Spills? <==> HeadSpills(l.items, room)
    ensures r.Done? <==> l.ok && Enough(l.items) <= room
  {
    hide HeadSpills, Enough, Proper, Walk;
    WalkSpills(l.items, l.ok, room);
    WalkWrites(l.items, room);
    WalkOk(l.items, room);
  }

  /** The same for the functions encode_rfc() calls: each writes outside of its output exactly if a
      header in the layout of its text does. */
  lemma {:induction false} PartsVerdict(s: Str, m: nat, room: nat)
    ensures PutData(s, room).Spills? <==> HeadSpills(LayData(s).items, room)
    ensures PutGroup(s, room).Spills? <==> HeadSpills(LayGroup(s).items, room)
    ensures PutTlv(s, room).Spills? <==> HeadSpills(LayTlv(s).items, room)
    ensures PutVsa(s, room).Spills? <==> HeadSpills(LayVsa(s).items, room)
    ensures PutBody(m, s, room).Spills? <==> HeadSpills(LayBody(m, s).items, room)
    ensures PutExt(s, room).Spills? <==> HeadSpills(LayExt(s).items, room)
  {
    hide HeadSpills, Proper, Follows, PutData, PutGroup, PutTlv, PutVsa, PutBody, PutExt,
         LayData, LayGroup, LayTlv, LayVsa, LayBody, LayExt;
    DataFollows(s, room);
    DataProper(s);
    PartVerdict(PutData(s, room), LayData(s), room);
    GroupFollows(s, room);
    GroupProper(s);
    PartVerdict(PutGroup(s, room), LayGroup(s), room);
    TlvFollows(s, room);
    TlvProper(s);
    PartVerdict(PutTlv(s, room), LayTlv(s), room);
    VsaFollows(s, room);
    VsaProper(s);
    PartVerdict(PutVsa(s, room), LayVsa(s), room);
    BodyFollows(m, s, room);
    BodyProper(m, s);
    PartVerdict(PutBody(m, s, room), LayBody(m, s), room);
    ExtFollows(s, room);
    ExtProper(s);
    PartVerdict(PutExt(s, room), LayExt(s), room);
  }

  /** The layout says which texts are encoded at all, and how long they are on the wire. */
  lemma {:induction false} LayoutEncodes(s: Str)
    ensures LayAttr(s).ok <==> Encode(s).Ok?
    ensures Encode(s).Ok? ==> |Encode(s).v| == Length(LayAttr(s))
  {
    hide PutRfc, LayAttr, Encode, Plenty, Enough, Length;
    var p := LayAttr(s);
    var room := Plenty(|s|) + Enough(p.items) + Length(p);
    RoomDecides(s, room);
    RoomVerdict(s, room);
  }

  // ---- the layout of a printed attribute --------------------------------------------------------

  /** `trails` says whether white space follows in the text. */
  function PlanData(d: Data, trails: bool): Layout
    decreases d
  {
    match d
    case HexData(b) => if b == [] then STOP else Layout([Load(|b|, |b| + if trails then 1 else 0)], true)
    case Quoted(b) => if b == [] then STOP else Layout([Load(|b|, |b| + 1)], true)
    case Group(g) => PlanGroup(g)
  }

  /** Each TLV of a group is followed by a space and its closing brace. */
  function PlanGroup(g: Tlvs): Layout
    decreases g
  {
    var t := PlanTlv(g.t, true);
    if !t.ok || g.One? then t else InFront(t, PlanGroup(g.g))
  }

  function PlanTlv(t: Tlv, trails: bool): Layout
    decreases t
  {
    Under(2, if t.Leaf? then PlanData(t.d, trails) else PlanTlv(t.sub, trails), 253)
  }

  function PlanAttr(a: Attr): Plan {
    if a.Long? || a.LongVs? then
      var v := PlanData(a.d, false);
      var w := Behind(2, Behind(2, if a.Long? then v else Behind(5, v)));
      Plan(w.items, w.ok, true)
    else
      var v := match a
        case Plain(_, d) => PlanData(d, false)
        case Vsa(_, t) => Under(4, PlanTlv(t, false), 249)
        case Ext(_, _, d) => Under(1, PlanData(d, false), 252)
        case ExtVs(_, _, _, d) => Under(1, Behind(5, PlanData(d, false)), 252);
      var w := Under(2, v, 253);
      Plan(w.items, w.ok, false)
  }

  lemma {:induction false} HexLeftStep(hi: nat, lo: nat, rest: Str)
    requires hi < 16 && lo < 16
    ensures Hex.HexLeft([Hex.HexDigit(hi), Hex.HexDigit(lo)] + rest) == Hex.HexLeft(rest)
  {
    var s := [Hex.HexDigit(hi), Hex.HexDigit(lo)] + rest;
    NoLead(s);
    assert s[2..] == rest;
  }

  lemma HexLeftSpace(w: Str)
    requires AllSpace(w)
    ensures Hex.HexLeft(w) == w
  {
    SkipWsAll(w, []);
    assert w + [] == w;
  }

  lemma {:induction false} HexLeftLead(s: Str)
    requires s != [] && !IsSpace(s[0])
    ensures s[0] != 0 ==> Hex.HexLeft([SPACE] + s) == Hex.HexLeft(s)
  {
    SkipWsAll([SPACE], s);
    NoLead(s);
  }

  lemma {:induction false} HexLeftOfPrint(b: Str, w: Str)
    requires b != [] && AllSpace(w)
    ensures Hex.HexLeft(Hex.HexText(b) + w) == w
    decreases |b|
  {
    hide Hex.HexLeft, Hex.HexDigit, IsSpace;
    var hi, lo := b[0] / 16, b[0] % 16;
    var rest := if |b| == 1 then w else [SPACE] + (Hex.HexText(b[1..]) + w);
    assert Hex.HexText(b) + w == [Hex.HexDigit(hi), Hex.HexDigit(lo)] + rest;
    HexLeftStep(hi, lo, rest);
    if |b| == 1 {
      HexLeftSpace(w);
    } else {
      Hex.HexTextShape(b[1..]);
      HexTextStart(b[1..]);
      HexLeftLead(Hex.HexText(b[1..]) + w);
      HexLeftOfPrint(b[1..], w);
    }
  }

  lemma HexTextStart(b: Str)
    requires b != []
    ensures Hex.HexText(b) != [] && Hex.HexText(b)[0] != 0
  {
  }

  lemma {:induction false} LayHexOfPrint(b: Str, w: Str)
    requires AllSpace(w)
    ensures LayData(PrintData(HexData(b)) + w) == PlanData(HexData(b), w != [])
  {
    hide Hex.HexDecode, Hex.HexText, Hex.HexLeft, SkipWs;
    var s := PrintData(HexData(b)) + w;
    assert s[1..] == Hex.HexText(b) + w;
    HexDataOfPrint(b, w);
    Hex.HexTextShape(b);
    if b != [] {
      NoLead(Hex.HexText(b) + w);
      HexLeftOfPrint(b, w);
    }
  }

  lemma NoLead(s: Str)
    requires s != [] && !IsSpace(s[0])
    ensures SkipWs(s) == s
  {
  }

  lemma {:induction false} LayQuotedOfPrint(b: Str, w: Str)
    requires Quotable(b)
    ensures LayData(PrintData(Quoted(b)) + w) == PlanData(Quoted(b), w != [])
  {
    var s := PrintData(Quoted(b)) + w;
    assert s[1..] == [QUOTE] + (b + ([QUOTE] + w));
    QuotedOfPrint(b, w);
    assert s[1..][1..] == b + ([QUOTE] + w);
  }

  lemma {:induction false} LayDataOfPrint(d: Data, w: Str, nested: bool)
    requires ValidData(d) && PrintableData(d, nested) && AllSpace(w)
    ensures LayData(PrintData(d) + w) == PlanData(d, w != [])
    decreases d
  {
    hide LayData;
    match d
    case HexData(b) => LayHexOfPrint(b, w);
    case Quoted(b) => LayQuotedOfPrint(b, w);
    case Group(g) =>
      LayGroupOfPrint(g, w);
      LayGroupText(g, w);
  }

  lemma {:induction false} LayGroupText(g: Tlvs, w: Str)
    requires PrintGroup(g) != [] && PrintGroup(g)[0] == LBRACE
    ensures LayData(PrintData(Group(g)) + w) == LayGroup(PrintGroup(g) + w)
  {
    hide LayGroup, PrintGroup;
    var s := PrintData(Group(g)) + w;
    assert s[1..] == PrintGroup(g) + w;
  }

  lemma {:induction false} LayBraced(p: Str, rest: Str)
    requires Level(p, 0) && p != [] && IsDigit(p[0])
    ensures var t, r := LayTlv(p + [SPACE]), SkipWs(rest);
      LayGroup([LBRACE, SPACE] + p + [SPACE, RBRACE] + rest) ==
      if !t.ok || r == [] then t else InFront(t, LayGroup(r))
  {
    var s := [LBRACE, SPACE] + p + [SPACE, RBRACE] + rest;
    CloseOfBraced(p, rest);
    assert s[1..|p| + 3] == [SPACE] + (p + [SPACE]);
    SkipWsAll([SPACE], p + [SPACE]);
    assert s[|p| + 4..] == rest;
  }

  lemma {:induction false} LayGroupOfPrint(g: Tlvs, w: Str)
    requires ValidGroup(g) && PrintableGroup(g) && AllSpace(w)
    ensures LayGroup(PrintGroup(g) + w) == PlanGroup(g)
    ensures PrintGroup(g) != [] && PrintGroup(g)[0] == LBRACE
    decreases g
  {
    hide LayGroup, LayTlv, PlanTlv;
    var p := PrintTlv(g.t);
    var rest := if g.One? then w else PrintGroup(g.g) + w;
    assert PrintGroup(g) + w == [LBRACE, SPACE] + p + [SPACE, RBRACE] + rest;
    PrintedTlvLevel(g.t);
    PrintTlvHead(g.t);
    LayTlvOfPrint(g.t, [SPACE], true);
    LayBraced(p, rest);
    if g.One? {
      SkipWsAll(w, []);
      assert w + [] == w;
    } else {
      LayGroupOfPrint(g.g, w);
      assert SkipWs(rest) == rest;
    }
  }

  lemma {:induction false} LayTlvOfPrint(t: Tlv, w: Str, nested: bool)
    requires ValidTlv(t) && PrintableTlv(t, nested) && AllSpace(w)
    ensures LayTlv(PrintTlv(t) + w) == PlanTlv(t, w != [])
    decreases t
  {
    hide LayData, PlanData, Under;
    match t
    case Leaf(n, d) =>
      var s := PrintData(d) + w;
      assert PrintTlv(t) + w == PrintNum(n) + s;
      assert s[0] == SPACE;
      AttrNumOfPrint(n, s);
      LayDataOfPrint(d, w, nested);
    case Dot(n, sub) =>
      var s := [DOT] + (PrintTlv(sub) + w);
      assert PrintTlv(t) + w == PrintNum(n) + s;
      AttrNumOfPrint(n, s);
      assert s[1..] == PrintTlv(sub) + w;
      LayTlvOfPrint(sub, w, nested);
  }

  lemma {:induction false} LayBare(d: Data)
    requires ValidData(d) && PrintableData(d, false)
    ensures PrintData(d) != [] && PrintData(d)[0] == SPACE && LayData(PrintData(d)) == PlanData(d, false)
  {
    LayDataOfPrint(d, [], false);
    assert PrintData(d) + [] == PrintData(d);
  }

  lemma {:induction false} LayExtended(n: nat, m: nat, s: Str)
    requires IsExtended(n) && NumOk(m) && m != 26 && s != [] && s[0] == SPACE
    ensures var l := LayData(s); var p := LayAttr(PrintNum(n) + ([DOT] + (PrintNum(m) + s)));
      if n < 245 then var v := Under(2, Under(1, l, 252), 253); p == Plan(v.items, v.ok, false)
      else var v := Behind(2, Behind(2, l)); p == Plan(v.items, v.ok, true)
  {
    hide LayData, AttrNum;
    var u := [DOT] + (PrintNum(m) + s);
    AttrNumOfPrint(n, u);
    assert u[1..] == PrintNum(m) + s;
    AttrNumOfPrint(m, s);
  }

  lemma {:induction false} LayExtendedVs(n: nat, v: nat, m: nat, s: Str)
    requires IsExtended(n) && VendorOk(v) && NumOk(m) && s != [] && s[0] == SPACE
    ensures var l := Behind(5, LayData(s));
      var p := LayAttr(PrintNum(n) + ([DOT] + (PrintNum(26) + PrintVendor(v, PrintNum(m) + s))));
      if n < 245 then var w := Under(2, Under(1, l, 252), 253); p == Plan(w.items, w.ok, false)
      else var w := Behind(2, Behind(2, l)); p == Plan(w.items, w.ok, true)
  {
    hide LayData, AttrNum, VendorNum;
    var evs := PrintVendor(v, PrintNum(m) + s);
    var u := [DOT] + (PrintNum(26) + evs);
    AttrNumOfPrint(n, u);
    assert u[1..] == PrintNum(26) + evs;
    AttrNumOfPrint(26, evs);
    VendorNumOfPrint(v, PrintNum(m) + s);
    AttrNumOfPrint(m, s);
  }

  lemma {:induction false} LayPlain(n: nat, s: Str)
    requires NumOk(n) && n != 26 && !IsExtended(n) && s != [] && s[0] == SPACE
    ensures var v := Under(2, LayData(s), 253); LayAttr(PrintNum(n) + s) == Plan(v.items, v.ok, false)
  {
    hide LayData, AttrNum;
    AttrNumOfPrint(n, s);
  }

  lemma {:induction false} LayVendor(v: nat, s: Str)
    requires VendorOk(v)
    ensures var w := Under(2, Under(4, LayTlv(s), 249), 253);
      LayAttr(PrintNum(26) + PrintVendor(v, s)) == Plan(w.items, w.ok, false)
  {
    hide LayTlv, AttrNum, VendorNum;
    AttrNumOfPrint(26, PrintVendor(v, s));
    VendorNumOfPrint(v, s);
  }

  /** The layout of a printed attribute is the layout of the attribute. */
  lemma {:induction false} LayoutOfPrint(a: Attr)
    requires Printable(a)
    ensures LayAttr(Print(a)) == PlanAttr(a)
  {
    hide LayAttr, LayData, PlanData, PlanTlv, Under, Behind;
    match a
    case Plain(n, d) => LayBare(d); LayPlain(n, PrintData(d));
    case Vsa(v, t) =>
      LayTlvOfPrint(t, [], false);
      assert PrintTlv(t) + [] == PrintTlv(t);
      LayVendor(v, PrintTlv(t));
    case Ext(n, m, d) => LayBare(d); LayExtended(n, m, PrintData(d));
    case Long(n, m, d) => LayBare(d); LayExtended(n, m, PrintData(d));
    case ExtVs(n, v, m, d) => LayBare(d); LayExtendedVs(n, v, m, PrintData(d));
    case LongVs(n, v, m, d) => LayBare(d); LayExtendedVs(n, v, m, PrintData(d));
  }

  /** So for a printed attribute, with groups or without, its own layout decides. */
  lemma {:induction false} PrintedVerdict(a: Attr, room: nat)
    requires Printable(a)
    ensures var p, r := PlanAttr(a), PutRfc(Print(a), room);
      && (r.Spills? <==> Overruns(p, room))
      && (r.Done? <==> Completes(p, room))
      && (r.Done? ==> r.b == Wire(a) && Fits(a))
  {
    hide LayAttr, PlanAttr, PutRfc, Overruns, Completes, Wire, ParseAttr;
    LayoutOfPrint(a);
    RoomVerdict(Print(a), room);
    RoomDecides(Print(a), room);
    ParseOfPrint(a);
  }
}
