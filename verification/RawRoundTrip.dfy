/** Decoding the wire form of any fitting attribute gives it back. */
module RawRoundTrip {
  import opened Wrappers
  import opened Octets
  import opened RawText
  import opened RawPrinting
  import opened RawWire

  lemma {:induction false} DataRoundTrip(d: Data)
    requires FitsData(d)
    ensures WireData(d) != []
    ensures DecodeData(ShapeOfData(d), WireData(d)) == Some(OnWireData(d))
    decreases d
  {
    if d.Group? {
      GroupRoundTrip(d.g);
    }
  }

  lemma {:induction false} GroupRoundTrip(g: Tlvs)
    requires FitsGroup(g)
    ensures WireGroup(g) != []
    ensures DecodeGroup(ShapeOfGroup(g), WireGroup(g)) == Some(OnWireGroup(g))
    decreases g
  {
    TlvRoundTrip(g.t);
    if g.More? {
      GroupRoundTrip(g.g);
      var b := WireGroup(g);
      var n := |WireTlv(g.t)|;
      assert b[1] == n;
      assert b[..n] == WireTlv(g.t);
      assert b[n..] == WireGroup(g.g);
    }
  }

  lemma {:induction false} TlvRoundTrip(t: Tlv)
    requires FitsTlv(t)
    ensures WireTlv(t)[1] == |WireTlv(t)|
    ensures DecodeTlv(ShapeOfTlv(t), WireTlv(t)) == Some(OnWireTlv(t))
    decreases t
  {
    assert WireTlv(t)[2..] == Body(t);
    if t.Leaf? {
      DataRoundTrip(t.d);
    } else {
      TlvRoundTrip(t.sub);
    }
  }

  /** Reassembly undoes fragmentation for payloads of every length. */
  lemma {:induction false} JoinOfFragments(typ: Octet, ext: Octet, p: Str)
    ensures Join(Fragments(typ, ext, p)) == Some(Joined(typ, ext, p))
    decreases |p|
  {
    var b := Fragments(typ, ext, p);
    if |p| <= PAYLOAD {
      assert b[4..] == p;
    } else {
      var rest := p[PAYLOAD..];
      JoinOfFragments(typ, ext, rest);
      assert b[1] == 255;
      assert b[255..] == Fragments(typ, ext, rest);
      assert b[4..255] == p[..PAYLOAD];
      assert p[..PAYLOAD] + rest == p;
    }
  }

  function FragmentCount(n: nat): nat { if n == 0 then 1 else (n + PAYLOAD - 1) / PAYLOAD }

  lemma {:induction false} FragmentsSize(typ: Octet, ext: Octet, p: Str)
    ensures |Fragments(typ, ext, p)| == |p| + 4 * FragmentCount(|p|)
    ensures |p| > PAYLOAD ==> FragmentCount(|p|) == FragmentCount(|p| - PAYLOAD) + 1
    ensures |p| <= PAYLOAD ==> FragmentCount(|p|) == 1
    decreases |p|
  {
    if |p| > PAYLOAD {
      FragmentsSize(typ, ext, p[PAYLOAD..]);
    }
  }

  /** Octets `at` onwards of b are one fragment: the header, with length 255 and More unless
      it is the last, and then octets `from` onwards of the payload. */
  ghost predicate FragmentHere(b: Str, at: nat, typ: Octet, ext: Octet, p: Str, from: nat, last: bool) {
    var n := if last then |b| - at else 255;
    && 4 <= n <= 255 && at + n <= |b| && from + n - 4 <= |p|
    && b[at..at + 4] == [typ, n, ext, if last then 0 else MORE]
    && b[at + 4..at + n] == p[from..from + n - 4]
  }

  lemma FragmentShift(f: Str, b: Str, at: nat, typ: Octet, ext: Octet, q: Str, p: Str, from: nat, last: bool)
    requires FragmentHere(b, at, typ, ext, p, from, last)
    ensures FragmentHere(f + b, |f| + at, typ, ext, q + p, |q| + from, last)
  {
    var n := if last then |b| - at else 255;
    assert (f + b)[|f| + at..|f| + at + 4] == b[at..at + 4];
    assert (f + b)[|f| + at + 4..|f| + at + n] == b[at + 4..at + n];
    assert (q + p)[|q| + from..|q| + from + n - 4] == p[from..from + n - 4];
  }

  lemma {:induction false} FirstFragment(typ: Octet, ext: Octet, p: Str)
    ensures FragmentHere(Fragments(typ, ext, p), 0, typ, ext, p, 0, |p| <= PAYLOAD)
  {
    var b := Fragments(typ, ext, p);
    if |p| <= PAYLOAD {
      assert b[0..4] == [typ, 4 + |p|, ext, 0];
      assert b[4..4 + |p|] == p == p[0..|p|];
    } else {
      assert b[0..4] == [typ, 255, ext, MORE];
      assert b[4..255] == p[..PAYLOAD] == p[0..251];
    }
  }

  /** Fragment k of the chain starts at octet 255 * k, repeats type and extended type, and
      carries octets 251 * k onwards of the payload. */
  lemma {:induction false} FragmentAt(typ: Octet, ext: Octet, p: Str, k: nat)
    requires k < FragmentCount(|p|)
    ensures FragmentHere(Fragments(typ, ext, p), 255 * k, typ, ext, p, 251 * k, k == FragmentCount(|p|) - 1)
    decreases |p|
  {
    hide FragmentCount;
    hide FragmentHere;
    FragmentsSize(typ, ext, p);
    if k == 0 {
      FirstFragment(typ, ext, p);
      if |p| > PAYLOAD {
        FragmentCountPositive(|p| - PAYLOAD);
      }
    } else {
      var q, rest := p[..PAYLOAD], p[PAYLOAD..];
      assert q + rest == p;
      FragmentAt(typ, ext, rest, k - 1);
      FragmentShift(Fragment(typ, ext, MORE, q), Fragments(typ, ext, rest), 255 * (k - 1),
                    typ, ext, q, rest, 251 * (k - 1), k == FragmentCount(|p|) - 1);
    }
  }

  lemma FragmentCountPositive(n: nat)
    ensures FragmentCount(n) >= 1
  {
  }

  lemma VendorRoundTrip(v: nat, b: Str)
    ensures DecodeVendor(VendorOctets(v) + b) == v % 0x1000000
  {
    var q := v / 256;
    assert v / 65536 == q / 256;
    var s := VendorOctets(v) + b;
    assert s[1] == (q / 256) % 256 && s[2] == q % 256 && s[3] == v % 256;
    ThreeOctets(v / 65536, q, v);
  }

  lemma ThreeOctets(u: nat, q: nat, v: nat)
    requires q == v / 256 && u == q / 256
    ensures u % 256 * 65536 + q % 256 * 256 + v % 256 == v % 0x1000000
  {
    var top := u / 256;
    assert v == 256 * q + v % 256 && q == 256 * u + q % 256 && u == 256 * top + u % 256;
    var low := u % 256 * 65536 + q % 256 * 256 + v % 256;
    assert v == top * 0x1000000 + low;
    assert 0 <= low < 0x1000000;
  }

  lemma {:induction false} ExtRoundTrip(a: Attr)
    requires Valid(a) && Fits(a) && !a.Plain? && !a.Vsa?
    ensures var vs := a.ExtVs? || a.LongVs?;
      DecodeExt(ShapeOf(a), a.Long? || a.LongVs?, a.num, if vs then 26 else Low(a.sub),
                if vs then EvsOctets(a.vendor, a.sub, a.d) else WireData(a.d)) == Some(OnWire(a))
  {
    DataRoundTrip(a.d);
    if a.ExtVs? || a.LongVs? {
      var b := EvsOctets(a.vendor, a.sub, a.d);
      assert b == VendorOctets(a.vendor) + ([Low(a.sub)] + WireData(a.d));
      VendorRoundTrip(a.vendor, [Low(a.sub)] + WireData(a.d));
      assert b[5..] == WireData(a.d);
    }
  }

  lemma {:induction false} PlainRoundTrip(n: nat, d: Data)
    requires Valid(Plain(n, d)) && Fits(Plain(n, d))
    ensures Decode(PlainShape(ShapeOfData(d)), Wire(Plain(n, d))) == Some(OnWire(Plain(n, d)))
  {
    DataRoundTrip(d);
    assert Wire(Plain(n, d))[2..] == WireData(d);
  }

  lemma {:induction false} VsaRoundTrip(v: nat, t: Tlv)
    requires Fits(Vsa(v, t))
    ensures Decode(VsaShape(ShapeOfTlv(t)), Wire(Vsa(v, t))) == Some(OnWire(Vsa(v, t)))
  {
    var b := Wire(Vsa(v, t));
    TlvRoundTrip(t);
    assert b[2..] == VendorOctets(v) + WireTlv(t);
    VendorRoundTrip(v, WireTlv(t));
    assert b[6..] == WireTlv(t);
  }

  lemma {:induction false} ShortRoundTrip(n: Octet, ext: Octet, p: Str, sh: AttrShape)
    requires 241 <= n <= 244 && |p| <= 252
    ensures Decode(sh, [n, Low(3 + |p|), ext] + p) == DecodeExt(sh, false, n, ext, p)
  {
    assert ([n, Low(3 + |p|), ext] + p)[3..] == p;
  }

  lemma {:induction false} LongRoundTrip(n: Octet, ext: Octet, p: Str, sh: AttrShape)
    requires 245 <= n <= 246
    ensures Decode(sh, Fragments(n, ext, p)) == DecodeExt(sh, true, n, ext, p)
  {
    JoinOfFragments(n, ext, p);
    FragmentsHead(n, ext, p);
  }

  /** For every attribute the encoder accepts, the decoder reads the octets back: the same
      tree, with numbers reduced to the width of their wire fields. */
  lemma {:induction false} WireRoundTrip(a: Attr)
    requires Valid(a) && Fits(a)
    ensures Decode(ShapeOf(a), Wire(a)) == Some(OnWire(a))
  {
    hide Decode;
    match a
    case Plain(n, d) => PlainRoundTrip(n, d);
    case Vsa(v, t) => VsaRoundTrip(v, t);
    case Ext(n, m, d) => ExtRoundTrip(a); ShortRoundTrip(n, Low(m), WireData(d), ShapeOf(a));
    case ExtVs(n, v, m, d) => ExtRoundTrip(a); ShortRoundTrip(n, 26, EvsOctets(v, m, d), ShapeOf(a));
    case Long(n, m, d) => ExtRoundTrip(a); LongRoundTrip(n, Low(m), WireData(d), ShapeOf(a));
    case LongVs(n, v, m, d) => ExtRoundTrip(a); LongRoundTrip(n, 26, EvsOctets(v, m, d), ShapeOf(a));
  }

  lemma FragmentsHead(typ: Octet, ext: Octet, p: Str)
    ensures |Fragments(typ, ext, p)| >= 4 && Fragments(typ, ext, p)[0] == typ
  {
  }

  // ---- numbers survive exactly when they are narrow --------------------------------

  lemma {:induction false} OnWireDataIffNarrow(d: Data)
    requires ValidData(d)
    ensures OnWireData(d) == d <==> NarrowData(d)
    decreases d
  {
    if d.Group? { OnWireGroupIffNarrow(d.g); }
  }
  lemma {:induction false} OnWireGroupIffNarrow(g: Tlvs)
    requires ValidGroup(g)
    ensures OnWireGroup(g) == g <==> NarrowGroup(g)
    decreases g
  {
    OnWireTlvIffNarrow(g.t);
    if g.More? { OnWireGroupIffNarrow(g.g); }
  }
  lemma {:induction false} OnWireTlvIffNarrow(t: Tlv)
    requires ValidTlv(t)
    ensures OnWireTlv(t) == t <==> NarrowTlv(t)
    decreases t
  {
    if t.Leaf? { OnWireDataIffNarrow(t.d); } else { OnWireTlvIffNarrow(t.sub); }
  }

  lemma {:induction false} OnWireIffNarrow(a: Attr)
    requires Valid(a)
    ensures OnWire(a) == a <==> Narrow(a)
  {
    if a.Vsa? { OnWireTlvIffNarrow(a.t); } else { OnWireDataIffNarrow(a.d); }
  }

  // ---- whatever parses is in range ---------------------------------------------------

  lemma {:induction false} ParsedDataValid(s: Str)
    ensures ParseData(s).Ok? ==> ValidData(ParseData(s).v)
    decreases |s|
  {
    if s != [] && IsSpace(s[0]) {
      ParsedGroupValid(SkipWs(s[1..]));
    }
  }
  lemma {:induction false} ParsedGroupValid(s: Str)
    ensures ParseGroup(s).Ok? ==> ValidGroup(ParseGroup(s).v)
    decreases |s|
  {
    var k := FindClose(s, 0);
    if k >= 0 {
      ParsedTlvValid(SkipWs(s[1..k]));
      ParsedGroupValid(SkipWs(s[k + 1..]));
    }
  }
  lemma {:induction false} ParsedTlvValid(s: Str)
    ensures ParseTlv(s).Ok? ==> ValidTlv(ParseTlv(s).v)
    decreases |s|
  {
    var n := AttrNum(s);
    if n.Ok? {
      ParsedTlvValid(n.v.1[1..]);
      ParsedDataValid(n.v.1);
    }
  }

  lemma {:induction false} ParsedValid(s: Str)
    ensures ParseAttr(s).Ok? ==> Valid(ParseAttr(s).v)
  {
    var n := AttrNum(s);
    if n.Ok? {
      var rest := n.v.1;
      ParsedDataValid(rest);
      if n.v.0 == 26 {
        var v := VendorNum(rest);
        if v.Ok? { ParsedTlvValid(v.v.1); }
      } else if IsExtended(n.v.0) && rest[0] == DOT {
        var m := AttrNum(rest[1..]);
        if m.Ok? {
          ParsedDataValid(m.v.1);
          var v := VendorNum(m.v.1);
          if v.Ok? {
            var k := AttrNum(v.v.1);
            if k.Ok? { ParsedDataValid(k.v.1); }
          }
        }
      }
    }
  }

  // ---- main results ------------------------------------------------------------------

  /** Length soundness, for any input text: what is encoded is one attribute, or one chain
      of fragments, whose length octets at every level cover exactly their contents, so
      that a strict decoder reads all of it. */
  lemma {:induction false} LengthSoundness(s: Str)
    requires Encode(s).Ok?
    ensures var a, b := ParseAttr(s).v, Encode(s).v;
      && Decode(ShapeOf(a), b) == Some(OnWire(a))
      && |b| >= 2 && if b[0] in {245, 246} then Join(b).Some? else b[1] == |b|
  {
    hide ParseAttr, Wire, Fits, DecodeExt, DecodeData, DecodeTlv, Join, OnWire, ShapeOf;
    ParsedValid(s);
    WireRoundTrip(ParseAttr(s).v);
  }

  /** Text to wire and back.  A printed attribute is encoded exactly when it fits, and it
      then decodes to itself exactly when its numbers fit their fields. */
  lemma {:induction false} TextToWireRoundTrip(a: Attr)
    requires Printable(a)
    ensures Encode(Print(a)).Ok? <==> Fits(a)
    ensures !Fits(a) ==> Encode(Print(a)) == Err(0)
    ensures Fits(a) ==> (Decode(ShapeOf(a), Encode(Print(a)).v) == Some(a) <==> Narrow(a))
  {
    ParseOfPrint(a);
    if Fits(a) {
      WireRoundTrip(a);
      OnWireIffNarrow(a);
    }
  }

  /** Attribute number 256 is accepted and goes out as type 0. */
  lemma Number256IsLost()
    ensures var a := Plain(256, HexData([1]));
      Printable(a) && Encode(Print(a)) == Ok([0, 3, 1])
  {
    hide ParseAttr, Print;
    var a := Plain(256, HexData([1]));
    ParseOfPrint(a);
    assert WireData(a.d) == [1];
    assert Wire(a) == [0, 3] + [1] == [0, 3, 1];
    assert Fits(a);
  }
}
