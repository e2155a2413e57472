/** The wire form of attributes (section 5 of RFC 2865, section 2 of RFC 6929), a decoder
    guided by the expected shape, and the proof that decoding undoes encoding. */
module RawWire {
  import opened Wrappers
  import opened Octets
  import opened RawText

  // ---- encoding --------------------------------------------------------------

  function Low(n: nat): Octet { n % 256 }

  function VendorOctets(v: nat): (s: Str)
    ensures |s| == 4
  {
    [0, Low(v / 65536), Low(v / 256), Low(v)]
  }

  function WireData(d: Data): Str
    decreases d, 1
  {
    match d
    case HexData(b) => b
    case Quoted(b) => b
    case Group(g) => WireGroup(g)
  }

  function WireGroup(g: Tlvs): Str
    decreases g, 1
  {
    match g
    case One(t) => WireTlv(t)
    case More(t, g') => WireTlv(t) + WireGroup(g')
  }

  function Body(t: Tlv): Str
    decreases t, 0
  {
    if t.Leaf? then WireData(t.d) else WireTlv(t.sub)
  }

  function WireTlv(t: Tlv): (s: Str)
    ensures |s| >= 2
    decreases t, 1
  {
    [Low(t.num), Low(2 + |Body(t)|)] + Body(t)
  }

  const PAYLOAD := 251
  const MORE := 128

  /** Section 2.2 of RFC 6929: type, length, extended type, flags, at most 251 octets. */
  function Fragment(typ: Octet, ext: Octet, flags: Octet, p: Str): Str {
    [typ, Low(4 + |p|), ext, flags] + p
  }

  /** The payload cut into fragments, all but the last full and with the More flag. */
  function Fragments(typ: Octet, ext: Octet, p: Str): (s: Str)
    decreases |p|
  {
    if |p| <= PAYLOAD then Fragment(typ, ext, 0, p)
    else Fragment(typ, ext, MORE, p[..PAYLOAD]) + Fragments(typ, ext, p[PAYLOAD..])
  }

  function Wire(a: Attr): Str {
    match a
    case Plain(n, d) => [Low(n), Low(2 + |WireData(d)|)] + WireData(d)
    case Vsa(v, t) => [26, Low(6 + |WireTlv(t)|)] + VendorOctets(v) + WireTlv(t)
    case Ext(n, m, d) => [Low(n), Low(3 + |WireData(d)|), Low(m)] + WireData(d)
    case ExtVs(n, v, m, d) => [Low(n), Low(8 + |WireData(d)|), 26] + EvsOctets(v, m, d)
    case Long(n, m, d) => Fragments(Low(n), Low(m), WireData(d))
    case LongVs(n, v, m, d) => Fragments(Low(n), 26, EvsOctets(v, m, d))
  }

  /** Section 2.4 of RFC 6929: four octets of vendor, one of type, then the data. */
  function EvsOctets(v: nat, m: nat, d: Data): Str { VendorOctets(v) + [Low(m)] + WireData(d) }

  /** Every one-octet length can hold what it covers, and no value is empty. */
  predicate FitsData(d: Data) { if d.Group? then FitsGroup(d.g) else d.b != [] }
  predicate FitsGroup(g: Tlvs) { FitsTlv(g.t) && (g.More? ==> FitsGroup(g.g)) }
  predicate FitsTlv(t: Tlv) { (if t.Leaf? then FitsData(t.d) else FitsTlv(t.sub)) && |Body(t)| <= 253 }

  predicate Fits(a: Attr) {
    match a
    case Plain(n, d) => FitsData(d) && |WireData(d)| <= 253
    case Vsa(v, t) => FitsTlv(t) && |WireTlv(t)| <= 249
    case Ext(n, m, d) => FitsData(d) && |WireData(d)| <= 252
    case ExtVs(n, v, m, d) => FitsData(d) && |WireData(d)| <= 247
    case Long(n, m, d) => FitsData(d)
    case LongVs(n, v, m, d) => FitsData(d)
  }

  /** encode_rfc() as a function of its text. */
  function Encode(s: Str): Parse<Str> {
    match ParseAttr(s)
    case Err(c) => Err(c)
    case Ok(a) => if Fits(a) then Ok(Wire(a)) else Err(0)
  }

  // ---- decoding --------------------------------------------------------------

  datatype DataShape = HexShape | QuotedShape | GroupShape(g: TlvShapes)
  datatype TlvShapes = OneShape(t: TlvShape) | MoreShape(t: TlvShape, g: TlvShapes)
  datatype TlvShape = LeafShape(d: DataShape) | DotShape(sub: TlvShape)
  datatype AttrShape =
    | PlainShape(d: DataShape)
    | VsaShape(t: TlvShape)
    | ExtShape(d: DataShape)
    | ExtVsShape(d: DataShape)

  function DecodeData(sh: DataShape, b: Str): Option<Data>
    decreases sh
  {
    if b == [] then None
    else match sh
      case HexShape => Some(HexData(b))
      case QuotedShape => Some(Quoted(b))
      case GroupShape(g) =>
        match DecodeGroup(g, b)
        case None => None
        case Some(r) => Some(Group(r))
  }

  /** Consecutive TLVs: each length octet says where the next one starts. */
  function DecodeGroup(sh: TlvShapes, b: Str): Option<Tlvs>
    decreases sh
  {
    match sh
    case OneShape(t) =>
      (match DecodeTlv(t, b)
       case None => None
       case Some(r) => Some(One(r)))
    case MoreShape(t, g) =>
      if |b| < 2 || b[1] > |b| then None
      else
        match DecodeTlv(t, b[..b[1]])
        case None => None
        case Some(r) =>
          match DecodeGroup(g, b[b[1]..])
          case None => None
          case Some(rs) => Some(More(r, rs))
  }

  /** `b` must be one TLV whose length octet counts all of it. */
  function DecodeTlv(sh: TlvShape, b: Str): Option<Tlv>
    decreases sh
  {
    if |b| < 2 || b[1] != |b| then None
    else match sh
      case LeafShape(d) =>
        (match DecodeData(d, b[2..])
         case None => None
         case Some(r) => Some(Leaf(b[0], r)))
      case DotShape(sub) =>
        match DecodeTlv(sub, b[2..])
        case None => None
        case Some(r) => Some(Dot(b[0], r))
  }

  function DecodeVendor(b: Str): nat
    requires |b| >= 4
  {
    var (high: int, mid: int) := (b[1], b[2]);
    high * 65536 + mid * 256 + b[3]
  }

  datatype Joined = Joined(typ: Octet, ext: Octet, payload: Str)

  /** Reassembly: while More is set the fragment is full and the next one has the same
      type and extended type; the last one ends the input. */
  function Join(b: Str): Option<Joined>
    decreases |b|
  {
    if |b| < 4 || b[1] < 4 || b[1] > |b| then None
    else if b[3] < MORE then
      if b[1] == |b| then Some(Joined(b[0], b[2], b[4..])) else None
    else if b[1] != 255 then None
    else
      match Join(b[255..])
      case None => None
      case Some(j) =>
        if j.typ == b[0] && j.ext == b[2] then Some(Joined(b[0], b[2], b[4..255] + j.payload)) else None
  }

  /** What follows the extended type: data, or a vendor, a vendor type and data. */
  function DecodeExt(sh: AttrShape, long: bool, typ: Octet, ext: Octet, b: Str): Option<Attr> {
    match sh
    case ExtShape(d) =>
      if ext == 26 then None
      else
        (match DecodeData(d, b)
         case None => None
         case Some(r) => Some(if long then Long(typ, ext, r) else Ext(typ, ext, r)))
    case ExtVsShape(d) =>
      if ext != 26 || |b| < 5 || b[0] != 0 then None
      else
        (match DecodeData(d, b[5..])
         case None => None
         case Some(r) =>
           Some(if long then LongVs(typ, DecodeVendor(b), b[4], r) else ExtVs(typ, DecodeVendor(b), b[4], r)))
    case _ => None
  }

  function Decode(sh: AttrShape, b: Str): Option<Attr> {
    if |b| < 2 then None
    else if 245 <= b[0] <= 246 then
      match Join(b)
      case None => None
      case Some(j) => DecodeExt(sh, true, j.typ, j.ext, j.payload)
    else if b[1] != |b| then None
    else if 241 <= b[0] <= 244 then
      if |b| < 3 then None else DecodeExt(sh, false, b[0], b[2], b[3..])
    else if b[0] == 26 then
      if |b| < 6 || b[2] != 0 || !sh.VsaShape? then None
      else
        match DecodeTlv(sh.t, b[6..])
        case None => None
        case Some(t) => Some(Vsa(DecodeVendor(b[2..]), t))
    else if !sh.PlainShape? then None
    else
      match DecodeData(sh.d, b[2..])
      case None => None
      case Some(d) => Some(Plain(b[0], d))
  }

  function ShapeOfData(d: Data): DataShape {
    match d
    case HexData(_) => HexShape
    case Quoted(_) => QuotedShape
    case Group(g) => GroupShape(ShapeOfGroup(g))
  }
  function ShapeOfGroup(g: Tlvs): TlvShapes {
    match g
    case One(t) => OneShape(ShapeOfTlv(t))
    case More(t, g') => MoreShape(ShapeOfTlv(t), ShapeOfGroup(g'))
  }
  function ShapeOfTlv(t: Tlv): TlvShape {
    match t
    case Leaf(_, d) => LeafShape(ShapeOfData(d))
    case Dot(_, sub) => DotShape(ShapeOfTlv(sub))
  }
  function ShapeOf(a: Attr): AttrShape {
    match a
    case Plain(_, d) => PlainShape(ShapeOfData(d))
    case Vsa(_, t) => VsaShape(ShapeOfTlv(t))
    case Ext(_, _, d) => ExtShape(ShapeOfData(d))
    case Long(_, _, d) => ExtShape(ShapeOfData(d))
    case ExtVs(_, _, _, d) => ExtVsShape(ShapeOfData(d))
    case LongVs(_, _, _, d) => ExtVsShape(ShapeOfData(d))
  }

  // ---- what the one-octet and three-octet number fields keep ---------------------

  function OnWireData(d: Data): Data { if d.Group? then Group(OnWireGroup(d.g)) else d }
  function OnWireGroup(g: Tlvs): Tlvs {
    match g
    case One(t) => One(OnWireTlv(t))
    case More(t, g') => More(OnWireTlv(t), OnWireGroup(g'))
  }
  function OnWireTlv(t: Tlv): Tlv {
    match t
    case Leaf(n, d) => Leaf(Low(n), OnWireData(d))
    case Dot(n, sub) => Dot(Low(n), OnWireTlv(sub))
  }

  /** Numbers are kept modulo the width of their field: 256 and 2^24 become 0. */
  function OnWire(a: Attr): Attr {
    match a
    case Plain(n, d) => Plain(Low(n), OnWireData(d))
    case Vsa(v, t) => Vsa(v % 0x1000000, OnWireTlv(t))
    case Ext(n, m, d) => Ext(n, Low(m), OnWireData(d))
    case Long(n, m, d) => Long(n, Low(m), OnWireData(d))
    case ExtVs(n, v, m, d) => ExtVs(n, v % 0x1000000, Low(m), OnWireData(d))
    case LongVs(n, v, m, d) => LongVs(n, v % 0x1000000, Low(m), OnWireData(d))
  }

  predicate NarrowData(d: Data) { d.Group? ==> NarrowGroup(d.g) }
  predicate NarrowGroup(g: Tlvs) { NarrowTlv(g.t) && (g.More? ==> NarrowGroup(g.g)) }
  predicate NarrowTlv(t: Tlv) { t.num < 256 && if t.Leaf? then NarrowData(t.d) else NarrowTlv(t.sub) }

  /** All numbers below 256, all vendors below 2^24. */
  predicate Narrow(a: Attr) {
    match a
    case Plain(n, d) => n < 256 && NarrowData(d)
    case Vsa(v, t) => v < 0x1000000 && NarrowTlv(t)
    case Ext(n, m, d) => m < 256 && NarrowData(d)
    case Long(n, m, d) => m < 256 && NarrowData(d)
    case ExtVs(n, v, m, d) => v < 0x1000000 && m < 256 && NarrowData(d)
    case LongVs(n, v, m, d) => v < 0x1000000 && m < 256 && NarrowData(d)
  }
}
