/** The "raw" attribute syntax: abstract syntax, the parse done by the encode_*() family
    (what text is accepted and as what), and a printer for the same syntax. */
module RawText {
  import opened Octets
  import Hex

  datatype Data = HexData(b: Str) | Quoted(b: Str) | Group(g: Tlvs)
  datatype Tlvs = One(t: Tlv) | More(t: Tlv, g: Tlvs)
  datatype Tlv = Leaf(num: nat, d: Data) | Dot(num: nat, sub: Tlv)

  datatype Attr =
    | Plain(num: nat, d: Data)
    | Vsa(vendor: nat, t: Tlv)
    | Ext(num: nat, sub: nat, d: Data)
    | ExtVs(num: nat, vendor: nat, sub: nat, d: Data)
    | Long(num: nat, sub: nat, d: Data)
    | LongVs(num: nat, vendor: nat, sub: nat, d: Data)

  /** `code` is the value <= 0 the C function returns. */
  datatype Parse<+T> = Ok(v: T) | Err(code: int)

  datatype Number = Number(v: int, rest: Str) | NoNumber

  // ---- numbers -------------------------------------------------------------

  function Digits(s: Str, acc: nat): (r: (nat, Str))
    ensures |r.1| <= |s|
    ensures s != [] && IsDigit(s[0]) ==> |r.1| < |s|
  {
    if s != [] && IsDigit(s[0]) then Digits(s[1..], 10 * acc + (s[0] - ZERO)) else (acc, s)
  }

  /** strtol() in base 10: white space, an optional sign, digits.  Saturation at LONG_MAX
      is not needed, both callers refuse every value above 2^24. */
  function Strtol(s: Str): (r: Number)
    ensures r.Number? ==> |r.rest| < |s|
  {
    var t := SkipWs(s);
    var signed := t != [] && (t[0] == MINUS || t[0] == PLUS);
    var u := if signed then t[1..] else t;
    if u == [] || !IsDigit(u[0]) then NoNumber
    else
      var (v, rest) := Digits(u, 0);
      Number(if signed && t[0] == MINUS then 0 - v else v, rest)
  }

  /** decode_attr(): 256 is let through. */
  function AttrNum(s: Str): (r: Parse<(nat, Str)>)
    ensures r.Err? ==> r.code == 0
    ensures r.Ok? ==> 1 <= r.v.0 <= 256 && r.v.1 != [] && |r.v.1| < |s|
  {
    var n := Strtol(s);
    if n.NoNumber? || n.rest == [] || n.v <= 0 || n.v > 256 then Err(0) else Ok((n.v, n.rest))
  }

  /** decode_vendor(): ".number.", 2^24 is let through. */
  function VendorNum(s: Str): (r: Parse<(nat, Str)>)
    ensures r.Err? ==> r.code == 0
    ensures r.Ok? ==> 1 <= r.v.0 <= 0x1000000 && |r.v.1| + 2 < |s|
  {
    if s == [] || s[0] != DOT then Err(0)
    else
      var n := Strtol(s[1..]);
      if n.NoNumber? || n.rest == [] || n.v <= 0 || n.v > 0x1000000 || n.rest[0] != DOT then Err(0)
      else Ok((n.v, n.rest[1..]))
  }

  // ---- data ----------------------------------------------------------------

  /** Characters up to the closing quote.  A backslash never advances the input, so the
      loop ends with the output full and the string unterminated. */
  function QuotedBody(s: Str): (r: Parse<Str>)
    ensures r.Err? ==> r.code == 0
  {
    if s == [] || s[0] == BACKSLASH then Err(0)
    else if s[0] == QUOTE then Ok([])
    else match QuotedBody(s[1..])
      case Err(c) => Err(c)
      case Ok(b) => Ok([s[0]] + b)
  }

  /** Index of the '}' that brings the nesting depth to 0, or -1. */
  function FindClose(s: Str, depth: int): (k: int)
    ensures -1 <= k < |s|
    ensures k >= 0 ==> s[k] == RBRACE
    ensures depth == 0 ==> k != 0
  {
    if s == [] then -1
    else if s[0] == RBRACE && depth == 1 then 0
    else
      var d := if s[0] == LBRACE then depth + 1 else if s[0] == RBRACE then depth - 1 else depth;
      var k := FindClose(s[1..], d);
      if k < 0 then -1 else k + 1
  }

  /** encode_data(): white space, then "{...}{...}", "..." in quotes, or hex digits. */
  function ParseData(s: Str): (r: Parse<Data>)
    ensures r.Err? ==> r.code <= 0
    decreases |s|
  {
    if s == [] || !IsSpace(s[0]) then Err(0)
    else
      var t := SkipWs(s[1..]);
      if t != [] && t[0] == LBRACE then
        match ParseGroup(t)
        case Err(c) => Err(c)
        case Ok(g) => Ok(Group(g))
      else if t != [] && t[0] == QUOTE then
        match QuotedBody(t[1..])
        case Err(c) => Err(c)
        case Ok(b) => Ok(Quoted(b))
      else
        match Hex.HexDecode(t, 0, |t|)
        case Bad(n) => Err(0 - n)
        case Bytes(b) => Ok(HexData(b))
  }

  /** The do-while loop of encode_data() with encode_data_tlv(): errors become 0. */
  function ParseGroup(s: Str): (r: Parse<Tlvs>)
    ensures r.Err? ==> r.code == 0
    decreases |s|
  {
    var k := FindClose(s, 0);
    if k < 0 then Err(0)
    else
      match ParseTlv(SkipWs(s[1..k]))
      case Err(_) => Err(0)
      case Ok(t) =>
        var rest := SkipWs(s[k + 1..]);
        if rest == [] then Ok(One(t))
        else match ParseGroup(rest)
          case Err(_) => Err(0)
          case Ok(g) => Ok(More(t, g))
  }

  /** encode_tlv(): "number.tlv" or "number data". */
  function ParseTlv(s: Str): (r: Parse<Tlv>)
    ensures r.Err? ==> r.code <= 0
    decreases |s|
  {
    match AttrNum(s)
    case Err(c) => Err(c)
    case Ok((n, rest)) =>
      if rest[0] == DOT then
        match ParseTlv(rest[1..])
        case Err(c) => Err(c)
        case Ok(t) => Ok(Dot(n, t))
      else
        match ParseData(rest)
        case Err(c) => Err(c)
        case Ok(d) => Ok(Leaf(n, d))
  }

  /** encode_evs(): ".vendor.number data". */
  function ParseEvs(s: Str): Parse<(nat, nat, Data)> {
    match VendorNum(s)
    case Err(c) => Err(c)
    case Ok((v, rest)) =>
      match AttrNum(rest)
      case Err(c) => Err(c)
      case Ok((m, rest')) =>
        match ParseData(rest')
        case Err(c) => Err(c)
        case Ok(d) => Ok((v, m, d))
  }

  /** encode_extended() and encode_long_extended() read the same text. */
  function ParseExt(n: nat, s: Str): Parse<Attr> {
    match AttrNum(s)
    case Err(c) => Err(c)
    case Ok((m, rest)) =>
      if m == 26 then
        match ParseEvs(rest)
        case Err(c) => Err(c)
        case Ok((v, k, d)) => Ok(if n < 245 then ExtVs(n, v, k, d) else LongVs(n, v, k, d))
      else
        match ParseData(rest)
        case Err(c) => Err(c)
        case Ok(d) => Ok(if n < 245 then Ext(n, m, d) else Long(n, m, d))
  }

  function ParseVsa(s: Str): Parse<Attr> {
    match VendorNum(s)
    case Err(c) => Err(c)
    case Ok((v, rest)) =>
      match ParseTlv(rest)
      case Err(c) => Err(c)
      case Ok(t) => Ok(Vsa(v, t))
  }

  predicate IsExtended(n: nat) { 241 <= n <= 246 }

  /** encode_rfc(). */
  function ParseAttr(s: Str): Parse<Attr> {
    match AttrNum(s)
    case Err(c) => Err(c)
    case Ok((n, rest)) =>
      if n == 26 then ParseVsa(rest)
      else if !IsExtended(n) then
        match ParseData(rest)
        case Err(c) => Err(c)
        case Ok(d) => Ok(Plain(n, d))
      else if rest[0] != DOT then Err(0)
      else ParseExt(n, rest[1..])
  }

  // ---- printing ------------------------------------------------------------

  function PrintNum(n: nat): (s: Str)
    ensures s != [] && IsDigit(s[0])
  {
    if n < 10 then [ZERO + n] else PrintNum(n / 10) + [ZERO + n % 10]
  }

  function PrintData(d: Data): Str {
    match d
    case HexData(b) => [SPACE] + Hex.HexText(b)
    case Quoted(b) => [SPACE, QUOTE] + b + [QUOTE]
    case Group(g) => [SPACE] + PrintGroup(g)
  }

  function PrintGroup(g: Tlvs): Str {
    match g
    case One(t) => [LBRACE, SPACE] + PrintTlv(t) + [SPACE, RBRACE]
    case More(t, g') => [LBRACE, SPACE] + PrintTlv(t) + [SPACE, RBRACE] + PrintGroup(g')
  }

  function PrintTlv(t: Tlv): Str {
    match t
    case Leaf(n, d) => PrintNum(n) + PrintData(d)
    case Dot(n, sub) => PrintNum(n) + [DOT] + PrintTlv(sub)
  }

  function Print(a: Attr): Str {
    match a
    case Plain(n, d) => PrintNum(n) + PrintData(d)
    case Vsa(v, t) => PrintNum(26) + PrintVendor(v, PrintTlv(t))
    case Ext(n, m, d) => PrintNum(n) + ([DOT] + (PrintNum(m) + PrintData(d)))
    case Long(n, m, d) => PrintNum(n) + ([DOT] + (PrintNum(m) + PrintData(d)))
    case ExtVs(n, v, m, d) =>
      PrintNum(n) + ([DOT] + (PrintNum(26) + PrintVendor(v, PrintNum(m) + PrintData(d))))
    case LongVs(n, v, m, d) =>
      PrintNum(n) + ([DOT] + (PrintNum(26) + PrintVendor(v, PrintNum(m) + PrintData(d))))
  }

  function PrintVendor(v: nat, s: Str): Str { [DOT] + PrintNum(v) + ([DOT] + s) }

  // ---- what can be printed ---------------------------------------------------

  predicate NumOk(n: nat) { 1 <= n <= 256 }
  predicate VendorOk(v: nat) { 1 <= v <= 0x1000000 }

  /** Numbers in range all the way down. */
  predicate ValidData(d: Data) { d.Group? ==> ValidGroup(d.g) }
  predicate ValidGroup(g: Tlvs) { ValidTlv(g.t) && (g.More? ==> ValidGroup(g.g)) }
  predicate ValidTlv(t: Tlv) { NumOk(t.num) && if t.Leaf? then ValidData(t.d) else ValidTlv(t.sub) }

  predicate Valid(a: Attr) {
    match a
    case Plain(n, d) => NumOk(n) && n != 26 && !IsExtended(n) && ValidData(d)
    case Vsa(v, t) => VendorOk(v) && ValidTlv(t)
    case Ext(n, m, d) => 241 <= n <= 244 && NumOk(m) && m != 26 && ValidData(d)
    case ExtVs(n, v, m, d) => 241 <= n <= 244 && VendorOk(v) && NumOk(m) && ValidData(d)
    case Long(n, m, d) => 245 <= n <= 246 && NumOk(m) && m != 26 && ValidData(d)
    case LongVs(n, v, m, d) => 245 <= n <= 246 && VendorOk(v) && NumOk(m) && ValidData(d)
  }

  /** Braces match, starting `d` levels deep. */
  predicate Level(s: Str, d: nat) {
    if s == [] then d == 0
    else if s[0] == LBRACE then Level(s[1..], d + 1)
    else if s[0] == RBRACE then d > 0 && Level(s[1..], d - 1)
    else Level(s[1..], d)
  }

  predicate Quotable(b: Str) {
    forall i :: 0 <= i < |b| ==> b[i] != 0 && b[i] != QUOTE && b[i] != BACKSLASH
  }

  /** Strings hold nothing that ends or escapes them; inside braces, theirs must match. */
  predicate PrintableData(d: Data, nested: bool) {
    match d
    case HexData(_) => true
    case Quoted(b) => Quotable(b) && (nested ==> Level(b, 0))
    case Group(g) => PrintableGroup(g)
  }
  predicate PrintableGroup(g: Tlvs) { PrintableTlv(g.t, true) && (g.More? ==> PrintableGroup(g.g)) }
  predicate PrintableTlv(t: Tlv, nested: bool) {
    if t.Leaf? then PrintableData(t.d, nested) else PrintableTlv(t.sub, nested)
  }

  predicate Printable(a: Attr) {
    Valid(a) && if a.Vsa? then PrintableTlv(a.t, false) else PrintableData(a.d, false)
  }
}
