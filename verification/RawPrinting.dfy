/** Parsing undoes printing, for every printable attribute. */
module RawPrinting {
  import opened Octets
  import Hex
  import opened RawText

  lemma {:induction false} DigitsOfPrint(n: nat, s: Str)
    ensures Digits(PrintNum(n) + s, 0) == Digits(s, n)
  {
    if n < 10 {
      assert (PrintNum(n) + s)[1..] == s;
    } else {
      var last := [ZERO + n % 10];
      DigitsOfPrint(n / 10, last + s);
      assert PrintNum(n) + s == PrintNum(n / 10) + (last + s);
      assert (last + s)[1..] == s;
    }
  }

  lemma StrtolOfPrint(n: nat, s: Str)
    requires s == [] || !IsDigit(s[0])
    ensures Strtol(PrintNum(n) + s) == Number(n, s)
  {
    DigitsOfPrint(n, s);
  }

  lemma AttrNumOfPrint(n: nat, s: Str)
    requires NumOk(n) && s != [] && !IsDigit(s[0])
    ensures AttrNum(PrintNum(n) + s) == Ok((n, s))
  {
    StrtolOfPrint(n, s);
  }

  lemma VendorNumOfPrint(v: nat, s: Str)
    requires VendorOk(v)
    ensures VendorNum(PrintVendor(v, s)) == Ok((v, s))
  {
    StrtolOfPrint(v, [DOT] + s);
    var t := PrintVendor(v, s);
    assert t[1..] == PrintNum(v) + ([DOT] + s);
  }

  lemma {:induction false} QuotedOfPrint(b: Str, s: Str)
    requires Quotable(b)
    ensures QuotedBody(b + ([QUOTE] + s)) == Ok(b)
  {
    if b == [] {
      assert b + ([QUOTE] + s) == [QUOTE] + s;
    } else {
      QuotedOfPrint(b[1..], s);
      assert (b + ([QUOTE] + s))[1..] == b[1..] + ([QUOTE] + s);
      assert [b[0]] + b[1..] == b;
    }
  }

  // ---- braces ----------------------------------------------------------------

  lemma {:induction false} LevelConcat(s: Str, t: Str, d: nat)
    requires Level(s, d) && Level(t, 0)
    ensures Level(s + t, d)
  {
    if s == [] {
      assert s + t == t;
    } else {
      assert (s + t)[1..] == s[1..] + t;
      LevelConcat(s[1..], t,
        if s[0] == LBRACE then d + 1 else if s[0] == RBRACE then d - 1 else d);
    }
  }

  lemma {:induction false} LevelPlain(s: Str)
    requires forall i :: 0 <= i < |s| ==> s[i] != LBRACE && s[i] != RBRACE
    ensures Level(s, 0)
  {
    if s != [] {
      LevelPlain(s[1..]);
    }
  }

  lemma {:induction false} PrintNumPlain(n: nat)
    ensures forall i :: 0 <= i < |PrintNum(n)| ==> IsDigit(PrintNum(n)[i])
  {
    if n >= 10 {
      PrintNumPlain(n / 10);
    }
  }

  /** A scan that starts inside braces passes over balanced text. */
  lemma {:induction false} FindClosePasses(s: Str, t: Str, d: nat, base: nat)
    requires Level(s, d) && base >= 1
    ensures FindClose(s + t, base + d) ==
            var k := FindClose(t, base); if k < 0 then -1 else |s| + k
  {
    if s == [] {
      assert s + t == t;
    } else {
      assert (s + t)[1..] == s[1..] + t;
      FindClosePasses(s[1..], t,
        if s[0] == LBRACE then d + 1 else if s[0] == RBRACE then d - 1 else d, base);
    }
  }

  lemma {:induction false} PrintedDataLevel(d: Data)
    requires PrintableData(d, true)
    ensures Level(PrintData(d), 0)
    decreases d
  {
    match d
    case HexData(b) =>
      Hex.HexTextShape(b);
      LevelPlain(PrintData(d));
    case Quoted(b) =>
      LevelPlain([QUOTE]);
      LevelConcat(b, [QUOTE], 0);
      LevelPlain([SPACE, QUOTE]);
      LevelConcat([SPACE, QUOTE], b + [QUOTE], 0);
      assert [SPACE, QUOTE] + (b + [QUOTE]) == PrintData(d);
    case Group(g) =>
      PrintedGroupLevel(g);
      LevelPlain([SPACE]);
      LevelConcat([SPACE], PrintGroup(g), 0);
  }

  lemma {:induction false} BracedLevel(s: Str)
    requires Level(s, 0)
    ensures Level([LBRACE, SPACE] + s + [SPACE, RBRACE], 0)
  {
    var u := [SPACE, RBRACE];
    var t := [SPACE] + s + u;
    assert u[1..] == [RBRACE] && [RBRACE][1..] == [];
    LevelClose(s, u, 0);
    assert t[1..] == s + u;
    assert ([LBRACE, SPACE] + s + u)[1..] == t;
  }

  /** Text that closes one more brace than it opens brings level d + 1 to 0. */
  lemma {:induction false} LevelClose(s: Str, u: Str, d: nat)
    requires Level(s, d) && Level(u, 1)
    ensures Level(s + u, d + 1)
  {
    if s == [] {
      assert s + u == u;
    } else {
      assert (s + u)[1..] == s[1..] + u;
      LevelClose(s[1..], u,
        if s[0] == LBRACE then d + 1 else if s[0] == RBRACE then d - 1 else d);
    }
  }

  lemma {:induction false} PrintedGroupLevel(g: Tlvs)
    requires PrintableGroup(g)
    ensures Level(PrintGroup(g), 0)
    decreases g
  {
    PrintedTlvLevel(g.t);
    BracedLevel(PrintTlv(g.t));
    if g.More? {
      PrintedGroupLevel(g.g);
      LevelConcat([LBRACE, SPACE] + PrintTlv(g.t) + [SPACE, RBRACE], PrintGroup(g.g), 0);
    }
  }

  lemma {:induction false} PrintedTlvLevel(t: Tlv)
    requires PrintableTlv(t, true)
    ensures Level(PrintTlv(t), 0)
    decreases t
  {
    PrintNumPlain(t.num);
    if t.Leaf? {
      LevelPlain(PrintNum(t.num));
      PrintedDataLevel(t.d);
      LevelConcat(PrintNum(t.num), PrintData(t.d), 0);
    } else {
      LevelPlain(PrintNum(t.num) + [DOT]);
      PrintedTlvLevel(t.sub);
      LevelConcat(PrintNum(t.num) + [DOT], PrintTlv(t.sub), 0);
    }
  }

  // ---- parse after print -------------------------------------------------------

  /** The closing brace of "{ s }" is found at its end. */
  lemma CloseOfBraced(s: Str, t: Str)
    requires Level(s, 0)
    ensures FindClose([LBRACE, SPACE] + s + [SPACE, RBRACE] + t, 0) == |s| + 3
  {
    var all := [LBRACE, SPACE] + s + [SPACE, RBRACE] + t;
    var u := [SPACE, RBRACE] + t;
    assert all[1..][1..] == s + u;
    assert u[1..][0] == RBRACE;
    assert FindClose(u[1..], 1) == 0;
    assert FindClose(u, 1) == 1;
    FindClosePasses(s, u, 0, 1);
  }

  lemma {:induction false} ParseDataOfPrint(d: Data, w: Str, nested: bool)
    requires ValidData(d) && PrintableData(d, nested) && AllSpace(w)
    ensures ParseData(PrintData(d) + w) == Ok(d)
    decreases d
  {
    hide ParseData;
    match d
    case HexData(b) => ParseHexOfPrint(b, w);
    case Quoted(b) => ParseQuotedOfPrint(b, w);
    case Group(g) =>
      ParseGroupOfPrint(g, w);
      GroupText(g, w);
  }

  lemma {:induction false} ParseHexOfPrint(b: Str, w: Str)
    requires AllSpace(w)
    ensures ParseData(PrintData(HexData(b)) + w) == Ok(HexData(b))
  {
    hide Hex.HexDecode, Hex.HexText, SkipWs;
    var s := PrintData(HexData(b)) + w;
    assert s[1..] == Hex.HexText(b) + w;
    HexDataOfPrint(b, w);
  }

  lemma {:induction false} ParseQuotedOfPrint(b: Str, w: Str)
    requires Quotable(b)
    ensures ParseData(PrintData(Quoted(b)) + w) == Ok(Quoted(b))
  {
    var s := PrintData(Quoted(b)) + w;
    assert s[1..] == [QUOTE] + (b + ([QUOTE] + w));
    QuotedOfPrint(b, w);
    assert s[1..][1..] == b + ([QUOTE] + w);
  }

  lemma {:induction false} GroupText(g: Tlvs, w: Str)
    requires ParseGroup(PrintGroup(g) + w) == Ok(g) && PrintGroup(g) != [] && PrintGroup(g)[0] == LBRACE
    ensures ParseData(PrintData(Group(g)) + w) == Ok(Group(g))
  {
    hide ParseGroup, PrintGroup;
    var s := PrintData(Group(g)) + w;
    assert s[1..] == PrintGroup(g) + w;
  }

  lemma HexDataOfPrint(b: Str, w: Str)
    requires AllSpace(w)
    ensures var t := SkipWs(Hex.HexText(b) + w);
      (t == [] || (t[0] != LBRACE && t[0] != QUOTE)) && Hex.HexDecode(t, 0, |t|) == Hex.Bytes(b)
  {
    Hex.HexTextShape(b);
    if b == [] {
      SkipWsAll(w, []);
      assert Hex.HexText(b) + w == w + [];
      Hex.HexDecodeNone(0, 0);
    } else {
      var t := Hex.HexText(b) + w;
      assert SkipWs(t) == t;
      Hex.HexRoundTrip(b, w, 0, |t|);
    }
  }

  lemma {:induction false} ParseBraced(t: Tlv, p: Str, rest: Str)
    requires Level(p, 0) && p != [] && IsDigit(p[0])
    requires ParseTlv(p + [SPACE]) == Ok(t)
    ensures var r := SkipWs(rest);
      ParseGroup([LBRACE, SPACE] + p + [SPACE, RBRACE] + rest) ==
      if r == [] then Ok(One(t)) else if ParseGroup(r).Ok? then Ok(More(t, ParseGroup(r).v)) else Err(0)
  {
    var s := [LBRACE, SPACE] + p + [SPACE, RBRACE] + rest;
    CloseOfBraced(p, rest);
    assert s[1..|p| + 3] == [SPACE] + (p + [SPACE]);
    SkipWsAll([SPACE], p + [SPACE]);
    assert s[|p| + 4..] == rest;
  }

  lemma {:induction false} ParseGroupOfPrint(g: Tlvs, w: Str)
    requires ValidGroup(g) && PrintableGroup(g) && AllSpace(w)
    ensures ParseGroup(PrintGroup(g) + w) == Ok(g)
    ensures PrintGroup(g) != [] && PrintGroup(g)[0] == LBRACE
    decreases g
  {
    hide ParseGroup;
    var p := PrintTlv(g.t);
    var rest := if g.One? then w else PrintGroup(g.g) + w;
    assert PrintGroup(g) + w == [LBRACE, SPACE] + p + [SPACE, RBRACE] + rest;
    PrintedTlvLevel(g.t);
    PrintTlvHead(g.t);
    ParseTlvOfPrint(g.t, [SPACE], true);
    ParseBraced(g.t, p, rest);
    if g.One? {
      SkipWsAll(w, []);
      assert w + [] == w;
    } else {
      ParseGroupOfPrint(g.g, w);
      assert SkipWs(rest) == rest;
    }
  }

  lemma PrintTlvHead(t: Tlv)
    ensures PrintTlv(t) != [] && IsDigit(PrintTlv(t)[0])
  {
  }

  lemma {:induction false} ParseTlvOfPrint(t: Tlv, w: Str, nested: bool)
    requires ValidTlv(t) && PrintableTlv(t, nested) && AllSpace(w)
    ensures ParseTlv(PrintTlv(t) + w) == Ok(t)
    decreases t
  {
    match t
    case Leaf(n, d) =>
      var s := PrintData(d) + w;
      assert PrintTlv(t) + w == PrintNum(n) + s;
      assert s[0] == SPACE;
      AttrNumOfPrint(n, s);
      ParseDataOfPrint(d, w, nested);
    case Dot(n, sub) =>
      var s := [DOT] + (PrintTlv(sub) + w);
      assert PrintTlv(t) + w == PrintNum(n) + s;
      AttrNumOfPrint(n, s);
      assert s[1..] == PrintTlv(sub) + w;
      ParseTlvOfPrint(sub, w, nested);
  }

  // ---- whole attributes: `s` is the text of the data -----------------------------

  predicate DataText(s: Str, d: Data) { s != [] && s[0] == SPACE && ParseData(s) == Ok(d) }

  lemma {:induction false} ParsePlain(n: nat, d: Data, s: Str)
    requires NumOk(n) && n != 26 && !IsExtended(n) && DataText(s, d)
    ensures ParseAttr(PrintNum(n) + s) == Ok(Plain(n, d))
  {
    AttrNumOfPrint(n, s);
  }

  lemma {:induction false} ParseVendor(v: nat, t: Tlv, s: Str)
    requires VendorOk(v) && ParseTlv(s) == Ok(t)
    ensures ParseAttr(PrintNum(26) + PrintVendor(v, s)) == Ok(Vsa(v, t))
  {
    AttrNumOfPrint(26, PrintVendor(v, s));
    VendorNumOfPrint(v, s);
  }

  lemma {:induction false} ParseExtended(n: nat, m: nat, d: Data, s: Str)
    requires IsExtended(n) && NumOk(m) && m != 26 && DataText(s, d)
    ensures ParseAttr(PrintNum(n) + ([DOT] + (PrintNum(m) + s))) ==
            Ok(if n < 245 then Ext(n, m, d) else Long(n, m, d))
  {
    var u := [DOT] + (PrintNum(m) + s);
    AttrNumOfPrint(n, u);
    assert u[1..] == PrintNum(m) + s;
    AttrNumOfPrint(m, s);
  }

  lemma {:induction false} ParseExtendedVs(n: nat, v: nat, m: nat, d: Data, s: Str)
    requires IsExtended(n) && VendorOk(v) && NumOk(m) && DataText(s, d)
    ensures ParseAttr(PrintNum(n) + ([DOT] + (PrintNum(26) + PrintVendor(v, PrintNum(m) + s)))) ==
            Ok(if n < 245 then ExtVs(n, v, m, d) else LongVs(n, v, m, d))
  {
    var evs := PrintVendor(v, PrintNum(m) + s);
    var u := [DOT] + (PrintNum(26) + evs);
    AttrNumOfPrint(n, u);
    assert u[1..] == PrintNum(26) + evs;
    AttrNumOfPrint(26, evs);
    VendorNumOfPrint(v, PrintNum(m) + s);
    AttrNumOfPrint(m, s);
  }

  lemma {:induction false} DataTextOfPrint(d: Data)
    requires ValidData(d) && PrintableData(d, false)
    ensures DataText(PrintData(d), d)
  {
    ParseDataOfPrint(d, [], false);
    assert PrintData(d) + [] == PrintData(d);
  }

  /** Printing any printable attribute and parsing the text gives it back. */
  lemma {:induction false} ParseOfPrint(a: Attr)
    requires Printable(a)
    ensures ParseAttr(Print(a)) == Ok(a)
  {
    hide ParseAttr;
    match a
    case Plain(n, d) => DataTextOfPrint(d); ParsePlain(n, d, PrintData(d));
    case Vsa(v, t) =>
      ParseTlvOfPrint(t, [], false);
      assert PrintTlv(t) + [] == PrintTlv(t);
      ParseVendor(v, t, PrintTlv(t));
    case Ext(n, m, d) => DataTextOfPrint(d); ParseExtended(n, m, d, PrintData(d));
    case Long(n, m, d) => DataTextOfPrint(d); ParseExtended(n, m, d, PrintData(d));
    case ExtVs(n, v, m, d) => DataTextOfPrint(d); ParseExtendedVs(n, v, m, d, PrintData(d));
    case LongVs(n, v, m, d) => DataTextOfPrint(d); ParseExtendedVs(n, v, m, d, PrintData(d));
  }
}
