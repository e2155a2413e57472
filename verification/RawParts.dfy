/** The encoder taken apart: what each encode_*() function computes from its text when the
    output is as large as it likes, composed as the functions call each other. */
module RawParts {
  import opened Octets
  import Hex
  import opened RawText
  import opened RawWire
  import opened RawRoundTrip

  function EncData(s: Str): (r: Parse<Str>)
    ensures r.Err? ==> r.code <= 0
  {
    match ParseData(s)
    case Err(c) => Err(c)
    case Ok(d) => if FitsData(d) then Ok(WireData(d)) else Err(0)
  }

  function EncGroup(s: Str): (r: Parse<Str>)
    ensures r.Err? ==> r.code == 0
  {
    match ParseGroup(s)
    case Err(c) => Err(c)
    case Ok(g) => if FitsGroup(g) then Ok(WireGroup(g)) else Err(0)
  }

  function EncTlv(s: Str): (r: Parse<Str>)
    ensures r.Err? ==> r.code <= 0
  {
    match ParseTlv(s)
    case Err(c) => Err(c)
    case Ok(t) => if FitsTlv(t) then Ok(WireTlv(t)) else Err(0)
  }

  ghost function Prepend(b: Str, r: Parse<Str>): Parse<Str> {
    if r.Ok? then Ok(b + r.v) else Err(0)
  }

  lemma {:induction false} EncTlvCases(s: Str)
    ensures var n := AttrNum(s);
      EncTlv(s) ==
      if n.Err? then Err(0)
      else
        var rest := n.v.1;
        var r := if rest[0] == DOT then EncTlv(rest[1..]) else EncData(rest);
        if r.Err? then r else if |r.v| > 253 then Err(0) else Ok([Low(n.v.0), 2 + |r.v|] + r.v)
  {
  }

  lemma {:induction false} EncGroupCases(s: Str)
    ensures var k := FindClose(s, 0);
      EncGroup(s) ==
      if k < 0 || EncTlv(SkipWs(s[1..k])).Err? then Err(0)
      else
        var b, rest := EncTlv(SkipWs(s[1..k])).v, SkipWs(s[k + 1..]);
        if rest == [] then Ok(b) else Prepend(b, EncGroup(rest))
  {
  }

  lemma {:induction false} EncDataCases(s: Str)
    requires s != [] && IsSpace(s[0])
    ensures var t := SkipWs(s);
      EncData(s) ==
      if t != [] && t[0] == LBRACE then EncGroup(t)
      else if t != [] && t[0] == QUOTE then
        var q := QuotedBody(t[1..]);
        if q.Err? || q.v == [] then Err(0) else Ok(q.v)
      else
        var h := Hex.HexDecode(t, 0, |t|);
        if h.Bad? then Err(0 - h.at) else if h.b == [] then Err(0) else Ok(h.b)
  {
    assert SkipWs(s) == SkipWs(s[1..]);
  }

  // ---- whole attributes ---------------------------------------------------------------

  function EncVsa(s: Str): (r: Parse<Str>)
    ensures r.Ok? ==> |r.v| <= 253
  {
    match VendorNum(s)
    case Err(c) => Err(c)
    case Ok((v, rest)) =>
      var r := EncTlv(rest);
      if r.Err? then r else if |r.v| > 249 then Err(0) else Ok(VendorOctets(v) + r.v)
  }

  function EncEvs(s: Str): Parse<Str> {
    match VendorNum(s)
    case Err(c) => Err(c)
    case Ok((v, rest)) =>
      match AttrNum(rest)
      case Err(c) => Err(c)
      case Ok((m, rest')) =>
        var r := EncData(rest');
        if r.Err? then r else Ok(VendorOctets(v) + [Low(m)] + r.v)
  }

  /** What follows the number of an extended attribute: a vendor header and data, or data. */
  function EncBody(m: nat, s: Str): Parse<Str> { if m == 26 then EncEvs(s) else EncData(s) }

  function EncExt(s: Str): (r: Parse<Str>)
    ensures r.Ok? ==> |r.v| <= 253
  {
    match AttrNum(s)
    case Err(c) => Err(c)
    case Ok((m, rest)) =>
      var r := EncBody(m, rest);
      if r.Err? then r else if |r.v| > 252 then Err(0) else Ok([Low(m)] + r.v)
  }

  function EncLong(n: Octet, s: Str): Parse<Str> {
    match AttrNum(s)
    case Err(c) => Err(c)
    case Ok((m, rest)) =>
      var r := EncBody(m, rest);
      if r.Err? then r else Ok(Fragments(n, Low(m), r.v))
  }

  function EncRest(n: nat, rest: Str): Parse<Str> {
    if n == 26 then EncVsa(rest)
    else if !IsExtended(n) then EncData(rest)
    else if rest == [] || rest[0] != DOT then Err(0)
    else EncExt(rest[1..])
  }

  lemma {:induction false} EncodeExtCases(n: nat, s: Str)
    requires IsExtended(n)
    ensures var p := ParseExt(n, s);
      (if p.Err? then Err(p.code) else if Fits(p.v) then Ok(Wire(p.v)) else Err(0)) ==
      if n >= 245 then EncLong(n, s)
      else var r := EncExt(s); if r.Err? then r else Ok([n, 2 + |r.v|] + r.v)
  {
    hide ParseData, AttrNum, VendorNum, Fragments, WireData, FitsData, VendorOctets;
    var p := ParseExt(n, s);
    if p.Ok? && Fits(p.v) && n < 245 {
      var r := EncExt(s).v;
      assert Wire(p.v) == [n, 2 + |r|] + r;
    }
  }

  lemma {:induction false} EncodeCases(s: Str)
    ensures var num := AttrNum(s);
      Encode(s) ==
      if num.Err? then Err(0)
      else
        var (n, rest) := num.v;
        if n in {245, 246} && rest[0] == DOT then EncLong(Low(n), rest[1..])
        else
          var r := EncRest(n, rest);
          if r.Err? then r else if |r.v| > 253 then Err(0) else Ok([Low(n), 2 + |r.v|] + r.v)
  {
    hide ParseData, ParseVsa, ParseExt, AttrNum, WireData, FitsData, EncVsa, EncExt, EncLong;
    var num := AttrNum(s);
    if num.Ok? {
      var (n, rest) := num.v;
      if n == 26 {
        EncodeVsaCases(rest);
      } else if IsExtended(n) && rest[0] == DOT {
        EncodeExtCases(n, rest[1..]);
      }
    }
  }

  lemma {:induction false} EncodeVsaCases(s: Str)
    ensures var p := ParseVsa(s);
      (if p.Err? then Err(p.code) else if Fits(p.v) then Ok(Wire(p.v)) else Err(0)) ==
      var r := EncVsa(s); if r.Err? then r else Ok([26, 2 + |r.v|] + r.v)
  {
    hide ParseTlv, VendorNum, WireTlv, FitsTlv;
    var p := ParseVsa(s);
    if p.Ok? && Fits(p.v) {
      var r := EncVsa(s).v;
      assert Wire(p.v) == [26, 2 + |r|] + r;
    }
  }
}
