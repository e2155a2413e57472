/** The encode_*() family as it runs: it reads a NUL-terminated text, writes terminators
    into it, writes octets through an output position and patches length octets behind it. */
module RawEncoder {
  import opened Octets
  import Hex
  import opened RawText
  import opened RawWire
  import opened RawRoundTrip
  import opened RawFragments
  import opened RawParts
  import opened RawRoom
  import opened RawLayout
  import opened RawVerdict
  import opened RawSizes

  /** The return value n and the octets at o agree with r. */
  ghost predicate Written(r: Outcome, n: int, out: array<Octet>, o: nat)
    reads out
  {
    match r
    case Fails(c) => n == c <= 0
    case Done(b) => n == |b| > 0 && o + n <= out.Length && out[o..o + n] == b
    case Spills => false
  }

  twostate predicate OnlyText(text: array<Octet>, p: nat, e: nat)
    reads text
  {
    forall i :: 0 <= i < text.Length && !(p <= i < e) ==> text[i] == old(text[i])
  }

  // ---- the text side as lemmas ---------------------------------------------------------

  lemma {:induction false} DigitsSuffix(s: Str, acc: nat)
    ensures Digits(s, acc).1 == s[|s| - |Digits(s, acc).1|..]
  {
    if s != [] && IsDigit(s[0]) {
      DigitsSuffix(s[1..], 10 * acc + (s[0] - ZERO));
    }
  }

  lemma StrtolSuffix(s: Str)
    ensures var r := Strtol(s); r.Number? ==> r.rest == s[|s| - |r.rest|..]
  {
    var t := SkipWs(s);
    SkipWsSuffix(s);
    var u := if t != [] && (t[0] == MINUS || t[0] == PLUS) then t[1..] else t;
    DigitsSuffix(u, 0);
  }

  // ---- numbers ----------------------------------------------------------------------------

  /** decode_attr(): 0 stands for an error. */
  method DecodeAttr(text: array<Octet>, p: nat, e: nat) returns (attr: nat, q: nat)
    requires CText(text, p, e)
    ensures attr == 0 <==> AttrNum(text[p..e]).Err?
    ensures attr != 0 ==> p < q < e && AttrNum(text[p..e]) == Ok((attr, text[q..e]))
  {
    var n := Strtol(text[p..e]);
    StrtolSuffix(text[p..e]);
    if n.NoNumber? {
      return 0, p;
    }
    q := e - |n.rest|;
    assert n.rest == text[q..e];
    if text[q] == 0 {
      return 0, q;
    }
    if n.v <= 0 || n.v > 256 {
      return 0, q;
    }
    attr := n.v;
  }

  /** decode_vendor(). */
  method DecodeVendorNum(text: array<Octet>, p: nat, e: nat) returns (vendor: nat, q: nat)
    requires CText(text, p, e)
    ensures vendor == 0 <==> VendorNum(text[p..e]).Err?
    ensures vendor != 0 ==> p + 3 <= q <= e && VendorNum(text[p..e]) == Ok((vendor, text[q..e]))
  {
    if text[p] != DOT {
      return 0, p;
    }
    assert text[p..e][1..] == text[p + 1..e];
    var n := Strtol(text[p + 1..e]);
    StrtolSuffix(text[p + 1..e]);
    if n.NoNumber? {
      return 0, p;
    }
    q := e - |n.rest|;
    assert n.rest == text[q..e];
    if text[q] == 0 {
      return 0, q;
    }
    if n.v <= 0 || n.v > 0x1000000 {
      return 0, q;
    }
    if text[q] != DOT {
      return 0, q;
    }
    assert text[q..e][1..] == text[q + 1..e];
    q := q + 1;
    vendor := n.v;
  }

  // ---- data ---------------------------------------------------------------------------------

  function Unescape(c: Octet): Octet {
    if c == 110 then 10 else if c == 114 then 13 else if c == 116 then 9 else c
  }

  lemma PrependLaws(b: Str, c: Str, r: Parse<Str>)
    ensures Prepend(b, Prepend(c, r)) == Prepend(b + c, r)
    ensures Prepend([], r) == if r.Ok? then r else Err(0)
    ensures Prepend(b, Err(0)) == Err(0)
    ensures Prepend(b, Ok([])) == Ok(b)
    ensures Prepend(b, r).Ok? ==> |Prepend(b, r).v| >= |b|
  {
    if r.Ok? {
      assert b + (c + r.v) == b + c + r.v;
      assert [] + r.v == r.v;
    }
    assert b + [] == b;
  }

  lemma {:induction false} QuotedCases(s: Str)
    ensures QuotedBody(s) ==
      if s == [] || s[0] == BACKSLASH then Err(0)
      else if s[0] == QUOTE then Ok([])
      else Prepend([s[0]], QuotedBody(s[1..]))
  {
  }

  /** encode_data_string(): an escape is copied without moving past it, over and over, until
      the output is full. */
  method EncodeDataString(text: array<Octet>, p: nat, e: nat, out: array<Octet>, o: nat, outlen: nat)
    returns (slen: nat)
    requires CText(text, p, e) && p < e && text != out
    requires o + outlen <= out.Length
    modifies out
    ensures Written(PutString(text[p + 1..e], outlen), slen, out, o)
    ensures OnlyOut(out, o, outlen)
  {
    hide QuotedBody, Prepend;
    slen := 0;
    var q, left := p + 1, outlen;
    ghost var all := text[p + 1..e];
    ghost var rest := QuotedBody(all);
    PrependLaws([], [], rest);
    assert out[o..o + slen] == [];
    while text[q] != 0 && left > 0
      invariant p < q <= e
      invariant slen + left == outlen
      invariant rest == QuotedBody(text[q..e])
      invariant QuotedBody(all) == Prepend(out[o..o + slen], rest)
      invariant OnlyOut(out, o, outlen)
      decreases left
    {
      ghost var done := out[o..o + slen];
      QuotedCases(text[q..e]);
      if text[q] == QUOTE {
        PrependLaws(done, [], rest);
        return;
      }
      if text[q] != BACKSLASH {
        assert text[q..e][1..] == text[q + 1..e];
        out[o + slen] := text[q];
        q := q + 1;
        rest := QuotedBody(text[q..e]);
        assert out[o..o + slen + 1] == done + [text[q - 1]];
        PrependLaws(done, [text[q - 1]], rest);
      } else {
        out[o + slen] := Unescape(text[q + 1]);
        PrependLaws(done, [], rest);
        PrependLaws(out[o..o + slen + 1], [], rest);
      }
      left, slen := left - 1, slen + 1;
    }
    QuotedCases(text[q..e]);
    PrependLaws(out[o..o + slen], [], rest);
    return 0;
  }

  lemma {:induction false} FindCloseCases(s: Str, depth: int)
    ensures FindClose([], depth) == -1
    ensures s != [] ==>
      FindClose(s, depth) ==
      if s[0] == RBRACE && depth == 1 then 0
      else
        var k := FindClose(s[1..], if s[0] == LBRACE then depth + 1 else if s[0] == RBRACE then depth - 1 else depth);
        if k < 0 then -1 else k + 1
  {
  }

  /** The scan of encode_data_tlv() for the brace that closes the first one. */
  method ScanBraces(text: array<Octet>, p: nat, e: nat) returns (q: nat)
    requires CText(text, p, e)
    ensures p <= q <= e
    ensures var k := FindClose(text[p..e], 0); if k < 0 then q == e else q == p + k
  {
    hide FindClose;
    q := p;
    var depth := 0;
    while text[q] != 0
      invariant p <= q <= e
      invariant var k, k0 := FindClose(text[q..e], depth), FindClose(text[p..e], 0);
        if k < 0 then k0 < 0 else k0 == q - p + k
      decreases e - q
    {
      assert text[q..e][1..] == text[q + 1..e];
      FindCloseCases(text[q..e], depth);
      if text[q] == LBRACE { depth := depth + 1; }
      if text[q] == RBRACE {
        depth := depth - 1;
        if depth == 0 { return; }
      }
      q := q + 1;
    }
  }

  /** encode_data_tlv(): the closing brace is overwritten by a terminator, and what is
      between the braces is encoded; q is the position after the closing brace. */
  method EncodeDataTlv(text: array<Octet>, p: nat, e: nat, out: array<Octet>, o: nat, outlen: nat)
    returns (slen: nat, q: nat)
    requires CText(text, p, e) && text != out && o + outlen <= out.Length
    requires var s := text[p..e]; var k := FindClose(s, 0);
      k >= 0 ==> !PutTlv(SkipWs(s[1..k]), outlen).Spills?
    modifies text, out
    ensures var s := old(text[p..e]); var k := FindClose(s, 0);
      if k < 0 || PutTlv(SkipWs(s[1..k]), outlen).Fails? then slen == 0
      else Written(PutTlv(SkipWs(s[1..k]), outlen), slen, out, o) && q == p + k + 1 <= e
    ensures slen > 0 ==> p < q && OnlyText(text, p, q)
    ensures OnlyText(text, p, e) && OnlyOut(out, o, outlen)
    decreases e - p, 0
  {
    hide PutTlv, FindClose;
    ghost var s := text[p..e];
    var k := ScanBraces(text, p, e);
    if text[k] != RBRACE {
      return 0, p;
    }
    q := k + 1;
    SubText(text, p, e, 1, k - p);
    text[k] := 0;
    assert text[p + 1..k] == s[1..k - p];
    var i := SkipSpaces(text, p + 1, k);
    var n := EncodeTlv(text, i, k, out, o, outlen);
    if n <= 0 {
      return 0, q;
    }
    slen := n;
  }

  lemma AfterLaws(b: Str, c: Str, r: Outcome)
    ensures After(b, After(c, r)) == After(b + c, r)
    ensures (r.Fails? ==> r.code == 0) ==> After([], r) == r
    ensures After(b, Fails(0)) == Fails(0) && After(b, Spills) == Spills
    ensures After(b, Done(c)) == Done(b + c)
  {
    if r.Done? {
      assert b + (c + r.b) == b + c + r.b;
      assert [] + r.b == r.b;
    }
  }

  /** One round of the loop of encode_data(): one "{...}" is encoded behind what the rounds
      before it wrote. */
  method EncodeBraced(text: array<Octet>, p: nat, e: nat, out: array<Octet>, o: nat, slen: nat, outlen: nat,
                      ghost whole: Outcome, ghost done: Str)
    returns (sub: nat, q: nat, ghost done': Str)
    requires CText(text, p, e) && text != out
    requires o + outlen <= out.Length && slen <= outlen
    requires |done| == slen && out[o..o + slen] == done
    requires whole == After(done, PutGroup(text[p..e], outlen - slen)) && !whole.Spills?
    modifies text, out
    ensures sub == 0 ==> whole == Fails(0)
    ensures sub > 0 ==>
      && p < q <= e && slen + sub <= outlen && CText(text, q, e)
      && |done'| == slen + sub && out[o..o + slen + sub] == done'
      && var s := SkipWs(text[q..e]);
         whole == if s == [] then Done(done') else After(done', PutGroup(s, outlen - slen - sub))
    ensures OnlyText(text, p, e) && OnlyOut(out, o, outlen)
    decreases e - p, 1
  {
    hide PutGroup, PutTlv, After, FindClose, SkipWs;
    ghost var s := text[p..e];
    PutGroupCases(s, outlen - slen);
    AfterLaws(done, [], Spills);
    sub, q := EncodeDataTlv(text, p, e, out, o + slen, outlen - slen);
    done' := [];
    if sub > 0 {
      ghost var b := out[o + slen..o + slen + sub];
      done' := done + b;
      assert text[q..e] == s[q - p..];
      AfterLaws(done, b, PutGroup(SkipWs(text[q..e]), outlen - slen - sub));
    }
  }

  lemma NoSpace(s: Str)
    requires s == [] || !IsSpace(s[0])
    ensures SkipWs(s) == s
  {
  }

  /** The loop of encode_data() over "{...}{...}". */
  method EncodeGroup(text: array<Octet>, p: nat, e: nat, out: array<Octet>, o: nat, outlen: nat) returns (slen: nat)
    requires CText(text, p, e) && text[p] == LBRACE && text != out && o + outlen <= out.Length
    requires !PutGroup(text[p..e], outlen).Spills?
    modifies text, out
    ensures Written(PutGroup(old(text[p..e]), outlen), slen, out, o)
    ensures OnlyText(text, p, e) && OnlyOut(out, o, outlen)
    decreases e - p, 2
  {
    hide PutGroup, After, SkipWs;
    slen := 0;
    var pos := p;
    ghost var whole := PutGroup(text[p..e], outlen);
    ghost var done: Str := [];
    AfterLaws([], [], whole);
    NoSpace(text[p..e]);
    while true
      invariant p <= pos <= e && CText(text, pos, e)
      invariant |done| == slen <= outlen
      invariant out[o..o + slen] == done
      invariant var s := SkipWs(text[pos..e]);
        whole == if s == [] then Done(done) else After(done, PutGroup(s, outlen - slen))
      invariant OnlyText(text, p, e) && OnlyOut(out, o, outlen)
      decreases e - pos
    {
      pos := SkipSpaces(text, pos, e);
      if text[pos] == 0 {
        break;
      }
      var sub, q;
      sub, q, done := EncodeBraced(text, pos, e, out, o, slen, outlen, whole, done);
      if sub == 0 {
        return 0;
      }
      pos, slen := q, slen + sub;
      if text[q] == 0 {
        break;
      }
    }
  }

  lemma {:induction false} PutDataCases(s: Str, room: nat)
    requires s != [] && IsSpace(s[0])
    ensures var t := SkipWs(s);
      PutData(s, room) ==
      if t != [] && t[0] == LBRACE then PutGroup(t, room)
      else if t != [] && t[0] == QUOTE then PutString(t[1..], room)
      else PutHex(t, room)
  {
    assert SkipWs(s) == SkipWs(s[1..]);
  }

  /** encode_data(). */
  method EncodeData(text: array<Octet>, p: nat, e: nat, out: array<Octet>, o: nat, outlen: nat) returns (slen: int)
    requires CText(text, p, e) && text != out && o + outlen <= out.Length
    requires !PutData(text[p..e], outlen).Spills?
    modifies text, out
    ensures Written(PutData(old(text[p..e]), outlen), slen, out, o)
    ensures OnlyText(text, p, e) && OnlyOut(out, o, outlen)
    decreases e - p, 3
  {
    if !IsSpace(text[p]) {
      return 0;
    }
    ghost var s := text[p..e];
    hide PutData, PutGroup;
    PutDataCases(s, outlen);
    var q := SkipSpaces(text, p, e);
    assert p < q by {
      assert s[0] == text[p];
    }
    if text[q] == LBRACE {
      slen := EncodeGroup(text, q, e, out, o, outlen);
      return;
    }
    if text[q] == QUOTE {
      slen := EncodeDataString(text, q, e, out, o, outlen);
      assert s == old(text[p..e]);
      return;
    }
    slen := Hex.HexToBin(out, o, outlen, text, q, e);
  }

  /** output[1] += slen, behind the octets it counts. */
  method PatchLength(out: array<Octet>, o: nat, slen: nat)
    requires o + 2 + slen <= out.Length && slen <= 253 && out[o + 1] == 2
    modifies out
    ensures out[o..o + 2 + slen] == [old(out[o]), 2 + slen] + old(out[o + 2..o + 2 + slen])
    ensures OnlyOut(out, o, 2)
  {
    out[o + 1] := out[o + 1] + slen;
    assert out[o + 2..o + 2 + slen] == old(out[o + 2..o + 2 + slen]);
    assert out[o..o + 2 + slen] == [out[o], out[o + 1]] + out[o + 2..o + 2 + slen];
  }

  lemma {:induction false} PutTlvCases(s: Str, room: nat)
    ensures var n := AttrNum(s);
      PutTlv(s, room) ==
      if n.Err? then Fails(0)
      else if room < 2 then Spills
      else
        var r := PutValue(n.v.1, room - 2);
        if !r.Done? then r else if |r.b| > 253 then Fails(0) else Done([Low(n.v.0), 2 + |r.b|] + r.b)
  {
  }

  /** What follows the number of a TLV: a dot and another one, or data. */
  function PutValue(rest: Str, room: nat): (r: Outcome)
    requires rest != []
    ensures r.Done? ==> 0 < |r.b| <= room
    ensures r.Fails? ==> r.code <= 0
  {
    if rest[0] == DOT then PutTlv(rest[1..], room) else PutData(rest, room)
  }

  method EncodeValue(text: array<Octet>, p: nat, e: nat, out: array<Octet>, o: nat, outlen: nat) returns (slen: int)
    requires CText(text, p, e) && p < e && text != out && o + outlen <= out.Length
    requires !PutValue(text[p..e], outlen).Spills?
    modifies text, out
    ensures Written(PutValue(old(text[p..e]), outlen), slen, out, o)
    ensures OnlyText(text, p, e) && OnlyOut(out, o, outlen)
    decreases e - p, 4
  {
    hide PutTlv, PutData;
    assert text[p..e][1..] == text[p + 1..e];
    if text[p] == DOT {
      slen := EncodeTlv(text, p + 1, e, out, o, outlen);
    } else {
      slen := EncodeData(text, p, e, out, o, outlen);
    }
  }

  /** encode_tlv(). */
  method EncodeTlv(text: array<Octet>, p: nat, e: nat, out: array<Octet>, o: nat, outlen: nat) returns (slen: int)
    requires CText(text, p, e) && text != out && o + outlen <= out.Length
    requires !PutTlv(text[p..e], outlen).Spills?
    modifies text, out
    ensures Written(PutTlv(old(text[p..e]), outlen), slen, out, o)
    ensures OnlyText(text, p, e) && OnlyOut(out, o, outlen)
    decreases e - p, 5
  {
    hide PutTlv, PutValue, AttrNum, Low;
    ghost var enc := PutTlv(text[p..e], outlen);
    PutTlvCases(text[p..e], outlen);
    var attr, q := DecodeAttr(text, p, e);
    if attr == 0 {
      return 0;
    }
    out[o] := Low(attr);
    out[o + 1] := 2;
    slen := EncodeValue(text, q, e, out, o + 2, outlen - 2);
    if slen <= 0 {
      return;
    }
    if slen > 253 {
      return 0;
    }
    ghost var b := out[o + 2..o + 2 + slen];
    assert enc == Done([Low(attr), 2 + slen] + b);
    PatchLength(out, o, slen);
    return slen + 2;
  }

  // ---- whole attributes ------------------------------------------------------------------------

  /** The four octets of a vendor: (v >> 16) & 0xff and so on. */
  method PutVendor(out: array<Octet>, o: nat, vendor: nat)
    requires o + 4 <= out.Length
    modifies out
    ensures out[o..o + 4] == VendorOctets(vendor)
    ensures OnlyOut(out, o, 4)
  {
    out[o] := 0;
    out[o + 1] := (vendor / 65536) % 256;
    out[o + 2] := (vendor / 256) % 256;
    out[o + 3] := vendor % 256;
  }

  /** encode_vsa(). */
  method EncodeVsa(text: array<Octet>, p: nat, e: nat, out: array<Octet>, o: nat, outlen: nat) returns (slen: int)
    requires CText(text, p, e) && text != out && o + outlen <= out.Length
    requires !PutVsa(text[p..e], outlen).Spills?
    modifies text, out
    ensures Written(PutVsa(old(text[p..e]), outlen), slen, out, o)
    ensures OnlyText(text, p, e) && OnlyOut(out, o, outlen)
  {
    hide PutTlv, VendorNum, VendorOctets;
    var vendor, q := DecodeVendorNum(text, p, e);
    if vendor == 0 {
      return 0;
    }
    PutVendor(out, o, vendor);
    slen := EncodeTlv(text, q, e, out, o + 4, outlen - 4);
    if slen <= 0 {
      return;
    }
    if slen > 249 {
      return 0;
    }
    assert out[o..o + 4] == VendorOctets(vendor);
    assert out[o..o + 4 + slen] == out[o..o + 4] + out[o + 4..o + 4 + slen];
    return slen + 4;
  }

  /** encode_evs(). */
  method EncodeEvs(text: array<Octet>, p: nat, e: nat, out: array<Octet>, o: nat, outlen: nat) returns (slen: int)
    requires CText(text, p, e) && text != out && o + outlen <= out.Length
    requires !PutEvs(text[p..e], outlen).Spills?
    modifies text, out
    ensures Written(PutEvs(old(text[p..e]), outlen), slen, out, o)
    ensures OnlyText(text, p, e) && OnlyOut(out, o, outlen)
  {
    hide PutData, VendorNum, AttrNum, VendorOctets;
    var vendor, q := DecodeVendorNum(text, p, e);
    if vendor == 0 {
      return 0;
    }
    var attr;
    attr, q := DecodeAttr(text, q, e);
    if attr == 0 {
      return 0;
    }
    PutVendor(out, o, vendor);
    out[o + 4] := Low(attr);
    slen := EncodeData(text, q, e, out, o + 5, outlen - 5);
    if slen <= 0 {
      return;
    }
    assert out[o..o + 4] == VendorOctets(vendor);
    assert out[o..o + 5 + slen] == out[o..o + 4] + [out[o + 4]] + out[o + 5..o + 5 + slen];
    return slen + 5;
  }

  /** The choice encode_extended() and encode_long_extended() share. */
  method EncodeBody(attr: nat, text: array<Octet>, p: nat, e: nat, out: array<Octet>, o: nat, outlen: nat)
    returns (slen: int)
    requires CText(text, p, e) && text != out && o + outlen <= out.Length
    requires !PutBody(attr, text[p..e], outlen).Spills?
    modifies text, out
    ensures Written(PutBody(attr, old(text[p..e]), outlen), slen, out, o)
    ensures OnlyText(text, p, e) && OnlyOut(out, o, outlen)
  {
    if attr == 26 {
      slen := EncodeEvs(text, p, e, out, o, outlen);
    } else {
      slen := EncodeData(text, p, e, out, o, outlen);
    }
  }

  /** encode_extended(). */
  method EncodeExtended(text: array<Octet>, p: nat, e: nat, out: array<Octet>, o: nat, outlen: nat) returns (slen: int)
    requires CText(text, p, e) && text != out && o + outlen <= out.Length
    requires !PutExt(text[p..e], outlen).Spills?
    modifies text, out
    ensures Written(PutExt(old(text[p..e]), outlen), slen, out, o)
    ensures OnlyText(text, p, e) && OnlyOut(out, o, outlen)
  {
    hide PutBody, AttrNum, Low;
    var attr, q := DecodeAttr(text, p, e);
    if attr == 0 {
      return 0;
    }
    out[o] := Low(attr);
    slen := EncodeBody(attr, text, q, e, out, o + 1, outlen - 1);
    if slen <= 0 {
      return;
    }
    if slen > 252 {
      return 0;
    }
    assert out[o..o + 1 + slen] == [out[o]] + out[o + 1..o + 1 + slen];
    return slen + 1;
  }

  /** encode_long_extended() up to its loop: a header for one fragment and the payload. */
  method EncodeLongPayload(attr: nat, text: array<Octet>, p: nat, e: nat, out: array<Octet>, o: nat, outlen: nat)
    returns (slen: int, data: nat)
    requires CText(text, p, e) && text != out && o + outlen <= out.Length
    requires outlen >= 4 && !PutBody(attr, text[p..e], outlen - 4).Spills?
    modifies text, out
    ensures var r := PutBody(attr, old(text[p..e]), outlen - 4);
      if r.Fails? then slen == r.code <= 0
      else
        && r.Done? && slen == |r.b| > 0 && Pending(out, o, old(out[o]), Low(attr), out[o + 1], r.b)
        && |r.b| + 4 == data + out[o + 1]
    ensures OnlyText(text, p, e) && OnlyOut(out, o, outlen)
  {
    hide PutBody, Low;
    out[o + 1] := 4;
    out[o + 2] := Low(attr);
    out[o + 3] := 0;
    slen := EncodeBody(attr, text, p, e, out, o + 4, outlen - 4);
    data := 0;
    if slen <= 0 {
      return;
    }
    data := slen;
    if attr == 26 {
      out[o + 1] := out[o + 1] + 5;
      data := data - 5;
    }
    assert out[o..o + 4] == [out[o], out[o + 1], out[o + 2], out[o + 3]];
  }

  /** encode_long_extended(): out[o] already holds the type. */
  method EncodeLongExtended(text: array<Octet>, p: nat, e: nat, out: array<Octet>, o: nat, outlen: nat)
    returns (slen: int)
    requires CText(text, p, e) && text != out && o + outlen <= out.Length && o < out.Length
    requires !PutLong(out[o], text[p..e], outlen).Spills?
    modifies text, out
    ensures Written(PutLong(old(out[o]), old(text[p..e]), outlen), slen, out, o)
    ensures OnlyText(text, p, e) && OnlyOut(out, o, outlen)
  {
    hide PutBody, AttrNum, Fragments, Low, Pending;
    ghost var typ := out[o];
    var attr, q := DecodeAttr(text, p, e);
    if attr == 0 {
      return 0;
    }
    ghost var body := PutBody(attr, text[q..e], outlen - 4);
    var data;
    slen, data := EncodeLongPayload(attr, text, q, e, out, o, outlen);
    if slen <= 0 {
      return;
    }
    FragmentsHead(typ, Low(attr), body.b);
    slen := FragmentInPlace(out, o, data, typ, Low(attr), body.b);
  }

  /** The choice made by encode_rfc() for all but the long extended types. */
  method EncodeRest(attr: nat, text: array<Octet>, p: nat, e: nat, out: array<Octet>, o: nat, outlen: nat)
    returns (slen: int)
    requires CText(text, p, e) && text != out && o + outlen <= out.Length
    requires !PutRest(attr, text[p..e], outlen).Spills?
    modifies text, out
    ensures Written(PutRest(attr, old(text[p..e]), outlen), slen, out, o)
    ensures OnlyText(text, p, e) && OnlyOut(out, o, outlen)
  {
    hide PutData, PutVsa, PutExt;
    if attr == 26 {
      slen := EncodeVsa(text, p, e, out, o, outlen);
    } else if attr < 241 || attr > 246 {
      slen := EncodeData(text, p, e, out, o, outlen);
    } else if text[p] != DOT {
      return 0;
    } else {
      assert text[p..e][1..] == text[p + 1..e];
      slen := EncodeExtended(text, p + 1, e, out, o, outlen);
    }
  }

  /** encode_rfc(), for every text and output but those where the layout of the text overruns the
      output. */
  method EncodeRfc(text: array<Octet>, p: nat, e: nat, out: array<Octet>, o: nat, outlen: nat) returns (slen: int)
    requires CText(text, p, e) && text != out && o + outlen <= out.Length
    requires !Overruns(LayAttr(text[p..e]), outlen)
    modifies text, out
    ensures Written(PutRfc(old(text[p..e]), outlen), slen, out, o)
    ensures OnlyText(text, p, e) && OnlyOut(out, o, outlen)
  {
    hide PutRest, PutLong, AttrNum, Low, LayAttr, Overruns, Completes;
    RoomVerdict(text[p..e], outlen);
    ghost var enc := PutRfc(text[p..e], outlen);
    var attr, q := DecodeAttr(text, p, e);
    if attr == 0 {
      return 0;
    }
    out[o] := Low(attr);
    out[o + 1] := 2;
    if 245 <= attr <= 246 && text[q] == DOT {
      assert text[q..e][1..] == text[q + 1..e];
      slen := EncodeLongExtended(text, q + 1, e, out, o, outlen);
      return;
    }
    slen := EncodeRest(attr, text, q, e, out, o + 2, outlen - 2);
    if slen <= 0 {
      return;
    }
    if slen > 253 {
      return 0;
    }
    ghost var b := out[o + 2..o + 2 + slen];
    assert enc == Done([Low(attr), 2 + slen] + b);
    PatchLength(out, o, slen);
    return slen + 2;
  }

  /** The call in command_encode_raw(), for every text and output but those where the layout of
      the text overruns the output.  It returns a length exactly if the text means an attribute and
      its layout completes; what is then in the output is the wire form of the attribute.  Every
      attribute shorter than the output is written. */
  method EncodeRaw(text: array<Octet>, e: nat, out: array<Octet>) returns (slen: int)
    requires CText(text, 0, e) && text != out
    requires !Overruns(LayAttr(text[..e]), out.Length)
    modifies text, out
    ensures slen > 0 <==> Completes(LayAttr(old(text[..e])), out.Length)
    ensures slen > 0 ==> slen <= out.Length && Encode(old(text[..e])) == Ok(out[..slen])
    ensures var enc := Encode(old(text[..e])); enc.Ok? && |enc.v| < out.Length ==> slen == |enc.v|
    ensures Plenty(e) <= out.Length && Encode(old(text[..e])).Err? ==> slen == Encode(old(text[..e])).code
  {
    hide Encode, PutRfc, Plenty, LayAttr, Overruns, Completes;
    RoomDecides(text[0..e], out.Length);
    RoomVerdict(text[0..e], out.Length);
    assert text[..e] == text[0..e];
    slen := EncodeRfc(text, 0, e, out, 0, out.Length);
    assert slen > 0 ==> out[..slen] == out[0..slen];
  }

  /** The same call for the text of an attribute with hex or string data, with what it demands of
      the output in numbers: room for the headers, and if there is room for the data as well, room
      for all fragments. */
  method EncodeSimple(ghost a: Attr, text: array<Octet>, e: nat, out: array<Octet>) returns (slen: int)
    requires CText(text, 0, e) && text != out && text[..e] == Print(a) && Printable(a) && Simple(a)
    requires HeadOctets(a) <= out.Length
    requires Fits(a) && HeadOctets(a) + LeafNeed(a) <= out.Length ==> |Wire(a)| <= out.Length
    modifies text, out
    ensures slen > 0 <==> Fits(a) && HeadOctets(a) + LeafNeed(a) <= out.Length
    ensures slen > 0 ==> slen <= out.Length && out[..slen] == Wire(a)
  {
    hide Encode, PutRfc, Plenty, LayAttr, Overruns, Completes, Fits, Wire, Printable, Print, HeadOctets, LeafNeed,
         Simple;
    SimpleVerdict(a, out.Length);
    RoomVerdict(Print(a), out.Length);
    EncodePrinted(a);
    slen := EncodeRaw(text, e, out);
  }
}
