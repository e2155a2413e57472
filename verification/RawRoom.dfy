/** The same functions for an output of limited size.  Data is checked against the room that
    is left; headers and the copies made by fragmentation are not, so a caller has to see to
    it that they do not spill over. */
module RawRoom {
  import opened Octets
  import Hex
  import opened RawText
  import opened RawWire
  import opened RawRoundTrip
  import opened RawParts

  /** The octets, the value <= 0 that is returned, or a header or fragment past the room. */
  datatype Outcome = Done(b: Str) | Fails(code: int) | Spills

  function After(b: Str, r: Outcome): Outcome {
    match r
    case Done(c) => Done(b + c)
    case Fails(_) => Fails(0)
    case Spills => Spills
  }

  /** encode_data_string(): the closing quote is only seen while there is room. */
  function PutString(s: Str, room: nat): Outcome {
    var q := QuotedBody(s);
    if q.Err? || q.v == [] || |q.v| >= room then Fails(0) else Done(q.v)
  }

  function PutHex(s: Str, room: nat): Outcome {
    match Hex.HexDecode(s, 0, room)
    case Bad(n) => Fails(0 - n)
    case Bytes(b) => if b == [] then Fails(0) else Done(b)
  }

  /** encode_data(). */
  function PutData(s: Str, room: nat): (r: Outcome)
    ensures r.Done? ==> 0 < |r.b| <= room
    ensures r.Fails? ==> r.code <= 0
    decreases |s|
  {
    if s == [] || !IsSpace(s[0]) then Fails(0)
    else
      var t := SkipWs(s[1..]);
      if t != [] && t[0] == LBRACE then PutGroup(t, room)
      else if t != [] && t[0] == QUOTE then PutString(t[1..], room)
      else Hex.HexFits(t, 0, room); PutHex(t, room)
  }

  /** The loop of encode_data() with encode_data_tlv(). */
  function PutGroup(s: Str, room: nat): (r: Outcome)
    ensures r.Done? ==> 0 < |r.b| <= room
    ensures r.Fails? ==> r.code == 0
    decreases |s|
  {
    var k := FindClose(s, 0);
    if k < 0 then Fails(0)
    else
      match PutTlv(SkipWs(s[1..k]), room)
      case Spills => Spills
      case Fails(_) => Fails(0)
      case Done(b) =>
        var rest := SkipWs(s[k + 1..]);
        if rest == [] then Done(b) else After(b, PutGroup(rest, room - |b|))
  }

  /** encode_tlv(). */
  function PutTlv(s: Str, room: nat): (r: Outcome)
    ensures r.Done? ==> 0 < |r.b| <= room
    ensures r.Fails? ==> r.code <= 0
    decreases |s|
  {
    match AttrNum(s)
    case Err(_) => Fails(0)
    case Ok((n, rest)) =>
      if room < 2 then Spills
      else
        var r := if rest[0] == DOT then PutTlv(rest[1..], room - 2) else PutData(rest, room - 2);
        if !r.Done? then r else if |r.b| > 253 then Fails(0) else Done([Low(n), 2 + |r.b|] + r.b)
  }

  /** encode_vsa(). */
  function PutVsa(s: Str, room: nat): (r: Outcome)
    ensures r.Done? ==> |r.b| <= 253 && 0 < |r.b| <= room
    ensures r.Fails? ==> r.code <= 0
  {
    match VendorNum(s)
    case Err(_) => Fails(0)
    case Ok((v, rest)) =>
      if room < 4 then Spills
      else
        var r := PutTlv(rest, room - 4);
        if !r.Done? then r else if |r.b| > 249 then Fails(0) else Done(VendorOctets(v) + r.b)
  }

  /** encode_evs(). */
  function PutEvs(s: Str, room: nat): (r: Outcome)
    ensures r.Done? ==> 5 < |r.b| <= room
    ensures r.Fails? ==> r.code <= 0
  {
    match VendorNum(s)
    case Err(_) => Fails(0)
    case Ok((v, rest)) =>
      match AttrNum(rest)
      case Err(_) => Fails(0)
      case Ok((m, rest')) =>
        if room < 5 then Spills
        else
          var r := PutData(rest', room - 5);
          if !r.Done? then r else Done(VendorOctets(v) + [Low(m)] + r.b)
  }

  function PutBody(m: nat, s: Str, room: nat): (r: Outcome)
    ensures r.Done? ==> 0 < |r.b| <= room && (m == 26 ==> 5 < |r.b|)
    ensures r.Fails? ==> r.code <= 0
  {
    if m == 26 then PutEvs(s, room) else PutData(s, room)
  }

  /** encode_extended(). */
  function PutExt(s: Str, room: nat): (r: Outcome)
    ensures r.Done? ==> |r.b| <= 253 && 0 < |r.b| <= room
    ensures r.Fails? ==> r.code <= 0
  {
    match AttrNum(s)
    case Err(_) => Fails(0)
    case Ok((m, rest)) =>
      if room < 1 then Spills
      else
        var r := PutBody(m, rest, room - 1);
        if !r.Done? then r else if |r.b| > 252 then Fails(0) else Done([Low(m)] + r.b)
  }

  /** encode_long_extended(): the fragments may take more room than the payload had. */
  function PutLong(n: Octet, s: Str, room: nat): (r: Outcome)
    ensures r.Done? ==> 0 < |r.b| <= room
    ensures r.Fails? ==> r.code <= 0
  {
    match AttrNum(s)
    case Err(_) => Fails(0)
    case Ok((m, rest)) =>
      if room < 4 then Spills
      else
        var r := PutBody(m, rest, room - 4);
        if !r.Done? then r
        else
          FragmentsHead(n, Low(m), r.b);
          var b := Fragments(n, Low(m), r.b);
          if |b| > room then Spills else Done(b)
  }

  function PutRest(n: nat, rest: Str, room: nat): (r: Outcome)
    ensures r.Done? ==> 0 < |r.b| <= room
    ensures r.Fails? ==> r.code <= 0
  {
    if n == 26 then PutVsa(rest, room)
    else if !IsExtended(n) then PutData(rest, room)
    else if rest == [] || rest[0] != DOT then Fails(0)
    else PutExt(rest[1..], room)
  }

  /** encode_rfc(). */
  function PutRfc(s: Str, room: nat): (r: Outcome)
    ensures r.Done? ==> 0 < |r.b| <= room
    ensures r.Fails? ==> r.code <= 0
  {
    match AttrNum(s)
    case Err(_) => Fails(0)
    case Ok((n, rest)) =>
      if room < 2 then Spills
      else if n in {245, 246} && rest[0] == DOT then PutLong(Low(n), rest[1..], room)
      else
        var r := PutRest(n, rest, room - 2);
        if !r.Done? then r else if |r.b| > 253 then Fails(0) else Done([Low(n), 2 + |r.b|] + r.b)
  }

  lemma {:induction false} PutGroupCases(s: Str, room: nat)
    ensures var k := FindClose(s, 0);
      if k < 0 then PutGroup(s, room) == Fails(0)
      else
        var r, rest := PutTlv(SkipWs(s[1..k]), room), SkipWs(s[k + 1..]);
        PutGroup(s, room) ==
        if r.Spills? then Spills
        else if r.Fails? then Fails(0)
        else if rest == [] then r
        else After(r.b, PutGroup(rest, room - |r.b|))
  {
  }

  // ---- what room does to the result ------------------------------------------------------

  function Whole(e: Parse<Str>): Outcome {
    match e
    case Ok(b) => Done(b)
    case Err(c) => Fails(c)
  }

  /** What is written is right, whatever the room; what takes less than the room is written;
      and with plenty of room the results are the same. */
  ghost predicate Agrees(e: Parse<Str>, r: Outcome, room: nat, plenty: bool) {
    && (r.Done? ==> e == Ok(r.b))
    && (e.Ok? && |e.v| < room ==> r == Done(e.v))
    && (plenty ==> r == Whole(e))
  }

  ghost predicate Shorter(e: Parse<Str>, n: int) { e.Ok? ==> |e.v| <= n }

  lemma {:induction false} QuotedShorter(s: Str)
    ensures Shorter(QuotedBody(s), |s| - 1)
  {
    if s != [] {
      QuotedShorter(s[1..]);
    }
  }

  lemma {:induction false} HexAgrees(s: Str, room: nat)
    ensures var h := Hex.HexDecode(s, 0, |s|);
      var e: Parse<Str> := if h.Bad? then Err(0 - h.at) else if h.b == [] then Err(0) else Ok(h.b);
      Agrees(e, PutHex(s, room), room, room >= |s|) && Shorter(e, |s|)
  {
    hide Hex.HexDecode;
    Hex.HexRoom(s, 0, |s|);
    if room >= |s| {
      Hex.HexRoom(s, 0, room);
    } else {
      Hex.HexLess(s, 0, room, |s|);
    }
  }

  lemma {:induction false} DataAgrees(s: Str, room: nat)
    ensures Agrees(EncData(s), PutData(s, room), room, room + 1 >= |s|)
    ensures Shorter(EncData(s), |s| - 1)
    decreases |s|
  {
    hide EncData, EncGroup, PutGroup, PutHex;
    if s == [] || !IsSpace(s[0]) {
      EncDataNone(s);
    } else {
      EncDataCases(s);
      var t := SkipWs(s[1..]);
      if t != [] && t[0] == LBRACE {
        GroupAgrees(t, room);
      } else if t != [] && t[0] == QUOTE {
        QuotedShorter(t[1..]);
      } else {
        HexAgrees(t, room);
      }
    }
  }

  lemma EncDataNone(s: Str)
    requires s == [] || !IsSpace(s[0])
    ensures EncData(s) == Err(0)
  {
  }

  /** A TLV of a group, and the rest of the group behind it. */
  lemma {:induction false} MoreAgrees(e: Parse<Str>, r: Outcome, e': Parse<Str>, r': Outcome, room: nat,
                                      plenty: bool, more: bool)
    requires Agrees(e, r, room, plenty) && e.Ok? && (r.Done? ==> |r.b| <= room)
    requires |e.v| <= room ==> Agrees(e', r', room - |e.v|, more)
    requires plenty ==> |e.v| <= room && more
    ensures Agrees(Prepend(e.v, e'),
                   if r.Spills? then Spills else if r.Fails? then Fails(0) else After(r.b, r'), room, plenty)
  {
  }

  /** The last TLV of a group, or one that stops it. */
  lemma {:induction false} LastAgrees(e: Parse<Str>, r: Outcome, room: nat, plenty: bool)
    requires Agrees(e, r, room, plenty)
    ensures Agrees(if e.Err? then Err(0) else e, if r.Fails? then Fails(0) else r, room, plenty)
  {
  }

  lemma {:induction false} GroupAgrees(s: Str, room: nat)
    ensures Agrees(EncGroup(s), PutGroup(s, room), room, room >= |s|)
    ensures Shorter(EncGroup(s), |s|)
    decreases |s|
  {
    hide EncGroup, EncTlv, PutGroup, PutTlv, FindClose, SkipWs, Agrees, After;
    EncGroupCases(s);
    PutGroupCases(s, room);
    var k := FindClose(s, 0);
    if k < 0 {
      NoneAgrees(room, room >= |s|);
    } else {
      var t, rest := SkipWs(s[1..k]), SkipWs(s[k + 1..]);
      var e, r := EncTlv(t), PutTlv(t, room);
      TlvAgrees(t, room);
      AgreesLaws(e, r, room, room >= |t|, room >= |s|);
      LastAgrees(e, r, room, room >= |s|);
      if e.Ok? && rest != [] {
        var left := if |e.v| <= room then room - |e.v| else 0;
        GroupAgrees(rest, left);
        MoreAgrees(e, r, EncGroup(rest), PutGroup(rest, left), room, room >= |s|, left >= |rest|);
      }
    }
  }

  lemma NoneAgrees(room: nat, plenty: bool)
    ensures Agrees(Err(0), Fails(0), room, plenty)
  {
  }

  lemma AgreesLaws(e: Parse<Str>, r: Outcome, room: nat, plenty: bool, less: bool)
    requires Agrees(e, r, room, plenty) && (less ==> plenty)
    ensures Agrees(e, r, room, less)
    ensures r.Done? ==> e == Ok(r.b)
  {
  }

  lemma {:induction false} TlvAgrees(s: Str, room: nat)
    ensures Agrees(EncTlv(s), PutTlv(s, room), room, room >= |s|)
    ensures Shorter(EncTlv(s), |s|)
    decreases |s|
  {
    hide EncTlv, EncData, PutData, AttrNum, Low;
    EncTlvCases(s);
    var n := AttrNum(s);
    if n.Ok? {
      var rest := n.v.1;
      var left := if room < 2 then 0 else room - 2;
      TlvAgrees(rest[1..], left);
      DataAgrees(rest, left);
    }
  }

  lemma {:induction false} VsaAgrees(s: Str, room: nat)
    ensures Agrees(EncVsa(s), PutVsa(s, room), room, room > |s|)
  {
    hide EncTlv, PutTlv, VendorNum, VendorOctets;
    var v := VendorNum(s);
    if v.Ok? {
      TlvAgrees(v.v.1, if room < 4 then 0 else room - 4);
    }
  }

  lemma {:induction false} EvsAgrees(s: Str, room: nat)
    ensures Agrees(EncEvs(s), PutEvs(s, room), room, room >= |s|)
    ensures Shorter(EncEvs(s), |s|)
  {
    hide EncData, PutData, VendorNum, AttrNum, VendorOctets, Low;
    var v := VendorNum(s);
    if v.Ok? {
      var m := AttrNum(v.v.1);
      if m.Ok? {
        DataAgrees(m.v.1, if room < 5 then 0 else room - 5);
      }
    }
  }

  lemma {:induction false} BodyAgrees(m: nat, s: Str, room: nat)
    ensures Agrees(EncBody(m, s), PutBody(m, s, room), room, room >= |s|)
    ensures Shorter(EncBody(m, s), |s|)
  {
    hide EncData, PutData, EncEvs, PutEvs;
    EvsAgrees(s, room);
    DataAgrees(s, room);
  }

  lemma {:induction false} ExtAgrees(s: Str, room: nat)
    ensures Agrees(EncExt(s), PutExt(s, room), room, room >= |s|)
  {
    hide EncBody, PutBody, AttrNum, Low;
    var m := AttrNum(s);
    if m.Ok? {
      BodyAgrees(m.v.0, m.v.1, if room < 1 then 0 else room - 1);
    }
  }

  /** Room for a text of n characters as payload, cut into fragments. */
  function Plenty(n: nat): nat { n + 4 * FragmentCount(n) }

  lemma PlentyGrows(m: nat, n: nat)
    requires m <= n
    ensures m + 4 <= Plenty(m) <= Plenty(n)
  {
    if m > 0 {
      assert (m + PAYLOAD - 1) / PAYLOAD <= (n + PAYLOAD - 1) / PAYLOAD;
    }
  }

  lemma {:induction false} LongAgrees(n: Octet, s: Str, room: nat)
    ensures Agrees(EncLong(n, s), PutLong(n, s, room), room, room >= Plenty(|s|))
  {
    hide EncBody, PutBody, AttrNum, Low, Fragments, Plenty;
    PlentyGrows(|s|, |s|);
    var m := AttrNum(s);
    if m.Ok? {
      var body := EncBody(m.v.0, m.v.1);
      BodyAgrees(m.v.0, m.v.1, if room < 4 then 0 else room - 4);
      if body.Ok? {
        LongSize(n, Low(m.v.0), body.v, |s|);
      }
    }
  }

  lemma {:induction false} LongSize(typ: Octet, ext: Octet, p: Str, n: nat)
    requires |p| <= n
    ensures |p| + 4 <= |Fragments(typ, ext, p)| <= Plenty(n)
  {
    hide Fragments, FragmentCount;
    FragmentsSize(typ, ext, p);
    PlentyGrows(|p|, n);
  }

  lemma {:induction false} RestAgrees(n: nat, s: Str, room: nat)
    ensures Agrees(EncRest(n, s), PutRest(n, s, room), room, room > |s|)
  {
    hide EncVsa, PutVsa, EncData, PutData, EncExt, PutExt;
    VsaAgrees(s, room);
    DataAgrees(s, room);
    if s != [] {
      ExtAgrees(s[1..], room);
    }
  }

  /** Whatever the room, what is written is the wire form of the attribute; an attribute that
      takes less than the room is written; and from Plenty() on room makes no difference to
      the result, error values included. */
  lemma {:induction false} RoomDecides(s: Str, room: nat)
    ensures PutRfc(s, room).Done? ==> Encode(s) == Ok(PutRfc(s, room).b)
    ensures Encode(s).Ok? && |Encode(s).v| < room ==> PutRfc(s, room) == Done(Encode(s).v)
    ensures room >= Plenty(|s|) ==> PutRfc(s, room) == Whole(Encode(s))
  {
    hide Encode, EncLong, PutLong, EncRest, PutRest, AttrNum, Plenty;
    EncodeCases(s);
    PlentyGrows(|s|, |s|);
    var num := AttrNum(s);
    if num.Ok? {
      var (n, rest) := num.v;
      PlentyGrows(|rest[1..]|, |s|);
      LongAgrees(Low(n), rest[1..], room);
      RestAgrees(n, rest, if room < 2 then 0 else room - 2);
    }
  }
}
