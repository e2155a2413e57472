/** hex_print() and hex_to_bin(): the hexadecimal text form of octet strings. */
module Hex {
  import opened Octets

  datatype HexResult = Bytes(b: Str) | Bad(at: nat)

  function HexDigit(v: nat): Octet
    requires v < 16
  {
    if v < 10 then 48 + v else 87 + v
  }

  /** Index of tolower(c) in "0123456789abcdef", or -1.  The table is searched together with
      its NUL, whose index is 16. */
  function HexVal(c: Octet): (v: int)
    ensures -1 <= v <= 16 && (v == 16 <==> c == 0)
  {
    if c == 0 then 16
    else if 48 <= c <= 57 then c - 48
    else if 97 <= c <= 102 then c - 87
    else if 65 <= c <= 70 then c - 55
    else -1
  }

  /** Two lower-case digits per octet, single spaces between octets. */
  function HexText(b: Str): Str {
    if b == [] then []
    else if |b| == 1 then [HexDigit(b[0] / 16), HexDigit(b[0] % 16)]
    else [HexDigit(b[0] / 16), HexDigit(b[0] % 16), SPACE] + HexText(b[1..])
  }

  /** What hex_to_bin() makes of the text `s`, `at` characters into its input and with
      `room` octets of output left.  The room test comes before white space is skipped.  A
      NUL ends the text where a first digit is expected; as a second digit it is worth 16, and
      so is the terminator behind the text. */
  function HexDecode(s: Str, at: nat, room: nat): HexResult
    decreases |s|
  {
    if s == [] then Bytes([])
    else if room == 0 then Bad(at)
    else
      var t := SkipWs(s);
      var a := at + |s| - |t|;
      if t == [] || t[0] == 0 then Bytes([])
      else if HexVal(t[0]) < 0 then Bad(a + 1)
      else if |t| == 1 then Bytes([(HexVal(t[0]) * 16 + 16) % 256])
      else if HexVal(t[1]) < 0 then Bad(a + 2)
      else
        match HexDecode(t[2..], a + 2, room - 1)
        case Bad(n) => Bad(n)
        case Bytes(b) => Bytes([(HexVal(t[0]) * 16 + HexVal(t[1])) % 256] + b)
  }

  lemma {:induction false} HexTextShape(b: Str)
    ensures |HexText(b)| == if b == [] then 0 else 3 * |b| - 1
    ensures forall i :: 0 <= i < |HexText(b)| ==>
      HexText(b)[i] == SPACE || IsDigit(HexText(b)[i]) || 97 <= HexText(b)[i] <= 102
    ensures b != [] ==> !IsSpace(HexText(b)[0])
  {
    if |b| > 1 {
      HexTextShape(b[1..]);
    }
  }

  function Cons(v: Octet, r: HexResult): HexResult {
    if r.Bytes? then Bytes([v] + r.b) else r
  }

  lemma {:induction false} HexStep(hi: nat, lo: nat, rest: Str, at: nat, room: nat)
    requires hi < 16 && lo < 16 && room > 0
    ensures HexDecode([HexDigit(hi), HexDigit(lo)] + rest, at, room) ==
            Cons(hi * 16 + lo, HexDecode(rest, at + 2, room - 1))
  {
    var s := [HexDigit(hi), HexDigit(lo)] + rest;
    assert HexVal(s[0]) == hi && HexVal(s[1]) == lo;
    assert !IsSpace(s[0]);
    assert SkipWs(s) == s;
    assert s[2..] == rest;
  }

  /** hex_to_bin() undoes hex_print(), whatever white space follows, exactly when the
      octets fit: one octet more is needed only if white space trails. */
  lemma {:induction false} HexRoundTrip(b: Str, w: Str, at: nat, room: nat)
    requires AllSpace(w)
    ensures HexDecode(HexText(b) + w, at, room) == Bytes(b) <==>
            room >= |b| + (if w == [] then 0 else 1)
    decreases |b|
  {
    hide HexDecode, HexDigit, IsSpace;
    if b == [] {
      assert HexText(b) + w == w;
      HexDecodeSpace(w, at, room);
    } else {
      var v := b[0];
      var rest := if |b| == 1 then w else [SPACE] + (HexText(b[1..]) + w);
      assert HexText(b) + w == [HexDigit(v / 16), HexDigit(v % 16)] + rest;
      if room == 0 {
        HexNoRoom(HexText(b) + w, at);
      } else {
        HexStep(v / 16, v % 16, rest, at, room);
        if |b| == 1 {
          HexDecodeSpace(w, at + 2, room - 1);
          assert b == [v] + [];
        } else {
          HexTextShape(b[1..]);
          HexDecodeLead(HexText(b[1..]) + w, at + 2, room - 1);
          HexRoundTrip(b[1..], w, at + 3, room - 1);
          assert b == [v] + b[1..];
          ConsInjective(v, HexDecode(rest, at + 2, room - 1), b[1..]);
        }
      }
    }
  }

  lemma ConsInjective(v: Octet, r: HexResult, b: Str)
    ensures Cons(v, r) == Bytes([v] + b) <==> r == Bytes(b)
  {
    if r.Bytes? && [v] + r.b == [v] + b {
      assert r.b == ([v] + r.b)[1..] == b;
    }
  }

  lemma {:induction false} HexDecodeSpace(w: Str, at: nat, room: nat)
    requires AllSpace(w)
    ensures HexDecode(w, at, room) == if w != [] && room == 0 then Bad(at) else Bytes([])
  {
    SkipWsAll(w, []);
    assert w + [] == w;
  }

  lemma {:induction false} HexDecodeLead(s: Str, at: nat, room: nat)
    requires s != [] && !IsSpace(s[0])
    ensures room > 0 ==> HexDecode([SPACE] + s, at, room) == HexDecode(s, at + 1, room)
    ensures room == 0 ==> HexDecode([SPACE] + s, at, room).Bad? && HexDecode(s, at + 1, room).Bad?
  {
    SkipWsAll([SPACE], s);
    SkipWsAll([], s);
    assert [] + s == s;
  }

  lemma {:induction false} HexTextAt(b: Str, j: nat)
    requires j < |b|
    ensures |HexText(b)| == 3 * |b| - 1
    ensures HexText(b)[3 * j] == HexDigit(b[j] / 16)
    ensures HexText(b)[3 * j + 1] == HexDigit(b[j] % 16)
    ensures j + 1 < |b| ==> HexText(b)[3 * j + 2] == SPACE
  {
    HexTextShape(b);
    if j > 0 {
      HexTextAt(b[1..], j - 1);
    }
  }

  /** hex_print(): "%02x " per octet, the last space overwritten by the terminator; 0 when
      an snprintf() is cut short, which happens exactly when 3 * |b| + 1 octets do not fit. */
  method HexPrint(out: array<Octet>, b: Str) returns (n: nat)
    requires out.Length > 0
    modifies out
    ensures b == [] ==> n == 0 && out[0] == 0
    ensures b != [] && 3 * |b| < out.Length ==>
      n == |HexText(b)| < out.Length && out[..n] == HexText(b) && out[n] == 0
    ensures 3 * |b| >= out.Length ==> n == 0
  {
    if b == [] {
      out[0] := 0;
      return 0;
    }
    var p := 0;
    for i := 0 to |b|
      invariant p == 3 * i < out.Length
      invariant forall j :: 0 <= j < i ==>
        && out[3 * j] == HexDigit(b[j] / 16)
        && out[3 * j + 1] == HexDigit(b[j] % 16)
        && out[3 * j + 2] == SPACE
    {
      var room := out.Length - p;
      if room > 1 { out[p] := HexDigit(b[i] / 16); }
      if room > 2 { out[p + 1] := HexDigit(b[i] % 16); }
      if room > 3 { out[p + 2] := SPACE; }
      if room <= 3 {
        out[p + room - 1] := 0;
        return 0;
      }
      out[p + 3] := 0;
      p := p + 3;
    }
    p := p - 1;
    out[p] := 0;
    HexTextAt(b, 0);
    forall k | 0 <= k < p
      ensures out[..p][k] == HexText(b)[k]
    {
      var j := k / 3;
      assert k == 3 * j || k == 3 * j + 1 || k == 3 * j + 2;
      HexTextAt(b, j);
    }
    assert out[..p] == HexText(b);
    return p;
  }

  ghost predicate Decoded(r: HexResult, n: int, out: array<Octet>, o: nat)
    reads out
  {
    match r
    case Bad(at) => n + at == 0
    case Bytes(b) => n == |b| && o + n <= out.Length && out[o..o + n] == b
  }

  ghost function Drop(s: Str, n: nat): Str { if n <= |s| then s[n..] else [] }

  lemma DropDrop(s: Str, m: nat, n: nat)
    ensures Drop(Drop(s, m), n) == Drop(s, m + n)
  {
  }

  /** One round of the hex_to_bin() loop, with the terminator read as the digit 16. */
  lemma {:induction false} HexUnfold(s: Str, at: nat, room: nat)
    requires s != [] && room > 0
    ensures var t := SkipWs(s); var a := at + |s| - |t|;
      HexDecode(s, at, room) ==
      if t == [] || t[0] == 0 then Bytes([])
      else if HexVal(t[0]) < 0 then Bad(a + 1)
      else
        var low := if |t| == 1 then 16 else HexVal(t[1]);
        if low < 0 then Bad(a + 2)
        else Cons((HexVal(t[0]) * 16 + low) % 256, HexDecode(Drop(t, 2), a + 2, room - 1))
  {
  }

  datatype Read = Octet(v: Octet) | End | Fail

  /** The reading half of one round of hex_to_bin(): skip white space, take two digits. */
  method ReadOctet(inp: array<Octet>, p: nat, e: nat, ghost at: nat, ghost room: nat) returns (r: Read, q: nat)
    requires Terminated(inp, p, e) && p < e && room > 0
    ensures p <= q <= e + 1
    ensures r.End? ==> HexDecode(inp[p..e], at, room) == Bytes([])
    ensures r.Fail? ==> HexDecode(inp[p..e], at, room) == Bad(at + q - p)
    ensures r.Octet? ==> p + 2 <= q
    ensures r.Octet? ==>
      HexDecode(inp[p..e], at, room) == Cons(r.v, HexDecode(Drop(inp[p..e], q - p), at + q - p, room - 1))
  {
    HexUnfold(inp[p..e], at, room);
    q := SkipSpaces(inp, p, e);
    ghost var t := SkipWs(inp[p..e]);
    assert t == inp[q..e];
    if inp[q] == 0 {
      return End, q;
    }
    var v1 := HexVal(inp[q]);
    q := q + 1;
    if v1 < 0 {
      return Fail, q;
    }
    var v2 := HexVal(inp[q]);
    q := q + 1;
    if v2 < 0 {
      return Fail, q;
    }
    assert Drop(t, 2) == Drop(inp[p..e], q - p);
    return Octet((v1 * 16 + v2) % 256), q;
  }

  /** The text from q on is still what it was. */
  lemma KeptText(inp: array<Octet>, text: Str, p: nat, q: nat, e: nat)
    requires p <= q && p <= e < inp.Length && |text| == e - p
    requires forall i :: q <= i < e ==> inp[i] == text[i - p]
    ensures Drop(text, q - p) == if q <= e then inp[q..e] else []
  {
  }

  /** The loop of hex_to_bin() at read position q and write position k: what is still to be read is
      as it was, and what is written and what the rest decodes to make up the whole. */
  ghost predicate Going(out: array<Octet>, o: nat, k: nat, end: nat, inp: array<Octet>, p: nat, q: nat, e: nat,
                        text: Str, whole: HexResult)
    reads out, inp
  {
    && p <= q <= e + 1 && p <= e < inp.Length && inp[e] == 0 && |text| == e - p
    && (forall i :: q <= i < e ==> inp[i] == text[i - p])
    && o <= k <= end <= out.Length && 2 * (k - o) <= q - p
    && whole == Append(out[o..k], HexDecode(Drop(text, q - p), q - p, end - k))
  }

  /** The writing half of one round of hex_to_bin(). */
  method Store(out: array<Octet>, o: nat, k: nat, v: Octet, ghost inp: array<Octet>, ghost p: nat, ghost q: nat,
               ghost q': nat, ghost e: nat, ghost end: nat, ghost text: Str, ghost whole: HexResult)
    requires Going(out, o, k, end, inp, p, q, e, text, whole) && k < end && q + 2 <= q' <= e + 1
    requires inp == out ==> o <= p
    requires HexDecode(Drop(text, q - p), q - p, end - k) ==
             Cons(v, HexDecode(Drop(text, q' - p), q' - p, end - k - 1))
    modifies out
    ensures Going(out, o, k + 1, end, inp, p, q', e, text, whole)
    ensures forall i :: 0 <= i < out.Length && i != k ==> out[i] == old(out[i])
  {
    hide HexDecode, Append, Cons, Drop;
    ghost var done := out[o..k];
    AppendCons(done, v, HexDecode(Drop(text, q' - p), q' - p, end - k - 1));
    out[k] := v;
    assert out[o..k] == done;
    assert out[o..k + 1] == done + [v];
  }

  /** One round of it. */
  method Round(out: array<Octet>, o: nat, k: nat, end: nat, inp: array<Octet>, p: nat, q: nat, e: nat,
               ghost text: Str, ghost whole: HexResult) returns (stop: bool, n: int, q': nat)
    requires Going(out, o, k, end, inp, p, q, e, text, whole) && q < e
    requires inp == out ==> o <= p
    modifies out
    ensures stop ==> Decoded(whole, n, out, o)
    ensures !stop ==> q < q' && k < end && Going(out, o, k + 1, end, inp, p, q', e, text, whole)
    ensures forall i :: 0 <= i < out.Length && (stop || i != k) ==> out[i] == old(out[i])
  {
    hide HexDecode, Append, Cons, HexVal, IsSpace, SkipWs;
    KeptText(inp, text, p, q, e);
    ghost var done, rest := out[o..k], HexDecode(inp[q..e], q - p, end - k);
    if k >= end {
      HexNoRoom(inp[q..e], q - p);
      AppendNone(done, rest);
      return true, -(q - p), q;
    }
    var r;
    r, q' := ReadOctet(inp, q, e, q - p, end - k);
    AppendNone(done, rest);
    if r.End? {
      return true, k - o, q';
    }
    if r.Fail? {
      return true, -(q' - p), q';
    }
    DropDrop(text, q - p, q' - q);
    Store(out, o, k, r.v, inp, p, q, q', e, end, text, whole);
    return false, 0, q';
  }

  /** hex_to_bin(), also for inputs with a NUL before their end.  The output may lie on top of the
      input as long as it does not start after it: the write position never overtakes the read
      position, so the result is what decoding the original text into a separate buffer gives. */
  method HexToBin(out: array<Octet>, o: nat, outlen: nat, inp: array<Octet>, p: nat, e: nat) returns (n: int)
    requires Terminated(inp, p, e)
    requires o + outlen <= out.Length
    requires inp == out ==> o <= p
    modifies out
    ensures Decoded(HexDecode(old(inp[p..e]), 0, outlen), n, out, o)
    ensures forall i :: 0 <= i < out.Length && !(o <= i < o + outlen) ==> out[i] == old(out[i])
  {
    hide HexDecode, Append;
    var q: nat, k: nat := p, o;
    ghost var text := inp[p..e];
    ghost var whole := HexDecode(text, 0, outlen);
    AppendNone([], whole);
    assert Drop(text, 0) == text && out[o..o] == [];
    while q < e
      invariant Going(out, o, k, o + outlen, inp, p, q, e, text, whole)
      invariant forall i :: 0 <= i < out.Length && !(o <= i < o + outlen) ==> out[i] == old(out[i])
      decreases e + 1 - q
    {
      var stop, q';
      stop, n, q' := Round(out, o, k, o + outlen, inp, p, q, e, text, whole);
      if stop {
        return;
      }
      k, q := k + 1, q';
    }
    KeptText(inp, text, p, q, e);
    HexDecodeNone(q - p, o + outlen - k);
    AppendNone(out[o..k], whole);
    return k - o;
  }

  ghost function Append(done: Str, r: HexResult): HexResult {
    if r.Bytes? then Bytes(done + r.b) else r
  }

  lemma AppendNone(done: Str, r: HexResult)
    ensures Append([], r) == r
    ensures Append(done, Bytes([])) == Bytes(done)
    ensures r.Bad? ==> Append(done, r) == r
  {
    assert done + [] == done;
    if r.Bytes? {
      assert [] + r.b == r.b;
    }
  }

  lemma HexDecodeNone(at: nat, room: nat)
    ensures HexDecode([], at, room) == Bytes([])
  {
  }

  lemma HexNoRoom(s: Str, at: nat)
    requires s != []
    ensures HexDecode(s, at, 0) == Bad(at)
  {
  }

  lemma AppendCons(done: Str, v: Octet, r: HexResult)
    ensures Append(done, Cons(v, r)) == Append(done + [v], r)
  {
    if r.Bytes? {
      assert done + ([v] + r.b) == done + [v] + r.b;
    }
  }

  /** Enough room is enough: past the length of the text, room changes nothing. */
  lemma {:induction false} HexRoom(s: Str, at: nat, room: nat)
    requires room >= |s|
    ensures HexDecode(s, at, room) == HexDecode(s, at, |s|)
    ensures HexDecode(s, at, room).Bytes? ==> 2 * |HexDecode(s, at, room).b| <= |s| + 1
    decreases |s|
  {
    if s != [] {
      var t := SkipWs(s);
      if |t| > 1 && HexVal(t[0]) >= 0 && HexVal(t[1]) >= 0 {
        HexRoom(t[2..], at + |s| - |t| + 2, room - 1);
        HexRoom(t[2..], at + |s| - |t| + 2, |s| - 1);
      }
    }
  }

  lemma {:induction false} HexFits(s: Str, at: nat, room: nat)
    ensures HexDecode(s, at, room).Bytes? ==> |HexDecode(s, at, room).b| <= room
    ensures HexDecode(s, at, room).Bad? ==> HexDecode(s, at, room).at >= at
    decreases |s|
  {
    if s != [] && room > 0 {
      var t := SkipWs(s);
      if |t| > 1 {
        HexFits(t[2..], at + |s| - |t| + 2, room - 1);
      }
    }
  }

  /** With less room the octets are the same or there is an error, and no error comes of the
      room as long as it is not used up. */
  lemma {:induction false} HexLess(s: Str, at: nat, room: nat, more: nat)
    requires room <= more
    ensures var r, m := HexDecode(s, at, room), HexDecode(s, at, more);
      && (r.Bytes? ==> r == m)
      && (m.Bytes? && |m.b| < room ==> r == m)
    decreases |s|
  {
    if s != [] && room > 0 {
      var t := SkipWs(s);
      if |t| > 1 {
        HexLess(t[2..], at + |s| - |t| + 2, room - 1, more - 1);
      }
    }
  }

  /** What is left of a text after the last octet that is read from it. */
  function HexLeft(s: Str): Str
    decreases |s|
  {
    var t := SkipWs(s);
    if t == [] || t[0] == 0 then s
    else if |t| == 1 then []
    else HexLeft(t[2..])
  }

  /** The least room at which a text that can be decoded is decoded: its octets, and one more if
      anything is left after them, because the room is tested before that is looked at. */
  lemma {:induction false} HexNeedExact(s: Str, at: nat, room: nat, more: nat)
    requires HexDecode(s, at, more).Bytes?
    ensures var b := HexDecode(s, at, more).b;
      HexDecode(s, at, room) == Bytes(b) <==> room >= |b| + (if HexLeft(s) == [] then 0 else 1)
    ensures HexDecode(s, at, room).Bytes? ==> HexDecode(s, at, room) == HexDecode(s, at, more)
    decreases |s|
  {
    if s != [] && room > 0 {
      var t := SkipWs(s);
      if |t| > 1 && t[0] != 0 && HexVal(t[0]) >= 0 {
        HexNeedExact(t[2..], at + |s| - |t| + 2, room - 1, more - 1);
      }
    }
  }

  function OddText(b: Str, d: nat): Str
    requires d < 16
  {
    if b == [] then [HexDigit(d)] else HexText(b) + [SPACE, HexDigit(d)]
  }

  lemma {:induction false} OddTextCons(b: Str, d: nat)
    requires d < 16
    ensures OddText(b, d) != [] && !IsSpace(OddText(b, d)[0])
    ensures b != [] ==>
      OddText(b, d) == [HexDigit(b[0] / 16), HexDigit(b[0] % 16)] + ([SPACE] + OddText(b[1..], d))
  {
    HexTextShape(b);
  }

  /** A dangling last digit is not refused: it is read as if the terminator were a digit
      worth 16, so d stands for the octet (16 * d + 16) mod 256. */
  lemma {:induction false} OddDigit(b: Str, d: nat, at: nat, room: nat)
    requires d < 16 && room > |b|
    ensures HexDecode(OddText(b, d), at, room) == Bytes(b + [(16 * d + 16) % 256])
    decreases |b|
  {
    hide HexDecode, HexDigit, IsSpace;
    var x := (16 * d + 16) % 256;
    if b == [] {
      HexLast(d, at, room);
      assert [] + [x] == [x];
    } else {
      OddStep(b, d, at, room);
      OddDigit(b[1..], d, at + 3, room - 1);
      assert [b[0]] + (b[1..] + [x]) == b + [x];
    }
  }

  lemma {:induction false} OddStep(b: Str, d: nat, at: nat, room: nat)
    requires d < 16 && room > |b| > 0
    ensures HexDecode(OddText(b, d), at, room) == Cons(b[0], HexDecode(OddText(b[1..], d), at + 3, room - 1))
  {
    hide HexDecode, OddText, HexDigit, IsSpace;
    var v, rest := b[0], OddText(b[1..], d);
    OddTextCons(b, d);
    OddTextCons(b[1..], d);
    HexStep(v / 16, v % 16, [SPACE] + rest, at, room);
    HexDecodeLead(rest, at + 2, room - 1);
  }

  lemma HexLast(d: nat, at: nat, room: nat)
    requires d < 16 && room > 0
    ensures HexDecode([HexDigit(d)], at, room) == Bytes([(16 * d + 16) % 256])
  {
    var s := [HexDigit(d)];
    assert SkipWs(s) == s;
  }
}
