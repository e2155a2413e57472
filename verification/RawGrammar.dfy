/** The raw attribute syntax as a grammar: which texts spell which attributes, with any white space
    and any case of the digits.  The encoder reads exactly these texts, as what they spell. */
module RawGrammar {
  import opened Octets
  import Hex
  import HexMeaning
  import opened RawText
  import opened RawPrinting
  import opened RawWire

  // ---- numbers -------------------------------------------------------------------------------

  predicate AllDigits(ds: Str) { forall i :: 0 <= i < |ds| ==> IsDigit(ds[i]) }

  /** The number a row of decimal digits stands for. */
  function Value(ds: Str): nat
    requires AllDigits(ds)
  {
    if ds == [] then 0 else 10 * Value(ds[..|ds| - 1]) + (ds[|ds| - 1] - ZERO)
  }

  predicate Numeral(ds: Str, n: int) { ds != [] && AllDigits(ds) && n == Value(ds) }

  /** White space, a sign or none, and digits. */
  predicate Spelling(u: Str, n: int) {
    var t := SkipWs(u);
    t != [] &&
    if t[0] == PLUS then Numeral(t[1..], n) else if t[0] == MINUS then Numeral(t[1..], 0 - n) else Numeral(t, n)
  }

  /** The first k characters spell n, and no digit follows. */
  predicate NumberTo(s: Str, k: int, n: int) {
    0 < k <= |s| && Spelling(s[..k], n) && (k < |s| ==> !IsDigit(s[k]))
  }

  lemma {:induction false} DigitsOf(ds: Str, rest: Str)
    requires AllDigits(ds)
    ensures Digits(ds + rest, 0) == Digits(rest, Value(ds))
  {
    if ds == [] {
      assert ds + rest == rest;
    } else {
      var less, last := ds[..|ds| - 1], [ds[|ds| - 1]];
      DigitsOf(less, last + rest);
      assert ds + rest == less + (last + rest);
      assert (last + rest)[1..] == rest;
    }
  }

  /** How far the digits go. */
  lemma {:induction false} DigitsEnd(s: Str, acc: nat)
    ensures var rest := Digits(s, acc).1;
      && rest == s[|s| - |rest|..] && AllDigits(s[..|s| - |rest|]) && (rest == [] || !IsDigit(rest[0]))
  {
    if s != [] && IsDigit(s[0]) {
      DigitsEnd(s[1..], 10 * acc + (s[0] - ZERO));
      var k := |s| - |Digits(s, acc).1|;
      assert s[..k] == [s[0]] + s[1..][..k - 1];
    }
  }

  lemma {:induction false} NumeralIff(u: Str, n: int, rest: Str)
    ensures u != [] && IsDigit(u[0]) && Digits(u, 0) == (n, rest) <==>
      && |rest| <= |u| && rest == u[|u| - |rest|..] && Numeral(u[..|u| - |rest|], n)
      && (rest == [] || !IsDigit(rest[0]))
  {
    DigitsEnd(u, 0);
    if |rest| <= |u| && rest == u[|u| - |rest|..] {
      var ds := u[..|u| - |rest|];
      assert u == ds + rest;
      if AllDigits(ds) {
        DigitsOf(ds, rest);
        assert ds != [] ==> u[0] == ds[0];
      }
    }
  }

  /** Skipping white space stops at the same place whatever follows. */
  lemma SkipWsCut(s: Str, k: nat)
    requires k <= |s|
    ensures var t := SkipWs(s); var j := |s| - |t|;
      if j < k then SkipWs(s[..k]) == t[..k - j] && t[k - j..] == s[k..] else SkipWs(s[..k]) == []
  {
    var t := SkipWs(s);
    var j := |s| - |t|;
    SkipWsSuffix(s);
    if j < k {
      SkipWsAll(s[..j], t[..k - j]);
      assert s[..k] == s[..j] + t[..k - j];
    } else {
      assert s[..k] == s[..j][..k];
      SkipWsAll(s[..k], []);
      assert s[..k] + [] == s[..k];
    }
  }

  /** What strtol() looks at after white space and sign, and its sign. */
  function Unsigned(s: Str): Str {
    var t := SkipWs(s);
    if t != [] && (t[0] == MINUS || t[0] == PLUS) then t[1..] else t
  }

  function Signed(s: Str, n: int): int {
    var t := SkipWs(s);
    if t != [] && t[0] == MINUS then 0 - n else n
  }

  lemma {:induction false} UnsignedSuffix(s: Str)
    ensures |Unsigned(s)| <= |s| && Unsigned(s) == s[|s| - |Unsigned(s)|..]
  {
    SkipWsSuffix(s);
  }

  lemma {:induction false} SpellingCut(s: Str, k: nat, n: int)
    requires k <= |s|
    ensures var u := Unsigned(s); var i := k - (|s| - |u|);
      Spelling(s[..k], n) <==> 0 <= i <= |u| && Numeral(u[..i], Signed(s, n))
  {
    hide Numeral, SkipWs;
    SkipWsSuffix(s);
    SkipWsCut(s, k);
    NoNumeral();
    var t := SkipWs(s);
    var j := |s| - |t|;
    if k > j {
      var v := t[..k - j];
      assert v[0] == t[0];
      assert t[1..][..k - j - 1] == v[1..];
    }
  }

  lemma NoNumeral()
    ensures forall n :: !Numeral([], n)
  {
  }

  /** strtol() finds a number exactly where one is spelled. */
  lemma {:induction false} StrtolIff(s: Str, n: int, k: nat)
    requires k <= |s|
    ensures Strtol(s) == Number(n, s[k..]) <==> NumberTo(s, k, n)
  {
    hide Digits, Numeral, IsDigit, Strtol, Unsigned, Spelling, Signed;
    var u := Unsigned(s);
    UnsignedSuffix(s);
    SpellingCut(s, k, n);
    StrtolCases(s, n);
    NumeralIff(u, Signed(s, n), s[k..]);
    SignedTwice(s, n);
    SignedTwice(s, Digits(u, 0).0);
    var i := k - (|s| - |u|);
    if i >= 0 {
      assert u[i..] == s[k..] && |u| - |s[k..]| == i;
    }
    NoNumeral();
  }

  lemma SignedTwice(s: Str, n: int)
    ensures Signed(s, Signed(s, n)) == n
  {
  }

  /** A number that is found is spelled. */
  lemma {:induction false} StrtolFound(s: Str)
    requires Strtol(s).Number?
    ensures var k := |s| - |Strtol(s).rest|; NumberTo(s, k, Strtol(s).v) && Strtol(s).rest == s[k..]
  {
    hide Digits, NumberTo, IsDigit;
    var u := Unsigned(s);
    UnsignedSuffix(s);
    DigitsEnd(u, 0);
    var k := |s| - |Strtol(s).rest|;
    assert Strtol(s).rest == s[k..];
    StrtolIff(s, Strtol(s).v, k);
  }

  lemma StrtolCases(s: Str, n: int)
    ensures var u := Unsigned(s);
      Strtol(s) == if u == [] || !IsDigit(u[0]) then NoNumber else Number(Signed(s, Digits(u, 0).0), Digits(u, 0).1)
  {
  }

  // ---- strings and braces ----------------------------------------------------------------------

  /** Nothing that ends or escapes a string. */
  predicate Unquoted(b: Str) { forall i :: 0 <= i < |b| ==> b[i] != QUOTE && b[i] != BACKSLASH }

  /** b up to a closing quote; what is behind that does not matter. */
  predicate StringText(s: Str, b: Str) { |b| < |s| && s[..|b|] == b && s[|b|] == QUOTE && Unquoted(b) }

  lemma {:induction false} QuotedIff(s: Str, b: Str)
    ensures QuotedBody(s) == Ok(b) <==> StringText(s, b)
  {
    if s != [] && s[0] != BACKSLASH && s[0] != QUOTE {
      if b != [] {
        QuotedIff(s[1..], b[1..]);
        assert b == [b[0]] + b[1..];
        if |b| < |s| {
          assert s[..|b|] == [s[0]] + s[1..][..|b| - 1];
        }
      }
    }
  }

  /** Opening braces less closing braces. */
  function Depth(s: Str): int {
    if s == [] then 0 else Depth(s[..|s| - 1]) + Weight(s[|s| - 1])
  }

  function Weight(c: Octet): int { if c == LBRACE then 1 else if c == RBRACE then -1 else 0 }

  lemma {:induction false} DepthCons(c: Octet, s: Str)
    ensures Depth([c] + s) == Weight(c) + Depth(s)
  {
    var t := [c] + s;
    if s == [] {
      assert t[..|t| - 1] == [];
    } else {
      assert t[..|t| - 1] == [c] + s[..|s| - 1];
      DepthCons(c, s[..|s| - 1]);
    }
  }

  /** A closing brace at k, `d` levels deep at the start, ends the outermost level, and no earlier
      one does. */
  predicate ClosesAt(s: Str, k: int, d: int) {
    && 0 <= k < |s| && s[k] == RBRACE && d + Depth(s[..k]) == 1
    && forall j :: 0 <= j < k && s[j] == RBRACE ==> d + Depth(s[..j]) != 1
  }

  lemma {:induction false} ClosesLater(s: Str, k: int, d: int)
    requires s != [] && k > 0
    ensures ClosesAt(s, k, d) <==> !(s[0] == RBRACE && d == 1) && ClosesAt(s[1..], k - 1, d + Weight(s[0]))
  {
    hide Weight;
    var t := s[1..];
    forall j | 0 < j <= |s|
      ensures Depth(s[..j]) == Weight(s[0]) + Depth(t[..j - 1])
    {
      DepthCons(s[0], t[..j - 1]);
      assert s[..j] == [s[0]] + t[..j - 1];
    }
    assert s[..0] == [];
    if ClosesAt(s, k, d) {
      forall j | 0 <= j < k - 1 && t[j] == RBRACE
        ensures d + Weight(s[0]) + Depth(t[..j]) != 1
      {
        assert s[j + 1] == RBRACE;
        assert Depth(s[..j + 1]) == Weight(s[0]) + Depth(t[..j]);
      }
    }
  }

  /** The brace scan finds the brace that ends the outermost level, if there is one. */
  lemma {:induction false} FindCloseIff(s: Str, d: int, k: nat)
    ensures FindClose(s, d) == k <==> ClosesAt(s, k, d)
    decreases |s|
  {
    hide ClosesAt;
    if s == [] {
      assert !ClosesAt(s, k, d) by {
        ClosesInside(s, k, d);
      }
    } else if k == 0 {
      ClosesFirst(s, d);
    } else {
      ClosesLater(s, k, d);
      FindCloseIff(s[1..], d + Weight(s[0]), k - 1);
    }
  }

  lemma ClosesInside(s: Str, k: int, d: int)
    ensures ClosesAt(s, k, d) ==> s != []
  {
  }

  lemma ClosesFirst(s: Str, d: int)
    requires s != []
    ensures ClosesAt(s, 0, d) <==> s[0] == RBRACE && d == 1
  {
    assert s[..0] == [];
  }

  // ---- the grammar -----------------------------------------------------------------------------------

  /** The first k characters spell the number n, and something that is no digit follows. */
  predicate Heads(s: Str, k: int, n: int) { 0 < k < |s| && NumberTo(s, k, n) }

  /** White space, and groups, a string or hexadecimal digits. */
  ghost predicate DataSpells(s: Str, d: Data)
    decreases |s|, 1
  {
    s != [] && IsSpace(s[0]) &&
    var t := SkipWs(s[1..]);
    var first := if t == [] then 0 else t[0];
    match d
    case Group(g) => first == LBRACE && GroupSpells(t, g)
    case Quoted(b) => first == QUOTE && StringText(t[1..], b)
    case HexData(b) => first != LBRACE && first != QUOTE && HexMeaning.Spells(t, b)
  }

  /** A TLV between the first character and the matching brace, with any white space before it, and
      further groups or nothing behind any white space. */
  ghost predicate GroupSpells(s: Str, g: Tlvs)
    decreases |s|, 1
  {
    exists k :: 0 < k < |s| && ClosesAt(s, k, 0) && GroupAt(s, g, k)
  }

  ghost predicate GroupAt(s: Str, g: Tlvs, k: int)
    requires 0 < k < |s|
    decreases |s|, 0
  {
    TlvSpells(SkipWs(s[1..k]), g.t) &&
    var rest := SkipWs(s[k + 1..]);
    if g.One? then rest == [] else rest != [] && GroupSpells(rest, g.g)
  }

  /** A number, and data or a dot and another TLV. */
  ghost predicate TlvSpells(s: Str, t: Tlv)
    decreases |s|, 1
  {
    NumOk(t.num) && exists k :: 0 < k < |s| && Heads(s, k, t.num) && TlvAt(s, t, k)
  }

  ghost predicate TlvAt(s: Str, t: Tlv, k: int)
    requires 0 < k < |s|
    decreases |s|, 0
  {
    if t.Leaf? then s[k] != DOT && DataSpells(s[k..], t.d) else s[k] == DOT && TlvSpells(s[k + 1..], t.sub)
  }

  /** A dot, the first k characters that follow, a vendor, another dot. */
  predicate VendorHeads(s: Str, k: int, v: nat) {
    s != [] && s[0] == DOT && VendorOk(v) && 0 < k < |s| - 1 && NumberTo(s[1..], k, v) && s[k + 1] == DOT
  }

  /** A number and data. */
  ghost predicate NumberedData(s: Str, n: nat, d: Data) {
    NumOk(n) && exists k :: Heads(s, k, n) && DataSpells(s[k..], d)
  }

  /** A vendor, a number and data. */
  ghost predicate VendorData(s: Str, v: nat, n: nat, d: Data) {
    exists k :: VendorHeads(s, k, v) && NumberedData(s[k + 2..], n, d)
  }

  ghost predicate VendorTlv(s: Str, v: nat, t: Tlv) {
    exists k :: VendorHeads(s, k, v) && TlvSpells(s[k + 2..], t)
  }

  ghost predicate ExtSpells(s: Str, n: nat, a: Attr) {
    match a
    case Ext(num, sub, d) => num == n < 245 && sub != 26 && NumberedData(s, sub, d)
    case Long(num, sub, d) => num == n >= 245 && sub != 26 && NumberedData(s, sub, d)
    case ExtVs(num, v, sub, d) => num == n < 245 && exists k :: Heads(s, k, 26) && VendorData(s[k..], v, sub, d)
    case LongVs(num, v, sub, d) => num == n >= 245 && exists k :: Heads(s, k, 26) && VendorData(s[k..], v, sub, d)
    case _ => false
  }

  /** The text s spells the attribute a. */
  ghost predicate AttrSpells(s: Str, a: Attr) {
    match a
    case Plain(n, d) => n != 26 && !IsExtended(n) && NumberedData(s, n, d)
    case Vsa(v, t) => exists k :: Heads(s, k, 26) && VendorTlv(s[k..], v, t)
    case _ => IsExtended(a.num) && exists k :: Heads(s, k, a.num) && s[k] == DOT && ExtSpells(s[k + 1..], a.num, a)
  }

  // ---- the encoder reads the grammar -------------------------------------------------------------------

  lemma {:induction false} AttrNumIff(s: Str, n: nat, k: nat)
    requires k <= |s|
    ensures AttrNum(s) == Ok((n, s[k..])) <==> NumOk(n) && Heads(s, k, n)
  {
    hide Strtol, NumberTo;
    StrtolIff(s, n, k);
  }

  lemma {:induction false} AttrNumFound(s: Str)
    requires AttrNum(s).Ok?
    ensures var (n, rest) := AttrNum(s).v; var k := |s| - |rest|;
      NumOk(n) && Heads(s, k, n) && rest == s[k..]
  {
    hide Strtol, NumberTo;
    StrtolFound(s);
  }

  lemma {:induction false} VendorNumIff(s: Str, v: nat, k: nat)
    requires k + 2 <= |s|
    ensures VendorNum(s) == Ok((v, s[k + 2..])) <==> VendorHeads(s, k, v)
  {
    hide Strtol, NumberTo;
    var t := s[1..];
    StrtolIff(t, v, k);
    assert t[k..][1..] == s[k + 2..] && t[k..][0] == s[k + 1];
    if VendorNum(s) == Ok((v, s[k + 2..])) {
      StrtolFound(t);
      assert Strtol(t).rest == t[k..];
    }
    Positive(t, v, k);
  }

  lemma Positive(t: Str, v: int, k: int)
    ensures NumberTo(t, k, v) ==> k > 0
  {
  }

  lemma {:induction false} VendorNumFound(s: Str)
    requires VendorNum(s).Ok?
    ensures var (v, rest) := VendorNum(s).v; var k := |s| - |rest| - 2;
      VendorHeads(s, k, v) && rest == s[k + 2..]
  {
    hide Strtol, NumberTo;
    var t := s[1..];
    StrtolFound(t);
    Positive(t, VendorNum(s).v.0, |t| - |Strtol(t).rest|);
  }

  lemma {:induction false} ParseDataIff(s: Str, d: Data)
    ensures ParseData(s) == Ok(d) <==> DataSpells(s, d)
    decreases |s|, 1
  {
    hide ParseGroup, GroupSpells, QuotedBody, StringText, Hex.HexDecode, HexMeaning.Spells;
    if s != [] && IsSpace(s[0]) {
      var t := SkipWs(s[1..]);
      if t != [] && t[0] == LBRACE {
        if d.Group? {
          ParseGroupIff(t, d.g);
        }
      } else if t != [] && t[0] == QUOTE {
        if d.Quoted? {
          QuotedIff(t[1..], d.b);
        }
      } else if d.HexData? {
        HexMeaning.DecodeIff(t, 0, |t|, d.b);
      }
    }
  }

  lemma {:induction false} ParseGroupIff(s: Str, g: Tlvs)
    ensures ParseGroup(s) == Ok(g) <==> GroupSpells(s, g)
    decreases |s|, 1
  {
    hide ParseTlv, TlvSpells, FindClose, ClosesAt, SkipWs;
    if GroupSpells(s, g) {
      var k :| 0 < k < |s| && ClosesAt(s, k, 0) && GroupAt(s, g, k);
      FindCloseIff(s, 0, k);
      GroupAtIff(s, g, k);
    } else if ParseGroup(s) == Ok(g) {
      var k := FindClose(s, 0);
      FindCloseIff(s, 0, k);
      GroupAtIff(s, g, k);
    }
  }

  lemma {:induction false} GroupAtIff(s: Str, g: Tlvs, k: nat)
    requires 0 < k < |s| && FindClose(s, 0) == k
    ensures ParseGroup(s) == Ok(g) <==> GroupAt(s, g, k)
    decreases |s|, 0
  {
    hide ParseTlv, TlvSpells, FindClose, GroupSpells;
    ParseTlvIff(SkipWs(s[1..k]), g.t);
    if g.More? {
      ParseGroupIff(SkipWs(s[k + 1..]), g.g);
    }
  }

  lemma {:induction false} ParseTlvIff(s: Str, t: Tlv)
    ensures ParseTlv(s) == Ok(t) <==> TlvSpells(s, t)
    decreases |s|, 1
  {
    hide AttrNum, Heads;
    if ParseTlv(s) == Ok(t) {
      AttrNumFound(s);
      TlvAtIff(s, t, |s| - |AttrNum(s).v.1|);
    }
    if TlvSpells(s, t) {
      var k :| 0 < k < |s| && Heads(s, k, t.num) && TlvAt(s, t, k);
      AttrNumIff(s, t.num, k);
      TlvAtIff(s, t, k);
    }
  }

  lemma {:induction false} TlvAtIff(s: Str, t: Tlv, k: nat)
    requires 0 < k < |s| && AttrNum(s) == Ok((t.num, s[k..]))
    ensures ParseTlv(s) == Ok(t) <==> TlvAt(s, t, k)
    decreases |s|, 0
  {
    hide AttrNum, DataSpells, TlvSpells, ParseData;
    assert s[k..][0] == s[k] && s[k..][1..] == s[k + 1..];
    if t.Leaf? {
      ParseDataIff(s[k..], t.d);
    } else {
      ParseTlvIff(s[k + 1..], t.sub);
    }
  }

  lemma {:induction false} NumberedIff(s: Str, n: nat, d: Data)
    ensures AttrNum(s).Ok? && AttrNum(s).v.0 == n && ParseData(AttrNum(s).v.1) == Ok(d) <==> NumberedData(s, n, d)
  {
    hide AttrNum, ParseData, DataSpells;
    if AttrNum(s).Ok? {
      AttrNumFound(s);
      ParseDataIff(AttrNum(s).v.1, d);
    }
    if NumberedData(s, n, d) {
      var k :| Heads(s, k, n) && DataSpells(s[k..], d);
      AttrNumIff(s, n, k);
      ParseDataIff(s[k..], d);
    }
  }

  lemma {:induction false} VendorDataIff(s: Str, v: nat, n: nat, d: Data)
    ensures ParseEvs(s) == Ok((v, n, d)) <==> VendorData(s, v, n, d)
  {
    hide AttrNum, VendorNum, ParseData, NumberedData;
    if VendorNum(s).Ok? {
      VendorNumFound(s);
      NumberedIff(VendorNum(s).v.1, n, d);
    }
    if VendorData(s, v, n, d) {
      var k :| VendorHeads(s, k, v) && NumberedData(s[k + 2..], n, d);
      VendorNumIff(s, v, k);
      NumberedIff(s[k + 2..], n, d);
    }
  }

  lemma {:induction false} VendorTlvIff(s: Str, v: nat, t: Tlv)
    ensures ParseVsa(s) == Ok(Vsa(v, t)) <==> VendorTlv(s, v, t)
  {
    hide VendorNum, ParseTlv, TlvSpells;
    if VendorNum(s).Ok? {
      VendorNumFound(s);
      ParseTlvIff(VendorNum(s).v.1, t);
    }
    if VendorTlv(s, v, t) {
      var k :| VendorHeads(s, k, v) && TlvSpells(s[k + 2..], t);
      VendorNumIff(s, v, k);
      ParseTlvIff(s[k + 2..], t);
    }
  }

  lemma {:induction false} ExtVendorIff(s: Str, v: nat, n: nat, d: Data)
    ensures AttrNum(s).Ok? && AttrNum(s).v.0 == 26 && ParseEvs(AttrNum(s).v.1) == Ok((v, n, d)) <==>
      exists k :: Heads(s, k, 26) && VendorData(s[k..], v, n, d)
  {
    hide AttrNum, ParseEvs, VendorData;
    if AttrNum(s).Ok? {
      AttrNumFound(s);
      VendorDataIff(AttrNum(s).v.1, v, n, d);
    }
    if k :| Heads(s, k, 26) && VendorData(s[k..], v, n, d) {
      AttrNumIff(s, 26, k);
      VendorDataIff(s[k..], v, n, d);
    }
  }

  lemma {:induction false} ExtIff(n: nat, s: Str, a: Attr)
    requires IsExtended(n)
    ensures ParseExt(n, s) == Ok(a) <==> ExtSpells(s, n, a)
  {
    hide AttrNum, ParseEvs, ParseData, VendorData, NumberedData, Heads;
    match a
    case Ext(_, m, d) => NumberedIff(s, m, d);
    case Long(_, m, d) => NumberedIff(s, m, d);
    case ExtVs(_, v, m, d) => ExtVendorIff(s, v, m, d);
    case LongVs(_, v, m, d) => ExtVendorIff(s, v, m, d);
    case _ =>
  }

  lemma {:induction false} VsaIff(s: Str, v: nat, t: Tlv)
    ensures AttrNum(s).Ok? && AttrNum(s).v.0 == 26 && ParseVsa(AttrNum(s).v.1) == Ok(Vsa(v, t)) <==>
      exists k :: Heads(s, k, 26) && VendorTlv(s[k..], v, t)
  {
    hide AttrNum, ParseVsa, VendorTlv;
    if AttrNum(s).Ok? {
      AttrNumFound(s);
      VendorTlvIff(AttrNum(s).v.1, v, t);
    }
    if k :| Heads(s, k, 26) && VendorTlv(s[k..], v, t) {
      AttrNumIff(s, 26, k);
      VendorTlvIff(s[k..], v, t);
    }
  }

  /** What encode_rfc() does with the text behind the number of an extended attribute. */
  function ParseDotted(n: nat, s: Str): Parse<Attr> {
    if s == [] || s[0] != DOT then Err(0) else ParseExt(n, s[1..])
  }

  lemma {:induction false} ExtendedIff(s: Str, n: nat, a: Attr)
    requires IsExtended(n)
    ensures AttrNum(s).Ok? && AttrNum(s).v.0 == n && ParseDotted(n, AttrNum(s).v.1) == Ok(a) <==>
      exists k :: Heads(s, k, n) && s[k] == DOT && ExtSpells(s[k + 1..], n, a)
  {
    hide AttrNum, ParseExt, ExtSpells;
    if AttrNum(s).Ok? {
      AttrNumFound(s);
      ExtIff(n, AttrNum(s).v.1[1..], a);
    }
    if k :| Heads(s, k, n) && s[k] == DOT && ExtSpells(s[k + 1..], n, a) {
      AttrNumIff(s, n, k);
      ExtIff(n, s[k + 1..], a);
      assert s[k..][1..] == s[k + 1..];
    }
  }

  /** What the two branches for attributes with parts give. */
  lemma Branches(n: nat, s: Str)
    ensures ParseVsa(s).Ok? ==> ParseVsa(s).v.Vsa?
    ensures var r := ParseExt(n, s); r.Ok? ==> !r.v.Plain? && !r.v.Vsa? && r.v.num == n
  {
    hide VendorNum, AttrNum, ParseTlv, ParseData, ParseEvs;
  }

  /** encode_rfc() accepts exactly the texts that spell an attribute, as the attribute they spell. */
  lemma {:induction false} ParseAttrIff(s: Str, a: Attr)
    ensures ParseAttr(s) == Ok(a) <==> AttrSpells(s, a)
  {
    hide AttrNum, ParseVsa, ParseExt, ParseData, VendorTlv, NumberedData, ExtSpells, Heads;
    if AttrNum(s).Ok? {
      var (n, rest) := AttrNum(s).v;
      Branches(n, rest);
      Branches(n, rest[1..]);
    }
    match a
    case Plain(n, d) => NumberedIff(s, n, d);
    case Vsa(v, t) => VsaIff(s, v, t);
    case _ =>
      if IsExtended(a.num) {
        ExtendedIff(s, a.num, a);
      }
  }

  /** What is encoded is the wire form of what the text spells; no other text is. */
  lemma {:induction false} EncodeIff(s: Str, w: Str)
    ensures Encode(s) == Ok(w) <==> exists a :: AttrSpells(s, a) && Fits(a) && w == Wire(a)
  {
    hide ParseAttr, AttrSpells, Fits, Wire;
    if Encode(s) == Ok(w) {
      ParseAttrIff(s, ParseAttr(s).v);
    }
    if a :| AttrSpells(s, a) && Fits(a) && w == Wire(a) {
      ParseAttrIff(s, a);
    }
  }

  // ---- errors --------------------------------------------------------------------------------------------

  /** Behind some point of the text, `n` characters on, stands the first character that is not a
      hexadecimal digit where one is expected. */
  ghost predicate BadDigit(s: Str, n: int) {
    exists k :: 0 <= k <= |s| && HexMeaning.StopsBefore(s[k..], n)
  }

  lemma BadDigitLater(s: Str, j: nat, n: int)
    requires j <= |s| && BadDigit(s[j..], n)
    ensures BadDigit(s, n)
  {
    hide HexMeaning.StopsBefore;
    var t := s[j..];
    var k :| 0 <= k <= |t| && HexMeaning.StopsBefore(t[k..], n);
    assert t[k..] == s[j + k..];
  }

  lemma {:induction false} DataError(s: Str)
    requires ParseData(s).Err? && ParseData(s).code != 0
    ensures BadDigit(s, 0 - ParseData(s).code)
  {
    hide ParseGroup, QuotedBody, HexMeaning.StopsBefore, Hex.HexDecode;
    var t := SkipWs(s[1..]);
    SkipWsSuffix(s[1..]);
    HexMeaning.ErrorAt(t, 0, |t|);
    var k := |s| - |t|;
    assert s[k..] == t;
  }

  lemma {:induction false} TlvError(s: Str)
    requires ParseTlv(s).Err? && ParseTlv(s).code != 0
    ensures BadDigit(s, 0 - ParseTlv(s).code)
    decreases |s|
  {
    hide AttrNum, ParseData, BadDigit;
    AttrNumFound(s);
    var rest := AttrNum(s).v.1;
    var k := |s| - |rest|;
    if rest[0] == DOT {
      TlvError(rest[1..]);
      assert s[k + 1..] == rest[1..];
      BadDigitLater(s, k + 1, 0 - ParseTlv(s).code);
    } else {
      DataError(rest);
      BadDigitLater(s, k, 0 - ParseTlv(s).code);
    }
  }

  lemma {:induction false} NumberedError(s: Str)
    requires AttrNum(s).Ok? && ParseData(AttrNum(s).v.1).Err? && ParseData(AttrNum(s).v.1).code != 0
    ensures BadDigit(s, 0 - ParseData(AttrNum(s).v.1).code)
  {
    hide AttrNum, ParseData, BadDigit;
    AttrNumFound(s);
    DataError(AttrNum(s).v.1);
    BadDigitLater(s, |s| - |AttrNum(s).v.1|, 0 - ParseData(AttrNum(s).v.1).code);
  }

  lemma {:induction false} VendorError(s: Str)
    ensures ParseEvs(s).Err? && ParseEvs(s).code != 0 ==> BadDigit(s, 0 - ParseEvs(s).code)
    ensures ParseVsa(s).Err? && ParseVsa(s).code != 0 ==> BadDigit(s, 0 - ParseVsa(s).code)
  {
    hide AttrNum, VendorNum, ParseData, ParseTlv, BadDigit;
    AttrNumZero(s);
    if VendorNum(s).Ok? {
      VendorNumFound(s);
      var rest := VendorNum(s).v.1;
      AttrNumZero(rest);
      if ParseEvs(s).Err? && ParseEvs(s).code != 0 {
        NumberedError(rest);
        BadDigitLater(s, |s| - |rest|, 0 - ParseEvs(s).code);
      }
      if ParseVsa(s).Err? && ParseVsa(s).code != 0 {
        TlvError(rest);
        BadDigitLater(s, |s| - |rest|, 0 - ParseVsa(s).code);
      }
    }
  }

  lemma AttrNumZero(s: Str)
    ensures AttrNum(s).Err? ==> AttrNum(s).code == 0
    ensures VendorNum(s).Err? ==> VendorNum(s).code == 0
  {
  }

  lemma {:induction false} ExtError(n: nat, s: Str)
    requires ParseExt(n, s).Err? && ParseExt(n, s).code != 0
    ensures BadDigit(s, 0 - ParseExt(n, s).code)
  {
    hide AttrNum, ParseEvs, ParseData, BadDigit;
    AttrNumZero(s);
    AttrNumFound(s);
    var (m, rest) := AttrNum(s).v;
    if m == 26 {
      VendorError(rest);
      BadDigitLater(s, |s| - |rest|, 0 - ParseExt(n, s).code);
    } else {
      NumberedError(s);
    }
  }

  /** What an error says: 0, or minus the position, in the digits of the data, of a character that
      is no digit. */
  lemma {:induction false} EncodeError(s: Str)
    requires Encode(s).Err?
    ensures Encode(s).code == 0 || (Encode(s).code < 0 && BadDigit(s, 0 - Encode(s).code))
  {
    hide AttrNum, ParseVsa, ParseExt, ParseData, BadDigit, Fits, Wire;
    AttrNumZero(s);
    if Encode(s).code != 0 {
      AttrNumFound(s);
      var (n, rest) := AttrNum(s).v;
      var k := |s| - |rest|;
      if n == 26 {
        VendorError(rest);
        BadDigitLater(s, k, 0 - Encode(s).code);
      } else if !IsExtended(n) {
        NumberedError(s);
      } else {
        ExtError(n, rest[1..]);
        assert s[k + 1..] == rest[1..];
        BadDigitLater(s, k + 1, 0 - Encode(s).code);
      }
      BadDigitPositive(s, 0 - Encode(s).code);
    }
  }

  lemma BadDigitPositive(s: Str, n: int)
    requires BadDigit(s, n)
    ensures n > 0
  {
  }

  // ---- every way to write groups ----------------------------------------------------------------------

  /** A group as it is written: white space and a TLV between braces, and white space. */
  datatype Braced = Braced(lead: Str, tlv: Str, tail: Str)

  function BracedText(bs: seq<Braced>): Str {
    if bs == [] then []
    else [LBRACE] + (bs[0].lead + bs[0].tlv + ([RBRACE] + (bs[0].tail + BracedText(bs[1..]))))
  }

  /** Any white space inside the braces and between them; braces inside a TLV match. */
  ghost predicate Braces(bs: seq<Braced>, g: Tlvs)
    decreases |bs|
  {
    && bs != [] && AllSpace(bs[0].lead) && AllSpace(bs[0].tail)
    && Level(bs[0].tlv, 0) && bs[0].tlv != [] && !IsSpace(bs[0].tlv[0]) && ParseTlv(bs[0].tlv) == Ok(g.t)
    && if g.One? then |bs| == 1 else Braces(bs[1..], g.g)
  }

  lemma {:induction false} LevelOf(w: Str, s: Str)
    requires AllSpace(w) && Level(s, 0)
    ensures Level(w + s, 0)
  {
    LevelPlain(w);
    LevelConcat(w, s, 0);
  }

  /** The closing brace of "{x}" is found at its end. */
  lemma CloseOf(x: Str, rest: Str)
    requires Level(x, 0)
    ensures FindClose([LBRACE] + (x + ([RBRACE] + rest)), 0) == |x| + 1
  {
    var all, u := [LBRACE] + (x + ([RBRACE] + rest)), [RBRACE] + rest;
    assert all[1..] == x + u;
    FindClosePasses(x, u, 0, 1);
  }

  lemma {:induction false} ParsePadded(b: Braced, t: Tlv, rest: Str)
    requires AllSpace(b.lead) && AllSpace(b.tail) && Level(b.tlv, 0) && b.tlv != [] && !IsSpace(b.tlv[0])
    requires ParseTlv(b.tlv) == Ok(t) && (rest == [] || !IsSpace(rest[0]))
    ensures ParseGroup([LBRACE] + (b.lead + b.tlv + ([RBRACE] + (b.tail + rest)))) ==
      if rest == [] then Ok(One(t)) else if ParseGroup(rest).Ok? then Ok(More(t, ParseGroup(rest).v)) else Err(0)
  {
    hide ParseTlv, FindClose, Level;
    var x := b.lead + b.tlv;
    var s := [LBRACE] + (x + ([RBRACE] + (b.tail + rest)));
    LevelOf(b.lead, b.tlv);
    CloseOf(x, b.tail + rest);
    assert s[1..|x| + 1] == x && s[|x| + 2..] == b.tail + rest;
    SkipWsAll(b.lead, b.tlv);
    SkipWsAll(b.tail, rest);
  }

  /** Groups are read as what is between their braces, however they are spaced. */
  lemma {:induction false} BracesRead(bs: seq<Braced>, g: Tlvs)
    requires Braces(bs, g)
    ensures ParseGroup(BracedText(bs)) == Ok(g) && BracedText(bs) != [] && BracedText(bs)[0] == LBRACE
    decreases |bs|
  {
    hide ParseTlv, ParseGroup, Level;
    ParsePadded(bs[0], g.t, BracedText(bs[1..]));
    if g.More? {
      BracesRead(bs[1..], g.g);
    } else {
      assert BracedText(bs[1..]) == [];
    }
  }
}
