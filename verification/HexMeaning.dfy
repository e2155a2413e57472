/** Which octets a hexadecimal text stands for, said of its characters: digits in either case, any
    white space between octets.  hex_to_bin() reads exactly these texts. */
module HexMeaning {
  import opened Octets
  import opened Hex

  /** c is the digit worth v, in either case. */
  predicate IsHex(c: Octet, v: int) {
    0 <= v < 16 && (c == "0123456789abcdef"[v] as int || c == "0123456789ABCDEF"[v] as int)
  }

  predicate IsHexChar(c: Octet) { exists v | 0 <= v < 16 :: IsHex(c, v) }

  /** The text s stands for the octets b: two digits for each, any white space before each and at
      the end.  A digit with only the terminator behind it stands for itself followed by a
      digit worth 16. */
  predicate Spells(s: Str, b: Str)
    decreases |s|
  {
    var t := SkipWs(s);
    if t == [] || t[0] == 0 then b == []
    else
      && b != []
      && if |t| == 1 then |b| == 1 && Dangling(t[0], b[0])
         else (Pair(t[0], t[1], b[0]) || (t[1] == 0 && Dangling(t[0], b[0]))) && Spells(t[2..], b[1..])
  }

  predicate Pair(c: Octet, d: Octet, x: Octet) { IsHex(c, x / 16) && IsHex(d, x % 16) }
  predicate Dangling(c: Octet, x: Octet) { x % 16 == 0 && IsHex(c, (x / 16 + 15) % 16) }

  lemma HexValIff(c: Octet, v: int)
    requires 0 <= v < 16
    ensures HexVal(c) == v <==> IsHex(c, v)
  {
    Lower(v);
    Upper(v);
  }

  lemma Lower(v: int)
    requires 0 <= v < 16
    ensures "0123456789abcdef"[v] as int == if v < 10 then 48 + v else 87 + v
  {
  }

  lemma Upper(v: int)
    requires 0 <= v < 16
    ensures "0123456789ABCDEF"[v] as int == if v < 10 then 48 + v else 55 + v
  {
  }

  lemma HexValOf(c: Octet)
    ensures 0 <= HexVal(c) < 16 ==> IsHex(c, HexVal(c))
    ensures forall v :: IsHex(c, v) ==> HexVal(c) == v
  {
    forall v | IsHex(c, v)
      ensures HexVal(c) == v
    {
      HexValIff(c, v);
    }
    if 0 <= HexVal(c) < 16 {
      HexValIff(c, HexVal(c));
    }
  }

  /** One octet of the text, and its value. */
  lemma {:induction false} OctetIff(c: Octet, d: Octet, x: Octet)
    requires c != 0
    ensures HexVal(c) >= 0 && HexVal(d) >= 0 && (HexVal(c) * 16 + HexVal(d)) % 256 == x <==>
      Pair(c, d, x) || (d == 0 && Dangling(c, x))
  {
    hide IsHex, HexVal;
    HexValRange(c);
    HexValRange(d);
    HexValOf(c);
    HexValOf(d);
    if HexVal(c) >= 0 && HexVal(d) >= 0 {
      TwoDigits(HexVal(c), HexVal(d), x);
    }
  }

  lemma HexValRange(c: Octet)
    ensures -1 <= HexVal(c) <= 16 && (HexVal(c) == 16 <==> c == 0)
  {
  }

  lemma TwoDigits(h: int, l: int, x: Octet)
    requires 0 <= h < 16 && 0 <= l <= 16
    ensures l < 16 ==> ((h * 16 + l) % 256 == x <==> h == x / 16 && l == x % 16)
    ensures l == 16 ==> ((h * 16 + l) % 256 == x <==> x % 16 == 0 && h == (x / 16 + 15) % 16)
  {
  }

  lemma {:induction false} DanglingIff(c: Octet, x: Octet)
    requires c != 0
    ensures HexVal(c) >= 0 && (HexVal(c) * 16 + 16) % 256 == x <==> Dangling(c, x)
  {
    hide IsHex, HexVal;
    HexValRange(c);
    HexValOf(c);
    if HexVal(c) >= 0 {
      TwoDigits(HexVal(c), 16, x);
    }
  }

  /** hex_to_bin() with enough room reads exactly the texts that stand for octets, as what they
      stand for. */
  lemma {:induction false} DecodeIff(s: Str, at: nat, room: nat, b: Str)
    requires room >= |s|
    ensures HexDecode(s, at, room) == Bytes(b) <==> Spells(s, b)
    decreases |s|
  {
    hide IsHex, Pair, Dangling, HexVal;
    if s != [] {
      HexUnfold(s, at, room);
      var t := SkipWs(s);
      if t != [] && t[0] != 0 {
        if |t| == 1 {
          DecodeLast(t, at + |s| - |t|, room, b);
        } else {
          DecodeNext(t, at + |s| - |t|, room, b);
          if b != [] {
            DecodeIff(t[2..], at + |s| - |t| + 2, room - 1, b[1..]);
          }
        }
      }
    }
  }

  lemma {:induction false} DecodeLast(t: Str, at: nat, room: nat, b: Str)
    requires |t| == 1 && t[0] != 0 && !IsSpace(t[0]) && room > 0
    ensures HexDecode(t, at, room) == Bytes(b) <==> |b| == 1 && Dangling(t[0], b[0])
  {
    hide IsHex, Dangling, HexVal;
    assert SkipWs(t) == t;
    if |b| == 1 {
      DanglingIff(t[0], b[0]);
      assert b == [b[0]];
    }
  }

  lemma {:induction false} DecodeNext(t: Str, at: nat, room: nat, b: Str)
    requires |t| >= 2 && t[0] != 0 && !IsSpace(t[0]) && room > 0
    ensures HexDecode(t, at, room) == Bytes(b) <==>
      && b != [] && (Pair(t[0], t[1], b[0]) || (t[1] == 0 && Dangling(t[0], b[0])))
      && HexDecode(t[2..], at + 2, room - 1) == Bytes(b[1..])
  {
    hide IsHex, Dangling, Pair, HexVal;
    assert SkipWs(t) == t;
    if b != [] {
      OctetIff(t[0], t[1], b[0]);
      assert b == [b[0]] + b[1..];
      ConsInjective(b[0], HexDecode(t[2..], at + 2, room - 1), b[1..]);
    }
  }

  /** For every text, every mix of cases, every white space and every room: the octets come out
      exactly if the text stands for them and they fit, one octet more being needed if anything is
      left behind the last one. */
  lemma {:induction false} SpelledIff(s: Str, at: nat, room: nat, b: Str)
    ensures HexDecode(s, at, room) == Bytes(b) <==>
      Spells(s, b) && room >= |b| + (if HexLeft(s) == [] then 0 else 1)
  {
    hide HexDecode, Spells, HexLeft;
    DecodeIff(s, at, |s| + room, b);
    if HexDecode(s, at, room).Bytes? {
      HexLess(s, at, room, |s| + room);
    }
    if HexDecode(s, at, |s| + room).Bytes? {
      HexNeedExact(s, at, room, |s| + room);
    }
  }

  /** Without a NUL, something is left behind the last octet exactly if white space trails. */
  lemma {:induction false} LeftIff(s: Str, b: Str)
    requires Spells(s, b) && 0 !in s
    ensures HexLeft(s) == [] <==> s == [] || !IsSpace(s[|s| - 1])
    decreases |s|
  {
    hide Pair, Dangling, IsHex;
    var t := SkipWs(s);
    SkipWsSuffix(s);
    if t == [] {
      assert s == s[..|s| - |t|];
    } else {
      assert t[0] == s[|s| - |t|];
      assert t[|t| - 1] == s[|s| - 1];
      if |t| > 1 {
        var u := t[2..];
        assert forall i :: 0 <= i < |u| ==> u[i] == s[|s| - |t| + 2 + i];
        LeftIff(u, b[1..]);
        DigitNotSpace(t[1]);
        if u != [] {
          assert u[|u| - 1] == s[|s| - 1];
        }
      }
    }
  }

  lemma DigitNotSpace(c: Octet)
    ensures forall v :: IsHex(c, v) ==> !IsSpace(c)
    ensures forall d, x :: Pair(d, c, x) ==> !IsSpace(c)
  {
    HexValOf(c);
  }

  // ---- every way to write octets ------------------------------------------------------------------

  /** One octet as it is written: white space and two digits. */
  datatype Glyph = Glyph(space: Str, hi: Octet, lo: Octet)

  function Written(gs: seq<Glyph>, tail: Str): Str {
    if gs == [] then tail else gs[0].space + ([gs[0].hi, gs[0].lo] + Written(gs[1..], tail))
  }

  /** Any white space before each octet, and the case of every digit as one likes. */
  predicate Writes(gs: seq<Glyph>, b: Str) {
    |gs| == |b| && forall i :: 0 <= i < |b| ==> AllSpace(gs[i].space) && Pair(gs[i].hi, gs[i].lo, b[i])
  }

  lemma {:induction false} WrittenSpells(gs: seq<Glyph>, b: Str, tail: Str)
    requires Writes(gs, b) && AllSpace(tail)
    ensures Spells(Written(gs, tail), b)
    ensures HexLeft(Written(gs, tail)) == tail
    decreases |gs|
  {
    hide Pair, Dangling, IsHex;
    if gs == [] {
      SkipWsAll(tail, []);
      assert tail + [] == tail;
    } else {
      var rest := [gs[0].hi, gs[0].lo] + Written(gs[1..], tail);
      DigitIsPlain(gs[0].hi, gs[0].lo, b[0]);
      SkipWsAll(gs[0].space, rest);
      assert rest[2..] == Written(gs[1..], tail);
      WrittenSpells(gs[1..], b[1..], tail);
    }
  }

  lemma DigitIsPlain(c: Octet, d: Octet, x: Octet)
    requires Pair(c, d, x)
    ensures !IsSpace(c) && c != 0
  {
    HexValOf(c);
  }

  /** hex_to_bin() gives octets back however they are written, exactly when they fit: one octet
      more is needed only if white space trails. */
  lemma {:induction false} WrittenRoundTrip(gs: seq<Glyph>, b: Str, tail: Str, at: nat, room: nat)
    requires Writes(gs, b) && AllSpace(tail)
    ensures HexDecode(Written(gs, tail), at, room) == Bytes(b) <==> room >= |b| + (if tail == [] then 0 else 1)
  {
    hide Spells, Writes, HexDecode, Written, HexLeft;
    WrittenSpells(gs, b, tail);
    SpelledIff(Written(gs, tail), at, room, b);
  }

  /** The digits hex_print() writes. */
  lemma DigitTable(v: nat)
    requires v < 16
    ensures HexDigit(v) == "0123456789abcdef"[v] as int
  {
    Lower(v);
  }

  // ---- case does not matter ---------------------------------------------------------------------

  /** t is s with some of 'A'..'F' written as 'a'..'f'. */
  ghost predicate Folded(s: Str, t: Str) {
    |s| == |t| && forall i :: 0 <= i < |s| ==> t[i] == s[i] || (65 <= s[i] <= 70 && t[i] == s[i] + 32)
  }

  lemma {:induction false} FoldedSkip(s: Str, t: Str)
    requires Folded(s, t)
    ensures Folded(SkipWs(s), SkipWs(t))
  {
    if s != [] && IsSpace(s[0]) {
      FoldedSkip(s[1..], t[1..]);
    }
  }

  lemma {:induction false} CaseIsIgnored(s: Str, t: Str, at: nat, room: nat)
    requires Folded(s, t)
    ensures HexDecode(s, at, room) == HexDecode(t, at, room)
    decreases |s|
  {
    if s != [] && room > 0 {
      FoldedSkip(s, t);
      var u, v := SkipWs(s), SkipWs(t);
      if |u| > 1 {
        CaseIsIgnored(u[2..], v[2..], at + |s| - |u| + 2, room - 1);
      }
    }
  }

  // ---- where an error is ----------------------------------------------------------------------------

  /** The character before position n is the first that is not a digit where one is expected. */
  ghost predicate StopsBefore(s: Str, n: int) {
    && 1 <= n <= |s| && s[n - 1] != 0 && !IsHexChar(s[n - 1])
    && forall i :: 0 <= i < n - 1 ==> s[i] == 0 || IsSpace(s[i]) || IsHexChar(s[i])
  }

  lemma CharIff(c: Octet)
    requires c != 0
    ensures IsHexChar(c) <==> HexVal(c) >= 0
  {
    HexValOf(c);
  }

  lemma StopsLater(s: Str, k: nat, n: int)
    requires k <= |s| && StopsBefore(s[k..], n)
    requires forall i :: 0 <= i < k ==> s[i] == 0 || IsSpace(s[i]) || IsHexChar(s[i])
    ensures StopsBefore(s, k + n)
  {
    assert s[k..][n - 1] == s[k + n - 1];
    forall i | 0 <= i < k + n - 1
      ensures s[i] == 0 || IsSpace(s[i]) || IsHexChar(s[i])
    {
      assert i >= k ==> s[i] == s[k..][i - k];
    }
  }

  /** With enough room, the position of an error is that of the first character which is not a
      digit where one is expected: everything before it is digits, white space or a NUL. */
  lemma {:induction false} ErrorAt(s: Str, at: nat, room: nat)
    requires room >= |s| && HexDecode(s, at, room).Bad?
    ensures StopsBefore(s, HexDecode(s, at, room).at - at)
    decreases |s|
  {
    hide IsHexChar, StopsBefore, HexVal;
    HexUnfold(s, at, room);
    var t := SkipWs(s);
    SkipWsSuffix(s);
    var k := |s| - |t|;
    assert forall i :: 0 <= i < k ==> s[i] == s[..k][i];
    CharIff(t[0]);
    if HexVal(t[0]) < 0 {
      StopsHere(t, 1);
      StopsLater(s, k, 1);
    } else if |t| > 1 && HexVal(t[1]) < 0 {
      HexValZero(t[1]);
      CharIff(t[1]);
      StopsHere(t, 2);
      StopsLater(s, k, 2);
    } else {
      var u, d := t[2..], t[1];
      ErrorAt(u, at + k + 2, room - 1);
      if d != 0 {
        CharIff(d);
      }
      assert s[k + 2..] == u && s[k] == t[0] && s[k + 1] == d;
      StopsLater(s, k + 2, HexDecode(u, at + k + 2, room - 1).at - (at + k + 2));
    }
  }

  lemma HexValZero(c: Octet)
    ensures HexVal(c) < 0 ==> c != 0
  {
  }

  lemma StopsHere(t: Str, n: nat)
    requires 1 <= n <= 2 && n <= |t| && t[n - 1] != 0 && !IsHexChar(t[n - 1])
    requires n == 2 ==> IsHexChar(t[0])
    ensures StopsBefore(t, n)
  {
    hide IsHexChar;
  }

  /** With too little room, it is behind the octets for which there was room. */
  lemma {:induction false} FullAt(s: Str, at: nat, room: nat, b: Str)
    requires Spells(s, b) && HexDecode(s, at, room).Bad?
    ensures ReadTo(s, HexDecode(s, at, room).at - at, room, b)
    decreases |s|
  {
    hide Pair, Dangling, IsHex, HexVal, ReadTo;
    if room == 0 {
      ReadNothing(s, b);
    } else {
      HexUnfold(s, at, room);
      var t := SkipWs(s);
      SkipWsSuffix(s);
      var k := |s| - |t|;
      if t != [] && t[0] != 0 {
        if |t| == 1 {
          DecodeLast(t, at + k, room, b);
        } else {
          OctetIff(t[0], t[1], b[0]);
          FullAt(t[2..], at + k + 2, room - 1, b[1..]);
          ReadOne(s, k, HexDecode(t[2..], at + k + 2, room - 1).at - (at + k + 2), room, b);
        }
      }
    }
  }

  /** The first p characters stand for the first `room` octets, and no white space is behind. */
  ghost predicate ReadTo(s: Str, p: int, room: nat, b: Str) {
    && 0 <= p <= |s| && room <= |b| && Spells(s[..p], b[..room])
    && (p > 0 ==> !IsSpace(s[p - 1]))
  }

  lemma ReadNothing(s: Str, b: Str)
    ensures ReadTo(s, 0, 0, b)
  {
    assert s[..0] == [] && b[..0] == [];
  }

  lemma {:induction false} ReadOne(s: Str, k: nat, p: int, room: nat, b: Str)
    requires k + 2 <= |s| && AllSpace(s[..k]) && !IsSpace(s[k]) && s[k] != 0 && room > 0 && b != []
    requires Pair(s[k], s[k + 1], b[0]) || (s[k + 1] == 0 && Dangling(s[k], b[0]))
    requires ReadTo(s[k..][2..], p, room - 1, b[1..])
    ensures ReadTo(s, k + 2 + p, room, b)
  {
    hide Pair, Dangling, IsHex;
    var u := s[k..][2..];
    Prefix(s, k, p + 2);
    assert s[k..][..p + 2][2..] == u[..p];
    assert b[..room][1..] == b[1..][..room - 1];
    DigitNotSpace(s[k + 1]);
    if p > 0 {
      assert s[k + 2 + p - 1] == u[p - 1];
    }
  }

  lemma Prefix(s: Str, k: nat, n: nat)
    requires k < |s| && 0 < n <= |s| - k && AllSpace(s[..k]) && !IsSpace(s[k])
    ensures SkipWs(s[..k + n]) == s[k..][..n]
  {
    SkipWsAll(s[..k], s[k..][..n]);
    assert s[..k] + s[k..][..n] == s[..k + n];
  }
}
