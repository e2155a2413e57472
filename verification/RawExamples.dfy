/** Texts of the repository's own tests and the octets they must become. */
module RawExamples {
  import opened Octets
  import Hex
  import HexMeaning
  import opened RawText
  import opened RawPrinting
  import opened RawWire
  import opened RawGrammar

  function Ascii(s: string): (r: Str)
    ensures |r| == |s| && forall i :: 0 <= i < |s| ==> r[i] == s[i] as int % 256
  {
    seq(|s|, i requires 0 <= i < |s| => s[i] as int % 256)
  }

  lemma AsciiConcat(s: string, t: string)
    ensures Ascii(s + t) == Ascii(s) + Ascii(t)
  {
  }

  lemma Numbers()
    ensures PrintNum(1) == Ascii("1") && PrintNum(2) == Ascii("2") && PrintNum(4) == Ascii("4")
    ensures PrintNum(26) == Ascii("26") && PrintNum(241) == Ascii("241") && PrintNum(245) == Ascii("245")
  {
    assert PrintNum(24) == PrintNum(2) + [ZERO + 4];
  }

  lemma Encodes(s: Str, a: Attr, w: Str)
    requires ParseAttr(s) == Ok(a) && Fits(a) && Wire(a) == w
    ensures Encode(s) == Ok(w)
  {
    hide ParseAttr, Fits, Wire;
  }

  // ---- a string ----------------------------------------------------------------------------

  lemma BobText()
    ensures Print(Ext(241, 1, Quoted(Ascii("bob")))) == Ascii("241.1 \"bob\"")
  {
    hide PrintNum;
    Numbers();
  }

  lemma BobWire()
    ensures var a := Ext(241, 1, Quoted(Ascii("bob"))); Fits(a) && Wire(a) == [0xf1, 0x06, 0x01, 0x62, 0x6f, 0x62]
  {
  }

  lemma {:induction false} ExtendedString()
    ensures Encode(Ascii("241.1 \"bob\"")) == Ok([0xf1, 0x06, 0x01, 0x62, 0x6f, 0x62])
  {
    hide ParseAttr, Wire, Fits, Print, Encode;
    var a := Ext(241, 1, Quoted(Ascii("bob")));
    BobText();
    BobWire();
    BobPrintable();
    ParseOfPrint(a);
    Encodes(Print(a), a, [0xf1, 0x06, 0x01, 0x62, 0x6f, 0x62]);
  }

  lemma BobPrintable()
    ensures Printable(Ext(241, 1, Quoted(Ascii("bob"))))
  {
  }

  // ---- groups with other white space than the printer's -------------------------------------

  lemma {:induction false} TwoOctets(n: nat, x: Octet, y: Octet)
    requires NumOk(n)
    ensures var p := PrintNum(n) + ([SPACE] + (Hex.HexText([x, y]) + [SPACE]));
      ParseTlv(p) == Ok(Leaf(n, HexData([x, y]))) && Level(p, 0) && p != [] && !IsSpace(p[0])
  {
    hide ParseTlv, Level;
    var t := Leaf(n, HexData([x, y]));
    ParseTlvOfPrint(t, [SPACE], true);
    PrintedTlvLevel(t);
    LevelPlain([SPACE]);
    LevelConcat(PrintTlv(t), [SPACE], 0);
    assert PrintNum(n) + ([SPACE] + (Hex.HexText([x, y]) + [SPACE])) == PrintTlv(t) + [SPACE];
    PrintTlvHead(t);
  }

  function TwoText(n: nat, x: Octet, y: Octet): Str { PrintNum(n) + ([SPACE] + (Hex.HexText([x, y]) + [SPACE])) }

  const GROUPS := [Braced([], TwoText(1, 0x23, 0x45), [SPACE]), Braced([SPACE], TwoText(2, 0x67, 0x89), [])]

  const PAIR := More(Leaf(1, HexData([0x23, 0x45])), One(Leaf(2, HexData([0x67, 0x89]))))

  lemma {:induction false} GroupsRead()
    ensures ParseGroup(BracedText(GROUPS)) == Ok(PAIR) && BracedText(GROUPS) != [] && BracedText(GROUPS)[0] == LBRACE
  {
    hide ParseTlv, Level, TwoText, ParseGroup, BracedText;
    TwoTextRead(1, 0x23, 0x45);
    TwoTextRead(2, 0x67, 0x89);
    assert GROUPS[1..] == [Braced([SPACE], TwoText(2, 0x67, 0x89), [])];
    assert Braces(GROUPS[1..], PAIR.g);
    assert Braces(GROUPS, PAIR);
    BracesRead(GROUPS, PAIR);
  }

  lemma TwoTextRead(n: nat, x: Octet, y: Octet)
    requires NumOk(n)
    ensures var p := TwoText(n, x, y);
      ParseTlv(p) == Ok(Leaf(n, HexData([x, y]))) && Level(p, 0) && p != [] && !IsSpace(p[0])
  {
    hide ParseTlv, Level;
    TwoOctets(n, x, y);
  }

  lemma TwoTexts()
    ensures TwoText(1, 0x23, 0x45) == Ascii("1 23 45 ") && TwoText(2, 0x67, 0x89) == Ascii("2 67 89 ")
  {
    hide PrintNum;
    Numbers();
    assert [0x23, 0x45][1..] == [0x45] && [0x67, 0x89][1..] == [0x89];
    assert Hex.HexText([0x45]) == Ascii("45") && Hex.HexText([0x89]) == Ascii("89");
    assert Hex.HexText([0x23, 0x45]) == Ascii("23 45") && Hex.HexText([0x67, 0x89]) == Ascii("67 89");
  }

  lemma {:induction false} BracedAscii(b: Braced, x: string, y: string, z: string)
    requires b == Braced(Ascii(x), Ascii(y), Ascii(z))
    ensures [LBRACE] + (b.lead + b.tlv + ([RBRACE] + b.tail)) == Ascii("{" + (x + y + ("}" + z)))
  {
    hide Ascii;
    Signs();
    AsciiConcat(x, y);
    AsciiConcat("}", z);
    AsciiConcat(x + y, "}" + z);
    AsciiConcat("{", x + y + ("}" + z));
  }

  lemma Signs()
    ensures Ascii("{") == [LBRACE] && Ascii("}") == [RBRACE] && Ascii(" ") == [SPACE] && Ascii("") == []
    ensures Ascii(".") == [DOT]
  {
  }

  lemma {:induction false} GroupsText()
    ensures BracedText(GROUPS) == Ascii("{1 23 45 } { 2 67 89 }")
  {
    hide TwoText, Ascii;
    TwoTexts();
    Signs();
    var a, b := GROUPS[0], GROUPS[1];
    BracedAscii(a, "", "1 23 45 ", " ");
    BracedAscii(b, " ", "2 67 89 ", "");
    var first, second := "{" + ("" + "1 23 45 " + ("}" + " ")), "{" + (" " + "2 67 89 " + ("}" + ""));
    AsciiConcat(first, second);
    assert first + second == "{1 23 45 } { 2 67 89 }";
    TwoBraced(a, b);
  }

  lemma TwoBraced(a: Braced, b: Braced)
    ensures BracedText([a, b]) ==
      [LBRACE] + (a.lead + a.tlv + ([RBRACE] + a.tail)) + ([LBRACE] + (b.lead + b.tlv + ([RBRACE] + b.tail)))
  {
    assert [a, b][1..] == [b] && [b][1..] == [];
    assert b.tail + [] == b.tail;
    var rest := [LBRACE] + (b.lead + b.tlv + ([RBRACE] + b.tail));
    assert BracedText([b]) == rest;
    assert [LBRACE] + (a.lead + a.tlv + ([RBRACE] + (a.tail + rest))) ==
      [LBRACE] + (a.lead + a.tlv + ([RBRACE] + a.tail)) + rest;
  }

  lemma PairWire()
    ensures var a := Ext(241, 2, Group(PAIR));
      Fits(a) && Wire(a) == [0xf1, 0x0b, 0x02, 0x01, 0x04, 0x23, 0x45, 0x02, 0x04, 0x67, 0x89]
  {
    assert WireTlv(PAIR.t) == [0x01, 0x04, 0x23, 0x45];
    assert WireTlv(PAIR.g.t) == [0x02, 0x04, 0x67, 0x89];
    assert WireGroup(PAIR.g) == WireTlv(PAIR.g.t);
    assert WireGroup(PAIR) == WireTlv(PAIR.t) + WireGroup(PAIR.g);
  }

  lemma {:induction false} GroupData()
    ensures DataText([SPACE] + BracedText(GROUPS), Group(PAIR))
  {
    hide ParseGroup, BracedText;
    GroupsRead();
    var s := [SPACE] + BracedText(GROUPS);
    assert s[1..] == BracedText(GROUPS);
  }

  /** "x.y g" */
  lemma {:induction false} Dotted(x: string, y: string, g: string)
    ensures Ascii(x + ("." + (y + (" " + g)))) == Ascii(x) + ([DOT] + (Ascii(y) + ([SPACE] + Ascii(g))))
  {
    hide Ascii;
    Signs();
    AsciiConcat(" ", g);
    AsciiConcat(y, " " + g);
    AsciiConcat(".", y + (" " + g));
    AsciiConcat(x, "." + (y + (" " + g)));
  }

  lemma Literal()
    ensures "241" + ("." + ("2" + (" " + "{1 23 45 } { 2 67 89 }"))) == "241.2 {1 23 45 } { 2 67 89 }"
  {
  }

  lemma {:induction false} GroupsAttr(s: Str)
    requires s == PrintNum(241) + ([DOT] + (PrintNum(2) + ([SPACE] + BracedText(GROUPS))))
    ensures Encode(s) == Ok([0xf1, 0x0b, 0x02, 0x01, 0x04, 0x23, 0x45, 0x02, 0x04, 0x67, 0x89])
  {
    hide ParseAttr, Wire, Fits, Encode, BracedText, PrintNum, DataText;
    GroupData();
    PairWire();
    ParseExtended(241, 2, Group(PAIR), [SPACE] + BracedText(GROUPS));
    Encodes(s, Ext(241, 2, Group(PAIR)), [0xf1, 0x0b, 0x02, 0x01, 0x04, 0x23, 0x45, 0x02, 0x04, 0x67, 0x89]);
  }

  lemma {:induction false} ExtendedGroups()
    ensures Encode(Ascii("241.2 {1 23 45 } { 2 67 89 }")) ==
      Ok([0xf1, 0x0b, 0x02, 0x01, 0x04, 0x23, 0x45, 0x02, 0x04, 0x67, 0x89])
  {
    hide Encode, BracedText, PrintNum, Ascii;
    GroupsText();
    Numbers();
    Literal();
    Dotted("241", "2", "{1 23 45 } { 2 67 89 }");
    GroupsAttr(Ascii("241.2 {1 23 45 } { 2 67 89 }"));
  }

  // ---- vendors -------------------------------------------------------------------------------

  const TEST := Quoted(Ascii("test"))

  lemma EvsOfTest()
    ensures EvsOctets(1, 4, TEST) == [0x00, 0x00, 0x00, 0x01, 0x04, 0x74, 0x65, 0x73, 0x74]
    ensures FitsData(TEST) && |WireData(TEST)| == 4
  {
  }

  lemma VendorWires()
    ensures var a := ExtVs(241, 1, 4, TEST);
      Fits(a) && Wire(a) == [0xf1, 0x0c, 0x1a, 0x00, 0x00, 0x00, 0x01, 0x04, 0x74, 0x65, 0x73, 0x74]
    ensures var a := LongVs(245, 1, 4, TEST);
      Fits(a) && Wire(a) == [0xf5, 0x0d, 0x1a, 0x00, 0x00, 0x00, 0x00, 0x01, 0x04, 0x74, 0x65, 0x73, 0x74]
  {
    hide EvsOctets, WireData, FitsData;
    EvsOfTest();
  }

  lemma VendorPrintable()
    ensures Printable(ExtVs(241, 1, 4, TEST)) && Printable(LongVs(245, 1, 4, TEST))
  {
  }

  /** "n.26.1.4 g" */
  lemma {:induction false} VendorText(n: nat, x: string)
    requires PrintNum(n) == Ascii(x)
    ensures PrintNum(n) + ([DOT] + (PrintNum(26) + PrintVendor(1, PrintNum(4) + PrintData(TEST)))) ==
      Ascii(x + ".26.1.4 \"test\"")
  {
    hide PrintNum;
    Numbers();
    VendorTail();
    AsciiConcat(x, ".26.1.4 \"test\"");
  }

  lemma VendorTail()
    ensures [DOT] + (PrintNum(26) + PrintVendor(1, PrintNum(4) + PrintData(TEST))) == Ascii(".26.1.4 \"test\"")
  {
    hide PrintNum;
    Numbers();
  }

  lemma {:induction false} VendorTexts()
    ensures Print(ExtVs(241, 1, 4, TEST)) == Ascii("241" + ".26.1.4 \"test\"")
    ensures Print(LongVs(245, 1, 4, TEST)) == Ascii("245" + ".26.1.4 \"test\"")
  {
    hide PrintNum, PrintVendor, PrintData, Ascii;
    Numbers();
    VendorText(241, "241");
    VendorText(245, "245");
  }

  lemma {:induction false} ExtendedVendors()
    ensures Encode(Ascii("241.26.1.4 \"test\"")) ==
      Ok([0xf1, 0x0c, 0x1a, 0x00, 0x00, 0x00, 0x01, 0x04, 0x74, 0x65, 0x73, 0x74])
    ensures Encode(Ascii("245.26.1.4 \"test\"")) ==
      Ok([0xf5, 0x0d, 0x1a, 0x00, 0x00, 0x00, 0x00, 0x01, 0x04, 0x74, 0x65, 0x73, 0x74])
  {
    hide ParseAttr, Wire, Fits, Print, Printable, Encode, Ascii;
    var a, b := ExtVs(241, 1, 4, TEST), LongVs(245, 1, 4, TEST);
    VendorWires();
    VendorPrintable();
    VendorTexts();
    assert "241.26.1.4 \"test\"" == "241" + ".26.1.4 \"test\"";
    assert "245.26.1.4 \"test\"" == "245" + ".26.1.4 \"test\"";
    ParseOfPrint(a);
    ParseOfPrint(b);
    Encodes(Print(a), a, Wire(a));
    Encodes(Print(b), b, Wire(b));
  }

  // ---- upper case ------------------------------------------------------------------------------

  lemma {:induction false} MixedData()
    ensures DataText(Ascii(" FF  aB "), HexData([0xff, 0xab]))
  {
    hide Hex.HexDecode, HexMeaning.Spells, ParseGroup, QuotedBody;
    var s, t := Ascii(" FF  aB "), Ascii("FF  aB ");
    MixedSpells();
    HexMeaning.DecodeIff(t, 0, |t|, [0xff, 0xab]);
    assert s[0] == SPACE && t[0] == 70;
    assert s[1..] == t;
    assert SkipWs(t) == t;
  }

  lemma {:induction false} UpperCase()
    ensures Encode(Ascii("1 FF  aB ")) == Ok([0x01, 0x04, 0xff, 0xab])
  {
    hide ParseAttr, Encode, DataText, Ascii;
    var s := Ascii(" FF  aB ");
    MixedData();
    Numbers();
    AsciiConcat("1", " FF  aB ");
    ParsePlain(1, HexData([0xff, 0xab]), s);
    assert "1" + " FF  aB " == "1 FF  aB ";
    Encodes(PrintNum(1) + s, Plain(1, HexData([0xff, 0xab])), [0x01, 0x04, 0xff, 0xab]);
  }

  const GLYPHS := [HexMeaning.Glyph([], 70, 70), HexMeaning.Glyph([SPACE, SPACE], 97, 66)]

  lemma GlyphsWrite()
    ensures HexMeaning.Writes(GLYPHS, [0xff, 0xab])
  {
  }

  lemma GlyphsText()
    ensures HexMeaning.Written(GLYPHS, [SPACE]) == Ascii("FF  aB ")
  {
    assert GLYPHS[1..][1..] == [];
    assert HexMeaning.Written(GLYPHS[1..], [SPACE]) == Ascii("  aB ");
  }

  lemma MixedSpells()
    ensures HexMeaning.Spells(Ascii("FF  aB "), [0xff, 0xab])
  {
    hide HexMeaning.Writes, HexMeaning.Written, HexMeaning.Spells, Ascii;
    GlyphsWrite();
    GlyphsText();
    HexMeaning.WrittenSpells(GLYPHS, [0xff, 0xab], [SPACE]);
  }
}
