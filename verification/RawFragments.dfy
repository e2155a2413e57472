/** The fragmentation of long extended attributes, in place (section 2.2 of RFC 6929). */
module RawFragments {
  import opened Octets
  import opened RawWire
  import opened RawRoundTrip

  twostate predicate OnlyOut(out: array<Octet>, o: nat, outlen: nat)
    reads out
  {
    forall i :: 0 <= i < out.Length && !(o <= i < o + outlen) ==> out[i] == old(out[i])
  }

  /** At `off` stands a fragment header for type and extended type, counting `used` octets
      before the data, and after it the payload p. */
  ghost predicate Pending(out: array<Octet>, off: nat, typ: Octet, ext: Octet, used: nat, p: Str)
    reads out
  {
    && 4 <= used <= 9
    && off + 4 + |p| <= out.Length
    && out[off..off + 4] == [typ, used, ext, 0]
    && out[off + 4..off + 4 + |p|] == p
  }

  lemma HeadAt(out: array<Octet>, off: nat, head: Str)
    requires |head| == 4 && off + 4 <= out.Length && out[off..off + 4] == head
    ensures out[off] == head[0] && out[off + 1] == head[1] && out[off + 2] == head[2] && out[off + 3] == head[3]
  {
    assert out[off..off + 4][1] == out[off + 1] && out[off..off + 4][2] == out[off + 2];
    assert out[off..off + 4][0] == out[off] && out[off..off + 4][3] == out[off + 3];
  }

  /** memmove() of what does not fit, memcpy() of the header in front of it. */
  method MoveUp(out: array<Octet>, off: nat, slen: nat, ghost head: Str, ghost p: Str)
    requires off + 259 + slen <= out.Length && |p| == slen + PAYLOAD
    requires |head| == 4 && out[off..off + 4] == head && out[off + 4..off + 4 + |p|] == p
    modifies out
    ensures out[off..off + 4] == head && out[off + 4..off + 255] == p[..PAYLOAD]
    ensures out[off + 255..off + 259] == head && out[off + 259..off + 259 + slen] == p[PAYLOAD..]
    ensures OnlyOut(out, off, 8 + |p|)
  {
    ghost var was := out[..];
    MemMove(out, off + 255 + 4, off + 255, slen);
    assert out[off + 259..off + 259 + slen] == was[off + 255..off + 255 + slen] == p[PAYLOAD..];
    MemMove(out, off + 255, off, 4);
    assert out[off..off + 4] == was[off..off + 4];
    assert out[off + 4..off + 255] == was[off + 4..off + 255] == p[..PAYLOAD];
  }

  /** One round of the loop that does not end it: the octets that do not fit move up by
      four, a copy of the header goes in front of them, and the fragment is closed. */
  method CloseFragment(out: array<Octet>, off: nat, slen: nat, ghost typ: Octet, ghost ext: Octet, ghost p: Str)
    requires off + 2 <= out.Length && Pending(out, off, typ, ext, out[off + 1], p)
    requires |p| == slen + PAYLOAD > PAYLOAD
    requires off + 8 + |p| <= out.Length
    modifies out
    ensures out[off..off + 255] == Fragment(typ, ext, MORE, p[..PAYLOAD])
    ensures Pending(out, off + 255, typ, ext, 4, p[PAYLOAD..])
    ensures OnlyOut(out, off, 8 + |p|)
  {
    ghost var head := [typ, out[off + 1], ext, 0];
    MoveUp(out, off, slen, head, p);
    HeadAt(out, off, head);
    HeadAt(out, off + 255, head);
    out[off + 1] := 255;
    out[off + 3] := out[off + 3] + 128;
    out[off + 255 + 1] := 4;
    assert out[off + 4..off + 255] == p[..PAYLOAD];
    assert out[off..off + 255] == [typ, 255, ext, MORE] + out[off + 4..off + 255];
  }

  lemma {:induction false} FragmentsCut(typ: Octet, ext: Octet, p: Str)
    ensures |p| <= PAYLOAD ==> Fragments(typ, ext, p) == Fragment(typ, ext, 0, p)
    ensures |p| > PAYLOAD ==>
      Fragments(typ, ext, p) == Fragment(typ, ext, MORE, p[..PAYLOAD]) + Fragments(typ, ext, p[PAYLOAD..])
    ensures |Fragments(typ, ext, p)| >= |p| + 4
    ensures |p| > PAYLOAD ==> |Fragments(typ, ext, p)| >= |p| + 8
  {
    FragmentsSize(typ, ext, p);
    if |p| > PAYLOAD {
      FragmentsSize(typ, ext, p[PAYLOAD..]);
    }
  }

  /** The round that ends the loop: the last fragment gets its length. */
  method SealFragment(out: array<Octet>, off: nat, slen: nat, ghost typ: Octet, ghost ext: Octet, ghost p: Str)
    requires off + 2 <= out.Length && Pending(out, off, typ, ext, out[off + 1], p)
    requires |p| + 4 == slen + out[off + 1] <= 255
    modifies out
    ensures out[off + 1] == 4 + |p|
    ensures out[off..off + 4 + |p|] == Fragment(typ, ext, 0, p)
    ensures OnlyOut(out, off, 4 + |p|)
  {
    ghost var head := out[off..off + 4];
    assert head[0] == out[off] && head[2] == out[off + 2] && head[3] == out[off + 3];
    out[off + 1] := out[off + 1] + slen;
    assert out[off..off + 4] == [typ, 4 + |p|, ext, 0];
    assert out[off + 4..off + 4 + |p|] == p;
    assert out[off..off + 4 + |p|] == out[off..off + 4] + out[off + 4..off + 4 + |p|];
  }

  lemma PendingUsed(out: array<Octet>, off: nat, typ: Octet, ext: Octet, p: Str)
    requires off + 2 <= out.Length
    ensures Pending(out, off, typ, ext, out[off + 1], p) ==> 4 <= out[off + 1] <= 9
    ensures Pending(out, off, typ, ext, 4, p) ==> out[off + 1] == 4
    ensures |Fragment(typ, ext, 0, p)| == 4 + |p|
    ensures |p| >= PAYLOAD ==> |Fragment(typ, ext, MORE, p[..PAYLOAD])| == 255
  {
    if Pending(out, off, typ, ext, 4, p) {
      assert out[off + 1] == out[off..off + 4][1];
    }
  }

  /** The loop of encode_long_extended() up to its last round. */
  method CloseFragments(out: array<Octet>, o: nat, data: nat, ghost typ: Octet, ghost ext: Octet, ghost p: Str)
    returns (off: nat, slen: nat, ghost rest: Str)
    requires o + 2 <= out.Length && Pending(out, o, typ, ext, out[o + 1], p)
    requires |p| + 4 == data + out[o + 1]
    requires o + |Fragments(typ, ext, p)| <= out.Length
    modifies out
    ensures o <= off && off + 2 <= out.Length && Pending(out, off, typ, ext, out[off + 1], rest)
    ensures |rest| + 4 == slen + out[off + 1] <= 255
    ensures out[o..off] + Fragment(typ, ext, 0, rest) == Fragments(typ, ext, p)
    ensures OnlyOut(out, o, |Fragments(typ, ext, p)|)
  {
    hide Fragments, Fragment, Pending;
    slen, off, rest := data, o, p;
    ghost var done: Str := [];
    ghost var whole, todo := Fragments(typ, ext, p), Fragments(typ, ext, p);
    assert done + todo == todo;
    PendingUsed(out, off, typ, ext, rest);
    while slen > 255 - out[off + 1]
      invariant o <= off && off + 2 <= out.Length
      invariant 4 <= out[off + 1] <= 9
      invariant Pending(out, off, typ, ext, out[off + 1], rest)
      invariant |rest| + 4 == slen + out[off + 1]
      invariant todo == Fragments(typ, ext, rest)
      invariant off + |todo| <= out.Length
      invariant out[o..off] == done && whole == done + todo
      invariant OnlyOut(out, o, |whole|)
      decreases slen
    {
      FragmentsCut(typ, ext, rest);
      slen := slen - (255 - out[off + 1]);
      CloseFragment(out, off, slen, typ, ext, rest);
      ghost var first := Fragment(typ, ext, MORE, rest[..PAYLOAD]);
      assert out[o..off + 255] == done + first;
      off := off + 255;
      PendingUsed(out, off, typ, ext, rest[PAYLOAD..]);
      rest := rest[PAYLOAD..];
      todo := Fragments(typ, ext, rest);
      assert done + (first + todo) == done + first + todo;
      done := done + first;
    }
    FragmentsCut(typ, ext, rest);
  }

  /** The loop of encode_long_extended(): in place, the payload behind the header becomes
      the chain of fragments that carries it. */
  method FragmentInPlace(out: array<Octet>, o: nat, data: nat, ghost typ: Octet, ghost ext: Octet, ghost p: Str)
    returns (total: nat)
    requires o + 2 <= out.Length && Pending(out, o, typ, ext, out[o + 1], p)
    requires |p| + 4 == data + out[o + 1]
    requires o + |Fragments(typ, ext, p)| <= out.Length
    modifies out
    ensures total == |Fragments(typ, ext, p)| && out[o..o + total] == Fragments(typ, ext, p)
    ensures OnlyOut(out, o, total)
  {
    hide Fragments, Fragment, Pending;
    var off, slen;
    ghost var rest;
    off, slen, rest := CloseFragments(out, o, data, typ, ext, p);
    PendingUsed(out, off, typ, ext, rest);
    SealFragment(out, off, slen, typ, ext, rest);
    total := off - o + out[off + 1];
    assert out[o..o + total] == out[o..off] + out[off..o + total];
  }
}
