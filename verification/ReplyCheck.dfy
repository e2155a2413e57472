/** radclient's check of a raw reply to an Access-Request: code, identifier, and that every
    Proxy-State in it is one that was sent, in the order sent (section 5.33 of RFC 2865). */
module ReplyCheck {
  import opened Octets

  const ACCESS_ACCEPT := 2
  const ACCESS_REJECT := 3
  const ACCESS_CHALLENGE := 11
  const PROXY_STATE := 33
  const MESSAGE_AUTHENTICATOR := 80
  const HEADER := 20

  datatype Attribute = Attribute(typ: Octet, value: Str)

  /** Octets `at` onwards are whole attributes; fr_packet_ok() has checked this. */
  predicate WellFormed(data: Str, at: nat)
    decreases |data| - at
  {
    at == |data| ||
    (at + 2 <= |data| && 2 <= data[at + 1] && at + data[at + 1] <= |data| && WellFormed(data, at + data[at + 1]))
  }

  /** The attributes of a packet, in order (section 5 of RFC 2865). */
  function Attributes(data: Str, at: nat): seq<Attribute>
    requires WellFormed(data, at)
    decreases |data| - at
  {
    if at == |data| then []
    else
      var end := at + data[at + 1];
      [Attribute(data[at], data[at + 2..end])] + Attributes(data, end)
  }

  /** Attributes as they stand in a packet. */
  function Packed(attrs: seq<Attribute>): Str
    requires forall k :: 0 <= k < |attrs| ==> |attrs[k].value| <= 253
  {
    if attrs == [] then [] else [attrs[0].typ, 2 + |attrs[0].value|] + attrs[0].value + Packed(attrs[1..])
  }

  lemma AttributesStep(data: Str, at: nat, a: Attribute)
    requires |a.value| <= 253 && at + 2 + |a.value| <= |data|
    requires data[at..at + 2 + |a.value|] == [a.typ, 2 + |a.value|] + a.value
    requires WellFormed(data, at + 2 + |a.value|)
    ensures WellFormed(data, at) && Attributes(data, at) == [a] + Attributes(data, at + 2 + |a.value|)
  {
    var n := 2 + |a.value|;
    assert data[at] == data[at..at + n][0] && data[at + 1] == data[at..at + n][1];
    assert data[at + 2..at + n] == data[at..at + n][2..] == a.value;
  }

  /** The attributes read from a packet are those it was made of, whatever stands before them. */
  lemma {:induction false} AttributesOfPacked(head: Str, attrs: seq<Attribute>)
    requires forall k :: 0 <= k < |attrs| ==> |attrs[k].value| <= 253
    ensures var data := head + Packed(attrs);
      WellFormed(data, |head|) && Attributes(data, |head|) == attrs
    decreases |attrs|
  {
    hide WellFormed, Attributes;
    var data := head + Packed(attrs);
    if attrs == [] {
      AttributesEnd(data);
    } else {
      var a, rest := attrs[0], attrs[1..];
      var one := [a.typ, 2 + |a.value|] + a.value;
      AttributesOfPacked(head + one, rest);
      assert head + one + Packed(rest) == data;
      AttributesStep(data, |head|, a);
      assert [a] + rest == attrs;
    }
  }

  lemma AttributesEnd(data: Str)
    ensures WellFormed(data, |data|) && Attributes(data, |data|) == []
  {
  }

  function ProxyStates(attrs: seq<Attribute>): seq<Str> {
    if attrs == [] then []
    else (if attrs[0].typ == PROXY_STATE then [attrs[0].value] else []) + ProxyStates(attrs[1..])
  }

  predicate Signed(attrs: seq<Attribute>) {
    exists k :: 0 <= k < |attrs| && attrs[k].typ == MESSAGE_AUTHENTICATOR
  }

  predicate CodeOk(code: Octet) { code in {ACCESS_ACCEPT, ACCESS_REJECT, ACCESS_CHALLENGE} }

  lemma {:induction false} ProxyStatesHead(a: Attribute, rest: seq<Attribute>)
    ensures ProxyStates([a] + rest) == (if a.typ == PROXY_STATE then [a.value] else []) + ProxyStates(rest)
    ensures Signed([a] + rest) <==> a.typ == MESSAGE_AUTHENTICATOR || Signed(rest)
  {
    var all := [a] + rest;
    assert all[1..] == rest;
    if Signed(rest) {
      var k :| 0 <= k < |rest| && rest[k].typ == MESSAGE_AUTHENTICATOR;
      assert all[k + 1] == rest[k];
    }
    if a.typ == MESSAGE_AUTHENTICATOR {
      assert all[0] == a;
    }
  }

  /** blast_radius_check().  `sent` are the values of the request's Proxy-States in order; -b
      demands a Message-Authenticator.  The reply is accepted exactly when its code and
      identifier answer the request, its Proxy-States are a prefix of those sent, and it is
      signed if that is demanded. */
  method BlastRadiusCheck(data: Str, id: Octet, sent: seq<Str>, b: bool) returns (r: int)
    requires |data| >= HEADER && WellFormed(data, HEADER)
    ensures r == 0 || r == -1
    ensures var attrs := Attributes(data, HEADER);
      r == 0 <==> CodeOk(data[0]) && data[1] == id && ProxyStates(attrs) <= sent && (b ==> Signed(attrs))
  {
    hide ProxyStates, Signed;
    if !CodeOk(data[0]) || data[1] != id {
      return -1;
    }
    var at, vp, signed := HEADER, 0, false;
    ghost var attrs := Attributes(data, HEADER);
    assert sent[..0] + ProxyStates(attrs) == ProxyStates(attrs);
    while at < |data|
      invariant HEADER <= at <= |data| && WellFormed(data, at)
      invariant 0 <= vp <= |sent|
      invariant ProxyStates(attrs) == sent[..vp] + ProxyStates(Attributes(data, at))
      invariant Signed(attrs) <==> signed || Signed(Attributes(data, at))
      decreases |data| - at
    {
      var end := at + data[at + 1];
      ghost var a, rest := Attribute(data[at], data[at + 2..end]), Attributes(data, end);
      ProxyStatesHead(a, rest);
      if data[at] == MESSAGE_AUTHENTICATOR {
        signed := true;
        assert [] + ProxyStates(rest) == ProxyStates(rest);
      } else if data[at] == PROXY_STATE {
        if vp == |sent| || |sent[vp]| != data[at + 1] - 2 || sent[vp] != data[at + 2..end] {
          NotPrefix(sent, vp, a.value, ProxyStates(rest));
          return -1;
        }
        assert sent[..vp] + ([a.value] + ProxyStates(rest)) == sent[..vp + 1] + ProxyStates(rest);
        vp := vp + 1;
      } else {
        assert [] + ProxyStates(rest) == ProxyStates(rest);
      }
      at := end;
    }
    NoAttributes();
    assert sent[..vp] + [] == sent[..vp] <= sent;
    if b && !signed {
      return -1;
    }
    return 0;
  }

  lemma NoAttributes()
    ensures ProxyStates([]) == [] && !Signed([])
  {
  }

  lemma NotPrefix(sent: seq<Str>, vp: nat, v: Str, rest: seq<Str>)
    requires vp <= |sent| && (vp == |sent| || sent[vp] != v)
    ensures !(sent[..vp] + ([v] + rest) <= sent)
  {
    var all := sent[..vp] + ([v] + rest);
    assert all[vp] == v;
  }
}
