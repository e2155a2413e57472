/** Octets, octet strings and the C-string view shared by the text and wire models. */
module Octets {
  type Octet = x: int | 0 <= x < 256
  type Str = seq<Octet>

  const TAB: Octet := 9
  const CR: Octet := 13
  const SPACE: Octet := 32
  const QUOTE: Octet := 34
  const PLUS: Octet := 43
  const MINUS: Octet := 45
  const DOT: Octet := 46
  const ZERO: Octet := 48
  const BACKSLASH: Octet := 92
  const LBRACE: Octet := 123
  const RBRACE: Octet := 125

  /** isspace() in the C locale: tab, newline, vertical tab, form feed, carriage return, space. */
  predicate IsSpace(c: Octet) { c == SPACE || TAB <= c <= CR }

  predicate IsDigit(c: Octet) { ZERO <= c <= 57 }

  predicate AllSpace(s: Str) { forall i :: 0 <= i < |s| ==> IsSpace(s[i]) }

  /** fr_skip_whitespace(): what is left of `s` after its leading white space. */
  function SkipWs(s: Str): (t: Str)
    ensures |t| <= |s|
    ensures t != [] ==> !IsSpace(t[0])
  {
    if s != [] && IsSpace(s[0]) then SkipWs(s[1..]) else s
  }

  lemma {:induction false} SkipWsSuffix(s: Str)
    ensures SkipWs(s) == s[|s| - |SkipWs(s)|..]
    ensures AllSpace(s[..|s| - |SkipWs(s)|])
  {
    if s != [] && IsSpace(s[0]) {
      SkipWsSuffix(s[1..]);
      var n := |s| - |SkipWs(s)|;
      assert s[..n] == [s[0]] + s[1..][..n - 1];
    }
  }

  lemma {:induction false} SkipWsAll(w: Str, s: Str)
    requires AllSpace(w)
    requires s == [] || !IsSpace(s[0])
    ensures SkipWs(w + s) == s
  {
    if w == [] {
      assert w + s == s;
    } else {
      SkipWsAll(w[1..], s);
      assert (w + s)[1..] == w[1..] + s;
    }
  }

  /** There is a NUL behind text[p..e]. */
  ghost predicate Terminated(text: array<Octet>, p: nat, e: nat)
    reads text
  {
    p <= e < text.Length && text[e] == 0
  }

  /** text[p..e] is a C string: no NUL before the terminator at e. */
  ghost predicate CText(text: array<Octet>, p: nat, e: nat)
    reads text
  {
    Terminated(text, p, e) && forall i :: p <= i < e ==> text[i] != 0
  }

  lemma SubText(text: array<Octet>, p: nat, e: nat, a: nat, b: nat)
    requires p <= e <= text.Length && a <= b <= e - p
    ensures text[p..e][a..b] == text[p + a..p + b]
  {
    assert |text[p..e][a..b]| == |text[p + a..p + b]| == b - a;
    assert forall i :: 0 <= i < b - a ==> text[p..e][a..b][i] == text[p + a..p + b][i];
  }

  /** The loop behind fr_skip_whitespace(): it stops at the NUL at the latest. */
  method SkipSpaces(text: array<Octet>, p: nat, e: nat) returns (q: nat)
    requires Terminated(text, p, e)
    ensures p <= q <= e
    ensures text[q..e] == SkipWs(text[p..e])
  {
    q := p;
    while IsSpace(text[q])
      invariant p <= q <= e
      invariant SkipWs(text[p..e]) == SkipWs(text[q..e])
      decreases e - q
    {
      assert text[q..e][1..] == text[q + 1..e];
      q := q + 1;
    }
  }

  /** memmove(): source and destination may overlap. */
  method MemMove(a: array<Octet>, dst: nat, src: nat, n: nat)
    requires dst + n <= a.Length && src + n <= a.Length
    modifies a
    ensures a[dst..dst + n] == old(a[src..src + n])
    ensures forall i :: 0 <= i < a.Length && !(dst <= i < dst + n) ==> a[i] == old(a[i])
  {
    forall i | 0 <= i < n {
      a[dst + i] := a[src + i];
    }
  }
}
