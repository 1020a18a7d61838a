/** UTF-8 as section 3 of RFC 3629 defines it, by encoding scalar values, and that the validity the server
    name parser relies on is exactly that. */
module Utf8Encoding {
  import opened Sni

  /** Every code point but the surrogates. */
  predicate IsScalar(c: int) {
    0 <= c < 0xD800 || 0xE000 <= c < 0x110000
  }

  function EncodeChar(c: int): (s: Bytes)
    requires IsScalar(c)
    ensures |s| > 0
  {
    if c < 0x80 then [c]
    else if c < 0x800 then [0xC0 + c / 64, 0x80 + c % 64]
    else if c < 0x10000 then [0xE0 + c / 4096, 0x80 + c / 64 % 64, 0x80 + c % 64]
    else [0xF0 + c / 262144, 0x80 + c / 4096 % 64, 0x80 + c / 64 % 64, 0x80 + c % 64]
  }

  function EncodeText(cs: seq<int>): Bytes
    requires forall c | c in cs :: IsScalar(c)
  {
    if cs == [] then [] else EncodeChar(cs[0]) + EncodeText(cs[1..])
  }

  // ---- A well-formed character encodes a scalar value ----

  lemma Pair(a: int, b: int) returns (c: int)
    requires 0xC2 <= a <= 0xDF && 0x80 <= b <= 0xBF
    ensures IsScalar(c) && EncodeChar(c) == [a, b]
  {
    c := (a - 0xC0) * 64 + (b - 0x80);
  }

  lemma Triple(a: int, b: int, d: int) returns (c: int)
    requires 0xE0 <= a <= 0xEF && 0x80 <= b <= 0xBF && 0x80 <= d <= 0xBF
    requires (a == 0xE0 ==> b >= 0xA0) && (a == 0xED ==> b <= 0x9F)
    ensures IsScalar(c) && EncodeChar(c) == [a, b, d]
  {
    var u := (a - 0xE0) * 64 + (b - 0x80);
    c := u * 64 + (d - 0x80);
    assert c / 64 == u && c % 64 == d - 0x80 && u % 64 == b - 0x80;
    assert c / 4096 == a - 0xE0;
  }

  lemma Quadruple(a: int, b: int, d: int, e: int) returns (c: int)
    requires 0xF0 <= a <= 0xF4 && 0x80 <= b <= 0xBF && 0x80 <= d <= 0xBF && 0x80 <= e <= 0xBF
    requires (a == 0xF0 ==> b >= 0x90) && (a == 0xF4 ==> b <= 0x8F)
    ensures IsScalar(c) && EncodeChar(c) == [a, b, d, e]
  {
    var u := (a - 0xF0) * 64 + (b - 0x80);
    var v := u * 64 + (d - 0x80);
    c := v * 64 + (e - 0x80);
    assert c / 64 == v && c % 64 == e - 0x80 && v % 64 == d - 0x80 && u % 64 == b - 0x80;
    assert c / 4096 == u && c / 262144 == a - 0xF0;
  }

  lemma CharEncodes(s: Bytes) returns (c: int)
    requires |s| > 0 && CharLength(s) > 0
    ensures IsScalar(c) && EncodeChar(c) == s[..CharLength(s)]
  {
    var n := CharLength(s);
    if n == 1 {
      c := s[0];
    } else if n == 2 {
      c := Pair(s[0], s[1]);
    } else if n == 3 {
      c := Triple(s[0], s[1], s[2]);
    } else {
      c := Quadruple(s[0], s[1], s[2], s[3]);
    }
  }

  lemma EncodingIsChar(c: int, rest: Bytes)
    requires IsScalar(c)
    ensures CharLength(EncodeChar(c) + rest) == |EncodeChar(c)|
  {
  }

  // ---- Whole texts ----

  lemma {:induction false} EncodingIsUtf8(cs: seq<int>)
    requires forall c | c in cs :: IsScalar(c)
    ensures Utf8(EncodeText(cs))
  {
    if cs != [] {
      var first, rest := EncodeChar(cs[0]), EncodeText(cs[1..]);
      EncodingIsChar(cs[0], rest);
      EncodingIsUtf8(cs[1..]);
      assert (first + rest)[|first|..] == rest;
    }
  }

  lemma {:induction false} Decoded(s: Bytes) returns (cs: seq<int>)
    requires Utf8(s)
    ensures (forall c | c in cs :: IsScalar(c)) && EncodeText(cs) == s
  {
    if s == [] {
      return [];
    }
    var n := CharLength(s);
    var c := CharEncodes(s);
    var rest := Decoded(s[n..]);
    cs := [c] + rest;
    assert cs[1..] == rest;
    assert s == s[..n] + s[n..];
  }

  ghost predicate Encodes(s: Bytes, cs: seq<int>) {
    (forall c | c in cs :: IsScalar(c)) && EncodeText(cs) == s
  }

  /** Well formed is being the encoding of some text of scalar values. */
  lemma Utf8Iff(s: Bytes)
    ensures Utf8(s) <==> exists cs :: Encodes(s, cs)
  {
    if Utf8(s) {
      var cs := Decoded(s);
      assert Encodes(s, cs);
    }
    forall cs | Encodes(s, cs) ensures Utf8(s) {
      EncodingIsUtf8(cs);
    }
  }
}
