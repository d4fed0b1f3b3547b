/** The byte strings a manifest field may decode to are the UTF-8 encodings of RFC 3629. */
module Utf8 {
  import opened BitOps
  import opened Bytes
  import opened Manifest

  /** A character number outside the surrogates. */
  predicate Scalar(c: nat) {
    c < 0xd800 || 0xe000 <= c < 0x11_0000
  }

  /** Section 3 of RFC 3629. */
  function Encode(c: nat): bytes
    requires Scalar(c)
  {
    if c < 0x80 then [c]
    else if c < 0x800 then [0xc0 + c / 0x40, 0x80 + c % 0x40]
    else if c < 0x1_0000 then [0xe0 + c / 0x1000, 0x80 + c / 0x40 % 0x40, 0x80 + c % 0x40]
    else [0xf0 + c / 0x4_0000, 0x80 + c / 0x1000 % 0x40, 0x80 + c / 0x40 % 0x40, 0x80 + c % 0x40]
  }

  function EncodeAll(text: seq<nat>): bytes
    requires forall i :: 0 <= i < |text| ==> Scalar(text[i])
  {
    if text == [] then [] else Encode(text[0]) + EncodeAll(text[1..])
  }

  lemma {:induction false} TwoBytes(a: byte, b: byte) returns (c: nat)
    requires 0xc2 <= a <= 0xdf && 0x80 <= b <= 0xbf
    ensures Scalar(c) && Encode(c) == [a, b]
  {
    var high: nat, low: nat := a - 0xc0, b - 0x80;
    c := high * 0x40 + low;
    assert c / 0x40 == high && c % 0x40 == low;
  }

  lemma {:induction false} ThreeBytes(a: byte, b: byte, d: byte) returns (c: nat)
    requires 0xe0 <= a <= 0xef && 0x80 <= b <= 0xbf && 0x80 <= d <= 0xbf
    requires (a == 0xe0 ==> b >= 0xa0) && (a == 0xed ==> b <= 0x9f)
    ensures Scalar(c) && Encode(c) == [a, b, d]
  {
    var high: nat, middle: nat, low: nat := a - 0xe0, b - 0x80, d - 0x80;
    var front := high * 0x40 + middle;
    c := front * 0x40 + low;
    assert c / 0x40 == front && c % 0x40 == low && front / 0x40 == high && front % 0x40 == middle;
    assert c / 0x1000 == high;
  }

  lemma {:induction false} FourBytes(a: byte, b: byte, d: byte, e: byte) returns (c: nat)
    requires 0xf0 <= a <= 0xf4 && 0x80 <= b <= 0xbf && 0x80 <= d <= 0xbf && 0x80 <= e <= 0xbf
    requires (a == 0xf0 ==> b >= 0x90) && (a == 0xf4 ==> b <= 0x8f)
    ensures Scalar(c) && Encode(c) == [a, b, d, e]
  {
    var high: nat, upper: nat, lower: nat, low: nat := a - 0xf0, b - 0x80, d - 0x80, e - 0x80;
    var top := high * 0x40 + upper;
    var front := top * 0x40 + lower;
    c := front * 0x40 + low;
    assert c / 0x40 == front && c % 0x40 == low && front / 0x40 == top && front % 0x40 == lower;
    assert c / 0x1000 == top && top / 0x40 == high && top % 0x40 == upper && c / 0x4_0000 == high;
  }

  /** What is accepted in front is the encoding of a character. */
  lemma {:induction false} Front(s: bytes) returns (c: nat)
    requires RuneLength(s) > 0
    ensures Scalar(c) && Encode(c) == s[..RuneLength(s)]
  {
    var n := RuneLength(s);
    if n == 1 {
      c := s[0];
    } else if n == 2 {
      c := TwoBytes(s[0], s[1]);
    } else if n == 3 {
      c := ThreeBytes(s[0], s[1], s[2]);
    } else {
      c := FourBytes(s[0], s[1], s[2], s[3]);
    }
    assert n == 1 ==> s[..n] == [s[0]];
    assert n == 2 ==> s[..n] == [s[0], s[1]];
    assert n == 3 ==> s[..n] == [s[0], s[1], s[2]];
    assert n == 4 ==> s[..n] == [s[0], s[1], s[2], s[3]];
  }

  /** Every encoded character is accepted, whatever follows. */
  lemma {:induction false} FrontComplete(c: nat, rest: bytes)
    requires Scalar(c)
    ensures RuneLength(Encode(c) + rest) == |Encode(c)| > 0
  {
    var e := Encode(c);
    LeadingByte(c);
    hide Encode;
    RuneInFront(e, rest);
  }

  lemma {:induction false} LeadingByte(c: nat)
    requires Scalar(c)
    ensures RuneLength(Encode(c)) == |Encode(c)| > 0
  {
    assert c / 0x1000 == c / 0x40 / 0x40 && c / 0x4_0000 == c / 0x1000 / 0x40;
  }

  lemma {:induction false} RuneInFront(e: bytes, rest: bytes)
    requires RuneLength(e) == |e| > 0
    ensures RuneLength(e + rest) == |e|
  {
  }

  /** The accepted strings are exactly the encodings of characters. */
  lemma {:induction false} ValidIff(s: bytes)
    ensures ValidUtf8(s) <==>
            exists text: seq<nat> :: (forall i :: 0 <= i < |text| ==> Scalar(text[i])) && s == EncodeAll(text)
  {
    if ValidUtf8(s) {
      var text := Decoded(s);
    }
    if text: seq<nat> :| (forall i :: 0 <= i < |text| ==> Scalar(text[i])) && s == EncodeAll(text) {
      EncodedValid(text);
    }
  }

  lemma {:induction false} Decoded(s: bytes) returns (text: seq<nat>)
    requires ValidUtf8(s)
    ensures (forall i :: 0 <= i < |text| ==> Scalar(text[i])) && s == EncodeAll(text)
    decreases |s|
  {
    hide RuneLength, Encode;
    text := [];
    if s != [] {
      var n := RuneLength(s);
      var rest := Decoded(s[n..]);
      var c := Front(s);
      text := [c] + rest;
      assert text[1..] == rest && s == s[..n] + s[n..];
    }
  }

  lemma {:induction false} EncodedValid(text: seq<nat>)
    requires forall i :: 0 <= i < |text| ==> Scalar(text[i])
    ensures ValidUtf8(EncodeAll(text))
  {
    if text != [] {
      var first, rest := Encode(text[0]), EncodeAll(text[1..]);
      EncodedValid(text[1..]);
      FrontComplete(text[0], rest);
      assert |first| > 0 && (first + rest)[|first|..] == rest;
    }
  }
}
