/** Numbers as ASCII text, printed and parsed the way the standard library does it, and text split
    into lines and fields. */
module Text {
  import opened BitOps
  import opened Bytes
  import opened Wrappers

  const ZERO: byte := 0x30
  const PLUS: byte := 0x2b
  const TAB: byte := 0x09
  const LF: byte := 0x0a
  const CR: byte := 0x0d

  // ----- printing -----

  /** Decimal digits without leading zeros. */
  function Decimal(n: nat): (s: bytes)
    ensures |s| >= 1 && forall i :: 0 <= i < |s| ==> 0x30 <= s[i] <= 0x39
  {
    if n < 10 then [ZERO + n] else Decimal(n / 10) + [ZERO + n % 10]
  }

  /** Zero-padded on the left to at least `width` digits. */
  function PaddedDecimal(n: nat, width: nat): bytes {
    var s := Decimal(n);
    if |s| < width then seq(width - |s|, _ => ZERO) + s else s
  }

  function HexDigit(d: nat): (b: byte)
    requires d < 16
    ensures 0x30 <= b <= 0x39 || 0x61 <= b <= 0x66
  {
    if d < 10 then ZERO + d else 0x61 + (d - 10)
  }

  /** The low n hexadecimal digits, lower case, most significant first. */
  function Hex(v: nat, n: nat): (s: bytes)
    ensures |s| == n && forall i :: 0 <= i < n ==> 0x30 <= s[i] <= 0x66
  {
    if n == 0 then [] else Hex(v / 16, n - 1) + [HexDigit(v % 16)]
  }

  // ----- parsing -----

  function DigitValue(b: byte, radix: nat): (d: Option<nat>)
    ensures d.Some? ==> d.value < radix
  {
    var v := if 0x30 <= b <= 0x39 then b - 0x30
             else if 0x61 <= b <= 0x7a then b - 0x61 + 10
             else if 0x41 <= b <= 0x5a then b - 0x41 + 10
             else radix;
    if v < radix then Some(v) else None
  }

  function DigitsValue(s: bytes, radix: nat): Option<nat> {
    if s == [] then Some(0)
    else
      var front :- DigitsValue(s[..|s| - 1], radix);
      var last :- DigitValue(s[|s| - 1], radix);
      Some(front * radix + last)
  }

  /** `from_str_radix` for unsigned numbers: an optional plus, at least one digit, no overflow. */
  function ParseNumber(s: bytes, radix: nat, max: nat): (r: Option<nat>)
    ensures r.Some? ==> r.value <= max
  {
    var digits := if s != [] && s[0] == PLUS then s[1..] else s;
    if digits == [] then None
    else
      var v :- DigitsValue(digits, radix);
      if v <= max then Some(v) else None
  }

  lemma {:induction false} DecimalValue(n: nat)
    ensures DigitsValue(Decimal(n), 10) == Some(n)
  {
    if n >= 10 {
      DecimalValue(n / 10);
      assert Decimal(n)[..|Decimal(n)| - 1] == Decimal(n / 10);
    } else {
      assert Decimal(n)[..0] == [];
      assert DigitsValue([], 10) == Some(0);
    }
  }

  /** A printed decimal parses back, up to the limit of its type and no further. */
  lemma {:induction false} DecimalRoundTrip(n: nat, max: nat)
    ensures ParseNumber(Decimal(n), 10, max) == if n <= max then Some(n) else None
  {
    DecimalValue(n);
  }

  function Pow16(n: nat): (p: nat)
    ensures p >= 1
  {
    if n == 0 then 1 else 16 * Pow16(n - 1)
  }

  lemma {:induction false} HexValue(v: nat, n: nat)
    requires v < Pow16(n)
    ensures DigitsValue(Hex(v, n), 16) == Some(v)
  {
    if n > 0 {
      HexValue(v / 16, n - 1);
      assert Hex(v, n)[..n - 1] == Hex(v / 16, n - 1);
    }
  }

  lemma {:induction false} HexRoundTrip(v: nat, n: nat, max: nat)
    requires v < Pow16(n) && v <= max && n > 0
    ensures ParseNumber(Hex(v, n), 16, max) == Some(v)
  {
    HexValue(v, n);
  }

  lemma {:induction false} HexWidths()
    ensures Pow16(2) == 0x100 && Pow16(16) == 0x1_0000_0000_0000_0000
  {
    assert Pow16(1) == 0x10;
    assert Pow16(2) == 0x100;
    assert Pow16(4) == 0x1_0000;
    assert Pow16(8) == 0x1_0000_0000;
    assert Pow16(12) == 0x1_0000_0000_0000;
  }

  // ----- pieces -----

  /** The first place of a byte, or the length. */
  function IndexOf(s: bytes, b: byte): (n: nat)
    ensures n <= |s| && b !in s[..n] && (n < |s| ==> s[n] == b)
  {
    if s == [] || s[0] == b then 0 else IndexOf(s[1..], b) + 1
  }

  lemma {:induction false} IndexInFront(s: bytes, b: byte, rest: bytes)
    requires b !in s
    ensures IndexOf(s + [b] + rest, b) == |s|
  {
    var x := s + [b] + rest;
    if s != [] {
      IndexInFront(s[1..], b, rest);
      assert x[1..] == s[1..] + [b] + rest;
    }
  }

  lemma {:induction false} IndexAbsent(s: bytes, b: byte)
    requires b !in s
    ensures IndexOf(s, b) == |s|
  {
    if s != [] {
      IndexAbsent(s[1..], b);
    }
  }

  /** The pieces between separators. */
  function Split(s: bytes, b: byte): (r: seq<bytes>)
    ensures |r| >= 1
  {
    var n := IndexOf(s, b);
    if n == |s| then [s] else [s[..n]] + Split(s[n + 1..], b)
  }

  /** Pieces with a separator between each two. */
  function Join(pieces: seq<bytes>, b: byte): bytes
    requires pieces != []
  {
    if |pieces| == 1 then pieces[0] else pieces[0] + [b] + Join(pieces[1..], b)
  }

  lemma {:induction false} SplitJoin(pieces: seq<bytes>, b: byte)
    requires pieces != [] && forall i :: 0 <= i < |pieces| ==> b !in pieces[i]
    ensures Split(Join(pieces, b), b) == pieces
  {
    if |pieces| == 1 {
      IndexAbsent(pieces[0], b);
    } else {
      var rest := Join(pieces[1..], b);
      IndexInFront(pieces[0], b, rest);
      var s := pieces[0] + [b] + rest;
      assert s[..|pieces[0]|] == pieces[0] && s[|pieces[0]| + 1..] == rest;
      SplitJoin(pieces[1..], b);
    }
  }

  /** A line ending in a line feed loses one carriage return before it. */
  function StripCr(s: bytes): bytes {
    if s != [] && s[|s| - 1] == CR then s[..|s| - 1] else s
  }

  function Lines(text: bytes): seq<bytes> {
    if text == [] then []
    else
      var n := IndexOf(text, LF);
      if n == |text| then [text] else [StripCr(text[..n])] + Lines(text[n + 1..])
  }

  function Unlines(lines: seq<bytes>): bytes {
    if lines == [] then [] else lines[0] + [LF] + Unlines(lines[1..])
  }

  /** Text that is neither broken up nor trimmed. */
  predicate OneLine(s: bytes) {
    LF !in s && CR !in s
  }

  lemma {:induction false} LinesOfUnlines(lines: seq<bytes>)
    requires forall i :: 0 <= i < |lines| ==> OneLine(lines[i])
    ensures Lines(Unlines(lines)) == lines
  {
    if lines != [] {
      var rest := Unlines(lines[1..]);
      var text := lines[0] + [LF] + rest;
      IndexInFront(lines[0], LF, rest);
      assert text[..|lines[0]|] == lines[0] && text[|lines[0]| + 1..] == rest;
      LinesOfUnlines(lines[1..]);
    }
  }

  lemma {:induction false} UnlinesConcat(a: seq<bytes>, b: seq<bytes>)
    ensures Unlines(a + b) == Unlines(a) + Unlines(b)
  {
    if a == [] {
      assert a + b == b;
    } else {
      assert (a + b)[1..] == a[1..] + b;
      UnlinesConcat(a[1..], b);
    }
  }
}
