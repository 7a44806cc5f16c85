/**
 * The browser's btoa and atob. btoa writes the base 64 encoding of section 4 of
 * RFC 4648 (alphabet A-Z a-z 0-9 + /, '=' padding) of a "binary string", one
 * whose characters are all below U+0100; atob is the forgiving-base64 decoder of
 * the WHATWG Infra standard, which ignores ASCII whitespace, accepts missing
 * padding, ignores the unused low bits of the final quantum and fails on
 * anything else.
 */
module Base64 {
  import opened Types
  import opened Utf8

  type sextet = v: int | 0 <= v < 0x40

  /** The alphabet of RFC 4648 section 4, table 1. */
  function Digit(v: sextet): char
  {
    if v < 26 then ('A' as int + v) as char
    else if v < 52 then ('a' as int + (v - 26)) as char
    else if v < 62 then ('0' as int + (v - 52)) as char
    else if v == 62 then '+'
    else '/'
  }

  predicate IsDigit(c: char)
  {
    ('A' <= c <= 'Z') || ('a' <= c <= 'z') || ('0' <= c <= '9') || c == '+' || c == '/'
  }

  predicate AllDigits(t: string)
  {
    forall i :: 0 <= i < |t| ==> IsDigit(t[i])
  }

  function ValueOf(c: char): sextet
    requires IsDigit(c)
  {
    if 'A' <= c <= 'Z' then c as int - 'A' as int
    else if 'a' <= c <= 'z' then c as int - 'a' as int + 26
    else if '0' <= c <= '9' then c as int - '0' as int + 52
    else if c == '+' then 62
    else 63
  }

  /** The digits of one final or inner quantum of 1, 2 or 3 bytes: 2, 3 or 4 digits, unpadded. */
  function Quantum(bs: seq<byte>): (q: string)
    requires 1 <= |bs| <= 3
    ensures |q| == |bs| + 1
  {
    var b0 := bs[0];
    var b1 := if |bs| > 1 then bs[1] else 0;
    var b2 := if |bs| > 2 then bs[2] else 0;
    var digits := [Digit(b0 / 4), Digit(b0 % 4 * 16 + b1 / 16), Digit(b1 % 16 * 4 + b2 / 64), Digit(b2 % 64)];
    digits[..|bs| + 1]
  }

  function Unpadded(bs: seq<byte>): string
    decreases |bs|
  {
    if |bs| == 0 then []
    else if |bs| <= 3 then Quantum(bs)
    else Quantum(bs[..3]) + Unpadded(bs[3..])
  }

  function Padding(n: nat): string
  {
    if n % 3 == 1 then "==" else if n % 3 == 2 then "=" else ""
  }

  /** The RFC 4648 section 4 encoding of a byte sequence. */
  function Encode(bs: seq<byte>): (e: string)
    ensures |e| == (|bs| + 2) / 3 * 4
  {
    UnpaddedLength(bs);
    PaddedLength(|bs|);
    Unpadded(bs) + Padding(|bs|)
  }

  /** The bytes of one quantum of 2, 3 or 4 digits (the low bits of a short final quantum are dropped). */
  function DecodeQuantum(q: string): (bs: seq<byte>)
    requires 2 <= |q| <= 4
    requires AllDigits(q)
    ensures |bs| == |q| - 1
  {
    var v0 := ValueOf(q[0]);
    var v1 := ValueOf(q[1]);
    var v2 := if |q| > 2 then ValueOf(q[2]) else 0;
    var v3 := if |q| > 3 then ValueOf(q[3]) else 0;
    var bytes := [v0 * 4 + v1 / 16, v1 % 16 * 16 + v2 / 4, v2 % 4 * 64 + v3];
    bytes[..|q| - 1]
  }

  function DecodeDigits(t: string): seq<byte>
    requires |t| % 4 != 1
    requires AllDigits(t)
    decreases |t|
  {
    if |t| == 0 then []
    else if |t| <= 4 then DecodeQuantum(t)
    else DecodeQuantum(t[..4]) + DecodeDigits(t[4..])
  }

  predicate IsAsciiWhitespace(c: char)
  {
    c == '\t' || c == '\n' || c == '\U{000C}' || c == '\r' || c == ' '
  }

  function StripWhitespace(s: string): (t: string)
    ensures forall i :: 0 <= i < |t| ==> !IsAsciiWhitespace(t[i])
  {
    if s == [] then []
    else if IsAsciiWhitespace(s[0]) then StripWhitespace(s[1..])
    else [s[0]] + StripWhitespace(s[1..])
  }

  /** When the length is a multiple of four, one or two trailing '=' are removed. */
  function StripPadding(t: string): string
  {
    if |t| % 4 != 0 || |t| == 0 || t[|t| - 1] != '=' then t
    else if |t| >= 2 && t[|t| - 2] == '=' then t[..|t| - 2]
    else t[..|t| - 1]
  }

  /** Forgiving-base64 decode over bytes; None is the InvalidCharacterError atob throws. */
  function Decode(s: string): Option<seq<byte>>
  {
    var t := StripPadding(StripWhitespace(s));
    if |t| % 4 == 1 then None
    else if !AllDigits(t) then None
    else Some(DecodeDigits(t))
  }

  /** A binary string holds one character per byte, U+0000 to U+00FF. */
  predicate IsBinary(s: string)
  {
    forall i :: 0 <= i < |s| ==> s[i] as int < 0x100
  }

  /** The binary string whose character codes are the given bytes. */
  function Latin1(bs: seq<byte>): (s: string)
    ensures |s| == |bs| && IsBinary(s)
    ensures forall i :: 0 <= i < |bs| ==> s[i] as int == bs[i]
  {
    seq(|bs|, i requires 0 <= i < |bs| => bs[i] as char)
  }

  /** The character codes of a binary string. */
  function Codes(s: string): (bs: seq<byte>)
    requires IsBinary(s)
    ensures |bs| == |s|
    ensures forall i :: 0 <= i < |s| ==> bs[i] == s[i] as int
  {
    seq(|s|, i requires 0 <= i < |s| => s[i] as int)
  }

  /** window.btoa: None is the InvalidCharacterError thrown for a character above U+00FF. */
  function Btoa(binary: string): (r: Option<string>)
    ensures r.Some? <==> IsBinary(binary)
    ensures r.Some? ==> |r.value| == (|binary| + 2) / 3 * 4
  {
    if IsBinary(binary) then Some(Encode(Codes(binary))) else None
  }

  /** window.atob: the decoded bytes as a binary string, or None where it throws. */
  function Atob(s: string): (r: Option<string>)
    ensures r.Some? ==> IsBinary(r.value)
    ensures r.Some? <==> Decode(s).Some?
  {
    match Decode(s)
    case None => None
    case Some(bs) => Some(Latin1(bs))
  }

  lemma DigitRoundTrip(v: sextet)
    ensures IsDigit(Digit(v)) && ValueOf(Digit(v)) == v
  {
  }

  lemma SplitArith(b0: byte, b1: byte, b2: byte)
    ensures b0 / 4 * 4 + (b0 % 4 * 16 + b1 / 16) / 16 == b0
    ensures (b0 % 4 * 16 + b1 / 16) % 16 * 16 + (b1 % 16 * 4 + b2 / 64) / 4 == b1
    ensures (b1 % 16 * 4 + b2 / 64) % 4 * 64 + b2 % 64 == b2
  {
  }

  lemma DecodeTwoDigits(v0: sextet, v1: sextet)
    ensures AllDigits([Digit(v0), Digit(v1)])
    ensures DecodeQuantum([Digit(v0), Digit(v1)]) == [v0 * 4 + v1 / 16]
  {
    DigitRoundTrip(v0);
    DigitRoundTrip(v1);
  }

  lemma DecodeThreeDigits(v0: sextet, v1: sextet, v2: sextet)
    ensures AllDigits([Digit(v0), Digit(v1), Digit(v2)])
    ensures DecodeQuantum([Digit(v0), Digit(v1), Digit(v2)]) == [v0 * 4 + v1 / 16, v1 % 16 * 16 + v2 / 4]
  {
    DigitRoundTrip(v0);
    DigitRoundTrip(v1);
    DigitRoundTrip(v2);
  }

  lemma DecodeFourDigits(v0: sextet, v1: sextet, v2: sextet, v3: sextet)
    ensures AllDigits([Digit(v0), Digit(v1), Digit(v2), Digit(v3)])
    ensures DecodeQuantum([Digit(v0), Digit(v1), Digit(v2), Digit(v3)])
         == [v0 * 4 + v1 / 16, v1 % 16 * 16 + v2 / 4, v2 % 4 * 64 + v3]
  {
    DigitRoundTrip(v0);
    DigitRoundTrip(v1);
    DigitRoundTrip(v2);
    DigitRoundTrip(v3);
  }

  lemma QuantumOfOne(b0: byte)
    ensures AllDigits(Quantum([b0])) && DecodeQuantum(Quantum([b0])) == [b0]
  {
    var v0: sextet, v1: sextet := b0 / 4, b0 % 4 * 16;
    assert Quantum([b0]) == [Digit(v0), Digit(v1)];
    DecodeTwoDigits(v0, v1);
    SplitArith(b0, 0, 0);
  }

  lemma QuantumOfTwo(b0: byte, b1: byte)
    ensures AllDigits(Quantum([b0, b1])) && DecodeQuantum(Quantum([b0, b1])) == [b0, b1]
  {
    var v0: sextet, v1: sextet, v2: sextet := b0 / 4, b0 % 4 * 16 + b1 / 16, b1 % 16 * 4;
    assert Quantum([b0, b1]) == [Digit(v0), Digit(v1), Digit(v2)];
    DecodeThreeDigits(v0, v1, v2);
    SplitArith(b0, b1, 0);
  }

  lemma QuantumOfThree(b0: byte, b1: byte, b2: byte)
    ensures AllDigits(Quantum([b0, b1, b2])) && DecodeQuantum(Quantum([b0, b1, b2])) == [b0, b1, b2]
  {
    var v0: sextet, v1: sextet, v2: sextet, v3: sextet := b0 / 4, b0 % 4 * 16 + b1 / 16, b1 % 16 * 4 + b2 / 64, b2 % 64;
    assert Quantum([b0, b1, b2]) == [Digit(v0), Digit(v1), Digit(v2), Digit(v3)];
    DecodeFourDigits(v0, v1, v2, v3);
    SplitArith(b0, b1, b2);
  }

  /** A quantum is all alphabet digits and decodes back to its bytes. */
  lemma QuantumRoundTrip(bs: seq<byte>)
    requires 1 <= |bs| <= 3
    ensures AllDigits(Quantum(bs))
    ensures DecodeQuantum(Quantum(bs)) == bs
  {
    if |bs| == 1 {
      QuantumOfOne(bs[0]);
      assert bs == [bs[0]];
    } else if |bs| == 2 {
      QuantumOfTwo(bs[0], bs[1]);
      assert bs == [bs[0], bs[1]];
    } else {
      QuantumOfThree(bs[0], bs[1], bs[2]);
      assert bs == [bs[0], bs[1], bs[2]];
    }
  }

  /** The digit count: four per full quantum, and 2 or 3 for a final short one. */
  function DigitCount(n: nat): nat
  {
    n / 3 * 4 + (if n % 3 == 0 then 0 else n % 3 + 1)
  }

  lemma DigitCountMod(n: nat)
    ensures DigitCount(n) % 4 == (if n % 3 == 0 then 0 else n % 3 + 1)
    ensures DigitCount(n) == 0 <==> n == 0
  {
    var k := n / 3;
    assert DigitCount(n) == 4 * k + (if n % 3 == 0 then 0 else n % 3 + 1);
  }

  /** The digits and the padding fill whole groups of four: 4 per started group of three bytes. */
  lemma PaddedLength(n: nat)
    ensures DigitCount(n) + |Padding(n)| == (n + 2) / 3 * 4
  {
    var k, r := n / 3, n % 3;
    assert n == 3 * k + r;
    assert DigitCount(n) == 4 * k + (if r == 0 then 0 else r + 1);
    if r == 0 {
      assert (n + 2) / 3 == k;
    } else {
      assert (n + 2) / 3 == k + 1;
    }
  }

  lemma {:induction false} UnpaddedLength(bs: seq<byte>)
    ensures |Unpadded(bs)| == DigitCount(|bs|)
    decreases |bs|
  {
    if |bs| > 3 {
      UnpaddedLength(bs[3..]);
      assert |bs[3..]| == |bs| - 3;
      assert DigitCount(|bs|) == DigitCount(|bs| - 3) + 4;
    }
  }

  lemma AllDigitsAppend(a: string, b: string)
    requires AllDigits(a) && AllDigits(b)
    ensures AllDigits(a + b)
  {
    forall i | 0 <= i < |a + b| ensures IsDigit((a + b)[i]) {
      if i >= |a| { assert (a + b)[i] == b[i - |a|]; }
    }
  }

  /** The unpadded digits are alphabet characters and decode back to the bytes. */
  lemma {:induction false} UnpaddedRoundTrip(bs: seq<byte>)
    ensures AllDigits(Unpadded(bs)) && |Unpadded(bs)| % 4 != 1
    ensures DecodeDigits(Unpadded(bs)) == bs
    decreases |bs|
  {
    UnpaddedLength(bs);
    DigitCountMod(|bs|);
    if |bs| == 0 {
    } else if |bs| <= 3 {
      QuantumRoundTrip(bs);
    } else {
      var q := Quantum(bs[..3]);
      var rest := Unpadded(bs[3..]);
      QuantumRoundTrip(bs[..3]);
      UnpaddedRoundTrip(bs[3..]);
      AllDigitsAppend(q, rest);
      var t := q + rest;
      assert t == Unpadded(bs);
      assert t[..4] == q && t[4..] == rest;
      assert |rest| >= 2 && |t| == |rest| + 4;
      assert bs == bs[..3] + bs[3..];
    }
  }

  lemma {:induction false} StripWhitespaceOfDigits(t: string)
    requires forall i :: 0 <= i < |t| ==> IsDigit(t[i]) || t[i] == '='
    ensures StripWhitespace(t) == t
  {
    if t != [] {
      StripWhitespaceOfDigits(t[1..]);
      assert [t[0]] + t[1..] == t;
    }
  }

  lemma StripNoPadding(u: string)
    requires AllDigits(u) && |u| % 4 == 0
    ensures StripPadding(u) == u
  {
    if |u| >= 1 { assert IsDigit(u[|u| - 1]); }
  }

  lemma StripTwoPads(u: string)
    requires AllDigits(u) && |u| % 4 == 2
    ensures StripPadding(u + "==") == u
  {
    var e := u + "==";
    assert e[|e| - 1] == '=' && e[|e| - 2] == '=';
    assert e[..|e| - 2] == u;
  }

  lemma StripOnePad(u: string)
    requires AllDigits(u) && |u| % 4 == 3
    ensures StripPadding(u + "=") == u
  {
    var e := u + "=";
    assert e[|e| - 1] == '=' && e[|e| - 2] == u[|u| - 1];
    assert IsDigit(u[|u| - 1]);
    assert e[..|e| - 1] == u;
  }

  /** btoa writes only alphabet characters and '='. */
  lemma EncodedAlphabet(bs: seq<byte>)
    ensures forall i :: 0 <= i < |Encode(bs)| ==> IsDigit(Encode(bs)[i]) || Encode(bs)[i] == '='
  {
    UnpaddedRoundTrip(bs);
    var u := Unpadded(bs);
    var e := Encode(bs);
    forall i | 0 <= i < |e| ensures IsDigit(e[i]) || e[i] == '=' {
      if i < |u| { assert e[i] == u[i]; }
    }
  }

  /** Stripping whitespace and padding from an encoding leaves its unpadded digits. */
  lemma StripEncoded(bs: seq<byte>)
    ensures StripPadding(StripWhitespace(Encode(bs))) == Unpadded(bs)
  {
    UnpaddedRoundTrip(bs);
    UnpaddedLength(bs);
    DigitCountMod(|bs|);
    EncodedAlphabet(bs);
    StripWhitespaceOfDigits(Encode(bs));
    var u := Unpadded(bs);
    if |bs| % 3 == 0 {
      assert Encode(bs) == u;
      StripNoPadding(u);
    } else if |bs| % 3 == 1 {
      assert Encode(bs) == u + "==";
      StripTwoPads(u);
    } else {
      assert Encode(bs) == u + "=";
      StripOnePad(u);
    }
  }

  /** atob inverts btoa's encoding for every byte sequence. */
  lemma DecodeEncode(bs: seq<byte>)
    ensures Decode(Encode(bs)) == Some(bs)
  {
    UnpaddedRoundTrip(bs);
    StripEncoded(bs);
  }

  /** What btoa produces, atob accepts and turns back into the same binary string. */
  lemma AtobBtoa(binary: string)
    requires IsBinary(binary)
    ensures Btoa(binary).Some?
    ensures Atob(Btoa(binary).value) == Some(binary)
  {
    DecodeEncode(Codes(binary));
    assert Latin1(Codes(binary)) == binary;
  }

  /** A character that is not whitespace survives the whitespace removal. */
  lemma {:induction false} StripWhitespaceKeeps(s: string, i: nat)
    requires i < |s| && !IsAsciiWhitespace(s[i])
    ensures s[i] in StripWhitespace(s)
  {
    if i > 0 {
      StripWhitespaceKeeps(s[1..], i - 1);
      assert s[1..][i - 1] == s[i];
    }
  }

  /** Only '=' characters are removed as padding. */
  lemma StripPaddingKeeps(t: string, c: char)
    requires c in t && c != '='
    ensures c in StripPadding(t)
  {
    var k :| 0 <= k < |t| && t[k] == c;
    var u := StripPadding(t);
    if u != t {
      assert k < |u| && u[k] == c;
    }
  }

  /** atob throws on any character that is neither an alphabet digit, nor ASCII whitespace, nor '='. */
  lemma AtobRejectsForeign(s: string, i: nat)
    requires i < |s| && !IsDigit(s[i]) && !IsAsciiWhitespace(s[i]) && s[i] != '='
    ensures Atob(s) == None
  {
    StripWhitespaceKeeps(s, i);
    StripPaddingKeeps(StripWhitespace(s), s[i]);
  }

  /** atob's failure cases: a lone digit in the last quantum, or a character outside the alphabet. */
  lemma AtobRejects()
    ensures Atob("QUJDR") == None
    ensures Atob("QU%J") == None
  {
    var t := "QUJDR";
    assert StripWhitespace(t[4..]) == t[4..];
    assert StripWhitespace(t) == t;
    assert StripPadding(t) == t;
    var u := "QU%J";
    assert StripWhitespace(u) == u;
    assert StripPadding(u) == u;
    assert !IsDigit(u[2]);
  }
}
