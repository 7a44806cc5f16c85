/**
 * UTF-8 as the browser's TextEncoder and TextDecoder use it: the encoding of
 * section 3 of RFC 3629, and the decoder of the WHATWG Encoding standard, which
 * never fails but replaces each maximal ill-formed subpart by U+FFFD and drops
 * a leading byte-order mark.
 */
module Utf8 {

  type byte = b: int | 0 <= b < 0x100

  const Replacement: char := '\U{FFFD}'
  const ByteOrderMark: char := '\U{FEFF}'

  /** The bytes of one scalar value. */
  function EncodeChar(c: char): (bs: seq<byte>)
    ensures 1 <= |bs| <= 4
    ensures (c as int < 0x80) <==> |bs| == 1
  {
    var n := c as int;
    if n < 0x80 then [n]
    else if n < 0x800 then [0xC0 + n / 0x40, 0x80 + n % 0x40]
    else if n < 0x1_0000 then [0xE0 + n / 0x1000, 0x80 + n / 0x40 % 0x40, 0x80 + n % 0x40]
    else [0xF0 + n / 0x4_0000, 0x80 + n / 0x1000 % 0x40, 0x80 + n / 0x40 % 0x40, 0x80 + n % 0x40]
  }

  /** TextEncoder.encode: the concatenated encodings of the characters. */
  function Encode(s: string): (bs: seq<byte>)
    ensures |s| <= |bs| <= 4 * |s|
  {
    if s == [] then [] else EncodeChar(s[0]) + Encode(s[1..])
  }

  lemma {:induction false} EncodeAppend(a: string, b: string)
    ensures Encode(a + b) == Encode(a) + Encode(b)
  {
    if a != [] {
      assert (a + b)[0] == a[0] && (a + b)[1..] == a[1..] + b;
      EncodeAppend(a[1..], b);
      calc {
        Encode(a + b);
        EncodeChar(a[0]) + Encode(a[1..] + b);
        EncodeChar(a[0]) + (Encode(a[1..]) + Encode(b));
        (EncodeChar(a[0]) + Encode(a[1..])) + Encode(b);
      }
    } else {
      assert a + b == b;
    }
  }

  /** One decoding step: a scalar value and its length, or an ill-formed subpart. */
  datatype Unit = Scalar(c: char, size: nat) | Malformed(size: nat)

  /** The number of trailing bytes a lead byte announces (0 for ASCII and for bytes that cannot lead). */
  function Needed(b0: byte): nat
  {
    if 0xC2 <= b0 <= 0xDF then 1
    else if 0xE0 <= b0 <= 0xEF then 2
    else if 0xF0 <= b0 <= 0xF4 then 3
    else 0
  }

  /** The range the first trailing byte must fall in after lead byte b0. */
  function LowerBound(b0: byte): byte
  {
    if b0 == 0xE0 then 0xA0 else if b0 == 0xF0 then 0x90 else 0x80
  }

  function UpperBound(b0: byte): byte
  {
    if b0 == 0xED then 0x9F else if b0 == 0xF4 then 0x8F else 0xBF
  }

  predicate IsTrailing(b: byte)
  {
    0x80 <= b <= 0xBF
  }

  /** How many of the trailing bytes that follow the lead byte are acceptable, stopping at the first that is not. */
  function Run(bs: seq<byte>): (k: nat)
    requires |bs| > 0
    ensures k <= Needed(bs[0]) && 1 + k <= |bs|
  {
    var need := Needed(bs[0]);
    if need == 0 || |bs| < 2 || !(LowerBound(bs[0]) <= bs[1] <= UpperBound(bs[0])) then 0
    else if need == 1 || |bs| < 3 || !IsTrailing(bs[2]) then 1
    else if need == 2 || |bs| < 4 || !IsTrailing(bs[3]) then 2
    else 3
  }

  /** The WHATWG UTF-8 decoder's handling of the bytes at the front of bs. */
  function Step(bs: seq<byte>): (u: Unit)
    requires |bs| > 0
    ensures 1 <= u.size <= |bs|
  {
    var b0: int := bs[0];
    if b0 < 0x80 then Scalar(b0 as char, 1)
    else
      var need := Needed(bs[0]);
      var k := Run(bs);
      if need == 0 || k < need then Malformed(1 + k)
      else
        var b1: int := bs[1];
        if need == 1 then Scalar(((b0 - 0xC0) * 0x40 + (b1 - 0x80)) as char, 2)
        else
          var b2: int := bs[2];
          if need == 2 then Scalar(((b0 - 0xE0) * 0x1000 + (b1 - 0x80) * 0x40 + (b2 - 0x80)) as char, 3)
          else
            var b3: int := bs[3];
            Scalar(((b0 - 0xF0) * 0x4_0000 + (b1 - 0x80) * 0x1000 + (b2 - 0x80) * 0x40 + (b3 - 0x80)) as char, 4)
  }

  /** Decoding without byte-order-mark handling: every ill-formed subpart becomes U+FFFD. */
  function DecodeLossy(bs: seq<byte>): (s: string)
    ensures |s| <= |bs|
    ensures bs != [] ==> s != []
    decreases |bs|
  {
    if bs == [] then []
    else
      match Step(bs)
      case Scalar(c, n) => [c] + DecodeLossy(bs[n..])
      case Malformed(n) => [Replacement] + DecodeLossy(bs[n..])
  }

  predicate StartsWithBom(bs: seq<byte>)
  {
    |bs| >= 3 && bs[0] == 0xEF && bs[1] == 0xBB && bs[2] == 0xBF
  }

  /** new TextDecoder().decode(bytes): a leading byte-order mark is dropped, nothing ever fails. */
  function TextDecode(bs: seq<byte>): (s: string)
    ensures |s| <= |bs|
  {
    if StartsWithBom(bs) then DecodeLossy(bs[3..]) else DecodeLossy(bs)
  }

  lemma StepOfTwoBytes(n: int, rest: seq<byte>)
    requires 0x80 <= n < 0x800
    ensures Step([0xC0 + n / 0x40, 0x80 + n % 0x40] + rest) == Scalar(n as char, 2)
  {
    var bs: seq<byte> := [0xC0 + n / 0x40, 0x80 + n % 0x40] + rest;
    assert Run(bs) == 1;
  }

  lemma StepOfThreeBytes(n: int, rest: seq<byte>)
    requires 0x800 <= n < 0x1_0000 && !(0xD800 <= n < 0xE000)
    ensures Step([0xE0 + n / 0x1000, 0x80 + n / 0x40 % 0x40, 0x80 + n % 0x40] + rest) == Scalar(n as char, 3)
  {
    var bs: seq<byte> := [0xE0 + n / 0x1000, 0x80 + n / 0x40 % 0x40, 0x80 + n % 0x40] + rest;
    var hi, mid, lo := n / 0x1000, n / 0x40 % 0x40, n % 0x40;
    assert n == hi * 0x1000 + mid * 0x40 + lo;
    assert Run(bs) == 2;
  }

  /** The four 3-, 6-, 6- and 6-bit groups of a supplementary scalar value. */
  lemma FourGroups(n: int)
    requires 0x1_0000 <= n < 0x11_0000
    ensures var top, hi, mid, lo := n / 0x4_0000, n / 0x1000 % 0x40, n / 0x40 % 0x40, n % 0x40;
      0 <= top <= 4 && 0 <= hi < 0x40 && 0 <= mid < 0x40 && 0 <= lo < 0x40
      && n == top * 0x4_0000 + hi * 0x1000 + mid * 0x40 + lo
      && (top == 0 ==> hi >= 0x10) && (top == 4 ==> hi < 0x10)
  {
    var q := n / 0x1000;
    assert n == q * 0x1000 + n % 0x1000;
    assert n % 0x1000 == n / 0x40 % 0x40 * 0x40 + n % 0x40;
    assert q == n / 0x4_0000 * 0x40 + q % 0x40;
  }

  lemma StepOfFourBytes(n: int, rest: seq<byte>)
    requires 0x1_0000 <= n < 0x11_0000
    ensures Step([0xF0 + n / 0x4_0000, 0x80 + n / 0x1000 % 0x40, 0x80 + n / 0x40 % 0x40, 0x80 + n % 0x40] + rest)
         == Scalar(n as char, 4)
  {
    FourGroups(n);
    var top, hi, mid, lo := n / 0x4_0000, n / 0x1000 % 0x40, n / 0x40 % 0x40, n % 0x40;
    var bs: seq<byte> := [0xF0 + top, 0x80 + hi, 0x80 + mid, 0x80 + lo] + rest;
    assert Needed(bs[0]) == 3;
    assert LowerBound(bs[0]) <= bs[1] <= UpperBound(bs[0]);
    assert Run(bs) == 3;
  }

  /** The decoder reads back exactly the scalar value the encoder wrote, whatever follows it. */
  lemma StepOfEncoded(c: char, rest: seq<byte>)
    ensures Step(EncodeChar(c) + rest) == Scalar(c, |EncodeChar(c)|)
  {
    var n := c as int;
    if n < 0x80 {
    } else if n < 0x800 {
      StepOfTwoBytes(n, rest);
    } else if n < 0x1_0000 {
      StepOfThreeBytes(n, rest);
    } else {
      StepOfFourBytes(n, rest);
    }
  }

  /** Decoding inverts encoding for every string (RFC 3629: the encoding is unambiguous). */
  lemma {:induction false} DecodeLossyEncode(s: string)
    ensures DecodeLossy(Encode(s)) == s
  {
    if s != [] {
      var head := EncodeChar(s[0]);
      var rest := Encode(s[1..]);
      StepOfEncoded(s[0], rest);
      assert (head + rest)[|head|..] == rest;
      DecodeLossyEncode(s[1..]);
    }
  }

  /** The encoding starts with EF BB BF exactly when the string starts with U+FEFF. */
  lemma BomPrefix(s: string)
    ensures StartsWithBom(Encode(s)) <==> (s != [] && s[0] == ByteOrderMark)
  {
    if s != [] {
      var bs := Encode(s);
      StepOfEncoded(s[0], Encode(s[1..]));
      if StartsWithBom(bs) {
        assert Step(bs) == Scalar(ByteOrderMark, 3);
      }
    }
  }

  /** TextDecoder reads back what TextEncoder wrote, unless the text starts with a byte-order mark. */
  lemma TextDecodeEncode(s: string)
    requires s == [] || s[0] != ByteOrderMark
    ensures TextDecode(Encode(s)) == s
  {
    BomPrefix(s);
    DecodeLossyEncode(s);
  }

  /** A leading byte-order mark does not survive the trip: exactly one is dropped. */
  lemma TextDecodeDropsBom(s: string)
    ensures TextDecode(Encode([ByteOrderMark] + s)) == s
  {
    var t := [ByteOrderMark] + s;
    BomPrefix(t);
    assert t[1..] == s;
    assert Encode(t) == EncodeChar(ByteOrderMark) + Encode(s);
    assert Encode(t)[3..] == Encode(s);
    DecodeLossyEncode(s);
  }

  /** Bytes that are not UTF-8 do not make the decoder fail: a lone trailing byte reads as U+FFFD. */
  lemma LoneTrailingByteIsReplaced()
    ensures TextDecode([0x80]) == [Replacement]
  {
    assert Step([0x80]) == Malformed(1);
    assert [0x80][1..] == [];
  }
}
