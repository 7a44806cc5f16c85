/**
 * encodeURIComponent and decodeURIComponent as section 19.2.6 of ECMA-262
 * defines them (the Encode and Decode abstract operations, with the empty
 * reserved set of the "Component" variants): characters outside the unreserved
 * set travel as %XX escapes of their UTF-8 bytes; decoding fails (URIError) on a
 * malformed escape or on escaped bytes that are not one well-formed UTF-8
 * sequence, and copies every other character unchanged.
 */
module UriCodec {
  import opened Types
  import opened Utf8

  /** ECMA-262 uriAlpha, DecimalDigit and uriMark: the characters encodeURIComponent leaves alone. */
  predicate IsUnreserved(c: char)
  {
    ('A' <= c <= 'Z') || ('a' <= c <= 'z') || ('0' <= c <= '9')
    || c == '-' || c == '_' || c == '.' || c == '!' || c == '~' || c == '*' || c == '\'' || c == '(' || c == ')'
  }

  /** Upper-case hexadecimal digit, as Encode writes it. */
  function HexDigit(v: int): char
    requires 0 <= v < 16
  {
    if v < 10 then ('0' as int + v) as char else ('A' as int + (v - 10)) as char
  }

  predicate IsHex(c: char)
  {
    ('0' <= c <= '9') || ('A' <= c <= 'F') || ('a' <= c <= 'f')
  }

  function HexValue(c: char): (v: int)
    requires IsHex(c)
    ensures 0 <= v < 16
  {
    if '0' <= c <= '9' then c as int - '0' as int
    else if 'A' <= c <= 'F' then c as int - 'A' as int + 10
    else c as int - 'a' as int + 10
  }

  lemma HexRoundTrip(v: int)
    requires 0 <= v < 16
    ensures IsHex(HexDigit(v)) && HexValue(HexDigit(v)) == v
  {
  }

  /** "%XX" for one byte. */
  function Escape(b: byte): (e: string)
    ensures |e| == 3
  {
    ['%', HexDigit(b / 16), HexDigit(b % 16)]
  }

  function EscapeAll(bs: seq<byte>): (e: string)
    ensures |e| == 3 * |bs|
  {
    if bs == [] then [] else Escape(bs[0]) + EscapeAll(bs[1..])
  }

  /** What encodeURIComponent writes for one character. */
  function EncodeUnit(c: char): string
  {
    if IsUnreserved(c) then [c] else EscapeAll(EncodeChar(c))
  }

  /** encodeURIComponent (lone surrogates, on which it throws, do not occur in a Dafny string). */
  function EncodeURIComponent(s: string): string
  {
    if s == [] then [] else EncodeUnit(s[0]) + EncodeURIComponent(s[1..])
  }

  /** The byte of a "%XX" at the front of s, if there is one. */
  function EscapedByte(s: string): Option<byte>
  {
    if |s| >= 3 && s[0] == '%' && IsHex(s[1]) && IsHex(s[2]) then Some(HexValue(s[1]) * 16 + HexValue(s[2]))
    else None
  }

  /** The bytes of `count` consecutive escapes at the front of s. */
  function EscapedBytes(s: string, count: nat): (r: Option<seq<byte>>)
    ensures r.Some? ==> |r.value| == count && 3 * count <= |s|
    decreases count
  {
    if count == 0 then Some([])
    else
      match EscapedByte(s)
      case None => None
      case Some(b) =>
        match EscapedBytes(s[3..], count - 1)
        case None => None
        case Some(more) => Some([b] + more)
  }

  /** The sequence length a lead byte announces under Decode (0 where Decode throws: 10xxxxxx and 11111xxx). */
  function LeadLength(b: byte): nat
  {
    if b < 0x80 then 1
    else if b < 0xC0 then 0
    else if b < 0xE0 then 2
    else if b < 0xF0 then 3
    else if b < 0xF8 then 4
    else 0
  }

  /** One escaped character at the front of s (which starts with '%') and the number of characters it took. */
  function DecodeEscape(s: string): (r: Option<(char, nat)>)
    requires |s| > 0 && s[0] == '%'
    ensures r.Some? ==> 1 <= r.value.1 <= |s|
  {
    match EscapedByte(s)
    case None => None
    case Some(b) =>
      if b < 0x80 then Some((b as char, 3))
      else
        var n := LeadLength(b);
        if n == 0 then None
        else
          match EscapedBytes(s, n)
          case None => None
          case Some(octets) =>
            match Step(octets)
            case Scalar(c, m) => if m == n then Some((c, 3 * n)) else None
            case Malformed(_) => None
  }

  function Prepend(c: char, rest: Option<string>): Option<string>
  {
    match rest
    case None => None
    case Some(t) => Some([c] + t)
  }

  /** decodeURIComponent; None is the URIError it throws. */
  function DecodeURIComponent(s: string): Option<string>
    decreases |s|
  {
    if s == [] then Some([])
    else if s[0] != '%' then Prepend(s[0], DecodeURIComponent(s[1..]))
    else
      match DecodeEscape(s)
      case None => None
      case Some(r) => Prepend(r.0, DecodeURIComponent(s[r.1..]))
  }

  lemma EscapedByteOfEscape(b: byte, rest: string)
    ensures EscapedByte(Escape(b) + rest) == Some(b)
  {
    HexRoundTrip(b / 16);
    HexRoundTrip(b % 16);
  }

  lemma {:induction false} EscapedBytesOfEscapeAll(bs: seq<byte>, rest: string)
    ensures EscapedBytes(EscapeAll(bs) + rest, |bs|) == Some(bs)
  {
    if bs != [] {
      var t := EscapeAll(bs[1..]) + rest;
      var s := EscapeAll(bs) + rest;
      assert s == Escape(bs[0]) + t;
      EscapedByteOfEscape(bs[0], t);
      assert s[3..] == t;
      EscapedBytesOfEscapeAll(bs[1..], rest);
      assert EscapedBytes(s, |bs|) == Some([bs[0]] + bs[1..]);
      assert [bs[0]] + bs[1..] == bs;
    }
  }

  /** The lead byte of a multi-byte encoding announces the encoding's length. */
  lemma LeadLengthOfEncoded(c: char)
    ensures LeadLength(EncodeChar(c)[0]) == |EncodeChar(c)|
  {
  }

  /** An escaped ASCII character: one escape, decoded to the character. */
  lemma DecodeEscapeOfAscii(c: char, s: string)
    requires c as int < 0x80
    requires |s| >= 3 && s[0] == '%'
    requires EscapedByte(s) == Some(c as int)
    ensures DecodeEscape(s) == Some((c, 3))
  {
  }

  /** A character of two to four UTF-8 bytes: its escapes decode to it. */
  lemma DecodeEscapeOfMultiByte(c: char, s: string, rest: string)
    requires c as int >= 0x80
    requires s == EscapeAll(EncodeChar(c)) + rest
    requires EscapedByte(s) == Some(EncodeChar(c)[0])
    ensures s[0] == '%'
    ensures DecodeEscape(s) == Some((c, 3 * |EncodeChar(c)|))
  {
    var bs := EncodeChar(c);
    LeadLengthOfEncoded(c);
    EscapedBytesOfEscapeAll(bs, rest);
    StepOfEncoded(c, []);
    assert bs + [] == bs;
  }

  /** An escaped character decodes to itself and consumes exactly its escapes. */
  lemma DecodeEscapeOfEncoded(c: char, rest: string)
    requires !IsUnreserved(c)
    ensures EncodeUnit(c) != [] && EncodeUnit(c)[0] == '%'
    ensures DecodeEscape(EncodeUnit(c) + rest) == Some((c, |EncodeUnit(c)|))
  {
    var bs := EncodeChar(c);
    var s := EscapeAll(bs) + rest;
    assert EscapeAll(bs) == Escape(bs[0]) + EscapeAll(bs[1..]);
    assert s == Escape(bs[0]) + (EscapeAll(bs[1..]) + rest);
    EscapedByteOfEscape(bs[0], EscapeAll(bs[1..]) + rest);
    if c as int < 0x80 {
      DecodeEscapeOfAscii(c, s);
    } else {
      DecodeEscapeOfMultiByte(c, s, rest);
    }
  }

  /** decodeURIComponent inverts encodeURIComponent on every string. */
  lemma {:induction false} DecodeEncode(s: string)
    ensures DecodeURIComponent(EncodeURIComponent(s)) == Some(s)
  {
    if s != [] {
      var head := EncodeUnit(s[0]);
      var tail := EncodeURIComponent(s[1..]);
      var e := head + tail;
      DecodeEncode(s[1..]);
      if IsUnreserved(s[0]) {
        assert e[0] == s[0] && e[1..] == tail;
      } else {
        DecodeEscapeOfEncoded(s[0], tail);
        assert e[|head|..] == tail;
      }
      assert [s[0]] + s[1..] == s;
    }
  }

  /** A string with no '%' passes through decodeURIComponent unchanged. */
  lemma {:induction false} DecodeWithoutEscapes(s: string)
    requires forall i :: 0 <= i < |s| ==> s[i] != '%'
    ensures DecodeURIComponent(s) == Some(s)
  {
    if s != [] {
      DecodeWithoutEscapes(s[1..]);
      assert [s[0]] + s[1..] == s;
    }
  }

  /** A lone '%' makes decodeURIComponent throw. */
  lemma DecodeRejectsBareEscape()
    ensures DecodeURIComponent("%") == None
  {
  }

  /** decodeURIComponent throws at the first '%' that is not followed by two hex digits. */
  lemma {:induction false} DecodeRejectsMalformedEscape(p: string, rest: string)
    requires forall k :: 0 <= k < |p| ==> p[k] != '%'
    requires |rest| < 2 || !IsHex(rest[0]) || !IsHex(rest[1])
    ensures DecodeURIComponent(p + "%" + rest) == None
    decreases |p|
  {
    var s := p + "%" + rest;
    if p == [] {
      assert s == "%" + rest;
      assert EscapedByte(s) == None;
    } else {
      assert s[0] == p[0] && s[1..] == p[1..] + "%" + rest;
      DecodeRejectsMalformedEscape(p[1..], rest);
    }
  }

  /** encodeURIComponent's output is ASCII without '+', '&', '=' or '#', each of which it escapes. */
  lemma {:induction false} EncodedIsPlain(s: string)
    ensures forall i :: 0 <= i < |EncodeURIComponent(s)| ==>
      EncodeURIComponent(s)[i] == '%' || IsHex(EncodeURIComponent(s)[i]) || IsUnreserved(EncodeURIComponent(s)[i])
  {
    if s != [] {
      EncodedIsPlain(s[1..]);
      EscapeAllIsPlain(EncodeChar(s[0]));
      var e := EncodeURIComponent(s);
      var head := EncodeUnit(s[0]);
      forall i | 0 <= i < |e|
        ensures e[i] == '%' || IsHex(e[i]) || IsUnreserved(e[i])
      {
        if i >= |head| { assert e[i] == EncodeURIComponent(s[1..])[i - |head|]; }
      }
    }
  }

  lemma {:induction false} EscapeAllIsPlain(bs: seq<byte>)
    ensures forall i :: 0 <= i < |EscapeAll(bs)| ==> EscapeAll(bs)[i] == '%' || IsHex(EscapeAll(bs)[i])
  {
    if bs != [] {
      EscapeAllIsPlain(bs[1..]);
      var e := EscapeAll(bs);
      forall i | 0 <= i < |e| ensures e[i] == '%' || IsHex(e[i]) {
        if i >= 3 { assert e[i] == EscapeAll(bs[1..])[i - 3]; }
      }
    }
  }
}
