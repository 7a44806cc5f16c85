/**
 * new URLSearchParams(location.search): the application/x-www-form-urlencoded
 * parser of the WHATWG URL standard. A leading '?' is dropped, the rest is split
 * on '&', empty pieces are skipped, each piece splits at its first '=' into name
 * and value, '+' reads as a space, %XX escapes are decoded leniently (a '%' not
 * followed by two hex digits stays as it is) and the bytes are read back as
 * UTF-8 without byte-order-mark handling.
 */
module SearchParams {
  import opened Types
  import opened Utf8
  import opened UriCodec

  datatype Param = Param(name: string, value: string)

  /** The position of the first c in s, or |s| if there is none. */
  function IndexOf(s: string, c: char): (i: nat)
    ensures i <= |s|
    ensures i < |s| ==> s[i] == c
    ensures forall j :: 0 <= j < i ==> s[j] != c
  {
    if s == [] then 0
    else if s[0] == c then 0
    else 1 + IndexOf(s[1..], c)
  }

  /** Splitting on '&' (always at least one piece). */
  function SplitOnAmpersand(s: string): (pieces: seq<string>)
    ensures |pieces| >= 1
    decreases |s|
  {
    var i := IndexOf(s, '&');
    if i == |s| then [s] else [s[..i]] + SplitOnAmpersand(s[i + 1..])
  }

  function ReplacePlus(s: string): (t: string)
    ensures |t| == |s|
    ensures forall i :: 0 <= i < |s| ==> t[i] == (if s[i] == '+' then ' ' else s[i])
  {
    seq(|s|, i requires 0 <= i < |s| => if s[i] == '+' then ' ' else s[i])
  }

  /** The URL standard's percent-decode of a byte sequence. */
  function PercentDecodeBytes(bs: seq<byte>): seq<byte>
    decreases |bs|
  {
    if bs == [] then []
    else if bs[0] == 0x25 && |bs| >= 3 && IsHex(bs[1] as char) && IsHex(bs[2] as char) then
      [HexValue(bs[1] as char) * 16 + HexValue(bs[2] as char)] + PercentDecodeBytes(bs[3..])
    else [bs[0]] + PercentDecodeBytes(bs[1..])
  }

  /** The text a name or value of a query piece stands for. */
  function FormDecode(s: string): string
  {
    DecodeLossy(PercentDecodeBytes(Encode(ReplacePlus(s))))
  }

  function ParsePiece(piece: string): Param
  {
    var i := IndexOf(piece, '=');
    if i == |piece| then Param(FormDecode(piece), "")
    else Param(FormDecode(piece[..i]), FormDecode(piece[i + 1..]))
  }

  function ParsePieces(pieces: seq<string>): seq<Param>
  {
    if pieces == [] then []
    else if pieces[0] == [] then ParsePieces(pieces[1..])
    else [ParsePiece(pieces[0])] + ParsePieces(pieces[1..])
  }

  /** The name-value list a query string such as "?data=...&event=..." yields. */
  function Parse(search: string): seq<Param>
  {
    var query := if |search| > 0 && search[0] == '?' then search[1..] else search;
    ParsePieces(SplitOnAmpersand(query))
  }

  /** URLSearchParams.has. */
  function Has(params: seq<Param>, name: string): (b: bool)
    ensures b <==> exists i :: 0 <= i < |params| && params[i].name == name
  {
    if params == [] then false
    else params[0].name == name || Has(params[1..], name)
  }

  /** URLSearchParams.get: the value of the first pair with that name, or None (null). */
  function Get(params: seq<Param>, name: string): (r: Option<string>)
    ensures r.None? <==> !Has(params, name)
  {
    if params == [] then None
    else if params[0].name == name then Some(params[0].value)
    else Get(params[1..], name)
  }

  /** get answers with the value of the first pair carrying the name. */
  lemma {:induction false} GetIsFirst(params: seq<Param>, name: string, i: nat)
    requires i < |params| && params[i].name == name
    requires forall j :: 0 <= j < i ==> params[j].name != name
    ensures Get(params, name) == Some(params[i].value)
  {
    if i > 0 {
      GetIsFirst(params[1..], name, i - 1);
    }
  }

  lemma {:induction false} EncodeAscii(s: string)
    requires forall i :: 0 <= i < |s| ==> s[i] as int < 0x80
    ensures |Encode(s)| == |s|
    ensures forall i :: 0 <= i < |s| ==> Encode(s)[i] == s[i] as int
  {
    if s != [] {
      EncodeAscii(s[1..]);
      var e := Encode(s);
      assert e == [s[0] as int] + Encode(s[1..]);
      forall i | 0 <= i < |s| ensures e[i] == s[i] as int {
        if i > 0 { assert e[i] == Encode(s[1..])[i - 1]; }
      }
    }
  }

  lemma PercentDecodeEscape(b: byte, rest: seq<byte>)
    ensures PercentDecodeBytes(Encode(Escape(b)) + rest) == [b] + PercentDecodeBytes(rest)
  {
    var e := Escape(b);
    HexRoundTrip(b / 16);
    HexRoundTrip(b % 16);
    EncodeAscii(e);
    var bs := Encode(e) + rest;
    assert bs[0] == 0x25 && bs[1] as char == e[1] && bs[2] as char == e[2];
    assert bs[3..] == rest;
  }

  lemma {:induction false} PercentDecodeEscapeAll(bs: seq<byte>, rest: seq<byte>)
    ensures PercentDecodeBytes(Encode(EscapeAll(bs)) + rest) == bs + PercentDecodeBytes(rest)
  {
    if bs != [] {
      var tail := EscapeAll(bs[1..]);
      EncodeAppend(Escape(bs[0]), tail);
      assert Encode(EscapeAll(bs)) + rest == Encode(Escape(bs[0])) + (Encode(tail) + rest);
      PercentDecodeEscape(bs[0], Encode(tail) + rest);
      PercentDecodeEscapeAll(bs[1..], rest);
      assert [bs[0]] + bs[1..] == bs;
    } else {
      assert Encode(EscapeAll(bs)) + rest == rest;
    }
  }

  lemma PercentDecodeUnit(c: char, rest: seq<byte>)
    ensures PercentDecodeBytes(Encode(EncodeUnit(c)) + rest) == EncodeChar(c) + PercentDecodeBytes(rest)
  {
    if IsUnreserved(c) {
      assert Encode([c]) == EncodeChar(c) + Encode([]);
      assert Encode([c]) + rest == [c as int] + rest;
      assert ([c as int] + rest)[1..] == rest;
    } else {
      PercentDecodeEscapeAll(EncodeChar(c), rest);
    }
  }

  lemma {:induction false} PercentDecodeEncoded(s: string)
    ensures PercentDecodeBytes(Encode(EncodeURIComponent(s))) == Encode(s)
  {
    if s != [] {
      var tail := EncodeURIComponent(s[1..]);
      EncodeAppend(EncodeUnit(s[0]), tail);
      PercentDecodeUnit(s[0], Encode(tail));
      PercentDecodeEncoded(s[1..]);
    }
  }

  /** The form decoder reads back exactly what encodeURIComponent wrote. */
  lemma FormDecodeOfEncoded(s: string)
    ensures FormDecode(EncodeURIComponent(s)) == s
  {
    var e := EncodeURIComponent(s);
    EncodedIsPlain(s);
    assert ReplacePlus(e) == e;
    PercentDecodeEncoded(s);
    DecodeLossyEncode(s);
  }

  lemma {:induction false} PercentDecodeWithoutEscapes(bs: seq<byte>)
    requires forall i :: 0 <= i < |bs| ==> bs[i] != 0x25
    ensures PercentDecodeBytes(bs) == bs
  {
    if bs != [] {
      PercentDecodeWithoutEscapes(bs[1..]);
      assert [bs[0]] + bs[1..] == bs;
    }
  }

  lemma {:induction false} EncodeWithoutPercent(s: string)
    requires forall i :: 0 <= i < |s| ==> s[i] != '%'
    ensures forall i :: 0 <= i < |Encode(s)| ==> Encode(s)[i] != 0x25
  {
    if s != [] {
      EncodeWithoutPercent(s[1..]);
      var head := EncodeChar(s[0]);
      var e := Encode(s);
      forall i | 0 <= i < |e| ensures e[i] != 0x25 {
        if i >= |head| { assert e[i] == Encode(s[1..])[i - |head|]; }
      }
    }
  }

  /** Text with neither '%' nor '+' comes out of the form decoder unchanged. */
  lemma FormDecodePlain(s: string)
    requires forall i :: 0 <= i < |s| ==> s[i] != '%' && s[i] != '+'
    ensures FormDecode(s) == s
  {
    assert ReplacePlus(s) == s;
    EncodeWithoutPercent(s);
    PercentDecodeWithoutEscapes(Encode(s));
    DecodeLossyEncode(s);
  }

  /** A query with a single name=value piece yields exactly that pair. */
  lemma ParseSingle(name: string, value: string)
    requires forall i :: 0 <= i < |name| ==> name[i] != '&' && name[i] != '='
    requires forall i :: 0 <= i < |value| ==> value[i] != '&'
    ensures Parse("?" + name + "=" + value) == [Param(FormDecode(name), FormDecode(value))]
  {
    var search := "?" + name + "=" + value;
    var piece := name + "=" + value;
    assert search[1..] == piece;
    assert forall i :: 0 <= i < |piece| ==> piece[i] != '&' by {
      forall i | 0 <= i < |piece| ensures piece[i] != '&' {
        if i < |name| { assert piece[i] == name[i]; }
        else if i > |name| { assert piece[i] == value[i - |name| - 1]; }
      }
    }
    assert SplitOnAmpersand(piece) == [piece];
    assert piece[|name|] == '=';
    assert forall j :: 0 <= j < |name| ==> piece[j] == name[j];
    assert IndexOf(piece, '=') == |name|;
    assert piece[..|name|] == name && piece[|name| + 1..] == value;
    assert ParsePieces([piece]) == [ParsePiece(piece)] + ParsePieces([]);
  }
}
