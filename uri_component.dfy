/**
  `encodeURIComponent` (section 19.2.6.5 of ECMA-262): every character
  outside the unreserved set A-Z a-z 0-9 - _ . ! ~ * ' ( ) is written as the
  percent-encoded bytes of its UTF-8 form, with upper-case hex digits. Its
  inverse is the percent-decoding the server applies to a query parameter.
 */
module UriComponent {
  import opened JsText

  predicate IsAsciiLetterOrDigit(c: char) {
    'A' <= c <= 'Z' || 'a' <= c <= 'z' || '0' <= c <= '9'
  }

  /** The characters `encodeURIComponent` leaves as they are. */
  predicate IsUnreserved(c: char) {
    IsAsciiLetterOrDigit(c) || c in "-_.!~*'()"
  }

  predicate IsUpperHexDigit(c: char) {
    '0' <= c <= '9' || 'A' <= c <= 'F'
  }

  predicate IsHexDigit(c: char) {
    IsUpperHexDigit(c) || 'a' <= c <= 'f'
  }

  /** A byte value. */
  predicate IsByte(b: int) {
    0 <= b < 256
  }

  /** The UTF-8 form of one Unicode scalar value. */
  function Utf8(c: char): (bytes: seq<int>)
    ensures 1 <= |bytes| <= 4
    ensures forall i :: 0 <= i < |bytes| ==> IsByte(bytes[i])
    ensures (|bytes| == 1) == (c as int < 0x80)
  {
    var cp := c as int;
    if cp < 0x80 then [cp]
    else if cp < 0x800 then [0xC0 + cp / 64, 0x80 + cp % 64]
    else if cp < 0x10000 then [0xE0 + cp / 4096, 0x80 + (cp / 64) % 64, 0x80 + cp % 64]
    else [0xF0 + cp / 262144, 0x80 + (cp / 4096) % 64, 0x80 + (cp / 64) % 64, 0x80 + cp % 64]
  }

  function HexDigit(n: int): (c: char)
    requires 0 <= n < 16
    ensures IsUpperHexDigit(c)
  {
    if n < 10 then ('0' as int + n) as char else ('A' as int + n - 10) as char
  }

  /** The value of a hex digit, either letter case. */
  function HexValue(c: char): (n: int)
    requires IsHexDigit(c)
    ensures 0 <= n < 16
  {
    if '0' <= c <= '9' then c as int - '0' as int
    else if 'A' <= c <= 'F' then c as int - 'A' as int + 10
    else c as int - 'a' as int + 10
  }

  /** `%XX` for one byte. */
  function PercentByte(b: int): (t: string)
    requires IsByte(b)
    ensures |t| == 3 && t[0] == '%' && IsUpperHexDigit(t[1]) && IsUpperHexDigit(t[2])
  {
    ['%', HexDigit(b / 16), HexDigit(b % 16)]
  }

  function PercentBytes(bytes: seq<int>): (t: string)
    requires forall i :: 0 <= i < |bytes| ==> IsByte(bytes[i])
    ensures |t| == 3 * |bytes|
  {
    if bytes == [] then [] else PercentByte(bytes[0]) + PercentBytes(bytes[1..])
  }

  function EncodeChar(c: char): string {
    if IsUnreserved(c) then [c] else PercentBytes(Utf8(c))
  }

  /** `encodeURIComponent(s)`. */
  function EncodeURIComponent(s: string): string {
    if s == [] then [] else EncodeChar(s[0]) + EncodeURIComponent(s[1..])
  }

  /** What an encoded component can contain: unreserved characters, '%' and
      upper-case hex digits. */
  predicate IsEncoded(t: string) {
    forall i :: 0 <= i < |t| ==> IsUnreserved(t[i]) || t[i] == '%' || IsUpperHexDigit(t[i])
  }

  lemma {:induction false} PercentBytesIsEncoded(bytes: seq<int>)
    requires forall i :: 0 <= i < |bytes| ==> IsByte(bytes[i])
    ensures IsEncoded(PercentBytes(bytes))
  {
    if bytes != [] {
      PercentBytesIsEncoded(bytes[1..]);
    }
  }

  /** The encoding uses only unreserved characters, '%' and hex digits. */
  lemma {:induction false} EncodeIsEncoded(s: string)
    ensures IsEncoded(EncodeURIComponent(s))
  {
    if s != [] {
      EncodeIsEncoded(s[1..]);
      if !IsUnreserved(s[0]) {
        PercentBytesIsEncoded(Utf8(s[0]));
      }
      EncodedConcat(EncodeChar(s[0]), EncodeURIComponent(s[1..]));
    }
  }

  lemma EncodedConcat(a: string, b: string)
    requires IsEncoded(a) && IsEncoded(b)
    ensures IsEncoded(a + b)
  {
    forall i | 0 <= i < |a + b|
      ensures IsUnreserved((a + b)[i]) || (a + b)[i] == '%' || IsUpperHexDigit((a + b)[i])
    {
      if i < |a| {
        assert (a + b)[i] == a[i];
      } else {
        assert (a + b)[i] == b[i - |a|];
      }
    }
  }

  /** None of the characters an encoding can contain delimits a query. */
  lemma EncodedCharIsSafe(c: char)
    requires IsUnreserved(c) || c == '%' || IsUpperHexDigit(c)
    ensures c !in " &=#+?/"
  {
  }

  /** The output alphabet: no space, '&', '=', '#', '+', '?' or '/' survives,
      so the encoded text cannot end or split a query parameter. */
  lemma EncodedAlphabet(s: string)
    ensures IsEncoded(EncodeURIComponent(s))
    ensures forall i :: 0 <= i < |EncodeURIComponent(s)| ==> EncodeURIComponent(s)[i] !in " &=#+?/"
  {
    var t := EncodeURIComponent(s);
    EncodeIsEncoded(s);
    forall i | 0 <= i < |t| ensures t[i] !in " &=#+?/" {
      EncodedCharIsSafe(t[i]);
    }
  }

  /** Only the empty string encodes to the empty string. */
  lemma {:induction false} EncodeEmptyIffEmpty(s: string)
    ensures EncodeURIComponent(s) == [] <==> s == []
  {
    if s != [] {
      assert |EncodeChar(s[0])| > 0;
    }
  }

  /** Text made of unreserved characters is left unchanged. */
  lemma {:induction false} EncodeKeepsUnreserved(s: string)
    requires forall i :: 0 <= i < |s| ==> IsUnreserved(s[i])
    ensures EncodeURIComponent(s) == s
  {
    if s != [] {
      EncodeKeepsUnreserved(s[1..]);
    }
  }

  // ---- The inverse: percent-decoding and UTF-8 decoding ----

  /** The byte value of `%XX` at the start of `t`, if it is there. */
  function ReadByte(t: string): (r: Option<int>)
    ensures r.Some? ==> IsByte(r.value)
  {
    if |t| >= 3 && t[0] == '%' && IsHexDigit(t[1]) && IsHexDigit(t[2])
    then Some(HexValue(t[1]) * 16 + HexValue(t[2]))
    else None
  }

  /** A run of `%XX` triples as bytes. */
  function ReadBytes(t: string): Option<seq<int>>
    decreases |t|
  {
    if t == [] then Some([])
    else match ReadByte(t)
      case None => None
      case Some(b) =>
        match ReadBytes(t[3..])
        case None => None
        case Some(rest) => Some([b] + rest)
  }

  /** How many bytes a UTF-8 sequence with this lead byte has (0: not a lead byte). */
  function SequenceLength(b: int): nat {
    if 0 <= b < 0x80 then 1
    else if 0xC0 <= b < 0xE0 then 2
    else if 0xE0 <= b < 0xF0 then 3
    else if 0xF0 <= b < 0xF8 then 4
    else 0
  }

  predicate IsContinuation(b: int) {
    0x80 <= b < 0xC0
  }

  /** One UTF-8 sequence as a scalar value; overlong forms, surrogates and
      values past U+10FFFF are refused. */
  function Utf8Decode(bytes: seq<int>): Option<char> {
    if |bytes| == 1 && 0 <= bytes[0] < 0x80 then Some(bytes[0] as char)
    else if |bytes| == 2 && 0xC0 <= bytes[0] < 0xE0 && IsContinuation(bytes[1]) then
      var cp := (bytes[0] - 0xC0) * 64 + (bytes[1] - 0x80);
      if cp >= 0x80 then Some(cp as char) else None
    else if |bytes| == 3 && 0xE0 <= bytes[0] < 0xF0 && IsContinuation(bytes[1]) && IsContinuation(bytes[2]) then
      var cp := (bytes[0] - 0xE0) * 4096 + (bytes[1] - 0x80) * 64 + (bytes[2] - 0x80);
      if cp >= 0x800 && !(0xD800 <= cp < 0xE000) then Some(cp as char) else None
    else if |bytes| == 4 && 0xF0 <= bytes[0] < 0xF8 && IsContinuation(bytes[1]) && IsContinuation(bytes[2]) && IsContinuation(bytes[3]) then
      var cp := (bytes[0] - 0xF0) * 262144 + (bytes[1] - 0x80) * 4096 + (bytes[2] - 0x80) * 64 + (bytes[3] - 0x80);
      if 0x10000 <= cp < 0x110000 then Some(cp as char) else None
    else None
  }

  /** `decodeURIComponent(t)`, None where it throws a URIError. */
  function DecodeURIComponent(t: string): Option<string>
    decreases |t|
  {
    if t == [] then Some([])
    else if t[0] != '%' then
      match DecodeURIComponent(t[1..])
      case None => None
      case Some(rest) => Some([t[0]] + rest)
    else
      match ReadByte(t)
      case None => None
      case Some(lead) =>
        var n := SequenceLength(lead);
        if n == 0 || |t| < 3 * n then None
        else
          match ReadBytes(t[..3 * n])
          case None => None
          case Some(bytes) =>
            match Utf8Decode(bytes)
            case None => None
            case Some(c) =>
              match DecodeURIComponent(t[3 * n..])
              case None => None
              case Some(rest) => Some([c] + rest)
  }

  lemma HexRoundTrip(n: int)
    requires 0 <= n < 16
    ensures HexValue(HexDigit(n)) == n
  {
  }

  lemma {:induction false} ReadPercentBytes(bytes: seq<int>)
    requires forall i :: 0 <= i < |bytes| ==> IsByte(bytes[i])
    ensures ReadBytes(PercentBytes(bytes)) == Some(bytes)
  {
    if bytes != [] {
      var b := bytes[0];
      var t := PercentBytes(bytes);
      HexRoundTrip(b / 16);
      HexRoundTrip(b % 16);
      assert ReadByte(t) == Some(b);
      assert t[3..] == PercentBytes(bytes[1..]);
      ReadPercentBytes(bytes[1..]);
      assert [b] + bytes[1..] == bytes;
    }
  }

  lemma Utf8RoundTrip(c: char)
    ensures Utf8Decode(Utf8(c)) == Some(c)
    ensures SequenceLength(Utf8(c)[0]) == |Utf8(c)|
  {
    var cp := c as int;
    var bytes := Utf8(c);
    if cp < 0x80 {
    } else if cp < 0x800 {
      TwoByteForm(cp);
      assert (bytes[0] - 0xC0) * 64 + (bytes[1] - 0x80) == cp;
    } else if cp < 0x10000 {
      ThreeByteForm(cp);
      assert (bytes[0] - 0xE0) * 4096 + (bytes[1] - 0x80) * 64 + (bytes[2] - 0x80) == cp;
    } else {
      FourByteForm(cp);
      assert (bytes[0] - 0xF0) * 262144 + (bytes[1] - 0x80) * 4096 + (bytes[2] - 0x80) * 64 + (bytes[3] - 0x80) == cp;
    }
  }

  lemma TwoByteForm(cp: int)
    requires 0x80 <= cp < 0x800
    ensures 2 <= cp / 64 < 32 && (cp / 64) * 64 + cp % 64 == cp
  {
  }

  lemma ThreeByteForm(cp: int)
    requires 0x800 <= cp < 0x10000
    ensures cp / 4096 < 16 && (cp / 4096) * 4096 + ((cp / 64) % 64) * 64 + cp % 64 == cp
  {
    assert (cp / 64) / 64 == cp / 4096;
  }

  lemma FourByteForm(cp: int)
    requires 0x10000 <= cp < 0x110000
    ensures cp / 262144 < 8
    ensures (cp / 262144) * 262144 + ((cp / 4096) % 64) * 4096 + ((cp / 64) % 64) * 64 + cp % 64 == cp
  {
    assert (cp / 64) / 64 == cp / 4096;
    assert (cp / 4096) / 64 == cp / 262144;
  }

  /** Decoding one encoded character and what follows. */
  lemma {:induction false} DecodeEncodedChar(c: char, rest: string)
    ensures DecodeURIComponent(EncodeChar(c) + rest) ==
      match DecodeURIComponent(rest)
      case None => None
      case Some(r) => Some([c] + r)
  {
    var t := EncodeChar(c) + rest;
    if IsUnreserved(c) {
      assert t[1..] == rest;
    } else {
      var bytes := Utf8(c);
      var n := |bytes|;
      Utf8RoundTrip(c);
      ReadPercentBytes(bytes);
      assert t[..3 * n] == PercentBytes(bytes);
      assert t[3 * n..] == rest;
      assert t[..3] == PercentByte(bytes[0]);
      HexRoundTrip(bytes[0] / 16);
      HexRoundTrip(bytes[0] % 16);
      assert ReadByte(t) == Some(bytes[0]);
    }
  }

  /** Decoding undoes encoding: the server reads back exactly the text the
      client encoded. */
  lemma {:induction false} DecodeEncode(s: string)
    ensures DecodeURIComponent(EncodeURIComponent(s)) == Some(s)
  {
    if s != [] {
      DecodeEncode(s[1..]);
      DecodeEncodedChar(s[0], EncodeURIComponent(s[1..]));
      assert [s[0]] + s[1..] == s;
    }
  }

  /** Two texts with the same encoding are the same text. */
  lemma {:induction false} EncodeIsInjective(s1: string, s2: string)
    requires EncodeURIComponent(s1) == EncodeURIComponent(s2)
    ensures s1 == s2
  {
    DecodeEncode(s1);
    DecodeEncode(s2);
  }
}
