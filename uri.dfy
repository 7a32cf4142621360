/** JavaScript's `encodeURIComponent` (percent-encoding in the sense of section 2.1 of
    RFC 3986, applied to the UTF-8 bytes of every character outside the set JavaScript
    leaves alone) and a percent-decoder that undoes it. */
module Uri {

  import opened Base
  import opened Text

  /** The characters `encodeURIComponent` copies unchanged: ASCII letters and digits and
      `- _ . ! ~ * ' ( )`. */
  predicate Unreserved(c: char)
  {
    ('A' <= c <= 'Z') || ('a' <= c <= 'z') || ('0' <= c <= '9') ||
    c == '-' || c == '_' || c == '.' || c == '!' || c == '~' || c == '*' || c == '\'' ||
    c == '(' || c == ')'
  }

  /** The UTF-8 encoding of one Unicode scalar value: one to four bytes. */
  function Utf8(c: char): (bs: seq<byte>)
    ensures 1 <= |bs| <= 4
  {
    var n := c as int;
    if n < 0x80 then [n as byte]
    else if n < 0x800 then [(0xC0 + n / 64) as byte, (0x80 + n % 64) as byte]
    else if n < 0x10000 then
      [(0xE0 + n / 4096) as byte, (0x80 + n / 64 % 64) as byte, (0x80 + n % 64) as byte]
    else
      [(0xF0 + n / 262144) as byte, (0x80 + n / 4096 % 64) as byte,
       (0x80 + n / 64 % 64) as byte, (0x80 + n % 64) as byte]
  }

  const UpperHexDigits: string := "0123456789ABCDEF"

  /** `%XY`, with X and Y the upper-case hexadecimal digits of `b`. */
  function Escape(b: byte): (s: string)
    ensures |s| == 3 && s[0] == '%'
  {
    ['%', UpperHexDigits[b as int / 16], UpperHexDigits[b as int % 16]]
  }

  function Escapes(bs: seq<byte>): (s: string)
    ensures |s| == 3 * |bs|
  {
    if bs == [] then [] else Escape(bs[0]) + Escapes(bs[1..])
  }

  /** How `encodeURIComponent` writes one character. */
  function EncodeChar(c: char): (r: string)
  {
    if Unreserved(c) then [c] else Escapes(Utf8(c))
  }

  /** `encodeURIComponent(s)`. */
  function Encode(s: string): (e: string)
    ensures |s| <= |e|
  {
    if s == [] then [] else EncodeChar(s[0]) + Encode(s[1..])
  }

  /** The value of a hexadecimal digit of either case. */
  function HexValue(c: char): (v: Option<int>)
    ensures v.Some? ==> 0 <= v.value < 16
  {
    if '0' <= c <= '9' then Some(c as int - '0' as int)
    else if 'A' <= c <= 'F' then Some(c as int - 'A' as int + 10)
    else if 'a' <= c <= 'f' then Some(c as int - 'a' as int + 10)
    else None
  }

  /** The byte written as `%XY` at the front of `s`, if `s` starts with one. */
  function EscapedByte(s: string): (b: Option<byte>)
  {
    if |s| < 3 || s[0] != '%' then None
    else match (HexValue(s[1]), HexValue(s[2]))
      case (Some(hi), Some(lo)) => Some((hi * 16 + lo) as byte)
      case _ => None
  }

  /** The number of `%XY` groups, read from `s`, and their bytes. */
  function EscapedBytes(s: string, n: nat): (r: Option<seq<byte>>)
    ensures r.Some? ==> |r.value| == n && 3 * n <= |s|
  {
    if n == 0 then Some([])
    else match EscapedByte(s)
      case None => None
      case Some(b) =>
        match EscapedBytes(s[3..], n - 1)
        case None => None
        case Some(bs) => Some([b] + bs)
  }

  /** How many bytes a UTF-8 sequence starting with `b` has, or 0 if `b` cannot start one. */
  function SequenceLength(b: byte): (r: nat)
  {
    if b < 0x80 then 1
    else if 0xC0 <= b < 0xE0 then 2
    else if 0xE0 <= b < 0xF0 then 3
    else if 0xF0 <= b < 0xF8 then 4
    else 0
  }

  predicate Continuation(b: byte)
  {
    0x80 <= b < 0xC0
  }

  predicate IsScalar(n: int)
  {
    (0 <= n < 0xD800) || (0xE000 <= n < 0x110000)
  }

  /** The smallest value a UTF-8 sequence of `len` bytes may carry; a smaller one is an
      overlong encoding, which decoding rejects. */
  function ShortestFrom(len: nat): (r: int)
  {
    if len <= 1 then 0 else if len == 2 then 0x80 else if len == 3 then 0x800 else 0x10000
  }

  /** The character a complete, shortest-form UTF-8 sequence stands for. */
  function Utf8Decode(bs: seq<byte>): (c: Option<char>)
  {
    if |bs| == 0 || |bs| != SequenceLength(bs[0]) then None
    else if exists i :: 1 <= i < |bs| && !Continuation(bs[i]) then None
    else
      var n :=
        if |bs| == 1 then bs[0] as int
        else if |bs| == 2 then (bs[0] as int - 0xC0) * 64 + (bs[1] as int - 0x80)
        else if |bs| == 3 then
          (bs[0] as int - 0xE0) * 4096 + (bs[1] as int - 0x80) * 64 + (bs[2] as int - 0x80)
        else
          (bs[0] as int - 0xF0) * 262144 + (bs[1] as int - 0x80) * 4096 +
          (bs[2] as int - 0x80) * 64 + (bs[3] as int - 0x80);
      if ShortestFrom(|bs|) <= n && IsScalar(n) then Some(n as char) else None
  }

  /** Reads one percent-encoded character from the front of `s` (which starts with `%`),
      returning it and the number of characters it took. */
  function DecodeEscapedChar(s: string): (r: Option<(char, nat)>)
    ensures r.Some? ==> 3 <= r.value.1 <= |s|
  {
    match EscapedByte(s)
    case None => None
    case Some(b0) =>
      var n := SequenceLength(b0);
      if n == 0 then None
      else match EscapedBytes(s, n)
        case None => None
        case Some(bs) =>
          match Utf8Decode(bs)
          case None => None
          case Some(c) => Some((c, 3 * n))
  }

  /** The percent-decoder that inverts `Encode`, as `decodeURIComponent` reads it: `None`
      where `e` holds a malformed escape or an escaped byte sequence that is not
      shortest-form UTF-8 of a scalar value. */
  function Decode(e: string): (r: Option<string>)
    decreases |e|
  {
    if e == [] then Some([])
    else if e[0] != '%' then
      match Decode(e[1..])
      case None => None
      case Some(t) => Some([e[0]] + t)
    else
      match DecodeEscapedChar(e)
      case None => None
      case Some((c, k)) =>
        match Decode(e[k..])
        case None => None
        case Some(t) => Some([c] + t)
  }

  lemma HexDigitRoundTrip(n: int)
    requires 0 <= n < 16
    ensures HexValue(UpperHexDigits[n]) == Some(n)
  {
  }

  /** `%XY` written for a byte reads back as that byte, whatever follows it. */
  lemma EscapeRead(b: byte, rest: string)
    ensures EscapedByte(Escape(b) + rest) == Some(b)
  {
    var hi, lo := b as int / 16, b as int % 16;
    HexDigitRoundTrip(hi);
    HexDigitRoundTrip(lo);
    var s := Escape(b) + rest;
    assert s[0] == '%' && s[1] == UpperHexDigits[hi] && s[2] == UpperHexDigits[lo];
    assert hi * 16 + lo == b as int;
  }

  lemma {:induction false} EscapesRead(bs: seq<byte>, rest: string)
    ensures EscapedBytes(Escapes(bs) + rest, |bs|) == Some(bs)
  {
    if bs != [] {
      var tail := Escapes(bs[1..]) + rest;
      var s := Escapes(bs) + rest;
      assert s == Escape(bs[0]) + tail;
      EscapeRead(bs[0], tail);
      assert s[3..] == tail;
      EscapesRead(bs[1..], rest);
      assert [bs[0]] + bs[1..] == bs;
    }
  }

  lemma Utf8RoundTrip(c: char)
    ensures Utf8Decode(Utf8(c)) == Some(c)
  {
    var n := c as int;
    if n < 0x80 {
    } else if n < 0x800 {
      Utf8RoundTripTwo(c);
    } else if n < 0x10000 {
      Utf8RoundTripThree(c);
    } else {
      Utf8RoundTripFour(c);
    }
  }

  lemma Utf8RoundTripTwo(c: char)
    requires 0x80 <= c as int < 0x800
    ensures Utf8Decode(Utf8(c)) == Some(c)
  {
    var n := c as int;
    var bs := Utf8(c);
    assert (n / 64) * 64 + n % 64 == n;
    assert forall i :: 1 <= i < |bs| ==> Continuation(bs[i]);
  }

  lemma Utf8RoundTripThree(c: char)
    requires 0x800 <= c as int < 0x10000
    ensures Utf8Decode(Utf8(c)) == Some(c)
  {
    var n := c as int;
    var bs := Utf8(c);
    assert n / 64 / 64 == n / 4096 && (n / 64) % 64 + (n / 4096) * 64 == n / 64;
    assert (n / 4096) * 4096 + (n / 64 % 64) * 64 + n % 64 == n;
    assert forall i :: 1 <= i < |bs| ==> Continuation(bs[i]);
  }

  lemma Utf8RoundTripFour(c: char)
    requires 0x10000 <= c as int
    ensures Utf8Decode(Utf8(c)) == Some(c)
  {
    var n := c as int;
    var bs := Utf8(c);
    assert n / 64 / 64 == n / 4096 && (n / 64) % 64 + (n / 4096) * 64 == n / 64;
    assert n / 4096 / 64 == n / 262144 && (n / 4096) % 64 + (n / 262144) * 64 == n / 4096;
    assert (n / 262144) * 262144 + (n / 4096 % 64) * 4096 + (n / 64 % 64) * 64 + n % 64 == n;
    assert forall i :: 1 <= i < |bs| ==> Continuation(bs[i]);
  }

  /** Decoding the escapes of a character that is not copied gives back that character. */
  lemma EscapedCharRoundTrip(c: char, rest: string)
    requires !Unreserved(c)
    ensures DecodeEscapedChar(Escapes(Utf8(c)) + rest) == Some((c, |Escapes(Utf8(c))|))
  {
    var bs := Utf8(c);
    var s := Escapes(bs) + rest;
    EscapesRead(bs, rest);
    EscapesRead(bs[..1], Escapes(bs[1..]) + rest);
    assert Escapes(bs[..1]) + Escapes(bs[1..]) == Escapes(bs);
    Utf8RoundTrip(c);
    assert SequenceLength(bs[0]) == |bs|;
  }

  /** `decodeURIComponent(encodeURIComponent(s)) == s`. */
  lemma {:induction false} DecodeEncode(s: string)
    ensures Decode(Encode(s)) == Some(s)
  {
    if s != [] {
      var rest := Encode(s[1..]);
      DecodeEncode(s[1..]);
      if Unreserved(s[0]) {
        DecodeFront([s[0]], s[0], rest);
      } else {
        EscapedCharRoundTrip(s[0], rest);
        DecodeFront(Escapes(Utf8(s[0])), s[0], rest);
      }
      assert [s[0]] + s[1..] == s;
    }
  }

  /** When the front of a string is a copied character, or the escapes of one character,
      decoding it puts that character in front of what the rest decodes to. */
  lemma DecodeFront(head: string, c: char, rest: string)
    requires (head == [c] && c != '%') || DecodeEscapedChar(head + rest) == Some((c, |head|))
    requires head != []
    ensures Decode(head + rest) ==
      match Decode(rest)
      case None => None
      case Some(t) => Some([c] + t)
  {
    var e := head + rest;
    assert e[|head|..] == rest;
    if head == [c] && c != '%' {
      assert e[0] == c && e[1..] == rest;
    } else {
      assert e[0] == '%';
    }
  }

  /** Every character `encodeURIComponent` emits is copied-as-is, `%`, or an upper-case
      hexadecimal digit; in particular none of `&`, `=`, `?`, `#`, `/` appears. */
  predicate Encoded(c: char)
  {
    Unreserved(c) || c == '%'
  }

  lemma {:induction false} EscapesEncoded(bs: seq<byte>)
    ensures forall i :: 0 <= i < |Escapes(bs)| ==> Encoded(Escapes(bs)[i])
  {
    if bs != [] {
      EscapesEncoded(bs[1..]);
      var e := Escapes(bs);
      assert e == Escape(bs[0]) + Escapes(bs[1..]);
      forall i | 0 <= i < |e| ensures Encoded(e[i]) {
        if i >= 3 { assert e[i] == Escapes(bs[1..])[i - 3]; }
      }
    }
  }

  lemma {:induction false} EncodeOutput(s: string)
    ensures forall i :: 0 <= i < |Encode(s)| ==> Encoded(Encode(s)[i])
  {
    if s != [] {
      EncodeOutput(s[1..]);
      var head := EncodeChar(s[0]);
      if !Unreserved(s[0]) { EscapesEncoded(Utf8(s[0])); }
      var e := Encode(s);
      forall i | 0 <= i < |e| ensures Encoded(e[i]) {
        if i >= |head| { assert e[i] == Encode(s[1..])[i - |head|]; }
      }
    }
  }

  /** A string of copied-as-is characters is its own encoding. */
  lemma {:induction false} EncodeUnreserved(s: string)
    requires forall i :: 0 <= i < |s| ==> Unreserved(s[i])
    ensures Encode(s) == s
  {
    if s != [] {
      EncodeUnreserved(s[1..]);
      assert [s[0]] + s[1..] == s;
    }
  }

  /** One `name=value` pair of a query string, its value percent-decoded; a piece without
      exactly one `=` has no value. */
  function Param(piece: string): (r: (string, Option<string>))
  {
    var kv := Split(piece, '=');
    if |kv| == 2 then (kv[0], Decode(kv[1])) else (piece, None)
  }

  /** The parameters of a query string, in order. */
  function QueryParams(q: string): (r: seq<(string, Option<string>)>)
  {
    var pieces := Split(q, '&');
    seq(|pieces|, i requires 0 <= i < |pieces| => Param(pieces[i]))
  }

  /** One query parameter as the provider writes it: the name, `=`, and the value passed
      through `encodeURIComponent`. */
  function Pair(name: string, value: string): (r: string)
  {
    name + "=" + Encode(value)
  }

  /** A parameter written by `Pair` reads back as its name and value, provided the name
      holds no `=`. */
  lemma ParamRoundTrip(name: string, v: string)
    requires '=' !in name
    ensures Param(Pair(name, v)) == (name, Some(v))
  {
    EncodeHasNoSeparators(v);
    SplitAppend(name, '=', Encode(v));
    SplitNone(Encode(v), '=');
    assert Pair(name, v) == name + ['='] + Encode(v);
    DecodeEncode(v);
  }

  /** A query string of three parameters joined by `&` reads back as those three names
      and values, in order, provided no name holds `&` or `=`. */
  lemma QueryOfThree(n1: string, v1: string, n2: string, v2: string, n3: string, v3: string)
    requires '&' !in n1 && '=' !in n1
    requires '&' !in n2 && '=' !in n2
    requires '&' !in n3 && '=' !in n3
    ensures QueryParams(Pair(n1, v1) + "&" + Pair(n2, v2) + "&" + Pair(n3, v3)) ==
      [(n1, Some(v1)), (n2, Some(v2)), (n3, Some(v3))]
  {
    PairHasNoAmpersand(n1, v1);
    PairHasNoAmpersand(n2, v2);
    PairHasNoAmpersand(n3, v3);
    SplitJoined(Pair(n1, v1), Pair(n2, v2), Pair(n3, v3));
    ParamRoundTrip(n1, v1);
    ParamRoundTrip(n2, v2);
    ParamRoundTrip(n3, v3);
  }

  lemma PairHasNoAmpersand(name: string, v: string)
    requires '&' !in name
    ensures '&' !in Pair(name, v)
  {
    EncodeHasNoSeparators(v);
    assert Pair(name, v) == name + ['='] + Encode(v);
  }

  lemma SplitJoined(p1: string, p2: string, p3: string)
    requires '&' !in p1 && '&' !in p2 && '&' !in p3
    ensures Split(p1 + "&" + p2 + "&" + p3, '&') == [p1, p2, p3]
  {
    assert p1 + "&" + p2 + "&" + p3 == p1 + ['&'] + (p2 + ['&'] + p3);
    SplitThree(p1, p2, p3, '&');
  }

  /** `encodeURIComponent` never emits `&` or `=`, the query-string separators. */
  lemma EncodeHasNoSeparators(v: string)
    ensures '&' !in Encode(v) && '=' !in Encode(v)
  {
    var e := Encode(v);
    EncodeOutput(v);
    forall i | 0 <= i < |e| ensures e[i] != '&' && e[i] != '=' {
      assert Encoded(e[i]);
    }
  }
}
