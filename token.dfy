/** The pending-state key: `crypto.randomBytes(32).toString("hex")`, the random bytes
    written as lower-case hexadecimal, two digits per byte. */
module Token {

  import opened Base
  import Uri

  const LowerHexDigits: string := "0123456789abcdef"

  predicate IsLowerHex(c: char)
  {
    ('0' <= c <= '9') || ('a' <= c <= 'f')
  }

  /** The two digits of one byte. */
  function HexByte(b: byte): (s: string)
    ensures |s| == 2 && IsLowerHex(s[0]) && IsLowerHex(s[1])
  {
    [LowerHexDigits[b as int / 16], LowerHexDigits[b as int % 16]]
  }

  /** `Buffer.toString("hex")`. */
  function Hex(bs: seq<byte>): (s: string)
    ensures |s| == 2 * |bs|
    ensures forall i :: 0 <= i < |s| ==> IsLowerHex(s[i])
  {
    if bs == [] then [] else HexByte(bs[0]) + Hex(bs[1..])
  }

  function DigitValue(c: char): (r: int)
    requires IsLowerHex(c)
  {
    if c <= '9' then c as int - '0' as int else c as int - 'a' as int + 10
  }

  /** Reads lower-case hexadecimal back into bytes; `None` on an odd length or a stray
      character. */
  function Unhex(s: string): (r: Option<seq<byte>>)
  {
    if s == [] then Some([])
    else if |s| == 1 || !IsLowerHex(s[0]) || !IsLowerHex(s[1]) then None
    else
      match Unhex(s[2..])
      case None => None
      case Some(rest) => Some([(DigitValue(s[0]) * 16 + DigitValue(s[1])) as byte] + rest)
  }

  /** Hex encoding loses nothing: distinct random byte strings give distinct keys, so a key
      carries all 8 * |bs| bits of the bytes it came from. */
  lemma {:induction false} UnhexHex(bs: seq<byte>)
    ensures Unhex(Hex(bs)) == Some(bs)
  {
    if bs != [] {
      UnhexFront(HexByte(bs[0]), Hex(bs[1..]));
      ByteRoundTrip(bs[0]);
      UnhexHex(bs[1..]);
      assert [bs[0]] + bs[1..] == bs;
    }
  }

  /** Reading two digits in front of `rest` adds their byte in front of what `rest`
      reads as. */
  lemma UnhexFront(h: string, rest: string)
    requires |h| == 2 && IsLowerHex(h[0]) && IsLowerHex(h[1])
    ensures Unhex(h + rest) ==
      match Unhex(rest)
      case None => None
      case Some(t) => Some([(DigitValue(h[0]) * 16 + DigitValue(h[1])) as byte] + t)
  {
    var s := h + rest;
    assert s[0] == h[0] && s[1] == h[1] && s[2..] == rest;
  }

  /** The two digits written for a byte read back as that byte. */
  lemma ByteRoundTrip(b: byte)
    ensures var h := HexByte(b); (DigitValue(h[0]) * 16 + DigitValue(h[1])) as byte == b
  {
    var hi, lo := b as int / 16, b as int % 16;
    DigitRoundTrip(hi);
    DigitRoundTrip(lo);
    assert hi * 16 + lo == b as int;
  }

  lemma DigitRoundTrip(n: int)
    requires 0 <= n < 16
    ensures IsLowerHex(LowerHexDigits[n]) && DigitValue(LowerHexDigits[n]) == n
  {
  }

  lemma HexInjective(a: seq<byte>, b: seq<byte>)
    requires Hex(a) == Hex(b)
    ensures a == b
  {
    UnhexHex(a);
    UnhexHex(b);
  }

  /** A key is made only of characters `encodeURIComponent` copies, so encoding it gives
      the key itself. */
  lemma HexIsOwnEncoding(bs: seq<byte>)
    ensures Uri.Encode(Hex(bs)) == Hex(bs)
  {
    Uri.EncodeUnreserved(Hex(bs));
  }
}
