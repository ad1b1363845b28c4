/** Bytes and their text encodings: lower-case hexadecimal as Node's
    `Buffer.toString('hex')` writes it, `parseInt(pair, 16)` for reading it
    back, and UTF-8 as `Buffer.from(s, 'utf8')` produces it. */
module Bytes {
  import opened Text

  type byte = x: int | 0 <= x < 256

  predicate IsHexChar(c: char) {
    ('0' <= c <= '9') || ('a' <= c <= 'f') || ('A' <= c <= 'F')
  }

  predicate AllHex(s: string) {
    forall i :: 0 <= i < |s| ==> IsHexChar(s[i])
  }

  /** The lower-case hexadecimal digit for `d`. */
  function LowerHexDigit(d: nat): (c: char)
    requires d < 16
    ensures IsHexChar(c)
    ensures !('A' <= c <= 'Z')
  {
    if d < 10 then DigitChar(d) else (87 + d) as char
  }

  /** The value of one hexadecimal digit, either case. */
  function HexValue(c: char): (d: nat)
    requires IsHexChar(c)
    ensures d < 16
  {
    if '0' <= c <= '9' then c as int - 48
    else if 'a' <= c <= 'f' then c as int - 87
    else c as int - 55
  }

  lemma HexValueOfDigit(d: nat)
    requires d < 16
    ensures HexValue(LowerHexDigit(d)) == d
  {
  }

  /** The two lower-case digits of a byte, high nibble first. */
  function HexPair(b: byte): (h: string)
    ensures |h| == 2 && IsHexChar(h[0]) && IsHexChar(h[1])
  {
    [LowerHexDigit(b / 16), LowerHexDigit(b % 16)]
  }

  /** `parseInt(h, 16)` of a two-digit hexadecimal string. */
  function ParsePair(hi: char, lo: char): byte
    requires IsHexChar(hi) && IsHexChar(lo)
  {
    HexValue(hi) * 16 + HexValue(lo)
  }

  /** Node `Buffer.toString('hex')`: two lower-case digits per byte, in order. */
  function HexEncode(bs: seq<byte>): (h: string)
    ensures |h| == 2 * |bs|
    ensures AllHex(h)
  {
    if bs == [] then [] else HexPair(bs[0]) + HexEncode(bs[1..])
  }

  /** Byte `i` is written at characters `2 * i` and `2 * i + 1`. */
  lemma {:induction false} HexEncodePairs(bs: seq<byte>)
    ensures forall i :: 0 <= i < |bs| ==> HexEncode(bs)[2 * i .. 2 * i + 2] == HexPair(bs[i])
    decreases |bs|
  {
    if bs != [] {
      var rest := HexEncode(bs[1..]);
      var h := HexEncode(bs);
      HexEncodePairs(bs[1..]);
      assert h == HexPair(bs[0]) + rest;
      assert forall i :: 1 <= i < |bs| ==> h[2 * i .. 2 * i + 2] == rest[2 * (i - 1) .. 2 * (i - 1) + 2];
    }
  }

  /** Hex encoding distributes over concatenation. */
  lemma {:induction false} HexEncodeAppend(a: seq<byte>, b: seq<byte>)
    ensures HexEncode(a + b) == HexEncode(a) + HexEncode(b)
    decreases |a|
  {
    if a == [] {
      assert a + b == b;
    } else {
      assert (a + b)[0] == a[0];
      assert (a + b)[1..] == a[1..] + b;
      HexEncodeAppend(a[1..], b);
    }
  }

  /** A run of bytes shows up in the hex text at twice its offset. */
  lemma HexEncodeOccurrence(bs: seq<byte>, i: nat, k: nat)
    requires i + k <= |bs|
    ensures HexEncode(bs)[2 * i .. 2 * i + 2 * k] == HexEncode(bs[i .. i + k])
  {
    var a, m, b := bs[..i], bs[i .. i + k], bs[i + k..];
    assert HexEncode(bs) == HexEncode(a) + HexEncode(m) + HexEncode(b) by {
      SliceThree(bs, i, i + k);
      HexEncodeAppend(a, m);
      HexEncodeAppend(a + m, b);
    }
    OccursInMiddle(HexEncode(a), HexEncode(m), HexEncode(b));
  }

  /** Where `p` occurs in `bs`, its hex text occurs in the hex text of
      `bs`, at twice the offset. */
  lemma HexEncodeOccurs(bs: seq<byte>, p: seq<byte>, i: nat)
    requires OccursAt(bs, p, i)
    ensures OccursAt(HexEncode(bs), HexEncode(p), 2 * i)
  {
    HexEncodeOccurrence(bs, i, |p|);
  }

  /** Reads a string of hexadecimal digit pairs back into bytes. */
  function HexDecode(h: string): (bs: seq<byte>)
    requires |h| % 2 == 0 && AllHex(h)
    ensures |bs| == |h| / 2
    ensures forall i :: 0 <= i < |bs| ==> bs[i] == ParsePair(h[2 * i], h[2 * i + 1])
  {
    if h == [] then [] else [ParsePair(h[0], h[1])] + HexDecode(h[2..])
  }

  lemma ParsePairOfHexPair(b: byte)
    ensures ParsePair(HexPair(b)[0], HexPair(b)[1]) == b
  {
    HexValueOfDigit(b / 16);
    HexValueOfDigit(b % 16);
  }

  /** Decoding the hex encoding of any bytes gives those bytes back. */
  lemma HexRoundTrip(bs: seq<byte>)
    ensures HexDecode(HexEncode(bs)) == bs
  {
    var h := HexEncode(bs);
    var d := HexDecode(h);
    HexEncodePairs(bs);
    forall i | 0 <= i < |bs|
      ensures d[i] == bs[i]
    {
      assert h[2 * i .. 2 * i + 2] == HexPair(bs[i]);
      assert h[2 * i] == HexPair(bs[i])[0] && h[2 * i + 1] == HexPair(bs[i])[1];
      ParsePairOfHexPair(bs[i]);
    }
  }

  /** UTF-8 encoding of one Unicode scalar value. */
  function Utf8Char(c: char): (r: seq<byte>)
    ensures 1 <= |r| <= 4
    ensures c as int < 128 <==> |r| == 1
    ensures c as int < 128 ==> r == [c as int]
  {
    var v := c as int;
    if v < 0x80 then [v]
    else if v < 0x800 then [0xC0 + v / 64, 0x80 + v % 64]
    else if v < 0x10000 then [0xE0 + v / 4096, 0x80 + (v / 64) % 64, 0x80 + v % 64]
    else [0xF0 + v / 262144, 0x80 + (v / 4096) % 64, 0x80 + (v / 64) % 64, 0x80 + v % 64]
  }

  /** `Buffer.from(s, 'utf8')`: the concatenated encodings of the characters. */
  function Utf8Encode(s: string): (r: seq<byte>)
    ensures |s| <= |r| <= 4 * |s|
  {
    if s == [] then [] else Utf8Char(s[0]) + Utf8Encode(s[1..])
  }

  /** Encoding distributes over concatenation. */
  lemma {:induction false} Utf8EncodeAppend(a: string, b: string)
    ensures Utf8Encode(a + b) == Utf8Encode(a) + Utf8Encode(b)
    decreases |a|
  {
    if a != [] {
      assert (a + b)[0] == a[0];
      assert (a + b)[1..] == a[1..] + b;
      Utf8EncodeAppend(a[1..], b);
    } else {
      assert a + b == b;
    }
  }

  /** A string of ASCII characters encodes to exactly its character codes. */
  lemma {:induction false} Utf8EncodeAscii(s: string)
    requires forall i :: 0 <= i < |s| ==> s[i] as int < 128
    ensures |Utf8Encode(s)| == |s|
    ensures forall i :: 0 <= i < |s| ==> Utf8Encode(s)[i] == s[i] as int
    decreases |s|
  {
    if s != [] {
      Utf8EncodeAscii(s[1..]);
    }
  }
}
