/** The BIP 32 master-key fingerprint: the first four bytes of
    HASH160(public key), printed as eight lower-case hex digits. The two
    hash functions are parameters. */
module Fingerprint {
  import opened Optional
  import opened Bytes
  import opened Errors

  type Digest20 = s: seq<byte> | |s| == 20 witness seq(20, i => 0)
  type Digest32 = s: seq<byte> | |s| == 32 witness seq(32, i => 0)

  /** `b.toString(16)`: one digit below 16, two from 16 on. */
  function ByteToRadix16(b: byte): (h: string)
    ensures |h| == (if b < 16 then 1 else 2)
  {
    if b < 16 then [LowerHexDigit(b)] else [LowerHexDigit(b / 16), LowerHexDigit(b % 16)]
  }

  /** Left-pads a one-digit rendering with `0`. */
  function PadByte(h: string): string {
    if |h| == 1 then "0" + h else h
  }

  /** Padding the radix-16 rendering gives the byte's two-digit hex pair. */
  lemma PaddedIsHexPair(b: byte)
    ensures PadByte(ByteToRadix16(b)) == HexPair(b)
  {
    if b < 16 {
      assert b / 16 == 0 && b % 16 == b;
      assert LowerHexDigit(0) == '0';
    }
  }

  /** `bytes.map(pad(b.toString(16))).join('')` */
  function JoinPadded(bs: seq<byte>): string {
    if bs == [] then "" else PadByte(ByteToRadix16(bs[0])) + JoinPadded(bs[1..])
  }

  /** The padded join is exactly the hex encoding. */
  lemma {:induction false} JoinPaddedIsHex(bs: seq<byte>)
    ensures JoinPadded(bs) == HexEncode(bs)
    decreases |bs|
  {
    if bs != [] {
      PaddedIsHexPair(bs[0]);
      JoinPaddedIsHex(bs[1..]);
    }
  }

  /** `calculateMasterFingerprint`: a missing public key is a crypto error;
      otherwise the hex of the first four bytes of RIPEMD-160(SHA-256(key)). */
  function CalculateMasterFingerprint(publicKey: Option<seq<byte>>,
                                      sha256: seq<byte> -> Digest32,
                                      ripemd160: seq<byte> -> Digest20): (r: Result<string>)
    ensures publicKey.None? <==> r.Err?
    ensures r.Err? ==> r == Throw(CryptoError("Public key is undefined", None))
    ensures r.Ok? ==> |r.value| == 8 && AllHex(r.value)
    ensures r.Ok? ==> forall k :: 0 <= k < 8 ==> !('A' <= r.value[k] <= 'Z')
    ensures r.Ok? ==> r.value == HexEncode(ripemd160(sha256(publicKey.value))[..4])
  {
    match publicKey
    case None => Throw(CryptoError("Public key is undefined", None))
    case Some(pk) =>
      var ripe := ripemd160(sha256(pk));
      var fp := JoinPadded(ripe[..4]);
      JoinPaddedIsHex(ripe[..4]);
      LowerHexOnly(ripe[..4]);
      Ok(fp)
  }

  lemma LowerHexOnly(bs: seq<byte>)
    ensures forall k :: 0 <= k < |HexEncode(bs)| ==> !('A' <= HexEncode(bs)[k] <= 'Z')
  {
    var h := HexEncode(bs);
    HexEncodePairs(bs);
    forall k | 0 <= k < |h| ensures !('A' <= h[k] <= 'Z') {
      var i := k / 2;
      assert h[2 * i .. 2 * i + 2] == HexPair(bs[i]);
      assert h[k] == HexPair(bs[i])[k - 2 * i];
    }
  }

  /** Reading the eight digits back yields the four truncated hash bytes. */
  lemma FingerprintDecodes(pk: seq<byte>, sha256: seq<byte> -> Digest32, ripemd160: seq<byte> -> Digest20)
    ensures HexDecode(CalculateMasterFingerprint(Some(pk), sha256, ripemd160).value) == ripemd160(sha256(pk))[..4]
  {
    HexRoundTrip(ripemd160(sha256(pk))[..4]);
  }
}
