/** Classifying a PSBT as a UTXO-creation or an asset-send transaction by
    scanning the hex text of its decoded bytes for the RGB coin type, as a
    BIP 174 `PSBT_IN_BIP32_DERIVATION` or BIP 371
    `PSBT_IN_TAP_BIP32_DERIVATION` record stores it (32-bit little-endian
    path elements, bit 31 marking a hardened one) or as ASCII text. */
module PsbtDetection {
  import opened Optional
  import opened Text
  import opened Bytes
  import opened NetworkConstants

  datatype PsbtType = CreateUtxo | Send

  const HARDENED: nat := 0x8000_0000

  /** A path element as BIP 174 stores it: four bytes, least significant first. */
  function Le32(x: nat): (bs: seq<byte>)
    requires x < 0x1_0000_0000
    ensures |bs| == 4
  {
    [x % 256, (x / 256) % 256, (x / 65536) % 256, x / 16777216]
  }

  /** The same four bytes, most significant first. */
  function Be32(x: nat): (bs: seq<byte>)
    requires x < 0x1_0000_0000
    ensures |bs| == 4
  {
    [x / 16777216, (x / 65536) % 256, (x / 256) % 256, x % 256]
  }

  /** The little-endian reading of four bytes (the inverse of `Le32`). */
  function ReadLe32(bs: seq<byte>): nat
    requires |bs| == 4
  {
    var b0: nat, b1: nat, b2: nat, b3: nat := bs[0], bs[1], bs[2], bs[3];
    b0 + 256 * b1 + 65536 * b2 + 16777216 * b3
  }

  lemma Le32RoundTrip(x: nat)
    requires x < 0x1_0000_0000
    ensures ReadLe32(Le32(x)) == x
    ensures Be32(x) == [Le32(x)[3], Le32(x)[2], Le32(x)[1], Le32(x)[0]]
  {
    var q1 := x / 256;
    var q2 := q1 / 256;
    var q3 := q2 / 256;
    assert q2 == x / 65536;
    assert q3 == x / 16777216;
    assert x == x % 256 + 256 * (q1 % 256) + 65536 * (q2 % 256) + 16777216 * q3;
  }

  /** The hex patterns of the source, in its order. */
  const AS_WRITTEN_PATTERNS: seq<string> := ["6f9f0c80", "6e9f0c80", "800c9f6f", "800c9f6e", "6f9f0c00", "6e9f0c00"]

  /** The patterns the source's comments describe: each RGB coin type,
      hardened little-endian, hardened big-endian, then plain little-endian. */
  function CorrectedPatterns(): seq<string> {
    RecordPatterns(COIN_RGB_TESTNET, COIN_RGB_MAINNET)
  }

  /** The six record patterns of a testnet and a mainnet coin type. */
  function RecordPatterns(testnet: nat, mainnet: nat): (ps: seq<string>)
    requires testnet < HARDENED && mainnet < HARDENED
    ensures |ps| == 6
    ensures ps[0] == HexEncode(Le32(HARDENED + testnet)) && ps[1] == HexEncode(Le32(HARDENED + mainnet))
  {
    [HexEncode(Le32(HARDENED + testnet)), HexEncode(Le32(HARDENED + mainnet)),
     HexEncode(Be32(HARDENED + testnet)), HexEncode(Be32(HARDENED + mainnet)),
     HexEncode(Le32(testnet)), HexEncode(Le32(mainnet))]
  }

  /** Hex of the UTF-8 bytes of a text (`Buffer.from(t).toString('hex')`). */
  function AsciiHex(t: string): string {
    HexEncode(Utf8Encode(t))
  }

  lemma AsciiHexAppend(a: string, b: string)
    ensures AsciiHex(a + b) == AsciiHex(a) + AsciiHex(b)
  {
    Utf8EncodeAppend(a, b);
    HexEncodeAppend(Utf8Encode(a), Utf8Encode(b));
  }

  const TESTNET_TEXT: string := NatToString(COIN_RGB_TESTNET)
  const MAINNET_TEXT: string := NatToString(COIN_RGB_MAINNET)

  /** The four ASCII markers: a coin type followed by `'` or preceded by `/`. */
  function AsciiMarkers(): seq<string> {
    MarkersOf(TESTNET_TEXT, MAINNET_TEXT)
  }

  /** The markers of two coin-type texts. */
  function MarkersOf(t: string, m: string): seq<string> {
    [AsciiHex(t + "'"), AsciiHex(m + "'"), AsciiHex("/" + t), AsciiHex("/" + m)]
  }

  /** The `for` loop over the patterns: does any of them occur in `hex`? */
  function AnyContained(hex: string, patterns: seq<string>): (b: bool)
    ensures b <==> exists k :: 0 <= k < |patterns| && Contains(hex, patterns[k])
  {
    if patterns == [] then false
    else if Contains(hex, patterns[0]) then true
    else
      var rest := AnyContained(hex, patterns[1..]);
      assert forall k :: 1 <= k < |patterns| ==> patterns[k] == patterns[1..][k - 1];
      rest
  }

  /** `detectPsbtType` with a given pattern list. `decode` is
      `Buffer.from(s, 'base64')`, `None` when it throws. The ASCII markers are
      looked for only after the bare coin-type text has been found. */
  function DetectWith(patterns: seq<string>, decode: string -> Option<seq<byte>>, psbt: string): PsbtType {
    match decode(Trim(psbt))
    case None => CreateUtxo
    case Some(bytes) =>
      var hex := HexEncode(bytes);
      if AnyContained(hex, patterns) then Send
      else if Contains(hex, AsciiHex(TESTNET_TEXT)) || Contains(hex, AsciiHex(MAINNET_TEXT)) then
        (if AnyContained(hex, AsciiMarkers()) then Send else CreateUtxo)
      else CreateUtxo
  }

  /** `detectPsbtType` as written, with the source's literal patterns. */
  function DetectPsbtTypeAsWritten(decode: string -> Option<seq<byte>>, psbt: string): PsbtType {
    DetectWith(AS_WRITTEN_PATTERNS, decode, psbt)
  }

  /** `detectPsbtType` with the patterns its comments describe. */
  function DetectPsbtType(decode: string -> Option<seq<byte>>, psbt: string): PsbtType {
    DetectWith(CorrectedPatterns(), decode, psbt)
  }

  /** Each marker holds the bare coin-type text, so the outer test is implied
      by the inner one. */
  lemma MarkersHoldCoinText(hex: string)
    ensures AnyContained(hex, AsciiMarkers()) ==>
      Contains(hex, AsciiHex(TESTNET_TEXT)) || Contains(hex, AsciiHex(MAINNET_TEXT))
  {
    MarkersHoldText(hex, TESTNET_TEXT, MAINNET_TEXT);
  }

  lemma MarkersHoldText(hex: string, t: string, m: string)
    ensures AnyContained(hex, MarkersOf(t, m)) ==> Contains(hex, AsciiHex(t)) || Contains(hex, AsciiHex(m))
  {
    AsciiPartsContained(hex, t, "'");
    AsciiPartsContained(hex, m, "'");
    AsciiPartsContained(hex, "/", t);
    AsciiPartsContained(hex, "/", m);
  }

  /** The hex of a joined text holds the hex of each part. */
  lemma AsciiPartsContained(hex: string, x: string, y: string)
    ensures Contains(hex, AsciiHex(x + y)) ==> Contains(hex, AsciiHex(x)) && Contains(hex, AsciiHex(y))
  {
    AsciiHexAppend(x, y);
    ContainsParts(hex, AsciiHex(x), AsciiHex(y));
  }

  /** The classification in one line: `send` exactly when the payload decodes
      and its hex holds one of the patterns or one of the ASCII markers;
      `create_utxo` otherwise, including when decoding throws. */
  lemma DetectWithCharacterised(patterns: seq<string>, decode: string -> Option<seq<byte>>, psbt: string)
    ensures DetectWith(patterns, decode, psbt) == Send <==>
      decode(Trim(psbt)).Some? &&
      var hex := HexEncode(decode(Trim(psbt)).value);
      (exists k :: 0 <= k < |patterns| && Contains(hex, patterns[k])) ||
      (exists k :: 0 <= k < |AsciiMarkers()| && Contains(hex, AsciiMarkers()[k]))
  {
    if decode(Trim(psbt)).Some? {
      MarkersHoldCoinText(HexEncode(decode(Trim(psbt)).value));
    }
  }

  /** Whole-byte record values are found: a payload holding the hardened
      little-endian RGB coin type at any byte offset is classified `send` by
      the corrected patterns. */
  lemma CorrectedFindsHardenedCoin(decode: string -> Option<seq<byte>>, psbt: string, mainnet: bool, i: nat)
    requires decode(Trim(psbt)).Some?
    requires OccursAt(decode(Trim(psbt)).value, Le32(HARDENED + (if mainnet then COIN_RGB_MAINNET else COIN_RGB_TESTNET)), i)
    ensures DetectPsbtType(decode, psbt) == Send
  {
    var rec := Le32(HARDENED + (if mainnet then COIN_RGB_MAINNET else COIN_RGB_TESTNET));
    HexShowsOccurrence(decode(Trim(psbt)).value, rec, i);
    var k := if mainnet then 1 else 0;
    assert CorrectedPatterns()[k] == HexEncode(rec);
    SendWhenPatternFound(CorrectedPatterns(), decode, psbt, k);
  }

  /** Bytes occurring in a payload occur, as hex, in its hex text. */
  lemma HexShowsOccurrence(bytes: seq<byte>, rec: seq<byte>, i: nat)
    requires OccursAt(bytes, rec, i)
    ensures Contains(HexEncode(bytes), HexEncode(rec))
  {
    HexEncodeOccurs(bytes, rec, i);
    ContainsFromOccurrence(HexEncode(bytes), HexEncode(rec), 2 * i);
  }

  /** A payload whose hex holds one of the patterns is `send`. */
  lemma SendWhenPatternFound(patterns: seq<string>, decode: string -> Option<seq<byte>>, psbt: string, k: nat)
    requires decode(Trim(psbt)).Some?
    requires k < |patterns| && Contains(HexEncode(decode(Trim(psbt)).value), patterns[k])
    ensures DetectWith(patterns, decode, psbt) == Send
  {
  }

  /** A payload whose hex holds none of the patterns and neither bare
      coin-type text is `create_utxo`. */
  lemma CreateUtxoWhenNothingFound(patterns: seq<string>, decode: string -> Option<seq<byte>>, psbt: string)
    requires decode(Trim(psbt)).Some?
    requires var hex := HexEncode(decode(Trim(psbt)).value);
      !AnyContained(hex, patterns) && !Contains(hex, AsciiHex(TESTNET_TEXT)) && !Contains(hex, AsciiHex(MAINNET_TEXT))
    ensures DetectWith(patterns, decode, psbt) == CreateUtxo
  {
  }

  /** Hex of four bytes. */
  lemma HexOf4(b0: byte, b1: byte, b2: byte, b3: byte)
    ensures HexEncode([b0, b1, b2, b3]) == HexPair(b0) + HexPair(b1) + HexPair(b2) + HexPair(b3)
  {
    HexEncodeAppend([b0], [b1, b2, b3]);
    HexEncodeAppend([b1], [b2, b3]);
    HexEncodeAppend([b2], [b3]);
    assert [b0] + [b1, b2, b3] == [b0, b1, b2, b3];
    assert [b1] + [b2, b3] == [b1, b2, b3];
    assert [b2] + [b3] == [b2, b3];
  }

  /** The hex text of four bytes, given digit pair by digit pair. */
  lemma HexOf4Is(b0: byte, b1: byte, b2: byte, b3: byte, h: string)
    requires |h| == 8
    requires HexPair(b0) == h[0..2] && HexPair(b1) == h[2..4] && HexPair(b2) == h[4..6] && HexPair(b3) == h[6..8]
    ensures HexEncode([b0, b1, b2, b3]) == h
  {
    HexOf4(b0, b1, b2, b3);
    assert h == h[0..2] + h[2..4] + h[4..6] + h[6..8];
  }

  lemma Le32Values()
    ensures Le32(HARDENED + 827247) == [0x6f, 0x9f, 0x0c, 0x80]
    ensures Le32(HARDENED + COIN_RGB_TESTNET) == [0x1f, 0x9f, 0x0c, 0x80]
  {
  }

  lemma HexPairsOfRecords()
    ensures HexPair(0x6f) == "6f" && HexPair(0x1f) == "1f"
    ensures HexPair(0x9f) == "9f" && HexPair(0x0c) == "0c" && HexPair(0x80) == "80"
  {
  }

  /** What the source's first pattern actually encodes: 827247 with bit 31
      set, little-endian, where the hardened testnet RGB coin type 827167
      would read `1f9f0c80`. The mainnet pattern is off by the same 80. */
  lemma AsWrittenPatternsMisencode()
    ensures AS_WRITTEN_PATTERNS[0] == HexEncode(Le32(HARDENED + 827247))
    ensures HexEncode(Le32(HARDENED + COIN_RGB_TESTNET)) == "1f9f0c80"
    ensures AS_WRITTEN_PATTERNS[0] != CorrectedPatterns()[0]
    ensures 827247 == COIN_RGB_TESTNET + 80 && 827246 == COIN_RGB_MAINNET + 80
  {
    Le32Values();
    HexPairsOfRecords();
    var p := AS_WRITTEN_PATTERNS[0];
    assert p == "6f9f0c80";
    HexOf4Is(0x6f, 0x9f, 0x0c, 0x80, p);
    HexOf4Is(0x1f, 0x9f, 0x0c, 0x80, "1f9f0c80");
    assert p[0] != "1f9f0c80"[0];
  }

  /** A pattern as long as the text occurs in it only as the whole text. */
  lemma ContainsSameLength(s: string, p: string)
    requires |p| >= |s|
    ensures Contains(s, p) <==> s == p
  {
    ContainsIff(s, p);
    if s == p {
      assert OccursAt(s, p, 0);
    }
  }

  /** The hex text of the hardened testnet coin record alone. */
  function RecordOnly(): seq<byte> {
    Le32(HARDENED + COIN_RGB_TESTNET)
  }

  /** The record's hex text misses every as-written pattern and both bare
      coin-type texts. */
  lemma RecordOnlyMissesAsWritten()
    ensures !AnyContained("1f9f0c80", AS_WRITTEN_PATTERNS)
    ensures !Contains("1f9f0c80", AsciiHex(TESTNET_TEXT)) && !Contains("1f9f0c80", AsciiHex(MAINNET_TEXT))
  {
    var hex := "1f9f0c80";
    forall k | 0 <= k < |AS_WRITTEN_PATTERNS|
      ensures !Contains(hex, AS_WRITTEN_PATTERNS[k])
    {
      ContainsSameLength(hex, AS_WRITTEN_PATTERNS[k]);
    }
    assert |AsciiHex(TESTNET_TEXT)| >= 12 by { assert |TESTNET_TEXT| == 6; }
    assert |AsciiHex(MAINNET_TEXT)| >= 12 by { assert |MAINNET_TEXT| == 6; }
    ContainsSameLength(hex, AsciiHex(TESTNET_TEXT));
    ContainsSameLength(hex, AsciiHex(MAINNET_TEXT));
  }

  /** A payload that is exactly a derivation-path element for the hardened
      testnet RGB coin type: the source's patterns miss it, the corrected
      ones find it. */
  lemma HardenedCoinMissedAsWritten(decode: string -> Option<seq<byte>>, psbt: string)
    requires decode(Trim(psbt)) == Some(RecordOnly())
    ensures DetectPsbtTypeAsWritten(decode, psbt) == CreateUtxo
    ensures DetectPsbtType(decode, psbt) == Send
  {
    AsWrittenPatternsMisencode();
    assert HexEncode(decode(Trim(psbt)).value) == "1f9f0c80";
    RecordOnlyMissesAsWritten();
    CreateUtxoWhenNothingFound(AS_WRITTEN_PATTERNS, decode, psbt);
    ContainsSameLength("1f9f0c80", CorrectedPatterns()[0]);
    SendWhenPatternFound(CorrectedPatterns(), decode, psbt, 0);
  }

  /** The five bytes 06 f9 f0 c8 00 and their hex text. */
  function Misaligned(): seq<byte> {
    [0x06, 0xf9, 0xf0, 0xc8, 0x00]
  }

  lemma HexPairsOfMisaligned()
    ensures HexPair(0x06) == "06" && HexPair(0xf9) == "f9" && HexPair(0xf0) == "f0"
    ensures HexPair(0xc8) == "c8" && HexPair(0x00) == "00"
  {
  }

  lemma MisalignedHex()
    ensures HexEncode(Misaligned()) == "06f9f0c800"
  {
    HexPairsOfMisaligned();
    HexEncodeAppend([0x06, 0xf9, 0xf0, 0xc8], [0x00]);
    assert [0x06, 0xf9, 0xf0, 0xc8] + [0x00] == Misaligned();
    HexOf4Is(0x06, 0xf9, 0xf0, 0xc8, "06f9f0c8");
    assert HexEncode([0x00]) == "00";
  }

  /** Matching on hex text finds patterns at odd nibble offsets: the bytes
      06 f9 f0 c8 00 hold no `6f 9f 0c 80` record (no byte is 6f), yet their
      hex holds the first pattern one nibble in. */
  lemma NibbleMisalignedHit(psbt: string)
    ensures 0x6f !in Misaligned()
    ensures DetectPsbtTypeAsWritten((_: string) => Some(Misaligned()), psbt) == Send
  {
    MisalignedLacks6f();
    MisalignedHoldsPattern();
    SendWhenPatternFound(AS_WRITTEN_PATTERNS, (_: string) => Some(Misaligned()), psbt, 0);
  }

  lemma MisalignedLacks6f()
    ensures 0x6f !in Misaligned()
  {
  }

  /** The first as-written pattern sits one nibble into `06f9f0c800`. */
  lemma MisalignedHoldsPattern()
    ensures Contains(HexEncode(Misaligned()), AS_WRITTEN_PATTERNS[0])
  {
    var hex := HexEncode(Misaligned());
    MisalignedHex();
    assert hex[1..9] == "6f9f0c80";
    assert OccursAt(hex, AS_WRITTEN_PATTERNS[0], 1);
    ContainsFromOccurrence(hex, AS_WRITTEN_PATTERNS[0], 1);
  }
}
