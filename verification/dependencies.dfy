/** The adapter over the HD-key, BIP 39 and Schnorr libraries: SEC 1 to
    BIP 340 x-only conversion, the BIP 32 node wrapper with its public-key
    guard and its `toBase58` choice, and the libraries themselves as
    function-valued parameters. */
module Dependencies {
  import opened Optional
  import opened Text
  import opened Bytes
  import opened Errors
  import opened NetworkConstants
  import opened Fingerprint

  /** `xOnlyPointFromPoint`: a compressed (33-byte) or uncompressed (65-byte)
      SEC 1 point gives its X coordinate, bytes 1..32; a 32-byte x-only key
      is returned as is; every other length is a plain `Error`. */
  function XOnlyPointFromPoint(point: seq<byte>): (r: Result<seq<byte>>)
    ensures r.Ok? <==> |point| in {32, 33, 65}
    ensures r.Ok? ==> |r.value| == 32
    ensures |point| == 33 || |point| == 65 ==> r == Ok(point[1..33])
    ensures |point| == 32 ==> r == Ok(point)
    ensures r.Err? ==> r.raised == Foreign("Invalid public key length: " + NatToString(|point|))
  {
    if |point| == 33 then Ok(point[1..33])
    else if |point| == 65 then Ok(point[1..33])
    else if |point| == 32 then Ok(point)
    else Err(Foreign("Invalid public key length: " + NatToString(|point|)))
  }

  /** Converting an x-only key again changes nothing. */
  lemma XOnlyIdempotent(point: seq<byte>)
    requires XOnlyPointFromPoint(point).Ok?
    ensures XOnlyPointFromPoint(XOnlyPointFromPoint(point).value) == XOnlyPointFromPoint(point)
  {
  }

  /** The state of an `HDKey` that the adapter reads. `privateExtendedKey` is
      `None` when reading it throws (a key without a private part). */
  datatype HdKey = HdKey(
    versions: VersionPair,
    publicKey: Option<seq<byte>>,
    privateKey: Option<seq<byte>>,
    privateExtendedKey: Option<string>,
    publicExtendedKey: string)

  /** What `createBIP32Node` returns: the wrapped key and copies of its keys. */
  datatype Bip32Node = Bip32Node(key: HdKey, publicKey: seq<byte>, privateKey: Option<seq<byte>>)

  /** `createBIP32Node`: refuses a key without a public key. */
  function CreateBip32Node(hd: HdKey): (r: Result<Bip32Node>)
    ensures r.Ok? <==> hd.publicKey.Some?
    ensures r.Err? ==> r.raised == Foreign("HDKey publicKey is null")
    ensures r.Ok? ==> r.value.key == hd && r.value.publicKey == hd.publicKey.value && r.value.privateKey == hd.privateKey
  {
    match hd.publicKey
    case None => Err(Foreign("HDKey publicKey is null"))
    case Some(pk) => Ok(Bip32Node(hd, pk, hd.privateKey))
  }

  /** `toBase58`: the private extended key when it can be read and is
      non-empty, otherwise the public one (possibly empty). */
  function ToBase58(node: Bip32Node): (s: string)
    ensures s == node.key.publicExtendedKey || Some(s) == node.key.privateExtendedKey
    ensures s == "" <==> node.key.publicExtendedKey == "" && node.key.privateExtendedKey.GetOr("") == ""
    ensures node.key.privateExtendedKey.Some? && node.key.privateExtendedKey.value != "" ==> s == node.key.privateExtendedKey.value
    ensures node.key.privateExtendedKey.None? || node.key.privateExtendedKey == Some("") ==> s == node.key.publicExtendedKey
  {
    var k := node.key;
    match k.privateExtendedKey
    case None => k.publicExtendedKey
    case Some(x) => if x != "" then x else if k.publicExtendedKey != "" then k.publicExtendedKey else ""
  }

  /** What a library call does: return a value or throw a plain `Error`. */
  datatype LibResult<+T> = Done(value: T) | Failed(message: string) {
    /** The call as seen by the SDK's code. */
    function Lift(): (r: Result<T>)
      ensures Done? <==> r.Ok?
      ensures Done? ==> r.value == value
      ensures Failed? ==> r.raised == Foreign(message)
    {
      match this
      case Done(v) => Ok(v)
      case Failed(m) => Err(Foreign(m))
    }
  }

  /** The HD-key library (`@scure/bip32`): master key from a seed, parsing an
      extended key under given version bytes, and path derivation. */
  datatype Bip32Lib = Bip32Lib(
    fromMasterSeed: (seq<byte>, VersionPair) -> LibResult<HdKey>,
    fromExtendedKey: (string, VersionPair) -> LibResult<HdKey>,
    derive: (HdKey, string) -> LibResult<HdKey>)

  /** The other primitives: BIP 39, the two hashes, Schnorr signatures and
      base64 (`Buffer.from(s, 'base64')` skips what is not base64 and never
      throws on a string). `schnorrVerify` is `None` when verification throws. */
  datatype Primitives = Primitives(
    mnemonicToSeed: string -> seq<byte>,
    bip39Valid: string -> bool,
    sha256: seq<byte> -> Digest32,
    ripemd160: seq<byte> -> Digest20,
    schnorrSign: (seq<byte>, seq<byte>) -> seq<byte>,
    schnorrVerify: (seq<byte>, seq<byte>, seq<byte>) -> Option<bool>,
    base64Encode: seq<byte> -> string,
    base64Decode: string -> seq<byte>)

  /** Every foreign library the SDK calls into. */
  datatype Libraries = Libraries(bip32: Bip32Lib, prims: Primitives)

  /** `bip32.fromSeed(seed, versions)` */
  function FromSeed(lib: Bip32Lib, seed: seq<byte>, versions: VersionPair): (r: Result<Bip32Node>)
    ensures r.Err? ==> r.raised.Foreign?
    ensures r.Ok? <==> lib.fromMasterSeed(seed, versions).Done? && lib.fromMasterSeed(seed, versions).value.publicKey.Some?
    ensures r.Ok? ==> r.value.key == lib.fromMasterSeed(seed, versions).value
  {
    var hd :- lib.fromMasterSeed(seed, versions).Lift();
    CreateBip32Node(hd)
  }

  /** `bip32.fromBase58(key, versions)` */
  function FromBase58(lib: Bip32Lib, key: string, versions: VersionPair): (r: Result<Bip32Node>)
    ensures r.Err? ==> r.raised.Foreign?
    ensures r.Ok? <==> lib.fromExtendedKey(key, versions).Done? && lib.fromExtendedKey(key, versions).value.publicKey.Some?
    ensures r.Ok? ==> r.value.key == lib.fromExtendedKey(key, versions).value
  {
    var hd :- lib.fromExtendedKey(key, versions).Lift();
    CreateBip32Node(hd)
  }

  /** `node.derivePath(path)` */
  function DerivePath(lib: Bip32Lib, node: Bip32Node, path: string): (r: Result<Bip32Node>)
    ensures r.Err? ==> r.raised.Foreign?
    ensures r.Ok? <==> lib.derive(node.key, path).Done? && lib.derive(node.key, path).value.publicKey.Some?
    ensures r.Ok? ==> r.value.key == lib.derive(node.key, path).value
  {
    var hd :- lib.derive(node.key, path).Lift();
    CreateBip32Node(hd)
  }

  /** `node.neutered()`: re-parses the public extended key under the node's
      own versions; an empty public extended key is an error. */
  function Neutered(lib: Bip32Lib, node: Bip32Node): (r: Result<Bip32Node>)
    ensures r.Err? ==> r.raised.Foreign?
    ensures node.key.publicExtendedKey == "" ==> r == Err(Foreign("Cannot create neutered key: no public extended key available"))
    ensures node.key.publicExtendedKey != "" ==> r == FromBase58(lib, node.key.publicExtendedKey, node.key.versions)
    ensures ReparsesPublicKey(lib, node) && r.Ok? ==>
      r.value.key.privateExtendedKey.None? && r.value.key.publicExtendedKey == node.key.publicExtendedKey
  {
    if node.key.publicExtendedKey == "" then
      Err(Foreign("Cannot create neutered key: no public extended key available"))
    else
      FromBase58(lib, node.key.publicExtendedKey, node.key.versions)
  }

  /** `node.neutered().toBase58()`, the account- and master-xpub idiom. */
  function NeuteredBase58(lib: Bip32Lib, node: Bip32Node): (r: Result<string>)
    ensures r.Err? ==> r.raised.Foreign?
    ensures r.Ok? <==> Neutered(lib, node).Ok?
    ensures r.Ok? ==> r.value == ToBase58(Neutered(lib, node).value)
  {
    var n :- Neutered(lib, node);
    Ok(ToBase58(n))
  }

  /** The library reads a public extended key back as a key without a
      private part that prints as the same text. */
  predicate ReparsesPublicKey(lib: Bip32Lib, node: Bip32Node) {
    var p := lib.fromExtendedKey(node.key.publicExtendedKey, node.key.versions);
    p.Done? ==> p.value.privateExtendedKey.None? && p.value.publicExtendedKey == node.key.publicExtendedKey
  }

  /** `neutered().toBase58()` is the node's own public extended key: it never
      reveals the private one, and it fails exactly when there is no public
      key to re-parse. */
  lemma NeuteredBase58IsPublicKey(lib: Bip32Lib, node: Bip32Node)
    requires ReparsesPublicKey(lib, node)
    ensures NeuteredBase58(lib, node).Ok? ==> NeuteredBase58(lib, node) == Ok(node.key.publicExtendedKey)
    ensures NeuteredBase58(lib, node).Ok? ==> node.key.publicExtendedKey != ""
    ensures node.key.publicExtendedKey == "" ==> NeuteredBase58(lib, node).Err?
  {
  }
}
