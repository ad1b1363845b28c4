/** RGB wallet key generation and derivation: seed decoding, the BIP 86
    account path with its RGB coin type, network inference from extended-key
    prefixes, and the public `derive*` entry points with their error mapping.
    HD derivation, BIP 39 and hashing are the library parameters of
    `Dependencies`. */
module Keys {
  import opened Optional
  import opened Text
  import opened Bytes
  import opened Errors
  import opened JsValues
  import opened NetworkConstants
  import opened Validation
  import opened Bip32Helpers
  import opened Fingerprint
  import opened Dependencies

  // ---------------------------------------------------------------------
  // Seed input

  /** The hex text after one leading lower-case `0x`, if there is one. */
  function StripHexPrefix(t: string): (h: string)
    ensures StartsWith(t, "0x") ==> t == "0x" + h
    ensures !StartsWith(t, "0x") ==> h == t
  {
    if StartsWith(t, "0x") then t[2..] else t
  }

  /** The string branch of `normalizeSeedInput`: trim, drop one `0x`, then
      demand an even length, exactly 128 characters and hex digits only. */
  function ParseSeedHex(s: string, field: string): (r: Result<seq<byte>>)
    ensures r.Err? ==> r.raised.IsValidation() && r.raised.err.field == Some(field)
    ensures r.Ok? <==> |StripHexPrefix(Trim(s))| == 128 && AllHex(StripHexPrefix(Trim(s)))
    ensures r.Ok? ==> |r.value| == 64 && r.value == HexDecode(StripHexPrefix(Trim(s)))
  {
    var trimmed := Trim(s);
    if trimmed == [] then
      assert StripHexPrefix(trimmed) == [];
      SeedRefused(field, " must be a non-empty hex string")
    else
      ParseSeedDigits(StripHexPrefix(trimmed), field)
  }

  /** The checks on the digits once the prefix is gone: even length, then
      exactly 128 characters, then hex digits only. */
  function ParseSeedDigits(hex: string, field: string): (r: Result<seq<byte>>)
    ensures r.Err? ==> r.raised.IsValidation() && r.raised.err.field == Some(field)
    ensures r.Ok? <==> |hex| == 128 && AllHex(hex)
    ensures r.Ok? ==> |r.value| == 64 && |hex| == 128 && AllHex(hex) && r.value == HexDecode(hex)
  {
    if |hex| % 2 != 0 then
      SeedRefused(field, " hex string must have even length")
    else if |hex| != 128 then
      SeedRefused(field, " must be 64 bytes (128 hex characters)")
    else if !AllHex(hex) then
      SeedRefused(field, " must be a valid hex string")
    else
      Ok(HexDecode(hex))
  }

  /** A `ValidationError` about the seed text, its message the field name
      followed by the reason. */
  function SeedRefused(field: string, reason: string): (r: Result<seq<byte>>)
    ensures r.Err? && r.raised.IsValidation() && r.raised.err.field == Some(field)
    ensures r.raised.Message() == field + reason
  {
    Throw(ValidationError(field + reason, Some(field)))
  }

  /** `normalizeSeedInput`: a string goes through `ParseSeedHex`; a byte
      array must be non-empty, is copied unchanged and its length is not
      checked; anything else is refused. Every refusal is a `ValidationError`
      naming `field`. */
  function NormalizeSeedInput(seed: JsValue, field: string): (r: Result<seq<byte>>)
    ensures r.Err? ==> r.raised.IsValidation() && r.raised.err.field == Some(field)
    ensures seed.JsStr? ==> r == ParseSeedHex(seed.s, field)
    ensures seed.JsBytes? ==> (r.Ok? <==> seed.bytes != []) && (r.Ok? ==> r.value == seed.bytes)
    ensures !seed.JsStr? && !seed.JsBytes? ==> r.Err?
  {
    match seed
    case JsStr(s) => ParseSeedHex(s, field)
    case JsBytes(bs) =>
      if bs == [] then Throw(ValidationError(field + " must not be empty", Some(field)))
      else Ok(bs)
    case _ =>
      Throw(ValidationError(field + " must be a 64-byte hex string or Uint8Array", Some(field)))
  }

  /** One leading `0x` is dropped, and hex digits never start with one. */
  lemma StripHexPrefixOf(hex: string, withPrefix: bool)
    requires |hex| >= 2 && AllHex(hex)
    ensures StripHexPrefix((if withPrefix then "0x" else "") + hex) == hex
  {
    var t := (if withPrefix then "0x" else "") + hex;
    if withPrefix {
      assert t[..2] == "0x";
      assert t[2..] == hex;
    } else {
      assert t == hex;
      assert IsHexChar(hex[1]);
      assert t[..2][1] != 'x';
    }
  }

  /** 128 hex digits, with or without `0x` and surrounded by any white
      space, parse as the bytes they spell. */
  lemma SeedTextParses(hex: string, withPrefix: bool, pre: string, post: string, field: string)
    requires |hex| == 128 && AllHex(hex)
    requires AllSpace(pre) && AllSpace(post)
    ensures ParseSeedHex(pre + ((if withPrefix then "0x" else "") + hex) + post, field) == Ok(HexDecode(hex))
  {
    var core := (if withPrefix then "0x" else "") + hex;
    assert IsHexChar(hex[127]);
    assert core[|core| - 1] == hex[127];
    assert IsTrimmed(core);
    TrimSurrounded(pre, core, post);
    StripHexPrefixOf(hex, withPrefix);
  }

  /** Any 64 bytes written as hex, with or without `0x` and surrounded by any
      white space, decode back to themselves. */
  lemma SeedHexRoundTrip(bs: seq<byte>, withPrefix: bool, pre: string, post: string, field: string)
    requires |bs| == 64
    requires AllSpace(pre) && AllSpace(post)
    ensures NormalizeSeedInput(JsStr(pre + (if withPrefix then "0x" else "") + HexEncode(bs) + post), field) == Ok(bs)
  {
    var prefix := if withPrefix then "0x" else "";
    var hex := HexEncode(bs);
    SeedTextParses(hex, withPrefix, pre, post, field);
    HexRoundTrip(bs);
    Associate(pre, prefix, hex, post);
  }

  lemma Associate(a: string, b: string, c: string, d: string)
    ensures a + b + c + d == a + (b + c) + d
  {
  }

  // ---------------------------------------------------------------------
  // Coin type and account path

  /** `getCoinType`: the RGB coin type for the colored keychain, the BIP 44
      Bitcoin coin type for the vanilla one, mainnet's when the network reads
      as mainnet. */
  function GetCoinType(network: JsValue, rgb: bool): (c: nat)
    ensures rgb ==> c in {COIN_RGB_MAINNET, COIN_RGB_TESTNET}
    ensures !rgb ==> c in {COIN_BITCOIN_MAINNET, COIN_BITCOIN_TESTNET}
    ensures c in {COIN_RGB_MAINNET, COIN_BITCOIN_MAINNET} <==> GetNetworkVersions(network).wif == 0x80
  {
    var net := ToNetworkName(network);
    if rgb then (if net == Mainnet then COIN_RGB_MAINNET else COIN_RGB_TESTNET)
    else (if net == Mainnet then COIN_BITCOIN_MAINNET else COIN_BITCOIN_TESTNET)
  }

  /** A hardened path element: the number followed by `'`. */
  function Hardened(n: nat): string {
    NatToString(n) + "'"
  }

  /** `accountDerivationPath`: `m/86'/<coin>'/0'`. */
  function AccountDerivationPath(network: JsValue, rgb: bool): (p: string)
    ensures Split(p, '/') == ["m", Hardened(DERIVATION_PURPOSE), Hardened(GetCoinType(network, rgb)), Hardened(DERIVATION_ACCOUNT)]
  {
    var levels := ["m", Hardened(DERIVATION_PURPOSE), Hardened(GetCoinType(network, rgb)), Hardened(DERIVATION_ACCOUNT)];
    HardenedValueOf(DERIVATION_PURPOSE);
    HardenedValueOf(GetCoinType(network, rgb));
    HardenedValueOf(DERIVATION_ACCOUNT);
    SplitJoin(levels, '/');
    Join(levels, '/')
  }

  /** The number a hardened path element stands for. */
  function HardenedValue(seg: string): Option<nat> {
    if |seg| >= 2 && seg[|seg| - 1] == '\'' && AllDigits(seg[..|seg| - 1]) then Some(ParseNat(seg[..|seg| - 1]))
    else None
  }

  lemma HardenedValueOf(n: nat)
    ensures HardenedValue(Hardened(n)) == Some(n)
    ensures '/' !in Hardened(n)
  {
    var s := Hardened(n);
    assert s[..|s| - 1] == NatToString(n);
    ParseNatToString(n);
  }

  /** Reading the path back: four `/`-separated levels, the root `m`, then
      purpose 86, the coin type and account 0, each hardened. */
  lemma {:induction false} AccountPathLevels(network: JsValue, rgb: bool)
    ensures Split(AccountDerivationPath(network, rgb), '/') ==
      ["m", Hardened(DERIVATION_PURPOSE), Hardened(GetCoinType(network, rgb)), Hardened(DERIVATION_ACCOUNT)]
    ensures var levels := Split(AccountDerivationPath(network, rgb), '/');
      |levels| == 4 && levels[0] == "m"
      && HardenedValue(levels[1]) == Some(DERIVATION_PURPOSE)
      && HardenedValue(levels[2]) == Some(GetCoinType(network, rgb))
      && HardenedValue(levels[3]) == Some(DERIVATION_ACCOUNT)
  {
    var levels := ["m", Hardened(DERIVATION_PURPOSE), Hardened(GetCoinType(network, rgb)), Hardened(DERIVATION_ACCOUNT)];
    HardenedValueOf(DERIVATION_PURPOSE);
    HardenedValueOf(GetCoinType(network, rgb));
    HardenedValueOf(DERIVATION_ACCOUNT);
    SplitJoin(levels, '/');
  }

  /** The vanilla and colored paths of one network differ exactly in the coin
      level, so they are never the same path. */
  lemma VanillaAndColoredPathsDiffer(network: JsValue)
    ensures AccountDerivationPath(network, false) != AccountDerivationPath(network, true)
    ensures var v, c := Split(AccountDerivationPath(network, false), '/'), Split(AccountDerivationPath(network, true), '/');
      |v| == |c| == 4 && v[0] == c[0] && v[1] == c[1] && v[3] == c[3] && v[2] != c[2]
  {
    var pv, pc := AccountDerivationPath(network, false), AccountDerivationPath(network, true);
    AccountPathLevels(network, false);
    AccountPathLevels(network, true);
    var cv, cc := GetCoinType(network, false), GetCoinType(network, true);
    assert cv != cc;
    var v, c := Split(pv, '/'), Split(pc, '/');
    assert HardenedValue(v[2]) == Some(cv);
    assert HardenedValue(c[2]) == Some(cc);
    assert v != c;
  }

  /** On the SDK's own network names the coin type follows the network:
      mainnet's coins only for mainnet. */
  lemma CoinTypeOfNamedNetwork(n: Network, rgb: bool)
    ensures GetCoinType(JsStr(Name(n)), rgb) ==
      (if rgb then (if n == Mainnet then COIN_RGB_MAINNET else COIN_RGB_TESTNET)
       else (if n == Mainnet then COIN_BITCOIN_MAINNET else COIN_BITCOIN_TESTNET))
  {
    ToNetworkNameOfNames(n);
  }

  // ---------------------------------------------------------------------
  // Network inference from extended-key prefixes

  /** `buildKeysOutputFromXpriv`: testnet for `tprv`/`tpub`, mainnet otherwise. */
  function XprivNetwork(xpriv: string): (n: Network)
    ensures n == Testnet <==> StartsWith(xpriv, "tprv") || StartsWith(xpriv, "tpub")
    ensures n in {Mainnet, Testnet}
  {
    if StartsWith(xpriv, "tprv") || StartsWith(xpriv, "tpub") then Testnet else Mainnet
  }

  /** The xpub helper without a network: mainnet for `xprv` only. */
  function InferredXpubNetwork(xpriv: string): (n: Network)
    ensures n == Mainnet <==> StartsWith(xpriv, "xprv")
    ensures n in {Mainnet, Testnet}
  {
    if StartsWith(xpriv, "xprv") then Mainnet else Testnet
  }

  /** The two inferences agree on the BIP 32 private-key prefixes `xprv` and
      `tprv` and disagree on every key starting with neither a testnet prefix
      nor `xprv` (an `xpub`, say). */
  lemma PrefixInferencesCompared(key: string)
    ensures StartsWith(key, "xprv") || StartsWith(key, "tprv") ==> XprivNetwork(key) == InferredXpubNetwork(key)
    ensures !StartsWith(key, "xprv") && !StartsWith(key, "tprv") && !StartsWith(key, "tpub") ==>
      XprivNetwork(key) == Mainnet && InferredXpubNetwork(key) == Testnet
  {
    if StartsWith(key, "xprv") {
      assert key[..4] == "xprv";
      assert !StartsWith(key, "tprv") && !StartsWith(key, "tpub");
    } else if StartsWith(key, "tprv") {
      assert key[..4] == "tprv";
      assert !StartsWith(key, "xprv");
    }
  }

  // ---------------------------------------------------------------------
  // Results

  /** `GeneratedKeys` */
  datatype GeneratedKeys = GeneratedKeys(
    mnemonic: string,
    xpub: string,
    accountXpubVanilla: string,
    accountXpubColored: string,
    masterFingerprint: string,
    xpriv: string)

  /** `AccountXpubs` */
  datatype AccountXpubs = AccountXpubs(vanilla: string, colored: string)

  /** The messages the key functions wrap failures in. */
  const MNEMONIC_DERIVATION_FAILED: string := "Failed to derive keys from mnemonic"
  const SEED_DERIVATION_FAILED: string := "Failed to derive keys from seed"
  const XPRIV_FROM_MNEMONIC_FAILED: string := "Failed to derive xpriv from mnemonic"
  const XPUB_FROM_XPRIV_FAILED: string := "Failed to derive xpub from xpriv"
  const KEYS_FROM_XPRIV_FAILED: string := "Failed to derive keys from xpriv"
  const ACCOUNT_XPUBS_FAILED: string := "Failed to derive account xpubs from mnemonic"
  const ROOT_FROM_SEED_FAILED: string := "Failed to create BIP32 root node from seed"

  /** The `catch` of the `derive*` entry points: a `ValidationError` is
      rethrown unchanged, anything else becomes a `CryptoError` with the given
      message whose cause is what was thrown. */
  function CatchAsCrypto<T>(r: Result<T>, message: string): (c: Result<T>)
    ensures r.Ok? ==> c == r
    ensures r.Err? && r.raised.IsValidation() ==> c == r
    ensures r.Err? && !r.raised.IsValidation() ==> c == Throw(CryptoError(message, Some(r.raised)))
  {
    if r.Err? && !r.raised.IsValidation() then Throw(CryptoError(message, Some(r.raised))) else r
  }

  /** Whatever reaches the caller through `CatchAsCrypto` is a validation or a
      crypto error. */
  predicate ValidationOrCrypto<T>(r: Result<T>) {
    r.Err? ==> r.raised.IsValidation() || r.raised.IsCrypto()
  }

  // ---------------------------------------------------------------------
  // Internal derivation steps

  /** `mnemonicToRoot`: BIP 39 seed, versions from the (loosely read) network,
      master node; a library failure becomes a `CryptoError`. */
  function MnemonicToRoot(libs: Libraries, mnemonic: string, network: JsValue): (r: Result<Bip32Node>)
    ensures r.Err? ==> r.raised.IsCrypto()
    ensures r.Ok? <==> FromSeed(libs.bip32, libs.prims.mnemonicToSeed(mnemonic), GetNetworkVersions(network).bip32).Ok?
    ensures r.Ok? ==> FromSeed(libs.bip32, libs.prims.mnemonicToSeed(mnemonic), GetNetworkVersions(network).bip32) == r
  {
    var seed := NormalizeSeedBuffer(JsBytes(libs.prims.mnemonicToSeed(mnemonic))).value;
    var versions := GetNetworkVersions(network);
    match FromSeed(libs.bip32, seed, versions.bip32)
    case Err(e) => Throw(CryptoError("Failed to create BIP32 root node from seed: " + e.Message(), Some(e)))
    case Ok(root) => Ok(root)
  }

  /** The account xpub at `path`: derive, neuter, serialise. */
  function AccountXpubAt(libs: Libraries, root: Bip32Node, path: string): (r: Result<string>)
    ensures r.Err? ==> r.raised.Foreign?
    ensures r.Ok? ==> DerivePath(libs.bip32, root, path).Ok? && NeuteredBase58(libs.bip32, DerivePath(libs.bip32, root, path).value) == r
  {
    var acct :- DerivePath(libs.bip32, root, path);
    NeuteredBase58(libs.bip32, acct)
  }

  /** `getAccountXpub`: the neutered account node at the account path. */
  function GetAccountXpub(libs: Libraries, mnemonic: string, network: JsValue, rgb: bool): (r: Result<string>)
    ensures r.Err? ==> r.raised.Foreign? || r.raised.IsCrypto()
    ensures r.Ok? ==> MnemonicToRoot(libs, mnemonic, network).Ok?
    ensures MnemonicToRoot(libs, mnemonic, network).Ok? ==>
      r == AccountXpubAt(libs, MnemonicToRoot(libs, mnemonic, network).value, AccountDerivationPath(network, rgb))
  {
    var root :- MnemonicToRoot(libs, mnemonic, network);
    AccountXpubAt(libs, root, AccountDerivationPath(network, rgb))
  }

  /** `getMasterXpriv` */
  function GetMasterXpriv(libs: Libraries, mnemonic: string, network: JsValue): (r: Result<string>)
    ensures r.Ok? <==> MnemonicToRoot(libs, mnemonic, network).Ok?
    ensures r.Ok? ==> r.value == ToBase58(MnemonicToRoot(libs, mnemonic, network).value)
  {
    var root :- MnemonicToRoot(libs, mnemonic, network);
    Ok(ToBase58(root))
  }

  /** `deriveAccountXpubsFromRoot`: both account xpubs, each from its own
      account path. */
  function DeriveAccountXpubsFromRoot(libs: Libraries, root: Bip32Node, network: Network): (r: Result<AccountXpubs>)
    ensures r.Err? ==> r.raised.Foreign?
    ensures r.Ok? <==> (AccountXpubAt(libs, root, AccountDerivationPath(JsStr(Name(network)), false)).Ok?
                    && AccountXpubAt(libs, root, AccountDerivationPath(JsStr(Name(network)), true)).Ok?)
    ensures r.Ok? ==> (Ok(r.value.vanilla) == AccountXpubAt(libs, root, AccountDerivationPath(JsStr(Name(network)), false))
                   && Ok(r.value.colored) == AccountXpubAt(libs, root, AccountDerivationPath(JsStr(Name(network)), true)))
  {
    var v :- AccountXpubAt(libs, root, AccountDerivationPath(JsStr(Name(network)), false));
    var c :- AccountXpubAt(libs, root, AccountDerivationPath(JsStr(Name(network)), true));
    Ok(AccountXpubs(v, c))
  }

  /** `buildGeneratedKeysFromRoot`: the record of every key, carrying the
      mnemonic it is given. */
  function BuildGeneratedKeysFromRoot(libs: Libraries, root: Bip32Node, network: Network, mnemonic: string): (r: Result<GeneratedKeys>)
    ensures r.Err? ==> r.raised.Foreign?
    ensures r.Ok? <==> NeuteredBase58(libs.bip32, root).Ok? && DeriveAccountXpubsFromRoot(libs, root, network).Ok?
    ensures r.Ok? ==> r.value.mnemonic == mnemonic && r.value.xpriv == ToBase58(root)
    ensures r.Ok? ==> NeuteredBase58(libs.bip32, root) == Ok(r.value.xpub)
    ensures r.Ok? ==> r.value.masterFingerprint == HexEncode(libs.prims.ripemd160(libs.prims.sha256(root.publicKey))[..4])
    ensures r.Ok? ==> DeriveAccountXpubsFromRoot(libs, root, network) == Ok(AccountXpubs(r.value.accountXpubVanilla, r.value.accountXpubColored))
  {
    var xpub :- NeuteredBase58(libs.bip32, root);
    var xpriv := ToBase58(root);
    var fp := CalculateMasterFingerprint(Some(root.publicKey), libs.prims.sha256, libs.prims.ripemd160).value;
    var accounts :- DeriveAccountXpubsFromRoot(libs, root, network);
    Ok(GeneratedKeys(mnemonic, xpub, accounts.vanilla, accounts.colored, fp, xpriv))
  }

  /** `getXpubFromXprivInternal`: a truthy network is read loosely, otherwise
      the network is guessed from the `xprv` prefix; any failure becomes a
      `CryptoError`. */
  function GetXpubFromXprivInternal(libs: Libraries, xpriv: string, network: JsValue): (r: Result<string>)
    ensures r.Err? ==> r.raised.IsCrypto() && r.raised.err.message == XPUB_FROM_XPRIV_FAILED
    ensures var parsed := FromBase58(libs.bip32, xpriv, XpubVersions(xpriv, network));
      r.Ok? <==> parsed.Ok? && NeuteredBase58(libs.bip32, parsed.value).Ok?
    ensures r.Ok? ==> r == NeuteredBase58(libs.bip32, FromBase58(libs.bip32, xpriv, XpubVersions(xpriv, network)).value)
  {
    var versions := GetNetworkVersions(XpubNetwork(xpriv, network));
    var attempt := (var node :- FromBase58(libs.bip32, xpriv, versions.bip32); NeuteredBase58(libs.bip32, node));
    match attempt
    case Err(e) => Throw(CryptoError(XPUB_FROM_XPRIV_FAILED, Some(e)))
    case Ok(x) => Ok(x)
  }

  /** The network `getXpubFromXprivInternal` parses under: a truthy one as
      given, otherwise the one the `xprv` prefix suggests. */
  function XpubNetwork(xpriv: string, network: JsValue): JsValue {
    if Truthy(network) then network else JsStr(Name(InferredXpubNetwork(xpriv)))
  }

  /** The BIP 32 versions of that network. */
  function XpubVersions(xpriv: string, network: JsValue): VersionPair {
    GetNetworkVersions(XpubNetwork(xpriv, network)).bip32
  }

  /** `buildKeysOutput`: the root of the mnemonic under the normalised
      network, and every key built from it. */
  function BuildKeysOutput(libs: Libraries, mnemonic: string, network: JsValue): (r: Result<GeneratedKeys>)
    ensures NormalizeNetwork(network).Err? ==> r == Err(NormalizeNetwork(network).raised)
    ensures r.Ok? ==> r.value.mnemonic == mnemonic
    ensures NormalizeNetwork(network).Ok? ==>
      var n := NormalizeNetwork(network).value;
      var root := MnemonicToRoot(libs, mnemonic, JsStr(Name(n)));
      (root.Err? ==> r == Err(root.raised)) &&
      (root.Ok? ==> r == BuildGeneratedKeysFromRoot(libs, root.value, n, mnemonic))
  {
    var n :- NormalizeNetwork(network);
    var root :- MnemonicToRoot(libs, mnemonic, JsStr(Name(n)));
    BuildGeneratedKeysFromRoot(libs, root, n, mnemonic)
  }

  /** `buildKeysOutputFromSeed`: versions come from the network as passed,
      the account paths from its normalised form; the mnemonic is empty. */
  function BuildKeysOutputFromSeed(libs: Libraries, seed: seq<byte>, network: JsValue): (r: Result<GeneratedKeys>)
    ensures NormalizeNetwork(network).Err? ==> r == Err(NormalizeNetwork(network).raised)
    ensures r.Ok? ==> r.value.mnemonic == ""
    ensures NormalizeNetwork(network).Ok? ==>
      var root := FromSeed(libs.bip32, seed, GetNetworkVersions(network).bip32);
      (root.Err? ==> r == Throw(CryptoError(ROOT_FROM_SEED_FAILED, Some(root.raised)))) &&
      (root.Ok? ==> r == BuildGeneratedKeysFromRoot(libs, root.value, NormalizeNetwork(network).value, ""))
  {
    var n :- NormalizeNetwork(network);
    var buffer := NormalizeSeedBuffer(JsBytes(seed)).value;
    var versions := GetNetworkVersions(network);
    var root :- match FromSeed(libs.bip32, buffer, versions.bip32)
                case Err(e) => Throw(CryptoError(ROOT_FROM_SEED_FAILED, Some(e)))
                case Ok(node) => Ok(node);
    BuildGeneratedKeysFromRoot(libs, root, n, "")
  }

  /** `buildKeysOutputFromXpriv`: parses under the versions of the network its
      prefix suggests. Only the parse sits inside the `catch` that prefixes
      the message: the key building is returned without `await`, so its
      failures pass through unchanged. */
  function BuildKeysOutputFromXpriv(libs: Libraries, xpriv: string): (r: Result<GeneratedKeys>)
    ensures r.Ok? ==> r.value.mnemonic == ""
    ensures FromBase58(libs.bip32, xpriv, Bip32Versions(XprivNetwork(xpriv))).Err? ==>
      var e := FromBase58(libs.bip32, xpriv, Bip32Versions(XprivNetwork(xpriv))).raised;
      r == Throw(CryptoError("Failed to derive keys from xpriv: " + e.Message(), Some(e)))
    ensures FromBase58(libs.bip32, xpriv, Bip32Versions(XprivNetwork(xpriv))).Ok? ==>
      r == BuildGeneratedKeysFromRoot(libs, FromBase58(libs.bip32, xpriv, Bip32Versions(XprivNetwork(xpriv))).value, XprivNetwork(xpriv), "")
  {
    var detected := XprivNetwork(xpriv);
    ToNetworkNameOfNames(detected);
    NormalizeNetworkIdempotentOnNames(detected);
    var versions := GetNetworkVersions(JsStr(Name(detected)));
    var n := NormalizeNetwork(JsStr(Name(detected))).value;
    match FromBase58(libs.bip32, xpriv, versions.bip32)
    case Err(e) => Throw(CryptoError("Failed to derive keys from xpriv: " + e.Message(), Some(e)))
    case Ok(root) => BuildGeneratedKeysFromRoot(libs, root, n, "")
  }

  lemma NormalizeNetworkIdempotentOnNames(n: Network)
    ensures NormalizeNetwork(JsStr(Name(n))) == Ok(n)
  {
    NameLookup(n);
  }

  // ---------------------------------------------------------------------
  // Public entry points

  /** The entry points' `bitcoinNetwork = 'regtest'` parameter default. */
  function NetworkParam(network: JsValue): JsValue {
    ParamDefault(network, JsStr("regtest"))
  }

  /** An omitted network is `regtest`; `null` is not omitted and reaches
      normalisation as given. */
  lemma OmittedNetworkIsRegtest()
    ensures NetworkParam(JsUndefined) == JsStr("regtest") && NetworkParam(JsNull) == JsNull
    ensures NormalizeNetwork(NetworkParam(JsUndefined)) == Ok(Regtest)
  {
    NormalizeNetworkIdempotentOnNames(Regtest);
  }

  /** So each entry point with the default derives regtest keys when the
      network is omitted. */
  lemma OmittedNetworkGeneratesRegtest(libs: Libraries, generated: string)
    ensures GenerateKeys(libs, generated, JsUndefined) == GenerateKeys(libs, generated, JsStr("regtest"))
  {
    assert NetworkParam(JsUndefined) == NetworkParam(JsStr("regtest"));
  }

  lemma OmittedNetworkDerivesRegtest(libs: Libraries, mnemonic: JsValue, seed: JsValue)
    ensures DeriveKeysFromMnemonic(libs, JsUndefined, mnemonic) == DeriveKeysFromMnemonic(libs, JsStr("regtest"), mnemonic)
    ensures DeriveKeysFromSeed(libs, JsUndefined, seed) == DeriveKeysFromSeed(libs, JsStr("regtest"), seed)
  {
    assert NetworkParam(JsUndefined) == NetworkParam(JsStr("regtest"));
  }

  lemma OmittedNetworkReadsRegtest(libs: Libraries, mnemonic: JsValue)
    ensures GetXprivFromMnemonic(libs, JsUndefined, mnemonic) == GetXprivFromMnemonic(libs, JsStr("regtest"), mnemonic)
    ensures AccountXpubsFromMnemonic(libs, JsUndefined, mnemonic) == AccountXpubsFromMnemonic(libs, JsStr("regtest"), mnemonic)
  {
    assert NetworkParam(JsUndefined) == NetworkParam(JsStr("regtest"));
  }

  /** `generateKeys(network)` with the freshly generated mnemonic as a
      parameter. Every failure, including an invalid network, becomes a
      `CryptoError`; a message mentioning `bip39 not loaded` is reported as a
      dependency failure. */
  function GenerateKeys(libs: Libraries, generated: string, network: JsValue): (r: Result<GeneratedKeys>)
    ensures r.Err? ==> r.raised.IsCrypto()
    ensures r.Ok? <==> BuildKeysOutput(libs, generated, NetworkParam(network)).Ok?
    ensures r.Ok? ==> r == BuildKeysOutput(libs, generated, NetworkParam(network)) && r.value.mnemonic == generated
    ensures var b := BuildKeysOutput(libs, generated, NetworkParam(network));
      b.Err? ==> (r.raised.err.cause == Some(b.raised) &&
        (Contains(b.raised.Message(), "bip39 not loaded") ==> r.raised.Message() == "Failed to load dependencies") &&
        (!Contains(b.raised.Message(), "bip39 not loaded") ==> r.raised.Message() == "Failed to generate mnemonic: " + b.raised.Message()))
  {
    match BuildKeysOutput(libs, generated, NetworkParam(network))
    case Ok(keys) => Ok(keys)
    case Err(e) =>
      if Contains(e.Message(), "bip39 not loaded") then Throw(CryptoError("Failed to load dependencies", Some(e)))
      else Throw(CryptoError("Failed to generate mnemonic: " + e.Message(), Some(e)))
  }

  /** `deriveKeysFromMnemonic`: validates the mnemonic's shape and the network
      first, then checks BIP 39 on the trimmed phrase and derives from it. */
  function DeriveKeysFromMnemonic(libs: Libraries, network: JsValue, mnemonic: JsValue): (r: Result<GeneratedKeys>)
    ensures ValidationOrCrypto(r)
    ensures ValidateMnemonic(mnemonic, "mnemonic").Err? ==> r == Err(ValidateMnemonic(mnemonic, "mnemonic").raised)
    ensures ValidateMnemonic(mnemonic, "mnemonic").Ok? && NormalizeNetwork(NetworkParam(network)).Err? ==>
      r == Err(NormalizeNetwork(NetworkParam(network)).raised)
    ensures ValidateMnemonic(mnemonic, "mnemonic").Ok? && NormalizeNetwork(NetworkParam(network)).Ok? && !libs.prims.bip39Valid(Trim(mnemonic.s)) ==>
      r == Throw(Bip39Invalid())
    ensures ValidateMnemonic(mnemonic, "mnemonic").Ok? && NormalizeNetwork(NetworkParam(network)).Ok? && libs.prims.bip39Valid(Trim(mnemonic.s)) ==>
      r == CatchAsCrypto(BuildKeysOutput(libs, Trim(mnemonic.s), JsStr(Name(NormalizeNetwork(NetworkParam(network)).value))), MNEMONIC_DERIVATION_FAILED)
    ensures r.Ok? ==> mnemonic.JsStr? && r.value.mnemonic == Trim(mnemonic.s) && libs.prims.bip39Valid(Trim(mnemonic.s))
    ensures r.Ok? ==> (NormalizeNetwork(NetworkParam(network)).Ok? &&
      r == BuildKeysOutput(libs, Trim(mnemonic.s), JsStr(Name(NormalizeNetwork(NetworkParam(network)).value))))
  {
    var m :- ValidateMnemonic(mnemonic, "mnemonic");
    var n :- NormalizeNetwork(NetworkParam(network));
    var trimmed := Trim(m);
    var attempt :=
      if !libs.prims.bip39Valid(trimmed) then
        Throw(Bip39Invalid())
      else
        BuildKeysOutput(libs, trimmed, JsStr(Name(n)));
    CatchAsCrypto(attempt, MNEMONIC_DERIVATION_FAILED)
  }

  /** `deriveKeysFromSeed` */
  function DeriveKeysFromSeed(libs: Libraries, network: JsValue, seed: JsValue): (r: Result<GeneratedKeys>)
    ensures ValidationOrCrypto(r)
    ensures NormalizeNetwork(NetworkParam(network)).Err? ==> r == Err(NormalizeNetwork(NetworkParam(network)).raised)
    ensures NormalizeNetwork(NetworkParam(network)).Ok? && NormalizeSeedInput(seed, "seed").Err? ==> r == Err(NormalizeSeedInput(seed, "seed").raised)
    ensures NormalizeNetwork(NetworkParam(network)).Ok? && NormalizeSeedInput(seed, "seed").Ok? ==>
      r == CatchAsCrypto(BuildKeysOutputFromSeed(libs, NormalizeSeedInput(seed, "seed").value,
                                                 JsStr(Name(NormalizeNetwork(NetworkParam(network)).value))), SEED_DERIVATION_FAILED)
    ensures r.Ok? ==> r.value.mnemonic == "" && NormalizeSeedInput(seed, "seed").Ok?
    ensures r.Ok? ==> (NormalizeNetwork(NetworkParam(network)).Ok? &&
      r == BuildKeysOutputFromSeed(libs, NormalizeSeedInput(seed, "seed").value, JsStr(Name(NormalizeNetwork(NetworkParam(network)).value))))
  {
    var n :- NormalizeNetwork(NetworkParam(network));
    var attempt := (var s :- NormalizeSeedInput(seed, "seed"); BuildKeysOutputFromSeed(libs, s, JsStr(Name(n))));
    CatchAsCrypto(attempt, SEED_DERIVATION_FAILED)
  }

  /** `getXprivFromMnemonic`: no BIP 39 check and no trimming. */
  function GetXprivFromMnemonic(libs: Libraries, network: JsValue, mnemonic: JsValue): (r: Result<string>)
    ensures ValidationOrCrypto(r)
    ensures ValidateMnemonic(mnemonic, "mnemonic").Err? ==> r == Err(ValidateMnemonic(mnemonic, "mnemonic").raised)
    ensures ValidateMnemonic(mnemonic, "mnemonic").Ok? && NormalizeNetwork(NetworkParam(network)).Err? ==>
      r == Err(NormalizeNetwork(NetworkParam(network)).raised)
    ensures ValidateMnemonic(mnemonic, "mnemonic").Ok? && NormalizeNetwork(NetworkParam(network)).Ok? ==>
      r == CatchAsCrypto(GetMasterXpriv(libs, mnemonic.s, JsStr(Name(NormalizeNetwork(NetworkParam(network)).value))), XPRIV_FROM_MNEMONIC_FAILED)
    ensures r.Ok? ==> (mnemonic.JsStr? && NormalizeNetwork(NetworkParam(network)).Ok?
      && r == GetMasterXpriv(libs, mnemonic.s, JsStr(Name(NormalizeNetwork(NetworkParam(network)).value))))
  {
    var m :- ValidateMnemonic(mnemonic, "mnemonic");
    var n :- NormalizeNetwork(NetworkParam(network));
    CatchAsCrypto(GetMasterXpriv(libs, m, JsStr(Name(n))), XPRIV_FROM_MNEMONIC_FAILED)
  }

  /** The error for a phrase of the right length that fails the BIP 39 check. */
  function Bip39Invalid(): (e: SdkError)
    ensures Sdk(e).IsValidation() && e.field == Some("mnemonic")
  {
    ValidationError("Invalid mnemonic format - failed BIP39 validation", Some("mnemonic"))
  }

  function XprivRequired(): SdkError {
    ValidationError("xpriv must be a non-empty string", Some("xpriv"))
  }

  /** `getXpubFromXpriv`: a failure is wrapped twice, in two `CryptoError`s
      carrying the same message. */
  function GetXpubFromXpriv(libs: Libraries, xpriv: JsValue, network: JsValue): (r: Result<string>)
    ensures !(xpriv.JsStr? && xpriv.s != "") <==> r == Throw(XprivRequired())
    ensures r.Err? && r != Throw(XprivRequired()) ==>
      && r.raised.IsCrypto() && r.raised.err.message == XPUB_FROM_XPRIV_FAILED
      && r.raised.err.cause.Some? && r.raised.err.cause.value.IsCrypto()
      && r.raised.err.cause.value.err.message == XPUB_FROM_XPRIV_FAILED
    ensures xpriv.JsStr? && xpriv.s != "" ==>
      var parsed := FromBase58(libs.bip32, xpriv.s, XpubVersions(xpriv.s, network));
      (r.Ok? <==> parsed.Ok? && NeuteredBase58(libs.bip32, parsed.value).Ok?) &&
      (r.Ok? ==> r == NeuteredBase58(libs.bip32, parsed.value))
  {
    if !Truthy(xpriv) || !xpriv.JsStr? then Throw(XprivRequired())
    else CatchAsCrypto(GetXpubFromXprivInternal(libs, xpriv.s, network), XPUB_FROM_XPRIV_FAILED)
  }

  /** `deriveKeysFromXpriv` */
  function DeriveKeysFromXpriv(libs: Libraries, xpriv: JsValue): (r: Result<GeneratedKeys>)
    ensures !(xpriv.JsStr? && xpriv.s != "") <==> r == Throw(XprivRequired())
    ensures r.Err? && r != Throw(XprivRequired()) ==> r.raised.IsCrypto()
    ensures r.Ok? ==> r.value.mnemonic == ""
    ensures xpriv.JsStr? && xpriv.s != "" ==>
      (r.Ok? <==> BuildKeysOutputFromXpriv(libs, xpriv.s).Ok?) &&
      (r.Ok? ==> r == BuildKeysOutputFromXpriv(libs, xpriv.s))
  {
    if !Truthy(xpriv) || !xpriv.JsStr? then Throw(XprivRequired())
    else CatchAsCrypto(BuildKeysOutputFromXpriv(libs, xpriv.s), KEYS_FROM_XPRIV_FAILED)
  }

  /** A failure from the key building after a good parse escapes the inner
      `catch` of `buildKeysOutputFromXpriv`: it is wrapped once, by the outer
      one, with no message prefix. */
  lemma XprivBuildFailureWrappedOnce(libs: Libraries, xpriv: string)
    requires xpriv != ""
    requires FromBase58(libs.bip32, xpriv, Bip32Versions(XprivNetwork(xpriv))).Ok?
    requires BuildGeneratedKeysFromRoot(libs, FromBase58(libs.bip32, xpriv, Bip32Versions(XprivNetwork(xpriv))).value, XprivNetwork(xpriv), "").Err?
    ensures var e := BuildGeneratedKeysFromRoot(libs, FromBase58(libs.bip32, xpriv, Bip32Versions(XprivNetwork(xpriv))).value, XprivNetwork(xpriv), "").raised;
      DeriveKeysFromXpriv(libs, JsStr(xpriv)) == Throw(CryptoError(KEYS_FROM_XPRIV_FAILED, Some(e)))
  {
  }

  /** `accountXpubsFromMnemonic`: the network is not validated and is read
      loosely; BIP 39 is checked on the untrimmed phrase. */
  function AccountXpubsFromMnemonic(libs: Libraries, network: JsValue, mnemonic: JsValue): (r: Result<AccountXpubs>)
    ensures ValidationOrCrypto(r)
    ensures ValidateMnemonic(mnemonic, "mnemonic").Err? ==> r == Err(ValidateMnemonic(mnemonic, "mnemonic").raised)
    ensures ValidateMnemonic(mnemonic, "mnemonic").Ok? && !libs.prims.bip39Valid(mnemonic.s) ==> r == Throw(Bip39Invalid())
    ensures ValidateMnemonic(mnemonic, "mnemonic").Ok? && libs.prims.bip39Valid(mnemonic.s) ==>
      r == CatchAsCrypto(BothAccountXpubs(libs, mnemonic.s, NetworkParam(network)), ACCOUNT_XPUBS_FAILED)
    ensures r.Ok? ==> mnemonic.JsStr? && libs.prims.bip39Valid(mnemonic.s)
    ensures r.Ok? ==> (GetAccountXpub(libs, mnemonic.s, NetworkParam(network), false) == Ok(r.value.vanilla)
                   && GetAccountXpub(libs, mnemonic.s, NetworkParam(network), true) == Ok(r.value.colored))
  {
    var m :- ValidateMnemonic(mnemonic, "mnemonic");
    var attempt :=
      if !libs.prims.bip39Valid(m) then
        Throw(Bip39Invalid())
      else
        BothAccountXpubs(libs, m, NetworkParam(network));
    CatchAsCrypto(attempt, ACCOUNT_XPUBS_FAILED)
  }

  /** The two `getAccountXpub` calls of `accountXpubsFromMnemonic`, vanilla
      first. */
  function BothAccountXpubs(libs: Libraries, mnemonic: string, network: JsValue): (r: Result<AccountXpubs>)
    ensures r.Err? ==> r.raised.Foreign? || r.raised.IsCrypto()
    ensures r.Ok? <==> GetAccountXpub(libs, mnemonic, network, false).Ok? && GetAccountXpub(libs, mnemonic, network, true).Ok?
    ensures r.Ok? ==> (GetAccountXpub(libs, mnemonic, network, false) == Ok(r.value.vanilla)
                   && GetAccountXpub(libs, mnemonic, network, true) == Ok(r.value.colored))
  {
    var v :- GetAccountXpub(libs, mnemonic, network, false);
    var c :- GetAccountXpub(libs, mnemonic, network, true);
    Ok(AccountXpubs(v, c))
  }

  /** Everything the account-xpub derivation sees of the network is the name
      `toNetworkName` reads into it. */
  lemma AccountXpubOnlySeesNetworkName(libs: Libraries, mnemonic: string, network: JsValue, rgb: bool)
    ensures GetAccountXpub(libs, mnemonic, network, rgb) == GetAccountXpub(libs, mnemonic, JsStr(Name(ToNetworkName(network))), rgb)
  {
    ToNetworkNameOfNames(ToNetworkName(network));
    AccountXpubSameReading(libs, mnemonic, network, JsStr(Name(ToNetworkName(network))), rgb);
  }

  /** The root and the account path depend on the network only through
      the name `toNetworkName` reads. */
  lemma AccountXpubSameReading(libs: Libraries, mnemonic: string, v: JsValue, w: JsValue, rgb: bool)
    requires ToNetworkName(v) == ToNetworkName(w)
    ensures GetAccountXpub(libs, mnemonic, v, rgb) == GetAccountXpub(libs, mnemonic, w, rgb)
  {
    RootSameReading(libs, mnemonic, v, w);
    PathSameReading(v, w, rgb);
  }

  lemma RootSameReading(libs: Libraries, mnemonic: string, v: JsValue, w: JsValue)
    requires ToNetworkName(v) == ToNetworkName(w)
    ensures MnemonicToRoot(libs, mnemonic, v) == MnemonicToRoot(libs, mnemonic, w)
  {
    assert GetNetworkVersions(v) == GetNetworkVersions(w);
  }

  lemma PathSameReading(v: JsValue, w: JsValue, rgb: bool)
    requires ToNetworkName(v) == ToNetworkName(w)
    ensures AccountDerivationPath(v, rgb) == AccountDerivationPath(w, rgb)
  {
    assert GetCoinType(v, rgb) == GetCoinType(w, rgb);
  }

  /** Two networks read as the same name, once an omitted one is `regtest`,
      give the same account xpubs. */
  lemma AccountXpubsSameReading(libs: Libraries, v: JsValue, w: JsValue, mnemonic: JsValue)
    requires ToNetworkName(NetworkParam(v)) == ToNetworkName(NetworkParam(w))
    ensures AccountXpubsFromMnemonic(libs, v, mnemonic) == AccountXpubsFromMnemonic(libs, w, mnemonic)
  {
    if mnemonic.JsStr? {
      AccountXpubSameReading(libs, mnemonic.s, NetworkParam(v), NetworkParam(w), false);
      AccountXpubSameReading(libs, mnemonic.s, NetworkParam(v), NetworkParam(w), true);
    }
  }

  lemma BogusReadsAsTestnet()
    ensures ToNetworkName(JsStr("bogus")) == Testnet
  {
    assert "bogus" == ['b', 'o', 'g', 'u', 's'];
    ReadsAsTestnet(JsStr("bogus"));
  }

  /** So `accountXpubsFromMnemonic` accepts a network no other entry point
      accepts (`"bogus"` reads as testnet), and reads the code 0, which
      `NETWORK_MAP` takes for mainnet, as testnet too. */
  lemma AccountXpubsRawNetwork(libs: Libraries, mnemonic: JsValue)
    ensures AccountXpubsFromMnemonic(libs, JsStr("bogus"), mnemonic) == AccountXpubsFromMnemonic(libs, JsStr("testnet"), mnemonic)
    ensures AccountXpubsFromMnemonic(libs, JsNum(0), mnemonic) == AccountXpubsFromMnemonic(libs, JsStr("testnet"), mnemonic)
    ensures NormalizeNetwork(JsStr("bogus")).Err? && NormalizeNetwork(JsNum(0)) == Ok(Mainnet)
  {
    RawNetworkReadings();
    AccountXpubsSameReading(libs, JsStr("bogus"), JsStr("testnet"), mnemonic);
    AccountXpubsSameReading(libs, JsNum(0), JsStr("testnet"), mnemonic);
  }

  /** How the loose and the strict network readings take `"bogus"` and 0. */
  lemma RawNetworkReadings()
    ensures ToNetworkName(JsStr("bogus")) == ToNetworkName(JsStr("testnet")) == ToNetworkName(JsNum(0))
    ensures NormalizeNetwork(JsStr("bogus")).Err? && NormalizeNetwork(JsNum(0)) == Ok(Mainnet)
  {
    BogusReadsAsTestnet();
    ToNetworkNameOfNumbers(0);
    TestnetNamed();
    NumericNetworkCodes(0);
    NormalizeRejectsBogus();
  }

  lemma NormalizeRejectsBogus()
    ensures NormalizeNetwork(JsStr("bogus")).Err?
  {
  }

  // ---------------------------------------------------------------------
  // The entry points against each other

  /** The mnemonic recorded in the output is the only part of the key record
      that does not come from the root. */
  lemma KeysIgnoreMnemonic(libs: Libraries, root: Bip32Node, n: Network, a: string, b: string)
    ensures var x, y := BuildGeneratedKeysFromRoot(libs, root, n, a), BuildGeneratedKeysFromRoot(libs, root, n, b);
      x.Ok? == y.Ok? && (x.Ok? ==> y.value == x.value.(mnemonic := b))
  {
  }

  /** The keys `deriveKeysFromMnemonic` reports for a named network are the
      ones the single-key helpers derive from the trimmed phrase: the account
      xpubs of `getAccountXpub` and the xpriv of `getMasterXpriv`. */
  lemma MnemonicKeysAgreeWithAccountXpubs(libs: Libraries, n: Network, phrase: string)
    requires DeriveKeysFromMnemonic(libs, JsStr(Name(n)), JsStr(phrase)).Ok?
    ensures var keys := DeriveKeysFromMnemonic(libs, JsStr(Name(n)), JsStr(phrase)).value;
      && GetAccountXpub(libs, Trim(phrase), JsStr(Name(n)), false) == Ok(keys.accountXpubVanilla)
      && GetAccountXpub(libs, Trim(phrase), JsStr(Name(n)), true) == Ok(keys.accountXpubColored)
      && GetMasterXpriv(libs, Trim(phrase), JsStr(Name(n))) == Ok(keys.xpriv)
  {
    NormalizeNetworkIdempotentOnNames(n);
    var keys := DeriveKeysFromMnemonic(libs, JsStr(Name(n)), JsStr(phrase)).value;
    var root := MnemonicToRoot(libs, Trim(phrase), JsStr(Name(n)));
    assert BuildKeysOutput(libs, Trim(phrase), JsStr(Name(n))) == Ok(keys);
    assert root.Ok?;
    assert BuildGeneratedKeysFromRoot(libs, root.value, n, Trim(phrase)) == Ok(keys);
  }

  /** Deriving from a phrase and deriving from the phrase's BIP 39 seed give
      the same keys, but for the mnemonic, which only the first records; one
      succeeds exactly when the other does. */
  lemma SeedAndMnemonicAgree(libs: Libraries, n: Network, phrase: string)
    requires ValidateMnemonic(JsStr(phrase), "mnemonic").Ok?
    requires libs.prims.bip39Valid(Trim(phrase))
    requires libs.prims.mnemonicToSeed(Trim(phrase)) != []
    ensures var m := DeriveKeysFromMnemonic(libs, JsStr(Name(n)), JsStr(phrase));
      var s := DeriveKeysFromSeed(libs, JsStr(Name(n)), JsBytes(libs.prims.mnemonicToSeed(Trim(phrase))));
      (m.Ok? <==> s.Ok?) && (m.Ok? ==> s.value == m.value.(mnemonic := ""))
  {
    NormalizeNetworkIdempotentOnNames(n);
    var bytes := libs.prims.mnemonicToSeed(Trim(phrase));
    assert NormalizeSeedInput(JsBytes(bytes), "seed") == Ok(bytes);
    BuildOutputsAgree(libs, n, Trim(phrase));
  }

  /** The builders behind the two entry points agree on a phrase and its seed. */
  lemma BuildOutputsAgree(libs: Libraries, n: Network, t: string)
    ensures var m := BuildKeysOutput(libs, t, JsStr(Name(n)));
      var s := BuildKeysOutputFromSeed(libs, libs.prims.mnemonicToSeed(t), JsStr(Name(n)));
      (m.Ok? <==> s.Ok?) && (m.Ok? ==> s.value == m.value.(mnemonic := ""))
  {
    NormalizeNetworkIdempotentOnNames(n);
    var bytes := libs.prims.mnemonicToSeed(t);
    var fromSeed := FromSeed(libs.bip32, bytes, GetNetworkVersions(JsStr(Name(n))).bip32);
    if fromSeed.Ok? {
      KeysIgnoreMnemonic(libs, fromSeed.value, n, t, "");
    }
  }

  /** For an `xprv` or `tprv` key the two prefix guesses agree, so the xpub
      `deriveKeysFromXpriv` reports is what `getXpubFromXpriv` returns when
      no network is given. */
  lemma XprivKeysAgreeWithXpub(libs: Libraries, xpriv: string)
    requires StartsWith(xpriv, "xprv") || StartsWith(xpriv, "tprv")
    requires DeriveKeysFromXpriv(libs, JsStr(xpriv)).Ok?
    ensures GetXpubFromXpriv(libs, JsStr(xpriv), JsUndefined) == Ok(DeriveKeysFromXpriv(libs, JsStr(xpriv)).value.xpub)
  {
    PrefixInferencesCompared(xpriv);
    var k := XprivNetwork(xpriv);
    ToNetworkNameOfNames(k);
    assert XpubVersions(xpriv, JsUndefined) == Bip32Versions(k);
    var root := FromBase58(libs.bip32, xpriv, Bip32Versions(k));
    assert root.Ok?;
    assert BuildGeneratedKeysFromRoot(libs, root.value, k, "") == DeriveKeysFromXpriv(libs, JsStr(xpriv));
  }
}
