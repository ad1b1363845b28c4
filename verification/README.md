# rgb-sdk-rn core, modelled in Dafny

This project models the logic at the centre of the rgb-sdk-rn wallet SDK. That is the part that decides
what a BIP 32 / BIP 86 wallet derives, classifies, signs and reports. The model covers:

- **Account paths.** The BIP 86 account path `m/86'/<coin>'/0'` and the coin types: 0/1 for vanilla
  bitcoin, and 827166/827167 for the colored RGB keychain.
- **Key derivation.** Seed input parsing (a 128-digit hex seed or a byte array), and the error policy of
  the key-derivation entry points. Validation errors pass through; everything else becomes a crypto
  error.
- **Validators.** The input validators, network normalisation, the network tables and the BIP 32
  version bytes.
- **Small encoders.** The master fingerprint, and the SEC 1 to BIP 340 x-only point slicing.
- **The PSBT classifier.** It looks for RGB coin types in the hex text of a decoded PSBT.
- **PSBT signing.** The two-family protocol: standard BIP 86 descriptors versus custom coin-type
  descriptors, at most two attempts.
- **Message signing.** The descriptor strings built for the custom family, and Schnorr message
  signing and verification.
- **The `WalletManager` lifecycle.** Construction checks, `dispose` and its zero-fill of the seed,
  the disposal guard, the choice of signing material, and the begin → sign → end flows.
- **`RgbError`.** Code matching, its rendering and the conversion of native errors.
- **The session handle table.** The native side keeps one in Swift and one in Kotlin.

Everything is pure. A thrown error is an `Errors.Result` value (`Err(Sdk(...))` for the SDK's own
classes, `Err(Foreign(message))` for any other `Error`). JavaScript values arriving at run-time-checked
entry points are `JsValues.JsValue`.

The foreign libraries are records of function values passed in as parameters:

- HD derivation, `@scure/bip32`;
- BIP 39;
- SHA-256 and RIPEMD-160;
- Schnorr signing;
- base64;
- BDK descriptors and `Wallet.sign`;
- the native RGB engine.

The `WalletManager` is a state value. The seed array it holds belongs to the caller, so it lives in an
explicit heap (`map<BufRef, seq<byte>>`). That makes the in-place zero-fill done by `dispose` visible to
whoever passed the seed.

Files, one module each: `optional`, `text`, `bytes`, `js_values` and `errors` are helpers. The rest follow
the source: `network_constants`, `validation`, `network_utils`, `bip32_helpers`, `fingerprint`,
`dependencies`, `keys`, `psbt_detection` (the classifier part of `signer.ts`), `signer`,
`wallet_manager`, `rgb_error` and `wallet_store`.

## Model

| member | source | states |
|---|---|---|
| NetworkConstants.NetworkMapContents | src/constants/network.ts:18-27 | `'0'`→mainnet, `'1'`/`'2'`→testnet, `'3'`→regtest, every name maps to itself, and only the key `signet` reaches signet |
| NetworkConstants.LookupNetwork | src/constants/network.ts:18-27 | the lookup succeeds exactly on the eight `NETWORK_MAP` keys |
| NetworkConstants.NameInjective | src/constants/network.ts:18-27 | distinct networks have distinct names |
| NetworkConstants.CoinTypesDistinct | src/constants/network.ts:10-13 | the two RGB coin types differ from each other and from the bitcoin coin types 0 and 1 |
| NetworkConstants.VersionTableShape | src/constants/network.ts:32-48 | testnet, signet and regtest share one version pair; it differs from mainnet's; in every pair public ≠ private |
| Validation.NormalizeNetwork | src/utils/validation.ts:7-23 | succeeds iff `String(network)` is a `NETWORK_MAP` key, gives one of the four networks, and otherwise throws the invalid-network `ValidationError` |
| Validation.NumericNetworkCodes | src/utils/validation.ts:7-23 | a number normalises iff it is 0..3, with 0 → mainnet and 3 → regtest |
| Validation.NormalizeNetworkIdempotent | src/utils/validation.ts:19-23 | normalising the name of a normalised network gives the same network |
| Validation.SplitCountsWords | src/utils/validation.ts:30-31 | on trimmed non-empty text, `split(/\s+/)` yields one non-empty piece per word, as counted by an independent word counter |
| Validation.ValidateMnemonic | src/utils/validation.ts:25-37 | accepts iff the value is a string whose trimmed text has 12 or 24 words; the words are not checked; errors name the field |
| Validation.ValidateBase64 | src/utils/validation.ts:39-54 | accepts iff the trimmed string is non-empty and drawn from `[A-Za-z0-9+/=]` |
| Validation.Base64IgnoresPadding | src/utils/validation.ts:44-47 | padding position is not checked: `=AB=` passes |
| Validation.ValidatePsbt | src/utils/validation.ts:56-63 | accepts iff `validateBase64` accepts and the trimmed text has at least 50 characters |
| Validation.ValidateHex | src/utils/validation.ts:65-74 | accepts iff the trimmed string is non-empty hex, with no parity requirement |
| Validation.ValidateRequired | src/utils/validation.ts:76-83 | rejects exactly `null` and `undefined` and returns the value otherwise |
| Validation.ValidateString | src/utils/validation.ts:85-89 | accepts exactly strings that are not all white space |
| Validation.RequiredIsWeakerThanString | src/utils/validation.ts:76-89 | `""` and `0` pass `validateRequired` but fail `validateString` |
| NetworkUtils.NormalizeNetworkDeprecated | src/utils/network.ts:8-12 | same result and same error as the validating `normalizeNetwork` on every input |
| NetworkUtils.IsNetworkMatchesNormalize | src/utils/network.ts:14-18 | `isNetwork(v)` iff `v` is a string that `normalizeNetwork` accepts; numbers, `Mainnet` and `testnet4` are refused |
| Bip32Helpers.VersionsOnlySeeMainnet | src/utils/bip32-helpers.ts:6-16 | two networks get equal versions (BIP 32 pair and WIF byte) iff both or neither are mainnet; otherwise both parts differ |
| Bip32Helpers.ToNetworkName | src/utils/bip32-helpers.ts:74-80 | total and case-insensitive: contains `main` → mainnet, else `reg` → regtest, else `sig` → signet, else testnet |
| Bip32Helpers.ToNetworkNameOfNames | src/utils/bip32-helpers.ts:74-80 | the identity on the four network names |
| Bip32Helpers.ToNetworkNameOfNumbers | src/utils/bip32-helpers.ts:74-80 | every number reads as testnet, so code 0 disagrees with `NETWORK_MAP`'s mainnet |
| Bip32Helpers.GetNetworkVersions | src/utils/bip32-helpers.ts:82-87 | the versions of `toNetworkName(n)`; the WIF byte is 0x80 iff the lower-cased text contains `main` |
| Bip32Helpers.NormalizeSeedBuffer | src/utils/bip32-helpers.ts:22-30 | a falsy seed raises `CryptoError`, and a byte array is returned unchanged |
| Fingerprint.PaddedIsHexPair | src/utils/fingerprint.ts:24-27 | `toString(16)` padded to two digits is the byte's two lower-case hex digits |
| Fingerprint.JoinPaddedIsHex | src/utils/fingerprint.ts:21-28 | the per-byte map and join is exactly the lower-case hex encoding |
| Fingerprint.CalculateMasterFingerprint | src/utils/fingerprint.ts:9-29 | no public key → `CryptoError`; otherwise 8 lower-case hex characters encoding the first 4 bytes of RIPEMD160(SHA256(pubkey)) |
| Fingerprint.FingerprintDecodes | src/utils/fingerprint.ts:16-28 | decoding the fingerprint gives back those 4 bytes |
| Dependencies.XOnlyPointFromPoint | src/crypto/dependencies.ts:20-30 | 33 or 65 bytes → bytes 1..32; 32 bytes unchanged; any other length throws; every result is 32 bytes |
| Dependencies.XOnlyIdempotent | src/crypto/dependencies.ts:20-30 | applying it to its own result changes nothing |
| Dependencies.CreateBip32Node | src/crypto/dependencies.ts:46-58 | a key without a public key is rejected; otherwise the node carries the key's public and private keys |
| Dependencies.ToBase58 | src/crypto/dependencies.ts:69-75 | the text is one of the node's two extended keys: the private one when present and non-empty, else the public one; it is empty only when both are |
| Dependencies.FromSeed | src/crypto/dependencies.ts:81-90 | succeeds iff the library derives a key with a public key; failures are foreign errors |
| Dependencies.FromBase58 | src/crypto/dependencies.ts:91-99 | succeeds iff the library parses a key with a public key; failures are foreign errors |
| Dependencies.DerivePath | src/crypto/dependencies.ts:53-56 | succeeds iff the library derives a key with a public key; failures are foreign errors |
| Dependencies.NeuteredBase58IsPublicKey | src/crypto/dependencies.ts:59-75 | when re-parsing a public key yields a public-only node with that key, `neutered().toBase58()` is exactly the node's public extended key, and an empty public key always fails |
| Errors.FixedCodesIdentifyClass | src/errors/index.ts:50-103 | the network, validation, crypto and configuration codes, and the wallet default code, each identify their class |
| Errors.WalletErrorCode | src/errors/index.ts:75-81 | the given code is used unless absent or empty, in which case `WALLET_ERROR` is used |
| Errors.StatusAndFieldOwnership | src/errors/index.ts:50-103 | only `NetworkError` keeps a status code; `ValidationError` stores `field`; `ConfigurationError` drops it |
| Errors.ToJsonForgetsCause | src/errors/index.ts:41 | two causes with one message give the same JSON |
| Errors.ToJsonIdentifies | src/errors/index.ts:34-43 | two errors serialise alike iff they agree on name, message, code and status code and their causes agree up to the message; the error class and a validation error's `field` never appear |
| Keys.StripHexPrefix | src/crypto/keys.ts:57 | removes exactly one leading `0x` when present |
| Keys.ParseSeedHex | src/crypto/keys.ts:49-78 | succeeds iff the trimmed, de-prefixed text is 128 hex digits; the result is its 64 decoded bytes; errors are `ValidationError`s naming the field |
| Keys.NormalizeSeedInput | src/crypto/keys.ts:45-92 | strings are parsed as hex; a non-empty byte array is returned as is and an empty one is refused; anything else is a `ValidationError` |
| Keys.SeedTextParses | src/crypto/keys.ts:49-78 | 128 hex digits, with or without `0x` and surrounding white space, decode to their bytes |
| Keys.SeedHexRoundTrip | src/crypto/keys.ts:45-78 | hex-encoding any 64 bytes, with optional `0x` and white space, and normalising gives the bytes back |
| Keys.GetCoinType | src/crypto/keys.ts:111-115 | colored: 827166 on mainnet and 827167 elsewhere; vanilla: 0 on mainnet and 1 elsewhere; mainnet as `toNetworkName` reads it |
| Keys.CoinTypeOfNamedNetwork | src/crypto/keys.ts:111-115 | the coin type of each named network |
| Keys.HardenedValueOf | src/crypto/keys.ts:125 | a hardened path segment reads back as its number and holds no `/` |
| Keys.AccountPathLevels | src/crypto/keys.ts:120-126 | the path splits into exactly `m`, `86'`, `<coin>'` and `0'` |
| Keys.AccountDerivationPath | src/crypto/keys.ts:120-126 | the path splits on `/` into exactly `m`, `86'`, the network's coin type hardened, and `0'` |
| Keys.VanillaAndColoredPathsDiffer | src/crypto/keys.ts:198-206 | the vanilla and colored paths of a network (as `deriveAccountXpubsFromRoot` builds them) differ, and only in the coin segment |
| Keys.XprivNetwork | src/crypto/keys.ts:303-304 | testnet iff the key starts with `tprv` or `tpub`, else mainnet |
| Keys.InferredXpubNetwork | src/crypto/keys.ts:251 | mainnet iff the key starts with `xprv`, else testnet |
| Keys.PrefixInferencesCompared | src/crypto/keys.ts:251-304 | the two inferences agree on `xprv`/`tprv` keys and disagree on keys with no known prefix |
| Keys.CatchAsCrypto | src/crypto/keys.ts:405-413 | a `ValidationError` passes unchanged; every other failure becomes a `CryptoError` whose cause is the original error |
| Keys.MnemonicToRoot | src/crypto/keys.ts:141-163 | the root from the BIP 39 seed under the network's versions, succeeding exactly when the library builds that root; a library failure becomes a `CryptoError` |
| Keys.AccountXpubAt | src/crypto/keys.ts:175-176 | the neutered base58 key derived at a path |
| Keys.GetAccountXpub | src/crypto/keys.ts:168-177 | succeeds only when the root does, and is then the account key at `accountDerivationPath(network, rgb)` below the mnemonic's root |
| Keys.BothAccountXpubs | src/crypto/keys.ts:577-588 | succeeds exactly when both account xpubs do, vanilla first, and holds those two keys |
| Keys.GetMasterXpriv | src/crypto/keys.ts:190-196 | the root's base58 key, succeeding iff the root can be built |
| Keys.DeriveAccountXpubsFromRoot | src/crypto/keys.ts:198-206 | both account keys, vanilla and colored, at their two paths |
| Keys.BuildGeneratedKeysFromRoot | src/crypto/keys.ts:208-227 | succeeds exactly when neutering the root and both account derivations do; the output carries the given mnemonic, the root's xpriv, its neutered xpub, its fingerprint and both account keys |
| Keys.GetXpubFromXprivInternal | src/crypto/keys.ts:233-260 | parses the key under the given network's versions, or the prefix-inferred network's; succeeds exactly when parsing and neutering do, and then returns the neutered base58 of the parsed node; every failure is the one fixed `CryptoError` |
| Keys.BuildKeysOutput | src/crypto/keys.ts:265-272 | an invalid network is reported first; otherwise a root failure is passed on and a root is turned into the generated keys carrying the mnemonic |
| Keys.BuildKeysOutputFromSeed | src/crypto/keys.ts:274-294 | an invalid network is reported first; a root failure becomes the root-from-seed `CryptoError` wrapping it; otherwise the generated keys of that root with an empty mnemonic |
| Keys.BuildKeysOutputFromXpriv | src/crypto/keys.ts:299-325 | the network comes from the prefix and the mnemonic is empty; a parse failure becomes the prefixed `CryptoError` wrapping it, while a failure of the key building after a good parse passes through unwrapped, foreign errors included |
| Keys.XprivBuildFailureWrappedOnce | src/crypto/keys.ts:317-323 | a failure after parsing reaches the caller as a crypto error wrapping the original |
| Keys.GenerateKeys | src/crypto/keys.ts:342-365 | an omitted network is `regtest`; succeeds exactly when `buildKeysOutput` of the generated phrase does, with those keys; a failure becomes a `CryptoError` wrapping it, "Failed to load dependencies" when its message mentions `bip39 not loaded`, else "Failed to generate mnemonic: " and its message |
| Keys.DeriveKeysFromMnemonic | src/crypto/keys.ts:386-414 | an omitted network is `regtest`; the validator's error comes first, then the network's, then the BIP 39 rejection; after them the result is `buildKeysOutput` of the trimmed phrase on the normalised network, a non-validation failure wrapped in the mnemonic-derivation `CryptoError` |
| Keys.DeriveKeysFromSeed | src/crypto/keys.ts:419-434 | an omitted network is `regtest`; network and seed-parsing errors pass through unchanged, in that order; after them the result is `buildKeysOutputFromSeed` of the parsed seed, a non-validation failure wrapped in the seed-derivation `CryptoError` |
| Keys.GetXprivFromMnemonic | src/crypto/keys.ts:479-497 | an omitted network is `regtest`; the validator's error comes first, then the network's; after them the result is the root's xpriv for the untrimmed phrase, a non-validation failure wrapped in the xpriv `CryptoError` |
| Keys.GetXpubFromXpriv | src/crypto/keys.ts:512-528 | a missing or empty key is the `xpriv` `ValidationError`; otherwise success exactly when the key parses and neuters, returning the neutered base58 of the parsed node; every failure is a crypto error |
| Keys.DeriveKeysFromXpriv | src/crypto/keys.ts:547-562 | a missing or empty key is the `xpriv` `ValidationError`; otherwise the result is `buildKeysOutputFromXpriv` of the key, whose failures are crypto errors; the mnemonic is empty |
| Keys.MnemonicKeysAgreeWithAccountXpubs | src/crypto/keys.ts:168-227 | the keys derived from a mnemonic carry the same account xpubs `getAccountXpub` gives for it, and the same master xpriv |
| Keys.SeedAndMnemonicAgree | src/crypto/keys.ts:265-294 | deriving from a valid mnemonic and from its BIP 39 seed give the same keys, except that the seed path leaves the mnemonic empty |
| Keys.XprivKeysAgreeWithXpub | src/crypto/keys.ts:299-325 | for an `xprv`/`tprv` key, the xpub of `deriveKeysFromXpriv` is what `getXpubFromXpriv` returns for that key |
| Keys.KeysIgnoreMnemonic | src/crypto/keys.ts:208-227 | building the keys from one root with two mnemonics differs only in the mnemonic field |
| Keys.AccountXpubsFromMnemonic | src/crypto/keys.ts:564-599 | an omitted network is `regtest`, and the network is not validated; the validator's error comes first, then the BIP 39 rejection of the untrimmed phrase; after them the result is both account keys, a non-validation failure wrapped in the account-xpubs `CryptoError` |
| Keys.AccountXpubOnlySeesNetworkName | src/crypto/keys.ts:168-177 | the account key for any network value equals the one for the name `toNetworkName` reads from it |
| Keys.AccountXpubsSameReading | src/crypto/keys.ts:564-588 | two networks that `toNetworkName` reads alike, once an omitted one is `regtest`, give the same account keys |
| Keys.AccountXpubsRawNetwork | src/crypto/keys.ts:579-588 | `bogus` and `0` derive the testnet keys, though `normalizeNetwork` refuses `bogus` and reads `0` as mainnet |
| Keys.NormalizeNetworkIdempotentOnNames | src/utils/validation.ts:19-23 | each network name normalises to its own network |
| Keys.OmittedNetworkIsRegtest | src/crypto/keys.ts:342-343 | an omitted network defaults to `regtest` and normalises to it; `null` is not replaced |
| Keys.OmittedNetworkGeneratesRegtest | src/crypto/keys.ts:342-343 | `generateKeys()` gives what `generateKeys('regtest')` gives |
| Keys.OmittedNetworkDerivesRegtest | src/crypto/keys.ts:386-387 | deriving from a mnemonic or a seed without a network gives the `regtest` result |
| Keys.OmittedNetworkReadsRegtest | src/crypto/keys.ts:479-480 | `getXprivFromMnemonic` and `accountXpubsFromMnemonic` without a network give the `regtest` result |
| PsbtDetection.Le32RoundTrip | src/crypto/signer.ts:71-76 | the 4-byte little-endian encoding reads back, and big-endian is its reverse |
| PsbtDetection.AnyContained | src/crypto/signer.ts:79-83 | true iff some pattern occurs in the hex text |
| PsbtDetection.DetectWithCharacterised | src/crypto/signer.ts:64-116 | `send` iff the payload decodes and its hex contains a 4-byte pattern, or the coin's ASCII text with a marker (`'` after or `/` before); otherwise `create_utxo` |
| PsbtDetection.MarkersHoldCoinText | src/crypto/signer.ts:91-108 | a marker hit implies a bare coin-text hit, so the nested test equals the marker test alone |
| PsbtDetection.CorrectedFindsHardenedCoin | src/crypto/signer.ts:70-77 | with the corrected patterns, a payload holding the little-endian hardened RGB coin type is classified `send` |
| PsbtDetection.AsWrittenPatternsMisencode | src/crypto/signer.ts:71-76 | the first pattern encodes 827247', not 827167' (`1f9f0c80`); the as-written coins are the real ones plus 80 |
| PsbtDetection.HardenedCoinMissedAsWritten | src/crypto/signer.ts:70-83 | for any decoder, a payload decoding to a real derivation record is `create_utxo` under the as-written patterns and `send` under the corrected ones |
| PsbtDetection.NibbleMisalignedHit | src/crypto/signer.ts:79-83 | bytes that contain no 0x6f still match `6f9f0c80` half a byte off |
| Signer.BdkNetworkBijection | src/crypto/signer.ts:43-57 | the four names map one-to-one onto BDK networks; any other name maps to testnet |
| Signer.MatchFrom | src/crypto/signer.ts:160-161 | finds a match iff some position matches `\[([a-f0-9]+)\/`; the capture is non-empty lower-case hex followed by `/` |
| Signer.MatchFindsOrigin | src/crypto/signer.ts:160-161 | in a descriptor whose first `[` opens `[<fp>/`, the regex captures exactly `<fp>` |
| Signer.StripWildcard | src/crypto/signer.ts:172-181 | removes a trailing `/*` iff present |
| Signer.ExtractKeyAndOrigin | src/crypto/signer.ts:167-183 | empty origin iff there is no `]`; otherwise the origin ends at the first `]`; origin + key rebuilds the input, up to the trailing `/*` |
| Signer.ExtractInvertsConcat | src/crypto/signer.ts:167-183 | splitting `<origin><key>/*` returns exactly that origin and key |
| Signer.RootedAccountPath | src/crypto/signer.ts:163 | prefixing `m/` to the custom path text gives a four-level path |
| Signer.AccountPathTextInjective | src/crypto/signer.ts:163 | distinct coins give distinct path texts |
| Signer.AccountPathTextMatches | src/crypto/signer.ts:163 | with the colored coin of the network, the custom path is `accountDerivationPath(network, true)` |
| Signer.CustomDescriptors | src/crypto/signer.ts:146-200 | `tr(<origin><key>/0/*)` and `tr(<origin><key>/1/*)`, with the fallback origin `[fp/86'/coin'/0']` when the key has none; failures are foreign errors |
| Signer.CustomPathIsColoredAccount | src/crypto/signer.ts:151-163 | the corrected custom coin gives every network's colored account path |
| Signer.CustomPathAsWrittenMissesMainnet | src/crypto/signer.ts:151-163 | the fixed testnet coin does not give the mainnet colored account path |
| Signer.RunFallback | src/crypto/signer.ts:242-331 | one or two attempts; the second runs iff the first did not sign and uses the other family; success returns the serialisation of the attempt that signed; two non-signs raise the fixed `CryptoError` |
| Signer.FallbackHintOnlyOrders | src/crypto/signer.ts:242-313 | when no attempt throws and at most one signs, the classifier's choice does not change the outcome |
| Signer.SignValidated | src/crypto/signer.ts:231-333 | for either reading (as written or corrected), once the mnemonic parses, the result is the fallback over that reading's two attempts started from the family the classifier's verdict picks; success means an attempt signed and returned that text; failures are foreign or the both-failed error |
| Signer.SignValidatedRetryRule | src/crypto/signer.ts:266-313 | the classifier's family is tried first and only it when it signs or throws; the other family is tried exactly when the first reports not signed, and its signature, its error, or the both-failed `CryptoError` when it does not sign either, is the result |
| Signer.SignPsbtSteps | src/crypto/signer.ts:228-231 | the mnemonic is validated, then the PSBT, then the network, each error taking precedence in that order; then the as-written signing runs |
| Signer.SignPsbt | src/crypto/signer.ts:222-344 | only validation or crypto errors escape; validator errors reach the caller unchanged; success iff every check passes and the as-written signing (source patterns, coin type 827167) succeeds |
| Signer.SignPsbtBothUnsigned | src/crypto/signer.ts:327-331 | for either reading, when neither family signs, the result is the both-failed `CryptoError` |
| Signer.SignPsbtIndependentOfDetection | src/crypto/signer.ts:234-313 | for either reading, when at most one family signs and none throws, two base64 decoders give the same signing result |
| Signer.CustomCoin | src/crypto/signer.ts:151-163 | as written the custom coin type is 827167 on every network; corrected, it gives the network's colored account path |
| Signer.RecordPayloadSignedOnlyWhenCorrected | src/crypto/signer.ts:70-83 | on a test network, a payload that is only the hardened RGB coin record is tried with the standard family first as written and the custom one when corrected; if only the custom attempt signs and the standard one throws, the source fails where the corrected reading returns the signed PSBT |
| Signer.SignPsbtFromSeed | src/crypto/signer.ts:364-373 | always the unsupported `CryptoError` |
| Signer.EnsureMessageInput | src/crypto/signer.ts:375-392 | a non-empty string gives its UTF-8 bytes and a non-empty byte array its copy; empty or other input is a `ValidationError` on `message` |
| Signer.SigningChild | src/crypto/signer.ts:425-436 | success means the master key from the seed under the network's versions, then the vanilla account path, then `0/0`, each derived by the library, and the node is that key; failures are foreign errors |
| Signer.SignMessage | src/crypto/signer.ts:419-448 | each failure in order gives its own error: missing seed, network, message, seed text, then the derivation's library error and the `CryptoError` for a child without a private key; when every step succeeds the result is base64 of Schnorr(SHA256(message)) under the `0/0` child's private key |
| Signer.VerifyMessage | src/crypto/signer.ts:450-482 | message, then network errors; an xpub that does not parse gives the `accountXpub` `ValidationError`; derivation and x-only errors propagate; once the x-only key exists the result is Ok, the Schnorr verdict on the message hash, `false` when verification throws |
| Signer.SignThenVerify | src/crypto/signer.ts:419-482 | for a matching key pair and a lossless base64, verifying a produced signature gives true |
| Signer.EstimatePsbt | src/crypto/signer.ts:484-494 | always fails: falsy input is the `psbt` `ValidationError`, anything else the not-implemented `CryptoError` |
| WalletManager.New | src/wallet/wallet-manager.ts:153-198 | the three required strings, in order, then network normalisation with `regtest` as default; the engine is always regtest; the transport endpoint is the given one unless absent or empty, else the default; the new state is valid in any heap holding its seed |
| WalletManager.Dispose | src/wallet/wallet-manager.ts:233-249 | afterwards the wallet is disposed and the mnemonic gone; a non-empty seed is zero-filled in the caller's array and dropped; other fields unchanged |
| WalletManager.DisposeIdempotent | src/wallet/wallet-manager.ts:233-236 | disposing twice equals disposing once |
| WalletManager.DisposeTouchesOnlyTheSeed | src/wallet/wallet-manager.ts:242-245 | every other array is left as it was |
| WalletManager.EnsureNotDisposed | src/wallet/wallet-manager.ts:262-266 | fails with `WalletError` exactly when disposed |
| WalletManager.SignPsbt | src/wallet/wallet-manager.ts:545-559 | disposed → `WalletError`; then the explicit mnemonic, else the stored one, else the seed (crypto error), else `WalletError` |
| WalletManager.EmptyExplicitMnemonicHidesStored | src/wallet/wallet-manager.ts:547-549 | an explicit empty mnemonic is not replaced by the stored one, because `??` keeps `""` |
| WalletManager.BeginSignEnd | src/wallet/wallet-manager.ts:390-395 | disposal is checked first; begin, sign and end run in order; end receives exactly the signed output; the first failure stops the chain |
| WalletManager.SendBtc | src/wallet/wallet-manager.ts:390-395 | disposed → the disposal error and no step; a failed begin stops at begin; success means `sendBtcBegin` with fee rate 1 and sync by default, signing with the stored material, and `sendBtcEnd` of the signed PSBT returning the result |
| WalletManager.CreateUtxos | src/wallet/wallet-manager.ts:578-592 | disposed → the disposal error and no step; a failed begin stops at begin; success means `createUtxosBegin` with its defaults, signing with the stored material, and `createUtxosEnd` of the signed PSBT returning the count |
| WalletManager.Send | src/wallet/wallet-manager.ts:566-575 | disposed → the disposal error and no step; a `sendBegin` error stops there; success means `sendBegin`, signing with the given or stored mnemonic, and `sendEnd` of the signed PSBT returning the result |
| WalletManager.Inflate | src/wallet/wallet-manager.ts:478-488 | disposed → the disposal error and no step; a failed begin stops at begin; success means `inflateBegin` with fee rate and confirmations defaulting to 1, signing with the given or stored mnemonic, and `inflateEnd` of the signed PSBT returning the result |
| WalletManager.CreateUtxosBeginArgs | src/wallet/wallet-manager.ts:292-302 | defaults `upTo=true`, `num`/`size` null, `feeRate=1`, no sync skip |
| WalletManager.SendBeginArgs | src/wallet/wallet-manager.ts:317-347 | one recipient under the asset id; witness data only for a truthy amount; fee rate and confirmations default to 1; no donation |
| WalletManager.SendBegin | src/wallet/wallet-manager.ts:310-348 | an empty asset id is the `asset_id` `ValidationError`; success is the engine's answer to those arguments |
| WalletManager.DisposedWalletIsInert | src/wallet/wallet-manager.ts:262-266 | after `dispose`, signing and every flow fail with the disposed `WalletError` without calling the engine |
| WalletManager.EstimateFeeRate | src/wallet/wallet-manager.ts:373-384 | non-finite and non-positive-integer block counts are `ValidationError`s before any engine call |
| WalletManager.SignMessage | src/wallet/wallet-manager.ts:598-615 | disposal, then empty message (`ValidationError`), then missing seed (`WalletError`), then signing with the seed's current contents |
| WalletManager.SignMessageReadsCallerSeed | src/wallet/wallet-manager.ts:610-614 | signing uses whatever the caller's seed array holds now |
| WalletManager.VerifyMessage | src/wallet/wallet-manager.ts:617-634 | empty message, then empty signature, are `ValidationError`s; verification always uses `xpubVan` |
| WalletManager.VerifyIgnoresDisposal | src/wallet/wallet-manager.ts:617-634 | verifying after `dispose` gives the same answer as before |
| WalletManager.CreateWallet | src/wallet/wallet-manager.ts:86-91 | the network must normalise, but keys are always generated for regtest |
| WalletManager.CreateWalletIgnoresNetwork | src/wallet/wallet-manager.ts:88-90 | any two network names give the same wallet |
| WalletManager.RestoreFromBackup | src/wallet/wallet-manager.ts:60-79 | backup path, password and directory are required in that order; success means the engine restored |
| RgbErrors.NewRgbError | src/client/rgb-lib/RgbError.ts:19-32 | a new error is named `RgbError` and its `nativeMessage` equals its message |
| RgbErrors.IsCodeMatchesKeys | src/client/rgb-lib/RgbError.ts:34-48 | two string codes match iff equal; two object codes match iff both have a `type` and the types are equal; mixed kinds and `null` never match |
| RgbErrors.IsCodeIgnoresData | src/client/rgb-lib/RgbError.ts:38-46 | object codes with the same `type` match alike, whatever their other fields |
| RgbErrors.IsCodeIsEquivalence | src/client/rgb-lib/RgbError.ts:34-48 | matching is symmetric and transitive, and reflexive exactly for codes with a key |
| RgbErrors.Field | src/client/rgb-lib/RgbError.ts:44 | property lookup finds a value iff the key is present, and the value is stored under that key |
| RgbErrors.UnescapeEscape | src/client/rgb-lib/RgbError.ts:54 | reading back a string as `JSON.stringify` writes it gives the original string |
| RgbErrors.QuoteInjective | src/client/rgb-lib/RgbError.ts:54 | distinct strings are written as distinct JSON literals |
| RgbErrors.ToString | src/client/rgb-lib/RgbError.ts:50-56 | the rendering is `[`, then the code text (the bare name for a string code, `[type] ` and the fields' JSON for an object code), then `] ` and the message |
| RgbErrors.ToStringRoundTrip | src/client/rgb-lib/RgbError.ts:50-56 | for a string code without `]`, parsing `[code] message` gives code and message back; object codes render as `[[type] {…}] message` |
| RgbErrors.FromReactNativeError | src/client/rgb-lib/RgbError.ts:64-83 | identity on an `RgbError`; an `Error` with a string code becomes a well-formed `RgbError` with that code, using `Unknown error` for an empty message; other `Error`s are unchanged; a non-`Error` becomes `Error(String(e))` |
| RgbErrors.FromReactNativeErrorIdempotent | src/client/rgb-lib/RgbError.ts:64-83 | converting twice equals converting once |
| RgbErrors.FromReactNativeErrorWellFormed | src/client/rgb-lib/RgbError.ts:64-83 | every `RgbError` that comes out satisfies the constructor's invariant |
| WalletStore.CreateSwift | ios/WalletStore.swift:22-30 | returns the counter and increments it; the session holds the wallet with no `online`; no other handle changes; the handle was not live; overflow of the counter traps |
| WalletStore.CreateKotlin | android/src/main/java/com/rgbsdkrn/WalletStore.kt:20-25 | returns the counter; the session holds the wallet with `online` null; no other handle changes; freshness holds while the counter is below the `Int` maximum |
| WalletStore.WrapInt32 | android/src/main/java/com/rgbsdkrn/WalletStore.kt:21 | Kotlin `Int` arithmetic: the result is in range and congruent modulo 2^32 |
| WalletStore.Get | ios/WalletStore.swift:32-36 | returns the session stored under the handle, or nothing |
| WalletStore.SetOnline | ios/WalletStore.swift:38-43 | sets only that session's `online`; an unknown handle changes nothing; the counter is untouched |
| WalletStore.Remove | ios/WalletStore.swift:45-51 | afterwards the handle is absent; others are unchanged; removing an absent handle is a no-op |
| WalletStore.Clear | ios/WalletStore.swift:53-59 | the table is empty and valid |
| WalletStore.ClearReissuesHandles | android/src/main/java/com/rgbsdkrn/WalletStore.kt:43-47 | after `clear`, the next session gets handle 1 again on both platforms |
| WalletStore.RunSwiftIssuesIncreasingHandles | ios/WalletStore.swift:22-59 | across any run of calls without `clear`, the handles issued strictly increase, were never live before, and the table stays valid |
| WalletStore.KotlinCounterWraps | android/src/main/java/com/rgbsdkrn/WalletStore.kt:18-21 | from the largest `Int`, the next two handles are that maximum and then the smallest `Int` |
| WalletStore.SwiftCounterTraps | ios/WalletStore.swift:24-25 | at the largest `Int`, `create` traps instead of issuing a handle |

## Left out

- Cryptography and BDK are oracles (function-valued parameters), not models:
  - HD derivation, BIP 39 checksum and seed stretching;
  - SHA-256 and RIPEMD-160;
  - Schnorr signing and verification;
  - base64;
  - BDK `Mnemonic`, `Descriptor`, `Wallet.sign` and `Psbt` parsing.
- The native RGB engine (`Wallet` in `NativeRgb.ts`) is an oracle record too. Its pass-through
  `WalletManager` methods are not modelled one by one, because each only forwards its arguments:
  `getBtcBalance`, `getAddress`, `listUnspents`, `listAssets`, `getAssetBalance`, `createUtxosEnd`,
  `sendEnd`, `sendBtcBegin`, `sendBtcEnd`, `blindReceive`, `witnessReceive`, `issueAssetNia`,
  `issueAssetIfa`, `inflateBegin`, `inflateEnd`, `refreshWallet`, `listTransactions`, `listTransfers`,
  `failTransfers`, `decodeRGBInvoice`, `createBackup`, `syncWallet`, `initialize`, `goOnline`,
  `getXpub`, `getNetwork` and `estimateFee`. Their begin/end halves appear inside `BeginSignEnd`.
- The trivial aliases `isDisposed` (the `disposed` field), `createWalletManager` (same as `New`),
  `restoreKeys` (same as `DeriveKeysFromMnemonic`) and `signPsbtSync` (same as `Signer.SignPsbt`) have
  no members of their own.
- `masterFingerprintFromNode` is inlined into `BuildGeneratedKeysFromRoot`.
- Promises, `await` and the order of asynchronous effects are out of scope. So are the `DispatchQueue`
  and the `Mutex` of the handle tables: every call is one atomic step.
- Logging (`logger`, `console.log`, `print`, `Log.d`) is not modelled. Neither are stack traces
  (`Error.captureStackTrace`, `stack` in `toJSON`).
- `normalizeSeedBuffer` does not model the `ArrayBuffer`, `Buffer` and array-like branches. Those need
  run-time type inspection of host objects; only falsy values, byte arrays and "any other object" are
  modelled.
- JavaScript numbers are integers, except in `estimateFeeRate`, where a `Number` datatype carries
  finite reals and "not finite". NaN, infinities and fractions are not modelled elsewhere.
  `String(n)` is written out in plain decimal digits, while JavaScript switches to exponent form
  (`"1e+21"`) from 10^21 on. This affects no network reading: neither form is a `NETWORK_MAP`
  key, and neither contains `main`, `reg` or `sig`.
- `RgbErrors`: object codes hold string and number fields only; a field of type `unknown` is out of
  scope. Lone UTF-16 surrogates cannot occur, because Dafny characters are Unicode scalar values.
- Dependencies.FromSeed, Dependencies.FromBase58 and Dependencies.DerivePath: the `versions`
  argument is always given in this model, since every caller in the SDK passes one. The branch that
  uses the library defaults is therefore absent.
- Keys.GenerateKeys: the generated phrase is a parameter, because `generateMnemonic` draws randomness.
  The "bip39 not loaded" branch is not modelled because module loading is not modelled.
- Keys.MnemonicToRoot: the `bip39` loading guard (src/crypto/keys.ts:145-147) is not modelled, for the
  same reason.
- Signer.SignPsbt: the classifier inside it receives a total base64 decoder, as Node's `Buffer.from`
  is. Its `catch` branch is therefore never taken there; the classifier itself models that branch.
- Keys.ParseSeedHex: the 128-character check counts Unicode scalar values, while JavaScript's
  `.length` counts UTF-16 code units. The two differ only for text outside the Basic Multilingual
  Plane, which the hex-digit check rejects anyway, but the error reported can differ: 126 hex digits
  followed by one emoji is "length 128" in JavaScript and 127 here.
- RgbErrors.ToString: object fields are rendered in list order. `JSON.stringify` writes
  integer-like keys (such as `"0"` or `"42"`) first, in ascending numeric order, and the other keys
  after them in insertion order. A list that repeats a key renders it twice, where a JavaScript
  object would hold it once. Only lists with distinct, non-integer-like keys render exactly as the
  source does.
- WalletStore.Get, WalletStore.SetOnline and WalletStore.Remove: a session is a value here. In Swift
  and Kotlin it is a class instance, so a session obtained by `get` and later changed through
  `setOnline` shows the change, and one kept after `remove` stays usable. That aliasing is not
  modelled; only the table's contents are.
- Signer.SignPsbt: it models the source as written, with the classifier's literal patterns and coin
  type 827167 for the custom family on every network. The intended behaviour is
  `Signer.SignValidated` with `Corrected`, which nothing in `WalletManager` calls.
- WalletStore.CreateKotlin: freshness and validity are proved only while the counter is below the
  `Int` maximum. Past it the counter wraps, which `KotlinCounterWraps` shows.

Behaviour of the source worth noting:

- `verifyMessage` (src/crypto/signer.ts:450-482) propagates the errors of message checking, network
  normalisation, derivation and x-only conversion, besides the one for an unparseable xpub.
- `normalizeSeedInput` (src/crypto/keys.ts:45-92) checks the length of a hex seed only. A byte-array
  seed of any non-zero length is accepted as it is.

## Findings

| source | as written | input that shows it | evidently intended | confidence | as-written member | corrected member |
|---|---|---|---|---|---|---|
| src/crypto/signer.ts:71-76 | The six hex patterns encode 827247/827246 (0x800C9F6F/0x800C9F6E), i.e. the RGB coin types plus 80. | A PSBT whose only RGB trace is the little-endian derivation element 827167' (bytes `1f 9f 0c 80`). It is classified `create_utxo`. | The patterns encode the constants 827167/827166 hardened (`1f9f0c80`, `1e9f0c80`, `800c9f1f`, `800c9f1e`) and plain (`1f9f0c00`, `1e9f0c00`), as their comments say. | high (not executed) | PsbtDetection.HardenedCoinMissedAsWritten | PsbtDetection.CorrectedFindsHardenedCoin |
| src/crypto/signer.ts:151 | The custom descriptors always use coin type 827167 (testnet), whatever the network. | Network `mainnet`. The custom account path is `m/86'/827167'/0'`, but the colored mainnet account is `m/86'/827166'/0'`. | The coin is `getCoinType(network, true)`, matching `accountDerivationPath`. | medium (not executed) | Signer.CustomPathAsWrittenMissesMainnet | Signer.CustomPathIsColoredAccount |

`Signer.SignPsbt`, and through it every `WalletManager` flow, follows the code as written: the
patterns of the first row and the fixed coin type of the second. `Signer.SignValidated` with
`Corrected` applies both corrections. `Signer.RecordPayloadSignedOnlyWhenCorrected` names a payload
and signer behaviour on which the two readings return different results.
