/** The PSBT and message signer: BDK network mapping, the standard BIP 86
    and the custom RGB coin-type descriptors, the sign-then-fall-back
    protocol of `signPsbt`, and BIP 340 message signing and verification
    over the account's `0/0` child. BDK, the HD-key library, the hashes and
    Schnorr are parameters. */
module Signer {
  import opened Optional
  import opened Text
  import opened Bytes
  import opened Errors
  import opened JsValues
  import opened NetworkConstants
  import opened Validation
  import opened Bip32Helpers
  import opened Dependencies
  import opened Keys
  import opened PsbtDetection

  // ---------------------------------------------------------------------
  // BDK networks

  datatype BdkNetwork = BdkMainnet | BdkTestnet | BdkSignet | BdkRegtest

  /** `toBDKNetwork`: the four names map to their BDK networks, anything
      else to testnet. */
  function ToBdkNetwork(name: string): BdkNetwork {
    if name == "mainnet" then BdkMainnet
    else if name == "testnet" then BdkTestnet
    else if name == "signet" then BdkSignet
    else if name == "regtest" then BdkRegtest
    else BdkTestnet
  }

  /** `toBDKNetwork` on the name of a validated network. */
  function BdkNetworkOf(n: Network): (b: BdkNetwork)
    ensures b == ToBdkNetwork(Name(n))
  {
    match n
    case Mainnet => BdkMainnet
    case Testnet => BdkTestnet
    case Signet => BdkSignet
    case Regtest => BdkRegtest
  }

  /** The SDK network a BDK network stands for. */
  function NetworkOfBdk(b: BdkNetwork): Network {
    match b
    case BdkMainnet => Mainnet
    case BdkTestnet => Testnet
    case BdkSignet => Signet
    case BdkRegtest => Regtest
  }

  /** On the SDK's names the mapping is a bijection; every other string reads
      as testnet. */
  lemma BdkNetworkBijection(n: Network, b: BdkNetwork, other: string)
    ensures NetworkOfBdk(ToBdkNetwork(Name(n))) == n
    ensures ToBdkNetwork(Name(NetworkOfBdk(b))) == b
    ensures other !in {"mainnet", "testnet", "signet", "regtest"} ==> ToBdkNetwork(other) == BdkTestnet
  {
  }

  // ---------------------------------------------------------------------
  // The origin fingerprint of a BIP 86 descriptor

  predicate IsLowerHexChar(c: char) {
    ('0' <= c <= '9') || ('a' <= c <= 'f')
  }

  /** Length of the longest prefix of `s` drawn from `[a-f0-9]`. */
  function HexRunLength(s: string): (n: nat)
    ensures n <= |s|
    ensures forall k :: 0 <= k < n ==> IsLowerHexChar(s[k])
    ensures n < |s| ==> !IsLowerHexChar(s[n])
  {
    if s == [] || !IsLowerHexChar(s[0]) then 0 else 1 + HexRunLength(s[1..])
  }

  /** `/\[([a-f0-9]+)\//` matches at index `i`: a `[`, a non-empty run of
      lower-case hex digits, then `/`. The greedy run cannot backtrack into a
      match, since what follows a shorter run is a hex digit. */
  predicate MatchesAt(s: string, i: nat) {
    i < |s| && s[i] == '[' &&
    var n := HexRunLength(s[i + 1..]);
    n >= 1 && i + 1 + n < |s| && s[i + 1 + n] == '/'
  }

  /** The group captured by the leftmost match at or after `i`. */
  function MatchFrom(s: string, i: nat): (r: Option<string>)
    requires i <= |s|
    ensures r.Some? <==> exists j :: i <= j < |s| && MatchesAt(s, j)
    ensures r.Some? ==> r.value != [] && forall k :: 0 <= k < |r.value| ==> IsLowerHexChar(r.value[k])
    ensures r.Some? ==> Contains(s, "[" + r.value + "/")
    decreases |s| - i
  {
    if i == |s| then None
    else if MatchesAt(s, i) then
      var n := HexRunLength(s[i + 1..]);
      var g := s[i + 1 .. i + 1 + n];
      assert s[i .. i + n + 2] == "[" + g + "/";
      ContainsFromOccurrence(s, "[" + g + "/", i);
      Some(g)
    else
      MatchFrom(s, i + 1)
  }

  /** `tempDescString.match(...)`, captured group or nothing. */
  function MatchOriginFingerprint(desc: string): (r: Option<string>)
    ensures r.Some? <==> exists j :: 0 <= j < |desc| && MatchesAt(desc, j)
    ensures r.Some? ==> r.value != [] && Contains(desc, "[" + r.value + "/")
  {
    MatchFrom(desc, 0)
  }

  /** A descriptor written `<head>[<fp>/<rest>` with no `[` in the head
      yields exactly `fp` -- the shape of BDK's `tr([fp/86'/...]...)`. */
  lemma MatchFindsOrigin(head: string, fp: string, rest: string)
    requires '[' !in head
    requires fp != [] && forall k :: 0 <= k < |fp| ==> IsLowerHexChar(fp[k])
    ensures MatchFrom(head + "[" + fp + "/" + rest, 0) == Some(fp)
  {
    var s := head + "[" + fp + "/" + rest;
    BracketedSlices(head, fp, rest);
    assert forall k :: 0 <= k < |head| ==> s[k] == head[k];
    MatchFromBracket(s, |head|, fp, 0);
  }

  /** `s` holds `[<fp>/` at `b`, with `fp` a non-empty lower-case hex word. */
  predicate HexWordAt(s: string, b: nat, fp: string) {
    fp != [] && (forall k :: 0 <= k < |fp| ==> IsLowerHexChar(fp[k])) &&
    b + 1 + |fp| < |s| && s[b] == '[' && s[b + 1 .. b + 1 + |fp|] == fp && s[b + 1 + |fp|] == '/'
  }

  /** Scanning from `i`, the first `[` sits at `b` and opens `[<fp>/`: the
      match captures `fp`. */
  lemma MatchFromBracket(s: string, b: nat, fp: string, i: nat)
    requires i <= b && HexWordAt(s, b, fp)
    requires forall k :: i <= k < b ==> s[k] != '['
    ensures MatchFrom(s, i) == Some(fp)
  {
    MatchAtBracket(s, b, fp);
    MatchFromNoBracket(s, b, i);
  }

  /** No `[` in `s[i..b]`: the scan from `i` finds what the scan from `b` does. */
  lemma MatchFromNoBracket(s: string, b: nat, i: nat)
    requires i <= b <= |s|
    requires forall k :: i <= k < b ==> s[k] != '['
    ensures MatchFrom(s, i) == MatchFrom(s, b)
  {
    var scan := ScanFrom(s);
    forall k | i <= k < b
      ensures scan(k) == scan(k + 1)
    {
      MatchFromSkips(s, k);
    }
    StepsAgree(scan, i, b);
  }

  /** The scan from every position, `None` past the end. */
  function ScanFrom(s: string): nat -> Option<string> {
    (k: nat) => if k <= |s| then MatchFrom(s, k) else None
  }

  /** Values equal at each step from `i` to `b` are equal at both ends. */
  lemma {:induction false} StepsAgree<T>(f: nat -> T, i: nat, b: nat)
    requires i <= b
    requires forall k :: i <= k < b ==> f(k) == f(k + 1)
    ensures f(i) == f(b)
    decreases b - i
  {
    if i < b {
      StepsAgree(f, i + 1, b);
    }
  }

  /** A position that holds no `[` is skipped. */
  lemma MatchFromSkips(s: string, i: nat)
    requires i < |s| && s[i] != '['
    ensures MatchFrom(s, i) == MatchFrom(s, i + 1)
  {
  }

  /** A `[` followed by the hex word `fp` and a `/` captures `fp`. */
  lemma MatchAtBracket(s: string, b: nat, fp: string)
    requires HexWordAt(s, b, fp)
    ensures MatchFrom(s, b) == Some(fp)
  {
    var tail := s[b + 1..];
    assert forall k :: 0 <= k < |fp| ==> tail[k] == fp[k];
    assert tail[|fp|] == '/';
    HexRunLengthIs(tail, |fp|);
    MatchFromHere(s, b);
  }

  /** A match at `i` is the leftmost one from `i`. */
  lemma MatchFromHere(s: string, i: nat)
    requires MatchesAt(s, i)
    ensures MatchFrom(s, i) == Some(s[i + 1 .. i + 1 + HexRunLength(s[i + 1..])])
  {
  }

  /** The hex run ends exactly where the first non-hex character sits. */
  lemma HexRunLengthIs(t: string, n: nat)
    requires n < |t| && !IsLowerHexChar(t[n])
    requires forall k :: 0 <= k < n ==> IsLowerHexChar(t[k])
    ensures HexRunLength(t) == n
  {
    assert forall k :: 0 <= k < n ==> IsLowerHexChar(t[k]);
  }

  /** The slices of `<head>[<fp>/<rest>` around the bracket. */
  lemma BracketedSlices(head: string, fp: string, rest: string)
    ensures var s := head + "[" + fp + "/" + rest;
      s[|head|] == '[' && s[|head| + 1 .. |head| + 1 + |fp|] == fp && s[|head| + 1 + |fp|] == '/'
  {
  }

  // ---------------------------------------------------------------------
  // Splitting a BDK account key into origin and key

  datatype KeyOrigin = KeyOrigin(origin: string, key: string)

  /** Dropping a trailing wildcard step (slash, star) from a key. */
  function StripWildcard(k: string): (r: string)
    ensures r == k || r + "/*" == k
    ensures EndsWith(k, "/*") <==> r != k
  {
    if EndsWith(k, "/*") then k[..|k| - 2] else k
  }

  /** `extractKeyAndOrigin`: everything up to the first `]` is the origin,
      the rest is the key without a trailing wildcard step. */
  function ExtractKeyAndOrigin(keyString: string): (r: KeyOrigin)
    ensures r.origin == "" <==> ']' !in keyString
    ensures r.origin != "" ==> r.origin[|r.origin| - 1] == ']' && ']' !in r.origin[..|r.origin| - 1]
    ensures r.origin + r.key == keyString || r.origin + r.key + "/*" == keyString
  {
    var b := IndexOf(keyString, ']');
    if b == -1 then KeyOrigin("", StripWildcard(keyString))
    else
      var origin, tail := keyString[..b + 1], keyString[b + 1..];
      SliceTwo(keyString, b + 1);
      var key := StripWildcard(tail);
      assert key + "/*" == tail ==> origin + key + "/*" == origin + (key + "/*");
      KeyOrigin(origin, key)
  }

  /** Splitting inverts writing: an origin closed by its only `]`, a key
      without `]`, and the wildcard come apart again. */
  lemma ExtractInvertsConcat(origin: string, key: string)
    requires origin != [] && origin[|origin| - 1] == ']' && ']' !in origin[..|origin| - 1]
    requires ']' !in key
    ensures ExtractKeyAndOrigin(origin + key + "/*") == KeyOrigin(origin, key)
  {
    var s := origin + key + "/*";
    var b := |origin| - 1;
    assert s[..b] == origin[..b];
    assert s[b] == ']';
    assert IndexOf(s, ']') == b;
    assert s[b + 1..] == key + "/*";
  }

  // ---------------------------------------------------------------------
  // Descriptors

  datatype Keychain = External | Internal

  datatype Descriptors = Descriptors(external: string, internal: string)

  /** `new Wallet(descriptor, changeDescriptor, network, persister)`. */
  datatype WalletSetup = WalletSetup(descriptor: string, changeDescriptor: string, network: BdkNetwork)

  /** What `wallet.sign(psbt)` reports: the serialised PSBT when it signed. */
  datatype SignAttempt = Signed(serialized: string) | NotSigned

  /** The BDK calls the signer makes. `mnemonicFromString` is
      `Mnemonic.fromString`; `bip86` is `Descriptor.newBip86(...)` printed
      with its secret; `deriveAccountKey` is `secretKey.derive(path)` printed;
      `newDescriptor` parses a descriptor; `sign` builds the wallet, parses
      the PSBT and signs it. */
  datatype Bdk = Bdk(
    mnemonicFromString: string -> LibResult<string>,
    bip86: (string, BdkNetwork, Keychain) -> string,
    deriveAccountKey: (string, BdkNetwork, string) -> LibResult<string>,
    newDescriptor: (string, BdkNetwork) -> LibResult<string>,
    sign: (WalletSetup, string) -> LibResult<SignAttempt>)

  /** `createStandardDescriptors`: BDK's own BIP 86 templates. */
  function StandardDescriptors(bdk: Bdk, mnemonic: string, net: BdkNetwork): (d: Descriptors)
    ensures d.external == bdk.bip86(mnemonic, net, External)
    ensures d.internal == bdk.bip86(mnemonic, net, Internal)
  {
    Descriptors(bdk.bip86(mnemonic, net, External), bdk.bip86(mnemonic, net, Internal))
  }

  /** The account path the custom descriptors derive, `86'/<coin>'/0'`. */
  function AccountPathText(coin: nat): string {
    Join([Hardened(DERIVATION_PURPOSE), Hardened(coin), Hardened(DERIVATION_ACCOUNT)], '/')
  }

  /** The account path with the root prepended is the key module's path for
      the same coin type. */
  lemma RootedAccountPath(coin: nat)
    ensures "m/" + AccountPathText(coin) == Join(["m", Hardened(DERIVATION_PURPOSE), Hardened(coin), Hardened(DERIVATION_ACCOUNT)], '/')
  {
    var parts := ["m", Hardened(DERIVATION_PURPOSE), Hardened(coin), Hardened(DERIVATION_ACCOUNT)];
    assert parts[1..] == [Hardened(DERIVATION_PURPOSE), Hardened(coin), Hardened(DERIVATION_ACCOUNT)];
  }

  /** Distinct coin types give distinct account paths. */
  lemma AccountPathTextInjective(a: nat, b: nat)
    ensures AccountPathText(a) == AccountPathText(b) ==> a == b
  {
    HardenedValueOf(DERIVATION_PURPOSE);
    HardenedValueOf(DERIVATION_ACCOUNT);
    HardenedValueOf(a);
    HardenedValueOf(b);
    var pa := [Hardened(DERIVATION_PURPOSE), Hardened(a), Hardened(DERIVATION_ACCOUNT)];
    var pb := [Hardened(DERIVATION_PURPOSE), Hardened(b), Hardened(DERIVATION_ACCOUNT)];
    JoinInjective(pa, pb, '/');
    if pa == pb {
      assert Hardened(a) == pa[1] == pb[1] == Hardened(b);
    }
  }

  /** The custom descriptor's account path is the key module's account path
      for that coin with the root `m/` dropped. */
  lemma AccountPathTextMatches(network: JsValue)
    ensures "m/" + AccountPathText(GetCoinType(network, true)) == AccountDerivationPath(network, true)
  {
    RootedAccountPath(GetCoinType(network, true));
  }

  /** The origin written when BDK's account key carries none. */
  function FallbackOrigin(fingerprint: string, coin: nat): string {
    "[" + fingerprint + "/" + AccountPathText(coin) + "]"
  }

  /** `createCustomCoinTypeDescriptors` for a given coin type: the account
      key at `86'/<coin>'/0'` under its origin (BDK's, or one built from the
      BIP 86 fingerprint), with wildcard receive (0) and change (1) steps. */
  function CustomDescriptors(bdk: Bdk, mnemonic: string, net: BdkNetwork, coin: nat): (r: Result<Descriptors>)
    ensures r.Err? ==> r.raised.Foreign?
    ensures r.Ok? ==> bdk.deriveAccountKey(mnemonic, net, AccountPathText(coin)).Done?
    ensures r.Ok? ==>
      var ko := ExtractKeyAndOrigin(bdk.deriveAccountKey(mnemonic, net, AccountPathText(coin)).value);
      var fp := MatchOriginFingerprint(bdk.bip86(mnemonic, net, External)).GetOr("");
      var origin := if ko.origin != "" then ko.origin else FallbackOrigin(fp, coin);
      bdk.newDescriptor("tr(" + origin + ko.key + "/0/*)", net) == Done(r.value.external) &&
      bdk.newDescriptor("tr(" + origin + ko.key + "/1/*)", net) == Done(r.value.internal)
  {
    var fp := MatchOriginFingerprint(bdk.bip86(mnemonic, net, External)).GetOr("");
    var accountKey :- bdk.deriveAccountKey(mnemonic, net, AccountPathText(coin)).Lift();
    var ko := ExtractKeyAndOrigin(accountKey);
    var origin := if ko.origin != "" then ko.origin else FallbackOrigin(fp, coin);
    var ext :- bdk.newDescriptor("tr(" + origin + ko.key + "/0/*)", net).Lift();
    var chg :- bdk.newDescriptor("tr(" + origin + ko.key + "/1/*)", net).Lift();
    Ok(Descriptors(ext, chg))
  }

  /** The coin type the source's custom descriptors use on every network. */
  const CUSTOM_COIN_AS_WRITTEN: nat := COIN_RGB_TESTNET

  /** The coin type of the network's colored keychain, as the key module
      derives it. */
  function CustomCoinType(n: Network): nat {
    GetCoinType(JsStr(Name(n)), true)
  }

  /** With the corrected coin type, the send descriptors sit at the very
      account path whose xpub the key module exports as colored. */
  lemma CustomPathIsColoredAccount(n: Network)
    ensures "m/" + AccountPathText(CustomCoinType(n)) == AccountDerivationPath(JsStr(Name(n)), true)
  {
    AccountPathTextMatches(JsStr(Name(n)));
  }

  /** As written, on mainnet the send descriptors sit at coin type 827167
      while the colored account xpub is at 827166: the two paths differ. */
  lemma CustomPathAsWrittenMissesMainnet()
    ensures "m/" + AccountPathText(CUSTOM_COIN_AS_WRITTEN) != AccountDerivationPath(JsStr(Name(Mainnet)), true)
    ensures CUSTOM_COIN_AS_WRITTEN != CustomCoinType(Mainnet)
  {
    CoinTypeOfNamedNetwork(Mainnet, true);
    AccountPathTextMatches(JsStr(Name(Mainnet)));
    AccountPathTextInjective(CUSTOM_COIN_AS_WRITTEN, COIN_RGB_MAINNET);
    var x, y := AccountPathText(CUSTOM_COIN_AS_WRITTEN), AccountPathText(COIN_RGB_MAINNET);
    assert ("m/" + x)[2..] == x && ("m/" + y)[2..] == y;
  }

  // ---------------------------------------------------------------------
  // The fallback protocol of `signPsbt`

  datatype Family = Standard | Custom

  /** The descriptor family the detected PSBT type suggests. */
  function FamilyOf(t: PsbtType): Family {
    match t
    case CreateUtxo => Standard
    case Send => Custom
  }

  function Other(f: Family): Family {
    match f
    case Standard => Custom
    case Custom => Standard
  }

  const BOTH_FAILED: string := "Failed to sign PSBT - wallet.sign returned false for both descriptor types"

  /** The signing result and the families tried, in order. */
  datatype Outcome = Outcome(result: Result<string>, tried: seq<Family>)

  /** What each family's attempt gives. Attempts have no effect beyond their
      result, so both can be named up front; `RunFallback` records which of
      them the protocol performs. */
  datatype Attempts = Attempts(standard: Result<SignAttempt>, custom: Result<SignAttempt>) {
    function Of(f: Family): Result<SignAttempt> {
      match f
      case Standard => standard
      case Custom => custom
    }
  }

  /** Sign with the suggested family; only when that reports not signed, try
      the other one; when neither signs, fail. A throw ends the protocol. */
  function RunFallback(first: Family, attempt: Attempts): (o: Outcome)
    ensures 1 <= |o.tried| <= 2 && o.tried[0] == first
    ensures |o.tried| == 2 <==> attempt.Of(first) == Ok(NotSigned)
    ensures |o.tried| == 2 ==> o.tried[1] == Other(first)
    ensures o.result.Ok? <==> attempt.Of(o.tried[|o.tried| - 1]).Ok? && attempt.Of(o.tried[|o.tried| - 1]).value.Signed?
    ensures o.result.Ok? ==> attempt.Of(o.tried[|o.tried| - 1]) == Ok(Signed(o.result.value))
    ensures o.result.Err? && attempt.Of(o.tried[|o.tried| - 1]).Err? ==> o.result == attempt.Of(o.tried[|o.tried| - 1]).PropagateFailure()
    ensures o.result.Err? && attempt.Of(o.tried[|o.tried| - 1]).Ok? ==>
      |o.tried| == 2 && attempt.Of(Other(first)) == Ok(NotSigned) && o.result == Throw(CryptoError(BOTH_FAILED, None))
  {
    match attempt.Of(first)
    case Err(e) => Outcome(Err(e), [first])
    case Ok(Signed(s)) => Outcome(Ok(s), [first])
    case Ok(NotSigned) =>
      match attempt.Of(Other(first))
      case Err(e) => Outcome(Err(e), [first, Other(first)])
      case Ok(Signed(s)) => Outcome(Ok(s), [first, Other(first)])
      case Ok(NotSigned) => Outcome(Throw(CryptoError(BOTH_FAILED, None)), [first, Other(first)])
  }

  /** The detected type only orders the attempts: when neither family throws
      and at most one signs, the result is the same whichever goes first; it
      fails exactly when neither signs. */
  lemma FallbackHintOnlyOrders(attempt: Attempts)
    requires attempt.standard.Ok? && attempt.custom.Ok?
    requires !(attempt.standard.value.Signed? && attempt.custom.value.Signed?)
    ensures RunFallback(Standard, attempt).result == RunFallback(Custom, attempt).result
    ensures RunFallback(Standard, attempt).result.Err? <==>
      attempt.standard == Ok(NotSigned) && attempt.custom == Ok(NotSigned)
  {
  }

  // ---------------------------------------------------------------------
  // signPsbt

  /** Which reading of `signPsbt` runs. `AsWritten` is the source: the
      classifier's literal patterns and coin type 827167 for the custom
      descriptors on every network. `Corrected` is what its comments and the
      key module describe: the patterns of the real coin types, and the
      network's own colored coin type. */
  datatype Build = AsWritten | Corrected

  /** The coin type of the custom descriptors on network `n`. */
  function CustomCoin(b: Build, n: Network): (c: nat)
    ensures b == AsWritten ==> c == COIN_RGB_TESTNET
    ensures b == Corrected ==> "m/" + AccountPathText(c) == AccountDerivationPath(JsStr(Name(n)), true)
  {
    match b
    case AsWritten => CUSTOM_COIN_AS_WRITTEN
    case Corrected => CustomPathIsColoredAccount(n); CustomCoinType(n)
  }

  /** The family tried first: the one the classifier's verdict suggests. The
      classifier gets `Buffer.from(s, 'base64')`, which never throws. */
  function FirstFamily(b: Build, decode: string -> seq<byte>, psbt: string): Family {
    match b
    case AsWritten => FamilyOf(DetectPsbtTypeAsWritten(TotalDecoder(decode), psbt))
    case Corrected => FamilyOf(DetectPsbtType(TotalDecoder(decode), psbt))
  }

  /** A decoder that never fails, in the classifier's optional form. */
  function TotalDecoder(decode: string -> seq<byte>): string -> Option<seq<byte>> {
    s => Some(decode(s))
  }

  /** One signing attempt with a family's descriptors: a fresh in-memory
      wallet built internal-first, then the trimmed PSBT. `coin` is the coin
      type of the custom family. */
  function Attempt(bdk: Bdk, mnemonic: string, net: BdkNetwork, coin: nat, psbt: string, f: Family): (r: Result<SignAttempt>)
    ensures r.Err? ==> r.raised.Foreign?
    ensures f == Standard ==>
      var d := StandardDescriptors(bdk, mnemonic, net);
      r == bdk.sign(WalletSetup(d.internal, d.external, net), Trim(psbt)).Lift()
    ensures f == Custom && CustomDescriptors(bdk, mnemonic, net, coin).Ok? ==>
      var d := CustomDescriptors(bdk, mnemonic, net, coin).value;
      r == bdk.sign(WalletSetup(d.internal, d.external, net), Trim(psbt)).Lift()
    ensures f == Custom && CustomDescriptors(bdk, mnemonic, net, coin).Err? ==>
      r.Err? && r.raised == CustomDescriptors(bdk, mnemonic, net, coin).raised
  {
    var d :- match f
      case Standard => Ok(StandardDescriptors(bdk, mnemonic, net))
      case Custom => CustomDescriptors(bdk, mnemonic, net, coin);
    bdk.sign(WalletSetup(d.internal, d.external, net), Trim(psbt)).Lift()
  }

  /** `network` with its default: only `undefined` becomes `testnet`. */
  function DefaultTestnet(network: JsValue): JsValue {
    ParamDefault(network, JsStr("testnet"))
  }

  /** `signPsbt` once its inputs are valid: parse the trimmed mnemonic,
      classify the payload to choose the first family, run the fallback. */
  function SignValidated(b: Build, bdk: Bdk, decode: string -> seq<byte>, mnemonic: string, psbt: string, n: Network): (r: Result<string>)
    ensures bdk.mnemonicFromString(Trim(mnemonic)).Failed? ==> r == bdk.mnemonicFromString(Trim(mnemonic)).Lift().PropagateFailure()
    ensures r.Ok? ==>
      bdk.mnemonicFromString(Trim(mnemonic)).Done? &&
      exists f :: Attempt(bdk, bdk.mnemonicFromString(Trim(mnemonic)).value, BdkNetworkOf(n), CustomCoin(b, n), psbt, f) == Ok(Signed(r.value))
    ensures r.Err? ==> r.raised.Foreign? || r == Throw(CryptoError(BOTH_FAILED, None))
    ensures bdk.mnemonicFromString(Trim(mnemonic)).Done? ==>
      r == RunFallback(FirstFamily(b, decode, psbt),
                       AttemptsOf(bdk, bdk.mnemonicFromString(Trim(mnemonic)).value, n, CustomCoin(b, n), psbt)).result
  {
    var handle :- bdk.mnemonicFromString(Trim(mnemonic)).Lift();
    var o := RunFallback(FirstFamily(b, decode, psbt), AttemptsOf(bdk, handle, n, CustomCoin(b, n), psbt));
    o.result
  }

  /** Both families' attempts with the parsed mnemonic on network `n`. */
  function AttemptsOf(bdk: Bdk, handle: string, n: Network, coin: nat, psbt: string): (a: Attempts)
    ensures forall f :: a.Of(f) == Attempt(bdk, handle, BdkNetworkOf(n), coin, psbt, f)
  {
    var net := BdkNetworkOf(n);
    var a := Attempts(Attempt(bdk, handle, net, coin, psbt, Standard), Attempt(bdk, handle, net, coin, psbt, Custom));
    a
  }

  /** The body of `signPsbt`'s `try`: the two validators and the network
      check, in that order, then the signing itself. */
  function SignPsbtSteps(bdk: Bdk, decode: string -> seq<byte>, mnemonic: JsValue, psbt: JsValue, network: JsValue): (r: Result<string>)
    ensures ValidateMnemonic(mnemonic, "mnemonic").Err? ==> r == ValidateMnemonic(mnemonic, "mnemonic")
    ensures ValidateMnemonic(mnemonic, "mnemonic").Ok? && ValidatePsbt(psbt, "psbtBase64").Err? ==>
      r == ValidatePsbt(psbt, "psbtBase64")
    ensures (ValidateMnemonic(mnemonic, "mnemonic").Ok? && ValidatePsbt(psbt, "psbtBase64").Ok? &&
             NormalizeNetwork(DefaultTestnet(network)).Err?) ==> r == Throw(InvalidNetwork(DefaultTestnet(network)))
    ensures (ValidateMnemonic(mnemonic, "mnemonic").Ok? && ValidatePsbt(psbt, "psbtBase64").Ok? &&
             NormalizeNetwork(DefaultTestnet(network)).Ok?) ==>
      r == SignValidated(AsWritten, bdk, decode, mnemonic.s, psbt.s, NormalizeNetwork(DefaultTestnet(network)).value)
  {
    var m :- ValidateMnemonic(mnemonic, "mnemonic");
    var p :- ValidatePsbt(psbt, "psbtBase64");
    var n :- NormalizeNetwork(DefaultTestnet(network));
    SignValidated(AsWritten, bdk, decode, m, p, n)
  }

  /** `signPsbt`: validation and crypto errors reach the caller unchanged,
      anything else thrown becomes a crypto error naming it. */
  function SignPsbt(bdk: Bdk, decode: string -> seq<byte>, mnemonic: JsValue, psbt: JsValue, network: JsValue): (r: Result<string>)
    ensures ValidationOrCrypto(r)
    ensures ValidateMnemonic(mnemonic, "mnemonic").Err? ==> r == ValidateMnemonic(mnemonic, "mnemonic")
    ensures ValidateMnemonic(mnemonic, "mnemonic").Ok? && ValidatePsbt(psbt, "psbtBase64").Err? ==>
      r == ValidatePsbt(psbt, "psbtBase64")
    ensures (ValidateMnemonic(mnemonic, "mnemonic").Ok? && ValidatePsbt(psbt, "psbtBase64").Ok? &&
             NormalizeNetwork(DefaultTestnet(network)).Err?) ==> r == Throw(InvalidNetwork(DefaultTestnet(network)))
    ensures r.Ok? <==>
      ValidateMnemonic(mnemonic, "mnemonic").Ok? && ValidatePsbt(psbt, "psbtBase64").Ok? &&
      NormalizeNetwork(DefaultTestnet(network)).Ok? &&
      SignValidated(AsWritten, bdk, decode, mnemonic.s, psbt.s, NormalizeNetwork(DefaultTestnet(network)).value).Ok?
    ensures r.Ok? ==> r == SignValidated(AsWritten, bdk, decode, mnemonic.s, psbt.s, NormalizeNetwork(DefaultTestnet(network)).value)
  {
    CatchUnexpected(SignPsbtSteps(bdk, decode, mnemonic, psbt, network))
  }

  /** The `catch` of `signPsbt`: validation and crypto errors are rethrown,
      anything else becomes a crypto error whose message names it. */
  function CatchUnexpected(steps: Result<string>): (r: Result<string>)
    ensures ValidationOrCrypto(r)
    ensures steps.Ok? || steps.raised.IsValidation() || steps.raised.IsCrypto() ==> r == steps
    ensures steps.Err? && !steps.raised.IsValidation() && !steps.raised.IsCrypto() ==>
      r == Throw(CryptoError("Unexpected error during PSBT signing: " + steps.raised.Message(), Some(steps.raised)))
  {
    if steps.Ok? || steps.raised.IsValidation() || steps.raised.IsCrypto() then steps
    else Throw(CryptoError("Unexpected error during PSBT signing: " + steps.raised.Message(), Some(steps.raised)))
  }

  /** When neither descriptor family signs, signing fails with the
      both-descriptors crypto error, whatever the detection said. */
  lemma SignPsbtBothUnsigned(b: Build, bdk: Bdk, decode: string -> seq<byte>, mnemonic: string, psbt: string, n: Network)
    requires bdk.mnemonicFromString(Trim(mnemonic)).Done?
    requires forall f :: Attempt(bdk, bdk.mnemonicFromString(Trim(mnemonic)).value, BdkNetworkOf(n), CustomCoin(b, n), psbt, f) == Ok(NotSigned)
    ensures SignValidated(b, bdk, decode, mnemonic, psbt, n) == Throw(CryptoError(BOTH_FAILED, None))
  {
    var a := AttemptsOf(bdk, bdk.mnemonicFromString(Trim(mnemonic)).value, n, CustomCoin(b, n), psbt);
    assert a.Of(Standard) == Ok(NotSigned) && a.Of(Custom) == Ok(NotSigned);
  }

  /** The result does not depend on the payload classification when at most
      one family can sign and none throws: any two base64 decoders give the
      same result. */
  lemma SignPsbtIndependentOfDetection(b: Build, bdk: Bdk, d1: string -> seq<byte>, d2: string -> seq<byte>,
                                       mnemonic: string, psbt: string, n: Network)
    requires bdk.mnemonicFromString(Trim(mnemonic)).Done?
    requires forall f :: Attempt(bdk, bdk.mnemonicFromString(Trim(mnemonic)).value, BdkNetworkOf(n), CustomCoin(b, n), psbt, f).Ok?
    requires var h := bdk.mnemonicFromString(Trim(mnemonic)).value;
      !(Attempt(bdk, h, BdkNetworkOf(n), CustomCoin(b, n), psbt, Standard).value.Signed? &&
        Attempt(bdk, h, BdkNetworkOf(n), CustomCoin(b, n), psbt, Custom).value.Signed?)
    ensures SignValidated(b, bdk, d1, mnemonic, psbt, n) == SignValidated(b, bdk, d2, mnemonic, psbt, n)
  {
    var a := AttemptsOf(bdk, bdk.mnemonicFromString(Trim(mnemonic)).value, n, CustomCoin(b, n), psbt);
    assert a.standard == a.Of(Standard) && a.custom == a.Of(Custom);
    FallbackHintOnlyOrders(a);
    assert FirstFamily(b, d1, psbt) in {Standard, Custom} && FirstFamily(b, d2, psbt) in {Standard, Custom};
  }

  /** The retry rule of `signPsbt` once the mnemonic parses. The family the
      classifier picks is tried first: its signature is returned and its
      error raised without a second attempt. Only when it reports not signed
      is the other family tried, and then that attempt decides: its
      signature, its error, or the both-failed error when it does not sign
      either. */
  lemma SignValidatedRetryRule(b: Build, bdk: Bdk, decode: string -> seq<byte>, mnemonic: string, psbt: string, n: Network)
    requires bdk.mnemonicFromString(Trim(mnemonic)).Done?
    ensures var a := AttemptsOf(bdk, bdk.mnemonicFromString(Trim(mnemonic)).value, n, CustomCoin(b, n), psbt);
      var f := FirstFamily(b, decode, psbt);
      RunFallback(f, a).tried == (if a.Of(f) == Ok(NotSigned) then [f, Other(f)] else [f])
    ensures var a := AttemptsOf(bdk, bdk.mnemonicFromString(Trim(mnemonic)).value, n, CustomCoin(b, n), psbt);
      var f := FirstFamily(b, decode, psbt);
      var r := SignValidated(b, bdk, decode, mnemonic, psbt, n);
      (a.Of(f).Err? ==> r == Err(a.Of(f).raised)) &&
      (a.Of(f).Ok? && a.Of(f).value.Signed? ==> r == Ok(a.Of(f).value.serialized)) &&
      (a.Of(f) == Ok(NotSigned) ==>
        (a.Of(Other(f)).Err? ==> r == Err(a.Of(Other(f)).raised)) &&
        (a.Of(Other(f)).Ok? && a.Of(Other(f)).value.Signed? ==> r == Ok(a.Of(Other(f)).value.serialized)) &&
        (a.Of(Other(f)) == Ok(NotSigned) ==> r == Throw(CryptoError(BOTH_FAILED, None))))
  {
    var a := AttemptsOf(bdk, bdk.mnemonicFromString(Trim(mnemonic)).value, n, CustomCoin(b, n), psbt);
    var f := FirstFamily(b, decode, psbt);
    assert SignValidated(b, bdk, decode, mnemonic, psbt, n) == RunFallback(f, a).result;
  }

  /** The classifier finding reaches the signer. For a payload that is only
      the hardened testnet RGB coin record, on a test network (where both
      builds use coin type 827167), the source tries the standard family
      first and the corrected reading the custom one: when the standard
      attempt throws and the custom one signs, only the corrected reading
      returns the signed PSBT. */
  lemma RecordPayloadSignedOnlyWhenCorrected(bdk: Bdk, decode: string -> seq<byte>, mnemonic: string, psbt: string,
                                             n: Network, signed: string)
    requires n != Mainnet
    requires decode(Trim(psbt)) == RecordOnly()
    requires bdk.mnemonicFromString(Trim(mnemonic)).Done?
    requires Attempt(bdk, bdk.mnemonicFromString(Trim(mnemonic)).value, BdkNetworkOf(n), COIN_RGB_TESTNET, psbt, Standard).Err?
    requires Attempt(bdk, bdk.mnemonicFromString(Trim(mnemonic)).value, BdkNetworkOf(n), COIN_RGB_TESTNET, psbt, Custom) == Ok(Signed(signed))
    ensures FirstFamily(AsWritten, decode, psbt) == Standard && FirstFamily(Corrected, decode, psbt) == Custom
    ensures SignValidated(AsWritten, bdk, decode, mnemonic, psbt, n).Err?
    ensures SignValidated(Corrected, bdk, decode, mnemonic, psbt, n) == Ok(signed)
  {
    RecordPayloadFirstFamilies(decode, psbt);
    CoinTypeOfNamedNetwork(n, true);
    assert CustomCoin(Corrected, n) == COIN_RGB_TESTNET == CustomCoin(AsWritten, n);
  }

  /** Which family each reading tries first on the hardened coin record. */
  lemma RecordPayloadFirstFamilies(decode: string -> seq<byte>, psbt: string)
    requires decode(Trim(psbt)) == RecordOnly()
    ensures FirstFamily(AsWritten, decode, psbt) == Standard && FirstFamily(Corrected, decode, psbt) == Custom
  {
    HardenedCoinMissedAsWritten(TotalDecoder(decode), psbt);
  }

  /** `signPsbtFromSeed` refuses every input. */
  function SignPsbtFromSeed(seed: JsValue, psbt: JsValue, network: JsValue): (r: Result<string>)
    ensures r.Err? && r.raised.IsCrypto()
    ensures r.raised.Message() == FROM_SEED_UNSUPPORTED
  {
    Throw(CryptoError(FROM_SEED_UNSUPPORTED, None))
  }

  const FROM_SEED_UNSUPPORTED: string := "signPsbtFromSeed is not supported. Please use signPsbt with a mnemonic phrase instead."

  // ---------------------------------------------------------------------
  // Message signing

  /** `ensureMessageInput`: a non-empty string as its UTF-8 bytes, or a
      non-empty byte array as is. */
  function EnsureMessageInput(message: JsValue): (r: Result<seq<byte>>)
    ensures r.Ok? <==> (message.JsStr? && message.s != "") || (message.JsBytes? && message.bytes != [])
    ensures r.Ok? ==> r.value != []
    ensures r.Ok? && message.JsStr? ==> r.value == Utf8Encode(message.s)
    ensures r.Ok? && message.JsBytes? ==> r.value == message.bytes
    ensures r.Err? ==> r.raised.IsValidation() && r.raised.err.field == Some("message")
    ensures r.Err? ==> (r.raised.Message() == "message must not be empty" <==> message.JsStr? || message.JsBytes?)
  {
    match message
    case JsStr(s) =>
      if s == "" then Throw(ValidationError("message must not be empty", Some("message"))) else Ok(Utf8Encode(s))
    case JsBytes(bs) =>
      if bs == [] then Throw(ValidationError("message must not be empty", Some("message"))) else Ok(bs)
    case _ => Throw(ValidationError("message must be a string or Uint8Array", Some("message")))
  }

  const DEFAULT_RELATIVE_PATH: string := "0/0"

  /** `network ?? 'regtest'` */
  function DefaultRegtest(network: JsValue): JsValue {
    OrDefault(network, JsStr("regtest"))
  }

  /** The signing node: master key from the seed under the network's
      versions, the vanilla account path, then `0/0`. */
  function SigningChild(libs: Libraries, seed: seq<byte>, n: Network): (r: Result<Bip32Node>)
    ensures r.Err? ==> r.raised.Foreign?
    ensures r.Ok? ==>
      var master := libs.bip32.fromMasterSeed(seed, GetNetworkVersions(JsStr(Name(n))).bip32);
      master.Done? &&
      var account := libs.bip32.derive(master.value, AccountDerivationPath(JsStr(Name(n)), false));
      account.Done? &&
      libs.bip32.derive(account.value, "0/0") == Done(r.value.key)
    ensures r.Ok? ==> r.value.key.publicKey == Some(r.value.publicKey) && r.value.privateKey == r.value.key.privateKey
  {
    var versions := GetNetworkVersions(JsStr(Name(n)));
    var root :- FromSeed(libs.bip32, seed, versions.bip32);
    var account :- DerivePath(libs.bip32, root, AccountDerivationPath(JsStr(Name(n)), false));
    DerivePath(libs.bip32, account, DEFAULT_RELATIVE_PATH)
  }

  /** `signMessage`: base64 of the BIP 340 signature of the message's
      SHA-256 under the signing node's private key. */
  function SignMessage(libs: Libraries, message: JsValue, seed: JsValue, network: JsValue): (r: Result<string>)
    ensures !Truthy(seed) ==> r == Throw(ValidationError("seed is required", Some("seed")))
    ensures Truthy(seed) && NormalizeNetwork(DefaultRegtest(network)).Err? ==> r == Throw(InvalidNetwork(DefaultRegtest(network)))
    ensures Truthy(seed) && NormalizeNetwork(DefaultRegtest(network)).Ok? && EnsureMessageInput(message).Err? ==>
      r == EnsureMessageInput(message).PropagateFailure()
    ensures (Truthy(seed) && NormalizeNetwork(DefaultRegtest(network)).Ok? && EnsureMessageInput(message).Ok? &&
             NormalizeSeedInput(seed, "seed").Err?) ==> r == Err(NormalizeSeedInput(seed, "seed").raised)
    ensures (Truthy(seed) && NormalizeNetwork(DefaultRegtest(network)).Ok? && EnsureMessageInput(message).Ok? &&
             NormalizeSeedInput(seed, "seed").Ok?) ==>
      var child := SigningChild(libs, NormalizeSeedInput(seed, "seed").value, NormalizeNetwork(DefaultRegtest(network)).value);
      (child.Err? ==> r == Err(child.raised)) &&
      (child.Ok? && child.value.privateKey.None? ==> r == Throw(CryptoError("Derived node does not contain a private key", None))) &&
      (child.Ok? && child.value.privateKey.Some? ==>
        r == Ok(libs.prims.base64Encode(libs.prims.schnorrSign(libs.prims.sha256(EnsureMessageInput(message).value), child.value.privateKey.value))))
    ensures r.Ok? ==>
      EnsureMessageInput(message).Ok? && NormalizeNetwork(DefaultRegtest(network)).Ok? && NormalizeSeedInput(seed, "seed").Ok? &&
      var child := SigningChild(libs, NormalizeSeedInput(seed, "seed").value, NormalizeNetwork(DefaultRegtest(network)).value);
      child.Ok? && child.value.privateKey.Some? &&
      r.value == libs.prims.base64Encode(libs.prims.schnorrSign(libs.prims.sha256(EnsureMessageInput(message).value), child.value.privateKey.value))
  {
    if !Truthy(seed) then Throw(ValidationError("seed is required", Some("seed")))
    else
      var n :- NormalizeNetwork(DefaultRegtest(network));
      var bytes :- EnsureMessageInput(message);
      var s :- NormalizeSeedInput(seed, "seed");
      var child :- SigningChild(libs, s, n);
      match child.privateKey
      case None => Throw(CryptoError("Derived node does not contain a private key", None))
      case Some(priv) => Ok(libs.prims.base64Encode(libs.prims.schnorrSign(libs.prims.sha256(bytes), priv)))
  }

  /** The verifying node: the account xpub parsed under the network's
      versions (a parse failure is a validation error on `accountXpub`),
      then `0/0`. */
  function VerifyingChild(libs: Libraries, accountXpub: string, n: Network): (r: Result<Bip32Node>)
    ensures FromBase58(libs.bip32, accountXpub, GetNetworkVersions(JsStr(Name(n))).bip32).Err? ==>
      r == Throw(ValidationError("Invalid account xpub provided", Some("accountXpub")))
    ensures FromBase58(libs.bip32, accountXpub, GetNetworkVersions(JsStr(Name(n))).bip32).Ok? ==>
      r == DerivePath(libs.bip32, FromBase58(libs.bip32, accountXpub, GetNetworkVersions(JsStr(Name(n))).bip32).value, DEFAULT_RELATIVE_PATH)
  {
    var versions := GetNetworkVersions(JsStr(Name(n)));
    match FromBase58(libs.bip32, accountXpub, versions.bip32)
    case Err(_) => Throw(ValidationError("Invalid account xpub provided", Some("accountXpub")))
    case Ok(account) => DerivePath(libs.bip32, account, DEFAULT_RELATIVE_PATH)
  }

  /** `verifyMessage`: the signature checked against the x-only public key of
      the verifying node; a verifier that throws counts as `false`. */
  function VerifyMessage(libs: Libraries, message: JsValue, signature: string, accountXpub: string, network: JsValue): (r: Result<bool>)
    ensures EnsureMessageInput(message).Err? ==> r == EnsureMessageInput(message).PropagateFailure()
    ensures EnsureMessageInput(message).Ok? && NormalizeNetwork(DefaultRegtest(network)).Err? ==>
      r == Throw(InvalidNetwork(DefaultRegtest(network)))
    ensures EnsureMessageInput(message).Ok? && NormalizeNetwork(DefaultRegtest(network)).Ok? ==>
      var parsed := FromBase58(libs.bip32, accountXpub, GetNetworkVersions(JsStr(Name(NormalizeNetwork(DefaultRegtest(network)).value))).bip32);
      (parsed.Err? ==> r == Throw(ValidationError("Invalid account xpub provided", Some("accountXpub")))) &&
      (parsed.Ok? ==>
        var child := DerivePath(libs.bip32, parsed.value, DEFAULT_RELATIVE_PATH);
        (child.Err? ==> r == Err(child.raised)) &&
        (child.Ok? ==>
          var xOnly := XOnlyPointFromPoint(child.value.publicKey);
          (xOnly.Err? ==> r == Err(xOnly.raised)) &&
          (xOnly.Ok? ==>
            r == Ok(libs.prims.schnorrVerify(libs.prims.sha256(EnsureMessageInput(message).value), xOnly.value,
                                             libs.prims.base64Decode(signature)).GetOr(false)))))
    ensures r.Ok? ==>
      EnsureMessageInput(message).Ok? && NormalizeNetwork(DefaultRegtest(network)).Ok? &&
      var child := VerifyingChild(libs, accountXpub, NormalizeNetwork(DefaultRegtest(network)).value);
      child.Ok? && XOnlyPointFromPoint(child.value.publicKey).Ok? &&
      var verdict := libs.prims.schnorrVerify(libs.prims.sha256(EnsureMessageInput(message).value),
        XOnlyPointFromPoint(child.value.publicKey).value, libs.prims.base64Decode(signature));
      r.value == verdict.GetOr(false)
  {
    var bytes :- EnsureMessageInput(message);
    var sig := libs.prims.base64Decode(signature);
    var n :- NormalizeNetwork(DefaultRegtest(network));
    var child :- VerifyingChild(libs, accountXpub, n);
    var xOnly :- XOnlyPointFromPoint(child.publicKey);
    match libs.prims.schnorrVerify(libs.prims.sha256(bytes), xOnly, sig)
    case None => Ok(false)
    case Some(valid) => Ok(valid)
  }

  /** Base64 decoding undoes base64 encoding. */
  ghost predicate Base64RoundTrips(p: Primitives) {
    forall bs :: p.base64Decode(p.base64Encode(bs)) == bs
  }

  /** BIP 340 correctness for one key pair: what the private key signs, the
      x-only form of the public key accepts. */
  ghost predicate SchnorrKeyPair(p: Primitives, publicKey: seq<byte>, privateKey: seq<byte>) {
    XOnlyPointFromPoint(publicKey).Ok? &&
    forall h :: p.schnorrVerify(h, XOnlyPointFromPoint(publicKey).value, p.schnorrSign(h, privateKey)) == Some(true)
  }

  /** Signing then verifying round-trips: a signature `signMessage` produces
      is accepted by `verifyMessage` for the same message and network,
      given an account xpub whose `0/0` child has the signing child's public
      key, a base64 codec that round-trips and Schnorr that is correct for
      that key pair. */
  lemma SignThenVerify(libs: Libraries, message: JsValue, seed: JsValue, network: JsValue, accountXpub: string)
    requires SignMessage(libs, message, seed, network).Ok?
    requires Base64RoundTrips(libs.prims)
    requires var n := NormalizeNetwork(DefaultRegtest(network)).value;
      var signing := SigningChild(libs, NormalizeSeedInput(seed, "seed").value, n).value;
      var verifying := VerifyingChild(libs, accountXpub, n);
      verifying.Ok? && verifying.value.publicKey == signing.publicKey &&
      SchnorrKeyPair(libs.prims, signing.publicKey, signing.privateKey.value)
    ensures VerifyMessage(libs, message, SignMessage(libs, message, seed, network).value, accountXpub, network) == Ok(true)
  {
    var n := NormalizeNetwork(DefaultRegtest(network)).value;
    var signing := SigningChild(libs, NormalizeSeedInput(seed, "seed").value, n).value;
    var h := libs.prims.sha256(EnsureMessageInput(message).value);
    var sig := libs.prims.schnorrSign(h, signing.privateKey.value);
    assert libs.prims.base64Decode(libs.prims.base64Encode(sig)) == sig;
    assert libs.prims.schnorrVerify(h, XOnlyPointFromPoint(signing.publicKey).value, sig) == Some(true);
  }

  /** `estimatePsbt` is not implemented: a missing PSBT is a validation
      error, anything else a crypto error. */
  function EstimatePsbt(psbt: JsValue): (r: Result<nat>)
    ensures r.Err?
    ensures !Truthy(psbt) <==> r.raised.IsValidation()
    ensures !Truthy(psbt) ==> r.raised.err.field == Some("psbt")
    ensures Truthy(psbt) ==> r.raised.IsCrypto()
  {
    if !Truthy(psbt) then Throw(ValidationError("psbt is required", Some("psbt")))
    else Throw(CryptoError("PSBT estimation not yet implemented. Use BDK or another library for fee estimation.", None))
  }
}
