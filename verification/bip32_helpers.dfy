/** Version-byte selection for BIP 32 and WIF, the loose network-name
    guesser used on user-supplied networks, and seed-buffer normalisation. */
module Bip32Helpers {
  import opened Optional
  import opened Text
  import opened Bytes
  import opened Errors
  import opened JsValues
  import opened NetworkConstants

  /** The WIF prefix byte: 0x80 marks mainnet, 0xef every test network. */
  function WifVersion(n: Network): (w: byte)
    ensures w in {0x80, 0xef}
    ensures w == 0x80 <==> n == Mainnet
  {
    if n == Mainnet then 0x80 else 0xef
  }

  /** `NetworkVersions`: the BIP 32 pair and the WIF byte. */
  datatype NetworkVersions = NetworkVersions(bip32: VersionPair, wif: byte)

  /** The versions of a network: its `BIP32_VERSIONS` entry, and a WIF byte
      that is mainnet's exactly when the network is. */
  function VersionsFromConstants(n: Network): (v: NetworkVersions)
    ensures v.bip32 == Bip32Versions(n)
    ensures v.wif == 0x80 <==> n == Mainnet
    ensures v.wif != 0x80 ==> v.wif == 0xef
  {
    NetworkVersions(Bip32Versions(n), WifVersion(n))
  }

  /** The versions of a network depend only on whether it is mainnet, and
      mainnet's differ from every test network's in both parts. */
  lemma VersionsOnlySeeMainnet(a: Network, b: Network)
    ensures (a == Mainnet) == (b == Mainnet) ==> VersionsFromConstants(a) == VersionsFromConstants(b)
    ensures (a == Mainnet) != (b == Mainnet) ==>
      VersionsFromConstants(a).bip32 != VersionsFromConstants(b).bip32 && VersionsFromConstants(a).wif != VersionsFromConstants(b).wif
  {
    VersionTableShape(a, b);
  }

  /** `toNetworkName`: lower-case `String(v)` and look for `main`, `reg`,
      `sig`, in that order; anything else is testnet. */
  function ToNetworkName(v: JsValue): (n: Network)
    ensures n == Mainnet <==> Contains(ToLower(ToJsString(v)), "main")
    ensures n == Regtest <==> !Contains(ToLower(ToJsString(v)), "main") && Contains(ToLower(ToJsString(v)), "reg")
    ensures n == Signet <==> !Contains(ToLower(ToJsString(v)), "main") && !Contains(ToLower(ToJsString(v)), "reg")
                             && Contains(ToLower(ToJsString(v)), "sig")
  {
    var s := ToLower(ToJsString(v));
    if Contains(s, "main") then Mainnet
    else if Contains(s, "reg") then Regtest
    else if Contains(s, "sig") then Signet
    else Testnet
  }

  /** `getNetworkVersions` */
  function GetNetworkVersions(v: JsValue): (r: NetworkVersions)
    ensures r == VersionsFromConstants(ToNetworkName(v))
    ensures r.wif == 0x80 <==> Contains(ToLower(ToJsString(v)), "main")
  {
    VersionsFromConstants(ToNetworkName(v))
  }

  /** An occurrence of a pattern shows its first two characters side by side
      in the text. */
  lemma ContainsShowsPrefix(s: string, p: string)
    requires p != []
    ensures Contains(s, p) ==> p[0] in s
    ensures Contains(s, p) && |p| >= 2 ==> exists i :: 0 <= i < |s| - 1 && s[i] == p[0] && s[i + 1] == p[1]
  {
    ContainsIff(s, p);
    if Contains(s, p) {
      var i :| OccursAt(s, p, i);
      assert s[i .. i + |p|][0] == s[i];
      if |p| >= 2 {
        assert s[i .. i + |p|][1] == s[i + 1];
      }
    }
  }

  /** Every character of an occurring pattern appears in the text. */
  lemma ContainsShowsChars(s: string, p: string)
    ensures Contains(s, p) ==> forall k :: 0 <= k < |p| ==> p[k] in s
  {
    ContainsIff(s, p);
    if Contains(s, p) {
      var i :| OccursAt(s, p, i);
      forall k | 0 <= k < |p| ensures p[k] in s {
        assert s[i .. i + |p|][k] == s[i + k];
      }
    }
  }

  /** The SDK's own network names map to themselves. */
  lemma ToNetworkNameOfNames(n: Network)
    ensures ToNetworkName(JsStr(Name(n))) == n
  {
    match n
    case Mainnet => MainnetNamed();
    case Regtest => RegtestNamed();
    case Signet => SignetNamed();
    case Testnet => TestnetNamed();
  }

  lemma MainnetNamed()
    ensures ToNetworkName(JsStr("mainnet")) == Mainnet
  {
    assert ToLower("mainnet") == "mainnet";
    assert OccursAt("mainnet", "main", 0);
    ContainsFromOccurrence("mainnet", "main", 0);
  }

  lemma RegtestNamed()
    ensures ToNetworkName(JsStr("regtest")) == Regtest
  {
    var s := "regtest";
    assert s == ['r', 'e', 'g', 't', 'e', 's', 't'];
    LowerCaseUnchanged(s);
    assert 'm' !in s;
    ContainsShowsChars(s, "main");
    assert "main"[0] == 'm';
    assert s[..3] == "reg";
  }

  lemma SignetNamed()
    ensures ToNetworkName(JsStr("signet")) == Signet
  {
    var s := "signet";
    assert s == ['s', 'i', 'g', 'n', 'e', 't'];
    LowerCaseUnchanged(s);
    assert 'm' !in s && 'r' !in s;
    ContainsShowsChars(s, "main");
    ContainsShowsChars(s, "reg");
    assert "main"[0] == 'm' && "reg"[0] == 'r';
    assert s[..3] == "sig";
  }

  lemma TestnetNamed()
    ensures ToNetworkName(JsStr("testnet")) == Testnet
  {
    var s := "testnet";
    assert s == ['t', 'e', 's', 't', 'n', 'e', 't'];
    ReadsAsTestnet(JsStr(s));
  }

  /** Lower-casing text that holds no upper-case letter changes nothing. */
  lemma LowerCaseUnchanged(t: string)
    requires forall c :: c in t ==> !('A' <= c <= 'Z')
    ensures ToLower(t) == t
  {
    var s := ToLower(t);
    forall i | 0 <= i < |t| ensures s[i] == t[i] {
      assert t[i] in t;
    }
  }

  /** Text without upper-case letters and without `m`, `r` and `i` holds
      none of the three keywords, so it reads as testnet. */
  lemma ReadsAsTestnet(v: JsValue)
    requires forall c :: c in ToJsString(v) ==> !('A' <= c <= 'Z') && c != 'm' && c != 'r' && c != 'i'
    ensures ToNetworkName(v) == Testnet
  {
    var t := ToJsString(v);
    var s := ToLower(t);
    LowerCaseUnchanged(t);
    assert 'm' !in s && 'r' !in s && 'i' !in s;
    ContainsShowsChars(s, "main");
    ContainsShowsChars(s, "reg");
    ContainsShowsChars(s, "sig");
    assert "main"[0] == 'm' && "reg"[0] == 'r' && "sig"[1] == 'i';
  }

  /** Every number, including the codes 0 (mainnet) and 3 (regtest) of
      `NETWORK_MAP`, is read as testnet: the two lookups disagree. */
  lemma ToNetworkNameOfNumbers(k: int)
    ensures ToNetworkName(JsNum(k)) == Testnet
    ensures ToNetworkName(JsNum(0)) != LookupNetwork(ToJsString(JsNum(0))).value
  {
    var s := ToLower(ToJsString(JsNum(k)));
    forall i | 0 <= i < |s| ensures s[i] == ToJsString(JsNum(k))[i] {
    }
    ContainsShowsPrefix(s, "main");
    ContainsShowsPrefix(s, "reg");
    ContainsShowsPrefix(s, "sig");
    assert ToJsString(JsNum(0)) == [DigitChar(0)] == "0";
    assert ToNetworkName(JsNum(0)) == Testnet by {
      var z := ToLower(ToJsString(JsNum(0)));
      ContainsShowsPrefix(z, "main");
      ContainsShowsPrefix(z, "reg");
      ContainsShowsPrefix(z, "sig");
    }
    NetworkMapContents();
  }

  /** `typeof v` for the primitives that can reach the seed type check. */
  function TypeOf(v: JsValue): string {
    match v
    case JsUndefined => "undefined"
    case JsNull => "object"
    case JsBool(_) => "boolean"
    case JsNum(_) => "number"
    case JsStr(_) => "string"
    case JsBytes(_) => "object"
    case JsObject => "object"
  }

  /** `normalizeSeedBuffer`: a falsy seed and a non-object are crypto errors; a
      byte array is returned as is; any other object is converted with
      `new Uint8Array(obj)`, which for an object without a length is empty. */
  function NormalizeSeedBuffer(seed: JsValue): (r: Result<seq<byte>>)
    ensures !Truthy(seed) ==> r == Throw(CryptoError("Failed to generate seed - seed is undefined", None))
    ensures seed.JsBytes? ==> r == Ok(seed.bytes)
    ensures r.Err? ==> r.raised.IsCrypto()
    ensures r.Ok? <==> seed.JsBytes? || seed.JsObject?
  {
    if !Truthy(seed) then Throw(CryptoError("Failed to generate seed - seed is undefined", None))
    else if seed.JsBytes? then Ok(seed.bytes)
    else if seed.JsObject? then Ok([])
    else Throw(CryptoError("Invalid seed type: " + TypeOf(seed), None))
  }
}
