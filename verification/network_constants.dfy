/** Network names, coin types, derivation constants, the string-to-network
    table and the BIP 32 version-byte table. */
module NetworkConstants {
  import opened Optional

  datatype Network = Mainnet | Testnet | Signet | Regtest

  /** The network's name as the SDK spells it. */
  function Name(n: Network): string {
    match n
    case Mainnet => "mainnet"
    case Testnet => "testnet"
    case Signet => "signet"
    case Regtest => "regtest"
  }

  lemma NameInjective(a: Network, b: Network)
    ensures Name(a) == Name(b) ==> a == b
  {
  }

  /** RGB coin types (the colored keychain) and the BIP 44 Bitcoin coin types. */
  const COIN_RGB_MAINNET: nat := 827166
  const COIN_RGB_TESTNET: nat := 827167
  const COIN_BITCOIN_MAINNET: nat := 0
  const COIN_BITCOIN_TESTNET: nat := 1

  /** BIP 86 purpose and the account index. */
  const DERIVATION_PURPOSE: nat := 86
  const DERIVATION_ACCOUNT: nat := 0

  /** `NETWORK_MAP`: numeric codes and names to networks. */
  const NETWORK_MAP: map<string, Network> := map[
    "0" := Mainnet,
    "1" := Testnet,
    "2" := Testnet,
    "3" := Regtest,
    "signet" := Signet,
    "mainnet" := Mainnet,
    "testnet" := Testnet,
    "regtest" := Regtest
  ]

  /** The eight keys of `NETWORK_MAP`, listed independently of it. */
  const NETWORK_KEYS: set<string> := {"0", "1", "2", "3", "signet", "mainnet", "testnet", "regtest"}

  /** Looking a string up in `NETWORK_MAP`. Keys JavaScript would find on
      `Object.prototype` (`constructor`, `toString`, ...) give values that are
      not networks; every caller rejects those exactly as a missing key, so
      they read as `None` here. */
  function LookupNetwork(key: string): (r: Option<Network>)
    ensures r.Some? <==> key in NETWORK_KEYS
  {
    if key in NETWORK_MAP then Some(NETWORK_MAP[key]) else None
  }

  /** The table's contents: numeric codes 0..3, the four names mapping to
      themselves, and signet reachable only by name. */
  lemma NetworkMapContents()
    ensures LookupNetwork("0") == Some(Mainnet)
    ensures LookupNetwork("1") == Some(Testnet) && LookupNetwork("2") == Some(Testnet)
    ensures LookupNetwork("3") == Some(Regtest)
    ensures forall n: Network :: LookupNetwork(Name(n)) == Some(n)
    ensures forall k :: k in NETWORK_KEYS && LookupNetwork(k) == Some(Signet) ==> k == "signet"
  {
  }

  /** Every network's own name is a key of the table and maps back to it. */
  lemma NameLookup(n: Network)
    ensures Name(n) in NETWORK_KEYS && LookupNetwork(Name(n)) == Some(n)
  {
  }

  /** A string longer than seven characters, or one starting with a capital
      letter, is not a key of the table. */
  lemma NotNetworkKeys(s: string)
    requires |s| > 7 || (s != [] && 'A' <= s[0] <= 'Z')
    ensures s !in NETWORK_KEYS && LookupNetwork(s).None?
  {
    assert forall k :: k in NETWORK_KEYS ==> |k| <= 7 && k != [] && !('A' <= k[0] <= 'Z');
  }

  /** Among strings that start with a digit or a minus sign, the keys are
      exactly the one-digit codes 0..3. */
  lemma NumericKeys(s: string)
    requires s != [] && (s[0] == '-' || '0' <= s[0] <= '9')
    ensures s in NETWORK_KEYS <==> |s| == 1 && '0' <= s[0] <= '3'
  {
    if |s| == 1 && '0' <= s[0] <= '3' {
      assert s == [s[0]];
    }
  }

  /** The coin types are pairwise distinct. */
  lemma CoinTypesDistinct()
    ensures COIN_RGB_MAINNET != COIN_RGB_TESTNET
    ensures COIN_RGB_MAINNET !in {COIN_BITCOIN_MAINNET, COIN_BITCOIN_TESTNET}
    ensures COIN_RGB_TESTNET !in {COIN_BITCOIN_MAINNET, COIN_BITCOIN_TESTNET}
    ensures COIN_BITCOIN_MAINNET != COIN_BITCOIN_TESTNET
  {
  }

  /** A (public, private) pair of BIP 32 extended-key version bytes. */
  datatype VersionPair = VersionPair(public: nat, private: nat)

  /** `BIP32_VERSIONS` */
  function Bip32Versions(n: Network): VersionPair {
    match n
    case Mainnet => VersionPair(0x0488b21e, 0x0488ade4)
    case Testnet => VersionPair(0x043587cf, 0x04358394)
    case Signet => VersionPair(0x043587cf, 0x04358394)
    case Regtest => VersionPair(0x043587cf, 0x04358394)
  }

  /** Test networks share one pair, mainnet has its own, and within every
      pair the public and private versions differ. */
  lemma VersionTableShape(a: Network, b: Network)
    ensures a != Mainnet && b != Mainnet ==> Bip32Versions(a) == Bip32Versions(b)
    ensures (a == Mainnet) != (b == Mainnet) ==> Bip32Versions(a) != Bip32Versions(b)
    ensures Bip32Versions(a).public != Bip32Versions(a).private
  {
  }
}
