/** The deprecated `normalizeNetwork` and the `isNetwork` type guard. */
module NetworkUtils {
  import opened Optional
  import opened Errors
  import opened JsValues
  import opened NetworkConstants
  import Validation

  /** The deprecated `normalizeNetwork`: validate, then look the string up. */
  function NormalizeNetworkDeprecated(network: JsValue): (r: Result<Network>)
    ensures r == Validation.NormalizeNetwork(network)
  {
    var _ :- Validation.NormalizeNetwork(network);
    match LookupNetwork(ToJsString(network))
    case Some(n) => Ok(n)
    case None => Throw(Validation.InvalidNetwork(network))
  }

  /** `isNetwork`: only strings, and exactly the keys of `NETWORK_MAP`, so the
      numeric codes written as strings count as networks too. */
  predicate IsNetwork(value: JsValue) {
    value.JsStr? && LookupNetwork(value.s).Some?
  }

  /** `isNetwork` accepts a value exactly when it is a string that the
      validating `normalizeNetwork` accepts; numbers never pass. */
  lemma IsNetworkMatchesNormalize(value: JsValue)
    ensures IsNetwork(value) <==> value.JsStr? && Validation.NormalizeNetwork(value).Ok?
    ensures IsNetwork(JsStr("0")) && IsNetwork(JsStr("signet"))
    ensures !IsNetwork(JsNum(0)) && !IsNetwork(JsStr("Mainnet")) && !IsNetwork(JsStr("testnet4"))
  {
    IsNetworkExamples();
  }

  /** A numeric code written as a string and a name pass; a number, a
      capitalised name and an unknown name do not. */
  lemma IsNetworkExamples()
    ensures IsNetwork(JsStr("0")) && IsNetwork(JsStr("signet"))
    ensures !IsNetwork(JsNum(0)) && !IsNetwork(JsStr("Mainnet")) && !IsNetwork(JsStr("testnet4"))
  {
    NetworkMapContents();
    NotNetworkKeys("Mainnet");
    NotNetworkKeys("testnet4");
  }
}
