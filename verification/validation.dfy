/** Input validators: each returns the validated value or throws a
    `ValidationError` naming the field. */
module Validation {
  import opened Optional
  import opened Text
  import opened Bytes
  import opened Errors
  import opened JsValues
  import opened NetworkConstants

  /** `VALID_NETWORKS` */
  const VALID_NETWORKS: seq<Network> := [Mainnet, Testnet, Signet, Regtest]

  function InvalidNetwork(network: JsValue): (e: SdkError)
    ensures Sdk(e).IsValidation() && e.field == Some("network")
  {
    ValidationError("Invalid network: " + ToJsString(network) + ". Must be one of: mainnet, testnet, signet, regtest", Some("network"))
  }

  /** `validateNetwork` followed by the lookup of `normalizeNetwork`:
      `String(network)` must be a key of `NETWORK_MAP`. */
  function NormalizeNetwork(network: JsValue): (r: Result<Network>)
    ensures r.Ok? <==> ToJsString(network) in NETWORK_KEYS
    ensures r.Ok? ==> r.value in VALID_NETWORKS && LookupNetwork(ToJsString(network)) == Some(r.value)
    ensures r.Err? ==> r == Throw(InvalidNetwork(network))
  {
    match LookupNetwork(ToJsString(network))
    case None => Throw(InvalidNetwork(network))
    case Some(n) => if n in VALID_NETWORKS then Ok(n) else Throw(InvalidNetwork(network))
  }

  /** A number normalises exactly when it is one of the codes 0..3. */
  lemma {:induction false} NumericNetworkCodes(n: int)
    ensures NormalizeNetwork(JsNum(n)).Ok? <==> 0 <= n <= 3
    ensures NormalizeNetwork(JsNum(0)) == Ok(Mainnet)
    ensures NormalizeNetwork(JsNum(3)) == Ok(Regtest)
  {
    var s := IntToString(n);
    assert IsDigit(s[0]) || s[0] == '-';
    NumericKeys(s);
    if n < 0 {
      assert s[0] == '-';
    } else if n >= 10 {
      assert |s| >= 2;
    } else {
      assert s == [DigitChar(n)];
    }
    assert ToJsString(JsNum(0)) == [DigitChar(0)] == "0";
    assert ToJsString(JsNum(3)) == [DigitChar(3)] == "3";
    NetworkMapContents();
  }

  /** Normalising a normalised network changes nothing. */
  lemma NormalizeNetworkIdempotent(network: JsValue)
    requires NormalizeNetwork(network).Ok?
    ensures NormalizeNetwork(JsStr(Name(NormalizeNetwork(network).value))) == NormalizeNetwork(network)
  {
    NameLookup(NormalizeNetwork(network).value);
  }

  /** `s.split(/\s+/)`: the pieces between maximal runs of white space
      (a leading or trailing run yields an empty piece, as in JavaScript). */
  function SplitOnSpaceRuns(s: string): (r: seq<string>)
    ensures |r| >= 1
    decreases |s|
  {
    if FirstSpace(s) == |s| then [s]
    else [s[..FirstSpace(s)]] + SplitOnSpaceRuns(NextWord(s))
  }

  /** What follows the first run of white space. */
  function NextWord(s: string): (r: string)
    requires FirstSpace(s) < |s|
    ensures |r| < |s|
  {
    s[SpaceRunEnd(s, FirstSpace(s))..]
  }

  /** Index of the first white-space character, or `|s|`. */
  function FirstSpace(s: string): (i: nat)
    ensures i <= |s|
    ensures forall k :: 0 <= k < i ==> !IsSpace(s[k])
    ensures i < |s| ==> IsSpace(s[i])
  {
    FirstSpaceFrom(s, 0)
  }

  /** Index of the first white-space character at or after `i`, or `|s|`. */
  function FirstSpaceFrom(s: string, i: nat): (r: nat)
    requires i <= |s|
    ensures i <= r <= |s|
    ensures forall k :: i <= k < r ==> !IsSpace(s[k])
    ensures r < |s| ==> IsSpace(s[r])
    decreases |s| - i
  {
    if i == |s| || IsSpace(s[i]) then i else FirstSpaceFrom(s, i + 1)
  }

  /** End of the run of white space starting at `i`: the first
      non-space index at or after `i`, or `|s|`. */
  function SpaceRunEnd(s: string, i: nat): (r: nat)
    requires i <= |s|
    ensures i <= r <= |s|
    ensures forall k :: i <= k < r ==> IsSpace(s[k])
    ensures r < |s| ==> !IsSpace(s[r])
    decreases |s| - i
  {
    if i == |s| || !IsSpace(s[i]) then i else SpaceRunEnd(s, i + 1)
  }

  /** Number of words, counted independently of any splitting: positions
      holding a non-space character right after a space (or at the start,
      when `afterSpace` says the text is preceded by a space). */
  function WordCount(s: string, afterSpace: bool): nat {
    if s == [] then 0
    else (if afterSpace && !IsSpace(s[0]) then 1 else 0) + WordCount(s[1..], IsSpace(s[0]))
  }

  lemma {:induction false} WordCountOverWord(w: string, rest: string, afterSpace: bool)
    requires w != [] && forall k :: 0 <= k < |w| ==> !IsSpace(w[k])
    ensures WordCount(w + rest, afterSpace) == (if afterSpace then 1 else 0) + WordCount(rest, false)
    decreases |w|
  {
    assert (w + rest)[0] == w[0];
    assert (w + rest)[1..] == w[1..] + rest;
    if |w| > 1 {
      WordCountOverWord(w[1..], rest, false);
    } else {
      assert w[1..] + rest == rest;
    }
  }

  lemma {:induction false} WordCountOverSpaces(sp: string, rest: string, afterSpace: bool)
    requires sp != [] && AllSpace(sp)
    ensures WordCount(sp + rest, afterSpace) == WordCount(rest, true)
    decreases |sp|
  {
    assert (sp + rest)[0] == sp[0];
    assert (sp + rest)[1..] == sp[1..] + rest;
    if |sp| > 1 {
      WordCountOverSpaces(sp[1..], rest, true);
    } else {
      assert sp[1..] + rest == rest;
    }
  }

  /** On trimmed non-empty text, `split(/\s+/)` yields one piece per word,
      and no piece is empty. */
  lemma {:induction false} SplitCountsWords(s: string)
    requires s != [] && IsTrimmed(s)
    ensures |SplitOnSpaceRuns(s)| == WordCount(s, true)
    ensures forall k :: 0 <= k < |SplitOnSpaceRuns(s)| ==> SplitOnSpaceRuns(s)[k] != []
    decreases |s|
  {
    if FirstSpace(s) == |s| {
      WordCountOverWord(s, [], true);
      assert s + [] == s;
    } else {
      SplitStep(s);
      SplitCountsWords(NextWord(s));
    }
  }

  /** One step of the split on trimmed text that holds a space: the first
      word is a non-empty piece and counts as one word, and the rest is
      trimmed and non-empty. */
  lemma SplitStep(s: string)
    requires s != [] && IsTrimmed(s) && FirstSpace(s) < |s|
    ensures FirstSpace(s) > 0 && NextWord(s) != [] && IsTrimmed(NextWord(s))
    ensures WordCount(s, true) == 1 + WordCount(NextWord(s), true)
  {
    var i := FirstSpace(s);
    var j := SpaceRunEnd(s, i);
    SpaceRunBounds(s, i, j);
    WordThenSpaces(s, i, j, NextWord(s));
  }

  /** Trimmed text holding a space: a non-empty word, a run of spaces, and
      a trimmed, non-empty rest, which is what `NextWord` returns. */
  lemma SpaceRunBounds(s: string, i: nat, j: nat)
    requires s != [] && IsTrimmed(s) && i == FirstSpace(s) < |s|
    requires j == SpaceRunEnd(s, i)
    ensures 0 < i < j < |s| && IsTrimmed(s[j..]) && NextWord(s) == s[j..]
    ensures (forall k :: 0 <= k < i ==> !IsSpace(s[k])) && (forall k :: i <= k < j ==> IsSpace(s[k]))
  {
    assert s[j..][0] == s[j];
    assert s[j..][|s| - j - 1] == s[|s| - 1];
  }

  /** A word, then a run of spaces: one word, then whatever follows. */
  lemma WordThenSpaces(s: string, i: nat, j: nat, rest: string)
    requires 0 < i < j <= |s| && rest == s[j..]
    requires forall k :: 0 <= k < i ==> !IsSpace(s[k])
    requires forall k :: i <= k < j ==> IsSpace(s[k])
    ensures WordCount(s, true) == 1 + WordCount(rest, true)
  {
    var w, sp := s[..i], s[i..j];
    assert AllSpace(sp);
    SliceThree(s, i, j);
    WordCountOverWord(w, sp + rest, true);
    assert w + sp + rest == w + (sp + rest);
    WordCountOverSpaces(sp, rest, false);
  }

  function NonEmptyStringError(field: string): SdkError {
    ValidationError(field + " must be a non-empty string", Some(field))
  }

  /** `validateMnemonic`: a string whose trimmed text has 12 or 24
      white-space separated words; the words themselves are not checked. */
  function ValidateMnemonic(mnemonic: JsValue, field: string): (r: Result<string>)
    ensures r.Ok? <==> mnemonic.JsStr? && Trim(mnemonic.s) != [] && WordCount(Trim(mnemonic.s), true) in {12, 24}
    ensures r.Ok? ==> r.value == mnemonic.s
    ensures r.Err? ==> r.raised.IsValidation() && r.raised.err.field == Some(field)
  {
    if !Truthy(mnemonic) || !mnemonic.JsStr? || |Trim(mnemonic.s)| == 0 then
      Throw(NonEmptyStringError(field))
    else
      var words := SplitOnSpaceRuns(Trim(mnemonic.s));
      SplitCountsWords(Trim(mnemonic.s));
      if |words| != 12 && |words| != 24 then
        Throw(ValidationError(field + " must be 12 or 24 words, got " + NatToString(|words|) + " words", Some(field)))
      else
        Ok(mnemonic.s)
  }

  predicate IsBase64Char(c: char) {
    ('A' <= c <= 'Z') || ('a' <= c <= 'z') || ('0' <= c <= '9') || c == '+' || c == '/' || c == '='
  }

  /** `validateBase64`: a string whose trimmed text is non-empty and drawn from
      `[A-Za-z0-9+/=]`. Padding position is not checked, and Node's base64
      decoding of a string never throws, so the last check cannot fire. */
  function ValidateBase64(data: JsValue, field: string): (r: Result<string>)
    ensures r.Ok? <==> data.JsStr? && Trim(data.s) != [] && forall k :: 0 <= k < |Trim(data.s)| ==> IsBase64Char(Trim(data.s)[k])
    ensures r.Ok? ==> r.value == data.s
    ensures r.Err? ==> r.raised.IsValidation() && r.raised.err.field == Some(field)
  {
    if !Truthy(data) || !data.JsStr? || |Trim(data.s)| == 0 then
      Throw(NonEmptyStringError(field))
    else if !(forall k :: 0 <= k < |Trim(data.s)| ==> IsBase64Char(Trim(data.s)[k])) then
      Throw(ValidationError("Invalid base64 format for " + field, Some(field)))
    else
      Ok(data.s)
  }

  /** `validatePsbt`: valid base64 text of at least 50 characters once trimmed. */
  function ValidatePsbt(psbt: JsValue, field: string): (r: Result<string>)
    ensures r.Ok? <==> ValidateBase64(psbt, field).Ok? && |Trim(psbt.s)| >= 50
    ensures r.Ok? ==> r.value == psbt.s
    ensures r.Err? ==> r.raised.IsValidation() && r.raised.err.field == Some(field)
  {
    var s :- ValidateBase64(psbt, field);
    if |Trim(ToJsString(psbt))| < 50 then
      Throw(ValidationError(field + " appears to be too short to be a valid PSBT", Some(field)))
    else
      Ok(s)
  }

  /** `validateHex`: non-empty hex digits once trimmed, of any length parity. */
  function ValidateHex(hex: JsValue, field: string): (r: Result<string>)
    ensures r.Ok? <==> hex.JsStr? && Trim(hex.s) != [] && AllHex(Trim(hex.s))
    ensures r.Ok? ==> r.value == hex.s
    ensures r.Err? ==> r.raised.IsValidation() && r.raised.err.field == Some(field)
  {
    if !Truthy(hex) || !hex.JsStr? || |Trim(hex.s)| == 0 then
      Throw(NonEmptyStringError(field))
    else if !AllHex(Trim(hex.s)) then
      Throw(ValidationError("Invalid hex format for " + field, Some(field)))
    else
      Ok(hex.s)
  }

  /** `validateRequired`: only `null` and `undefined` are refused. */
  function ValidateRequired(value: JsValue, field: string): (r: Result<JsValue>)
    ensures r.Ok? <==> value != JsNull && value != JsUndefined
    ensures r.Ok? ==> r.value == value
    ensures r.Err? ==> r.raised.IsValidation() && r.raised.err.field == Some(field)
  {
    if value == JsNull || value == JsUndefined then
      Throw(ValidationError(field + " is required", Some(field)))
    else
      Ok(value)
  }

  /** `validateString`: a string that is not all white space. */
  function ValidateString(value: JsValue, field: string): (r: Result<string>)
    ensures r.Ok? <==> value.JsStr? && !AllSpace(value.s)
    ensures r.Ok? ==> r.value == value.s
    ensures r.Err? ==> r.raised.IsValidation() && r.raised.err.field == Some(field)
  {
    if !value.JsStr? || |Trim(value.s)| == 0 then
      Throw(NonEmptyStringError(field))
    else
      Ok(value.s)
  }

  /** Falsy values other than `null`/`undefined` pass `validateRequired`
      but not `validateString`. */
  lemma RequiredIsWeakerThanString()
    ensures ValidateRequired(JsStr(""), "f").Ok? && ValidateString(JsStr(""), "f").Err?
    ensures ValidateRequired(JsNum(0), "f").Ok? && ValidateString(JsNum(0), "f").Err?
  {
  }

  /** The base64 check is on characters only: misplaced padding passes. */
  lemma Base64IgnoresPadding()
    ensures ValidateBase64(JsStr("=AB="), "data").Ok?
  {
    assert Trim("=AB=") == "=AB=" by { TrimOfTrimmed("=AB="); }
  }
}
