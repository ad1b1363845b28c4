/** `WalletManager`: a wallet's keys and signing material, its disposal, the
    choice of signing material, and the begin, sign, end operations against
    the RGB engine. The state is an immutable record and every method a
    function from state to result; the caller's seed array lives in a heap of
    byte buffers, so that disposal zero-filling it is visible to the caller. */
module WalletManager {
  import opened Optional
  import opened Bytes
  import opened Errors
  import opened JsValues
  import opened NetworkConstants
  import opened Validation
  import opened Dependencies
  import Signer

  // ---------------------------------------------------------------------
  // Buffers and state

  /** A reference to a `Uint8Array` the caller also holds. */
  type BufRef = nat

  /** The contents of every referenced array. */
  type Heap = map<BufRef, seq<byte>>

  datatype ManagerState = ManagerState(
    xpubVan: string,
    xpubCol: string,
    xpub: Option<string>,
    mnemonic: Option<string>,
    seed: Option<BufRef>,
    network: Network,
    engineNetwork: Network,
    disposed: bool,
    indexerUrl: string,
    transportEndpoint: string)

  /** The stored seed reference points at an array, and a disposed wallet
      holds no mnemonic. */
  predicate Valid(st: ManagerState, heap: Heap) {
    (st.seed.Some? ==> st.seed.value in heap) && (st.disposed ==> st.mnemonic.None?)
  }

  /** `WalletInitParams`; `None` is an absent (or `null`) property. */
  datatype InitParams = InitParams(
    xpubVan: string,
    xpubCol: string,
    mnemonic: Option<string>,
    seed: Option<BufRef>,
    network: JsValue,
    xpub: Option<string>,
    masterFingerprint: string,
    transportEndpoint: Option<string>)

  const DEFAULT_TRANSPORT_ENDPOINT: string := "rpcs://proxy.iriswallet.com/0.2/json-rpc"

  /** `defaultIndexerUrls` on the networks `normalizeNetwork` can return. */
  function DefaultIndexerUrl(n: Network): string {
    match n
    case Mainnet => "ssl://electrum.iriswallet.com:50003"
    case Testnet => "ssl://electrum.iriswallet.com:50013"
    case Signet => "tcp://46.224.75.237:50001"
    case Regtest => "tcp://regtest.thunderstack.org:50001"
  }

  /** The constructor: the three required strings in order, then the network
      (`regtest` when absent), which must normalise. The engine is always
      opened on regtest, whatever the network. */
  function New(params: InitParams): (r: Result<ManagerState>)
    ensures params.xpubVan == "" ==> r == Throw(Required("xpubVan"))
    ensures params.xpubVan != "" && params.xpubCol == "" ==> r == Throw(Required("xpubCol"))
    ensures (params.xpubVan != "" && params.xpubCol != "" && params.masterFingerprint == "") ==>
      r == Throw(Required("masterFingerprint"))
    ensures r.Err? ==> r.raised.IsValidation()
    ensures r.Ok? <==>
      params.xpubVan != "" && params.xpubCol != "" && params.masterFingerprint != "" &&
      NormalizeNetwork(OrDefault(params.network, JsStr("regtest"))).Ok?
    ensures r.Ok? ==>
      && r.value.network == NormalizeNetwork(OrDefault(params.network, JsStr("regtest"))).value
      && r.value.engineNetwork == Regtest
      && !r.value.disposed
      && r.value.xpubVan == params.xpubVan && r.value.xpubCol == params.xpubCol
      && r.value.mnemonic == params.mnemonic && r.value.seed == params.seed
      && r.value.indexerUrl == DefaultIndexerUrl(r.value.network)
      && r.value.transportEndpoint != ""
    ensures r.Ok? && params.transportEndpoint.Some? && params.transportEndpoint.value != "" ==>
      r.value.transportEndpoint == params.transportEndpoint.value
    ensures r.Ok? && (params.transportEndpoint.None? || params.transportEndpoint.value == "") ==>
      r.value.transportEndpoint == DEFAULT_TRANSPORT_ENDPOINT
    ensures r.Ok? ==> forall heap: Heap :: (params.seed.Some? ==> params.seed.value in heap) ==> Valid(r.value, heap)
  {
    if params.xpubVan == "" then Throw(Required("xpubVan"))
    else if params.xpubCol == "" then Throw(Required("xpubCol"))
    else if params.masterFingerprint == "" then
      Throw(Required("masterFingerprint"))
    else
      var n :- NormalizeNetwork(OrDefault(params.network, JsStr("regtest")));
      var transport := if params.transportEndpoint.Some? && params.transportEndpoint.value != ""
        then params.transportEndpoint.value else DEFAULT_TRANSPORT_ENDPOINT;
      Ok(ManagerState(params.xpubVan, params.xpubCol, params.xpub, params.mnemonic, params.seed,
        n, Regtest, false, DefaultIndexerUrl(n), transport))
  }

  // ---------------------------------------------------------------------
  // Disposal

  /** Zeros of a given length. */
  function Zeros(n: nat): (z: seq<byte>)
    ensures |z| == n && forall k :: 0 <= k < n ==> z[k] == 0
  {
    seq(n, _ => 0)
  }

  /** `dispose`: forget the mnemonic; zero-fill a non-empty seed in place
      (the caller's array) and forget it; mark the wallet disposed. An empty
      seed array stays referenced. A disposed wallet is left as it is. */
  function Dispose(st: ManagerState, heap: Heap): (res: (ManagerState, Heap))
    requires Valid(st, heap)
    ensures Valid(res.0, res.1)
    ensures res.0.disposed && res.0.mnemonic.None?
    ensures st.disposed ==> res == (st, heap)
    ensures !st.disposed && st.seed.Some? && |heap[st.seed.value]| > 0 ==>
      res.0.seed.None? && res.1 == heap[st.seed.value := Zeros(|heap[st.seed.value]|)]
    ensures !st.disposed && (st.seed.None? || |heap[st.seed.value]| == 0) ==>
      res.0.seed == st.seed && res.1 == heap
    ensures res.0 == st.(mnemonic := res.0.mnemonic, seed := res.0.seed, disposed := true)
  {
    if st.disposed then (st, heap)
    else
      var st1 := st.(mnemonic := None);
      if st1.seed.Some? && |heap[st1.seed.value]| > 0 then
        var ref := st1.seed.value;
        (st1.(seed := None, disposed := true), heap[ref := Zeros(|heap[ref]|)])
      else
        (st1.(disposed := true), heap)
  }

  /** Disposing twice is disposing once. */
  lemma DisposeIdempotent(st: ManagerState, heap: Heap)
    requires Valid(st, heap)
    ensures var once := Dispose(st, heap); Dispose(once.0, once.1) == once
  {
  }

  /** Disposal touches no buffer but the wallet's own seed. */
  lemma DisposeTouchesOnlyTheSeed(st: ManagerState, heap: Heap, other: BufRef)
    requires Valid(st, heap)
    requires other in heap && st.seed != Some(other)
    ensures var after := Dispose(st, heap).1; other in after && after[other] == heap[other]
  {
  }

  const DISPOSED_MESSAGE: string := "Wallet has been disposed"

  const NO_SEED_FOR_SIGNING: string := "Wallet seed is required for message signing. Initialize the wallet with a seed."

  /** The validation error for a missing required parameter. */
  function Required(field: string): (e: SdkError)
    ensures Sdk(e).IsValidation() && e.field == Some(field)
    ensures e.message == field + " is required"
  {
    ValidationError(field + " is required", Some(field))
  }

  /** `ensureNotDisposed` */
  function EnsureNotDisposed(st: ManagerState): (r: Result<()>)
    ensures r.Ok? <==> !st.disposed
    ensures r.Err? ==> r == Throw(WalletError(DISPOSED_MESSAGE, None, None)) && r.raised.IsWallet()
  {
    if st.disposed then Throw(WalletError(DISPOSED_MESSAGE, None, None)) else Ok(())
  }

  // ---------------------------------------------------------------------
  // The engine

  /** `createUtxosBegin`'s arguments. */
  datatype CreateUtxosArgs = CreateUtxosArgs(upTo: bool, num: Option<nat>, size: Option<nat>, feeRate: nat, skipSync: bool)

  /** `witnessData` of a send recipient. */
  datatype WitnessData = WitnessData(amountSat: nat, blinding: Option<nat>)

  /** What `decodeInvoice` reports about an invoice. */
  datatype InvoiceData = InvoiceData(recipientId: string, assignment: string, transportEndpoints: seq<string>)

  datatype Recipient = Recipient(recipientId: string, witnessData: Option<WitnessData>, assignment: string, transportEndpoints: seq<string>)

  /** `sendBegin`'s arguments. */
  datatype SendArgs = SendArgs(recipientMap: map<string, seq<Recipient>>, donation: bool, feeRate: nat, minConfirmations: nat)

  /** The RGB engine (rgb-lib behind the native bridge), one call each. */
  datatype Engine = Engine(
    sendBtcBegin: (string, nat, nat, bool) -> LibResult<string>,
    sendBtcEnd: (string, bool) -> LibResult<string>,
    createUtxosBegin: CreateUtxosArgs -> LibResult<string>,
    createUtxosEnd: (string, bool) -> LibResult<nat>,
    decodeInvoice: string -> LibResult<InvoiceData>,
    sendBegin: SendArgs -> LibResult<string>,
    sendEnd: (string, bool) -> LibResult<string>,
    inflateBegin: (string, seq<nat>, nat, nat) -> LibResult<string>,
    inflateEnd: string -> LibResult<string>,
    getFeeEstimation: nat -> LibResult<string>,
    generateKeys: Network -> LibResult<string>,
    restoreBackup: (string, string) -> LibResult<()>)

  /** Everything the manager calls out to. */
  datatype Env = Env(libs: Libraries, bdk: Signer.Bdk, engine: Engine)

  // ---------------------------------------------------------------------
  // Signing material

  const NO_MNEMONIC: string := "mnemonic is required. Provide it as parameter or initialize wallet with mnemonic."

  /** `signPsbt`: the explicit mnemonic unless it is absent, else the stored
      one; a non-empty mnemonic signs, else a stored seed goes to the
      seed-based signer, else there is nothing to sign with. */
  function SignPsbt(st: ManagerState, env: Env, psbt: string, mnemonic: Option<string>): (r: Result<string>)
    ensures st.disposed ==> r == Throw(WalletError(DISPOSED_MESSAGE, None, None))
    ensures !st.disposed && mnemonic.Some? && mnemonic.value != "" ==>
      r == Signer.SignPsbt(env.bdk, env.libs.prims.base64Decode, JsStr(mnemonic.value), JsStr(psbt), JsStr(Name(st.network)))
    ensures !st.disposed && mnemonic.None? && st.mnemonic.Some? && st.mnemonic.value != "" ==>
      r == Signer.SignPsbt(env.bdk, env.libs.prims.base64Decode, JsStr(st.mnemonic.value), JsStr(psbt), JsStr(Name(st.network)))
    ensures !st.disposed && mnemonic.GetOr(st.mnemonic.GetOr("")) == "" && st.seed.Some? ==> r.Err? && r.raised.IsCrypto()
    ensures !st.disposed && mnemonic.GetOr(st.mnemonic.GetOr("")) == "" && st.seed.None? ==>
      r == Throw(WalletError(NO_MNEMONIC, None, None))
  {
    var _ :- EnsureNotDisposed(st);
    var toUse := if mnemonic.Some? then mnemonic else st.mnemonic;
    if toUse.Some? && toUse.value != "" then
      Signer.SignPsbt(env.bdk, env.libs.prims.base64Decode, JsStr(toUse.value), JsStr(psbt), JsStr(Name(st.network)))
    else if st.seed.Some? then
      Signer.SignPsbtFromSeed(JsObject, JsStr(psbt), JsStr(Name(st.network)))
    else
      Throw(WalletError(NO_MNEMONIC, None, None))
  }

  /** An explicit empty mnemonic is not absent: it hides the stored mnemonic,
      and signing falls through to the seed or fails. */
  lemma EmptyExplicitMnemonicHidesStored(st: ManagerState, env: Env, psbt: string)
    requires !st.disposed && st.seed.None?
    ensures SignPsbt(st, env, psbt, Some("")) == Throw(WalletError(NO_MNEMONIC, None, None))
  {
  }

  // ---------------------------------------------------------------------
  // begin, sign, end

  datatype Stage = Begin | Sign | End

  /** The result and the stages entered, in order. */
  datatype FlowOutcome<R> = FlowOutcome(result: Result<R>, entered: seq<Stage>)

  /** The composite operations: the disposal guard, then begin, sign and end,
      each fed the previous one's output; the first failure stops the chain. */
  function BeginSignEnd<R>(st: ManagerState, begin: () -> Result<string>, sign: string -> Result<string>,
                           end: string -> Result<R>): (o: FlowOutcome<R>)
    ensures st.disposed <==> o.entered == []
    ensures st.disposed ==> o.result == Throw(WalletError(DISPOSED_MESSAGE, None, None))
    ensures o.entered in {[], [Begin], [Begin, Sign], [Begin, Sign, End]}
    ensures o.result.Ok? ==> o.entered == [Begin, Sign, End]
    ensures |o.entered| >= 2 ==> begin().Ok?
    ensures |o.entered| == 3 ==> sign(begin().value).Ok? && o.result == end(sign(begin().value).value)
    ensures |o.entered| == 1 ==> o.result.Err? && begin().Err? && o.result.raised == begin().raised
    ensures |o.entered| == 2 ==> o.result.Err? && sign(begin().value).Err? && o.result.raised == sign(begin().value).raised
  {
    if st.disposed then FlowOutcome(Throw(WalletError(DISPOSED_MESSAGE, None, None)), [])
    else match begin()
      case Err(e) => FlowOutcome(Err(e), [Begin])
      case Ok(psbt) =>
        match sign(psbt)
        case Err(e) => FlowOutcome(Err(e), [Begin, Sign])
        case Ok(signed) => FlowOutcome(end(signed), [Begin, Sign, End])
  }

  /** `createUtxosBegin`'s defaults: up to the target, no count or size,
      fee rate 1, never skipping sync. */
  function CreateUtxosBeginArgs(upTo: Option<bool>, num: Option<nat>, size: Option<nat>, feeRate: Option<nat>): (a: CreateUtxosArgs)
    ensures a.upTo == upTo.GetOr(true) && a.num == num && a.size == size
    ensures a.feeRate == feeRate.GetOr(1) && !a.skipSync
  {
    CreateUtxosArgs(upTo.GetOr(true), num, size, feeRate.GetOr(1), false)
  }

  /** `sendBtc`: begin with fee rate 1 and sync by default, sign with the
      stored mnemonic, end without skipping sync. */
  function SendBtc(st: ManagerState, env: Env, address: string, amount: nat, feeRate: Option<nat>, skipSync: Option<bool>): (o: FlowOutcome<string>)
    ensures st.disposed <==> o.entered == []
    ensures st.disposed ==> o.result == Throw(WalletError(DISPOSED_MESSAGE, None, None))
    ensures var b := env.engine.sendBtcBegin(address, amount, feeRate.GetOr(1), skipSync.GetOr(false));
      !st.disposed && b.Failed? ==> o.entered == [Begin] && o.result == Err(Foreign(b.message))
    ensures o.result.Ok? ==>
      var b := env.engine.sendBtcBegin(address, amount, feeRate.GetOr(1), skipSync.GetOr(false));
      b.Done? && SignPsbt(st, env, b.value, None).Ok? &&
      env.engine.sendBtcEnd(SignPsbt(st, env, b.value, None).value, false) == Done(o.result.value)
  {
    var begin := () => env.engine.sendBtcBegin(address, amount, feeRate.GetOr(1), skipSync.GetOr(false)).Lift();
    var sign := psbt => SignPsbt(st, env, psbt, None);
    assert begin() == env.engine.sendBtcBegin(address, amount, feeRate.GetOr(1), skipSync.GetOr(false)).Lift();
    assert begin().Ok? ==> sign(begin().value) == SignPsbt(st, env, begin().value, None);
    BeginSignEnd(st, begin, sign, signed => env.engine.sendBtcEnd(signed, false).Lift())
  }

  /** `createUtxos`: begin with `createUtxosBegin`'s defaults, sign with the
      stored mnemonic, end without skipping sync; the result is the count. */
  function CreateUtxos(st: ManagerState, env: Env, upTo: Option<bool>, num: Option<nat>, size: Option<nat>, feeRate: Option<nat>): (o: FlowOutcome<nat>)
    ensures st.disposed <==> o.entered == []
    ensures st.disposed ==> o.result == Throw(WalletError(DISPOSED_MESSAGE, None, None))
    ensures var b := env.engine.createUtxosBegin(CreateUtxosBeginArgs(upTo, num, size, feeRate));
      !st.disposed && b.Failed? ==> o.entered == [Begin] && o.result == Err(Foreign(b.message))
    ensures o.result.Ok? ==>
      var b := env.engine.createUtxosBegin(CreateUtxosBeginArgs(upTo, num, size, feeRate));
      b.Done? && SignPsbt(st, env, b.value, None).Ok? &&
      env.engine.createUtxosEnd(SignPsbt(st, env, b.value, None).value, false) == Done(o.result.value)
  {
    var begin := () => env.engine.createUtxosBegin(CreateUtxosBeginArgs(upTo, num, size, feeRate)).Lift();
    var sign := psbt => SignPsbt(st, env, psbt, None);
    assert begin() == env.engine.createUtxosBegin(CreateUtxosBeginArgs(upTo, num, size, feeRate)).Lift();
    assert begin().Ok? ==> sign(begin().value) == SignPsbt(st, env, begin().value, None);
    BeginSignEnd(st, begin, sign, signed => env.engine.createUtxosEnd(signed, false).Lift())
  }

  /** A `send` request. */
  datatype SendParams = SendParams(invoice: string, assetId: string, witnessData: Option<WitnessData>,
                                   feeRate: Option<nat>, minConfirmations: Option<nat>)

  /** The recipient map and defaults `sendBegin` builds: one recipient under
      the asset id, witness data only for a non-zero amount (a zero blinding
      reads as none), no donation, fee rate and confirmations defaulting to 1. */
  function SendBeginArgs(params: SendParams, invoice: InvoiceData): (a: SendArgs)
    ensures a.recipientMap.Keys == {params.assetId} && |a.recipientMap[params.assetId]| == 1
    ensures var rec := a.recipientMap[params.assetId][0];
      && rec.recipientId == invoice.recipientId && rec.assignment == invoice.assignment
      && rec.transportEndpoints == invoice.transportEndpoints
      && (rec.witnessData.Some? <==> params.witnessData.Some? && params.witnessData.value.amountSat != 0)
      && (rec.witnessData.Some? ==> rec.witnessData.value.amountSat == params.witnessData.value.amountSat)
      && (rec.witnessData.Some? ==> (rec.witnessData.value.blinding.Some? <==> params.witnessData.value.blinding.GetOr(0) != 0))
    ensures !a.donation && a.feeRate == params.feeRate.GetOr(1) && a.minConfirmations == params.minConfirmations.GetOr(1)
  {
    var wd :=
      if params.witnessData.Some? && params.witnessData.value.amountSat != 0 then
        var w := params.witnessData.value;
        Some(WitnessData(w.amountSat, if w.blinding.GetOr(0) != 0 then w.blinding else None))
      else None;
    var rec := Recipient(invoice.recipientId, wd, invoice.assignment, invoice.transportEndpoints);
    SendArgs(map[params.assetId := [rec]], false, params.feeRate.GetOr(1), params.minConfirmations.GetOr(1))
  }

  /** `sendBegin`: the asset id is required; the invoice is decoded before
      the engine is asked. */
  function SendBegin(env: Env, params: SendParams): (r: Result<string>)
    ensures params.assetId == "" ==> r == Throw(ValidationError("asset_id is required for send operation", Some("asset_id")))
    ensures r.Ok? ==>
      params.assetId != "" && env.engine.decodeInvoice(params.invoice).Done? &&
      env.engine.sendBegin(SendBeginArgs(params, env.engine.decodeInvoice(params.invoice).value)) == Done(r.value)
  {
    if params.assetId == "" then Throw(ValidationError("asset_id is required for send operation", Some("asset_id")))
    else
      var invoice :- env.engine.decodeInvoice(params.invoice).Lift();
      env.engine.sendBegin(SendBeginArgs(params, invoice)).Lift()
  }

  /** `send`: `sendBegin`, signing with the given mnemonic or the stored
      one, then `sendEnd` without skipping sync. */
  function Send(st: ManagerState, env: Env, params: SendParams, mnemonic: Option<string>): (o: FlowOutcome<string>)
    ensures st.disposed <==> o.entered == []
    ensures st.disposed ==> o.result == Throw(WalletError(DISPOSED_MESSAGE, None, None))
    ensures !st.disposed && SendBegin(env, params).Err? ==> o.entered == [Begin] && o.result == SendBegin(env, params)
    ensures o.result.Ok? ==>
      SendBegin(env, params).Ok? && SignPsbt(st, env, SendBegin(env, params).value, mnemonic).Ok? &&
      env.engine.sendEnd(SignPsbt(st, env, SendBegin(env, params).value, mnemonic).value, false) == Done(o.result.value)
  {
    var begin := () => SendBegin(env, params);
    var sign := psbt => SignPsbt(st, env, psbt, mnemonic);
    assert begin() == SendBegin(env, params);
    assert begin().Ok? ==> sign(begin().value) == SignPsbt(st, env, begin().value, mnemonic);
    BeginSignEnd(st, begin, sign, signed => env.engine.sendEnd(signed, false).Lift())
  }

  /** `inflate`: begin with fee rate and confirmations defaulting to 1, sign
      with the given mnemonic or the stored one, then `inflateEnd`. */
  function Inflate(st: ManagerState, env: Env, assetId: string, amounts: seq<nat>, feeRate: Option<nat>,
                   minConfirmations: Option<nat>, mnemonic: Option<string>): (o: FlowOutcome<string>)
    ensures st.disposed <==> o.entered == []
    ensures st.disposed ==> o.result == Throw(WalletError(DISPOSED_MESSAGE, None, None))
    ensures var b := env.engine.inflateBegin(assetId, amounts, feeRate.GetOr(1), minConfirmations.GetOr(1));
      !st.disposed && b.Failed? ==> o.entered == [Begin] && o.result == Err(Foreign(b.message))
    ensures o.result.Ok? ==>
      var b := env.engine.inflateBegin(assetId, amounts, feeRate.GetOr(1), minConfirmations.GetOr(1));
      b.Done? && SignPsbt(st, env, b.value, mnemonic).Ok? &&
      env.engine.inflateEnd(SignPsbt(st, env, b.value, mnemonic).value) == Done(o.result.value)
  {
    var begin := () => env.engine.inflateBegin(assetId, amounts, feeRate.GetOr(1), minConfirmations.GetOr(1)).Lift();
    var sign := psbt => SignPsbt(st, env, psbt, mnemonic);
    assert begin() == env.engine.inflateBegin(assetId, amounts, feeRate.GetOr(1), minConfirmations.GetOr(1)).Lift();
    assert begin().Ok? ==> sign(begin().value) == SignPsbt(st, env, begin().value, mnemonic);
    BeginSignEnd(st, begin, sign, signed => env.engine.inflateEnd(signed).Lift())
  }

  /** After disposal no composite operation reaches the engine, and signing
      fails with the disposal error. */
  lemma DisposedWalletIsInert(st: ManagerState, heap: Heap, env: Env, psbt: string, mnemonic: Option<string>,
                              address: string, amount: nat, params: SendParams)
    requires Valid(st, heap)
    ensures var d := Dispose(st, heap).0;
      && SignPsbt(d, env, psbt, mnemonic) == Throw(WalletError(DISPOSED_MESSAGE, None, None))
      && SendBtc(d, env, address, amount, None, None).entered == []
      && CreateUtxos(d, env, None, None, None, None).entered == []
      && Send(d, env, params, mnemonic).entered == []
      && Inflate(d, env, params.assetId, [], None, None, mnemonic).entered == []
  {
  }

  // ---------------------------------------------------------------------
  // Fee estimation and messages

  /** A JavaScript number: a finite value or `NaN`/an infinity. */
  datatype Number = Finite(x: real) | NonFinite

  predicate IsPositiveInteger(n: Number) {
    n.Finite? && n.x.Floor as real == n.x && n.x > 0.0
  }

  /** `estimateFeeRate`: the block count must be finite, then a positive
      integer, before the engine is asked. */
  function EstimateFeeRate(env: Env, blocks: Number): (r: Result<string>)
    ensures blocks.NonFinite? ==> r == Throw(ValidationError("blocks must be a finite number", Some("blocks")))
    ensures blocks.Finite? && !IsPositiveInteger(blocks) ==>
      r == Throw(ValidationError("blocks must be a positive integer", Some("blocks")))
    ensures r.Ok? ==> IsPositiveInteger(blocks) && env.engine.getFeeEstimation(blocks.x.Floor as nat) == Done(r.value)
    ensures r.Err? && r.raised.IsValidation() <==> !IsPositiveInteger(blocks)
  {
    if blocks.NonFinite? then Throw(ValidationError("blocks must be a finite number", Some("blocks")))
    else if !(blocks.x.Floor as real == blocks.x) || blocks.x <= 0.0 then
      Throw(ValidationError("blocks must be a positive integer", Some("blocks")))
    else
      env.engine.getFeeEstimation(blocks.x.Floor as nat).Lift()
  }

  /** `signMessage`: the disposal guard, a non-empty message, a stored seed
      (any array, even an empty one), then the Schnorr signer on the seed's
      current contents. */
  function SignMessage(st: ManagerState, heap: Heap, env: Env, message: string): (r: Result<string>)
    requires Valid(st, heap)
    ensures st.disposed ==> r == Throw(WalletError(DISPOSED_MESSAGE, None, None))
    ensures !st.disposed && message == "" ==> r == Throw(Required("message"))
    ensures !st.disposed && message != "" && st.seed.None? ==>
      r.Err? && r.raised.IsWallet()
    ensures !st.disposed && message != "" && st.seed.Some? ==>
      r == Signer.SignMessage(env.libs, JsStr(message), JsBytes(heap[st.seed.value]), JsStr(Name(st.network)))
  {
    var _ :- EnsureNotDisposed(st);
    if message == "" then Throw(Required("message"))
    else if st.seed.None? then
      Throw(WalletError(NO_SEED_FOR_SIGNING, None, None))
    else
      Signer.SignMessage(env.libs, JsStr(message), JsBytes(heap[st.seed.value]), JsStr(Name(st.network)))
  }

  /** `verifyMessage`: a non-empty message and signature, then verification
      against the vanilla account xpub. There is no disposal guard. */
  function VerifyMessage(st: ManagerState, env: Env, message: string, signature: string): (r: Result<bool>)
    ensures message == "" ==> r == Throw(Required("message"))
    ensures message != "" && signature == "" ==> r == Throw(Required("signature"))
    ensures message != "" && signature != "" ==>
      r == Signer.VerifyMessage(env.libs, JsStr(message), signature, st.xpubVan, JsStr(Name(st.network)))
  {
    if message == "" then Throw(Required("message"))
    else if signature == "" then Throw(Required("signature"))
    else Signer.VerifyMessage(env.libs, JsStr(message), signature, st.xpubVan, JsStr(Name(st.network)))
  }

  /** Verification gives the same answer before and after disposal. */
  lemma VerifyIgnoresDisposal(st: ManagerState, heap: Heap, env: Env, message: string, signature: string)
    requires Valid(st, heap)
    ensures VerifyMessage(Dispose(st, heap).0, env, message, signature) == VerifyMessage(st, env, message, signature)
  {
  }

  /** The seed is shared with the caller: what the caller writes into the
      array before signing is what gets signed with. */
  lemma SignMessageReadsCallerSeed(st: ManagerState, heap: Heap, env: Env, message: string, contents: seq<byte>)
    requires Valid(st, heap) && st.seed.Some? && !st.disposed && message != ""
    ensures SignMessage(st, heap[st.seed.value := contents], env, message) ==
      Signer.SignMessage(env.libs, JsStr(message), JsBytes(contents), JsStr(Name(st.network)))
  {
  }

  // ---------------------------------------------------------------------
  // Module-level helpers

  /** `createWallet`: the network (`regtest` when absent) must normalise, but
      the keys are always generated for regtest. */
  function CreateWallet(env: Env, network: JsValue): (r: Result<string>)
    ensures NormalizeNetwork(OrDefault(network, JsStr("regtest"))).Err? ==>
      r == Throw(InvalidNetwork(OrDefault(network, JsStr("regtest"))))
    ensures NormalizeNetwork(OrDefault(network, JsStr("regtest"))).Ok? ==> r == env.engine.generateKeys(Regtest).Lift()
  {
    var _ :- NormalizeNetwork(OrDefault(network, JsStr("regtest")));
    env.engine.generateKeys(Regtest).Lift()
  }

  /** Any two valid networks create the same wallet. */
  lemma CreateWalletIgnoresNetwork(env: Env, a: Network, b: Network)
    ensures CreateWallet(env, JsStr(Name(a))) == CreateWallet(env, JsStr(Name(b)))
  {
    NameLookup(a);
    NameLookup(b);
  }

  /** `restoreFromBackup`: backup path, password and restore directory are
      required, in that order; then the engine restores. */
  function RestoreFromBackup(env: Env, backupFilePath: string, password: string, dataDir: string): (r: Result<string>)
    ensures backupFilePath == "" ==> r == Throw(ValidationError("backup file is required", Some("backup")))
    ensures backupFilePath != "" && password == "" ==> r == Throw(Required("password"))
    ensures (backupFilePath != "" && password != "" && dataDir == "") ==>
      r == Throw(ValidationError("restore directory is required", Some("restoreDir")))
    ensures r.Ok? <==> backupFilePath != "" && password != "" && dataDir != "" && env.engine.restoreBackup(backupFilePath, password).Done?
    ensures r.Ok? ==> r.value == "Wallet restored successfully"
  {
    if backupFilePath == "" then Throw(ValidationError("backup file is required", Some("backup")))
    else if password == "" then Throw(Required("password"))
    else if dataDir == "" then Throw(ValidationError("restore directory is required", Some("restoreDir")))
    else
      var _ :- env.engine.restoreBackup(backupFilePath, password).Lift();
      Ok("Wallet restored successfully")
  }
}
