/** The SDK's error taxonomy (`SDKError` and its five subclasses), what can be
    thrown (an SDK error or any other `Error`), and the `Result` type that
    stands for "returns a value or throws". */
module Errors {
  import opened Optional

  /** Which class an SDK error was constructed as. */
  datatype ErrorClass = BaseClass | NetworkClass | ValidationClass | WalletClass | CryptoClass | ConfigurationClass

  /** An `SDKError` instance: its `name`, `message`, `code`, optional
      `statusCode`, the `field` only a `ValidationError` keeps, and the `cause`. */
  datatype SdkError = SdkError(
    cls: ErrorClass,
    name: string,
    message: string,
    code: string,
    statusCode: Option<int>,
    field: Option<string>,
    cause: Option<Raised>)

  /** A thrown value: an SDK error, or an `Error` from elsewhere (a library,
      `new Error(...)`), of which only the message matters here. */
  datatype Raised = Sdk(err: SdkError) | Foreign(message: string) {

    function Message(): string {
      match this
      case Sdk(e) => e.message
      case Foreign(m) => m
    }

    /** `error instanceof ValidationError` */
    predicate IsValidation() {
      Sdk? && err.cls == ValidationClass
    }

    /** `error instanceof CryptoError` */
    predicate IsCrypto() {
      Sdk? && err.cls == CryptoClass
    }

    /** `error instanceof WalletError` */
    predicate IsWallet() {
      Sdk? && err.cls == WalletClass
    }
  }

  /** A computation that returns a `T` or throws. */
  datatype Result<+T> = Ok(value: T) | Err(raised: Raised) {

    predicate IsFailure() {
      Err?
    }

    function PropagateFailure<U>(): Result<U>
      requires Err?
    {
      Err(raised)
    }

    function Extract(): T
      requires Ok?
    {
      value
    }
  }

  /** `throw e` */
  function Throw<T>(e: SdkError): Result<T> {
    Err(Sdk(e))
  }

  const NETWORK_ERROR := "NETWORK_ERROR"
  const VALIDATION_ERROR := "VALIDATION_ERROR"
  const WALLET_ERROR := "WALLET_ERROR"
  const CRYPTO_ERROR := "CRYPTO_ERROR"
  const CONFIGURATION_ERROR := "CONFIGURATION_ERROR"

  /** The `name` each class sets. */
  const SDK_ERROR_NAME := "SDKError"
  const NETWORK_ERROR_NAME := "NetworkError"
  const VALIDATION_ERROR_NAME := "ValidationError"
  const WALLET_ERROR_NAME := "WalletError"
  const CRYPTO_ERROR_NAME := "CryptoError"
  const CONFIGURATION_ERROR_NAME := "ConfigurationError"

  /** `new SDKError(message, code, statusCode, cause)` */
  function NewSdkError(message: string, code: string, statusCode: Option<int>, cause: Option<Raised>): SdkError {
    SdkError(BaseClass, SDK_ERROR_NAME, message, code, statusCode, None, cause)
  }

  /** `new NetworkError(message, statusCode, cause)` */
  function NetworkError(message: string, statusCode: Option<int>, cause: Option<Raised>): SdkError {
    SdkError(NetworkClass, NETWORK_ERROR_NAME, message, NETWORK_ERROR, statusCode, None, cause)
  }

  /** `new ValidationError(message, field)` */
  function ValidationError(message: string, field: Option<string>): SdkError {
    SdkError(ValidationClass, VALIDATION_ERROR_NAME, message, VALIDATION_ERROR, None, field, None)
  }

  /** `new WalletError(message, code, cause)`: an absent or empty code falls
      back to `WALLET_ERROR` (the source writes `code || 'WALLET_ERROR'`). */
  function WalletError(message: string, code: Option<string>, cause: Option<Raised>): SdkError {
    var c := if code.Some? && code.value != "" then code.value else WALLET_ERROR;
    SdkError(WalletClass, WALLET_ERROR_NAME, message, c, None, None, cause)
  }

  /** `new CryptoError(message, cause)` */
  function CryptoError(message: string, cause: Option<Raised>): SdkError {
    SdkError(CryptoClass, CRYPTO_ERROR_NAME, message, CRYPTO_ERROR, None, None, cause)
  }

  /** `new ConfigurationError(message, field)`: the field is accepted and dropped. */
  function ConfigurationError(message: string, field: Option<string>): SdkError {
    SdkError(ConfigurationClass, CONFIGURATION_ERROR_NAME, message, CONFIGURATION_ERROR, None, None, None)
  }

  /** The class a fixed error code belongs to, read off the code alone. */
  function ClassOfCode(code: string): Option<ErrorClass> {
    if code == NETWORK_ERROR then Some(NetworkClass)
    else if code == VALIDATION_ERROR then Some(ValidationClass)
    else if code == CRYPTO_ERROR then Some(CryptoClass)
    else if code == CONFIGURATION_ERROR then Some(ConfigurationClass)
    else if code == WALLET_ERROR then Some(WalletClass)
    else None
  }

  /** Every subclass with a fixed code can be recognised from its code, and
      its class name matches. */
  lemma FixedCodesIdentifyClass(message: string, field: Option<string>, status: Option<int>, cause: Option<Raised>)
    ensures ClassOfCode(NetworkError(message, status, cause).code) == Some(NetworkClass)
    ensures ClassOfCode(ValidationError(message, field).code) == Some(ValidationClass)
    ensures ClassOfCode(CryptoError(message, cause).code) == Some(CryptoClass)
    ensures ClassOfCode(ConfigurationError(message, field).code) == Some(ConfigurationClass)
    ensures ClassOfCode(WalletError(message, None, cause).code) == Some(WalletClass)
  {
  }

  /** A `WalletError` keeps any non-empty code it is given, even the code of
      another class, so codes identify the class only for the fixed ones. */
  lemma WalletErrorCode(message: string, code: Option<string>, cause: Option<Raised>)
    ensures code.Some? && code.value != "" ==> WalletError(message, code, cause).code == code.value
    ensures code.None? || code == Some("") ==> WalletError(message, code, cause).code == WALLET_ERROR
    ensures ClassOfCode(WalletError(message, Some(CRYPTO_ERROR), cause).code) == Some(CryptoClass)
  {
  }

  /** Only a `NetworkError` carries a status code; only a `ValidationError`
      keeps its field; every constructor keeps its message. */
  lemma StatusAndFieldOwnership(message: string, field: Option<string>, status: Option<int>, code: Option<string>, cause: Option<Raised>)
    ensures NetworkError(message, status, cause).statusCode == status
    ensures ValidationError(message, field).statusCode == None
    ensures WalletError(message, code, cause).statusCode == None
    ensures CryptoError(message, cause).statusCode == None
    ensures ConfigurationError(message, field).statusCode == None
    ensures ValidationError(message, field).field == field
    ensures ConfigurationError(message, field).field == None
    ensures ValidationError(message, field).message == message && CryptoError(message, cause).message == message
  {
  }

  /** What `toJSON()` returns, less the stack trace. */
  datatype ErrorJson = ErrorJson(name: string, message: string, code: string, statusCode: Option<int>, cause: Option<string>)

  /** `SDKError.toJSON()`: the cause appears as its message string only. */
  function ToJson(e: SdkError): (j: ErrorJson)
    ensures j.cause.Some? <==> e.cause.Some?
    ensures e.cause.Some? ==> j.cause == Some(e.cause.value.Message())
    ensures j.name == e.name && j.message == e.message && j.code == e.code && j.statusCode == e.statusCode
  {
    ErrorJson(e.name, e.message, e.code, e.statusCode,
              if e.cause.Some? then Some(e.cause.value.Message()) else None)
  }

  /** Two errors whose causes differ only beyond their messages serialise alike:
      `toJSON` forgets everything about the cause but its message. */
  lemma ToJsonForgetsCause(e: SdkError, c1: Raised, c2: Raised)
    requires c1.Message() == c2.Message()
    ensures ToJson(e.(cause := Some(c1))) == ToJson(e.(cause := Some(c2)))
  {
  }

  /** Exactly what `toJSON` keeps: two errors serialise alike iff they agree on
      name, message, code and status, and their causes agree up to the message.
      The class and a validation error's `field` never show. */
  lemma ToJsonIdentifies(e1: SdkError, e2: SdkError)
    ensures ToJson(e1) == ToJson(e2) <==>
      e1.name == e2.name && e1.message == e2.message && e1.code == e2.code &&
      e1.statusCode == e2.statusCode && (e1.cause.Some? <==> e2.cause.Some?) &&
      (e1.cause.Some? && e2.cause.Some? ==> e1.cause.value.Message() == e2.cause.value.Message())
  {
    if e1.cause.Some? && e2.cause.Some? && ToJson(e1) == ToJson(e2) {
      assert ToJson(e1).cause.value == ToJson(e2).cause.value;
    }
  }
}
