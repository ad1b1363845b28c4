/** JavaScript values as the SDK's entry points receive them (parameters are
    typed in TypeScript but checked at run time), with JavaScript truthiness,
    `??` and `String(v)`. Numbers are integers here. */
module JsValues {
  import opened Text
  import opened Bytes

  datatype JsValue =
    | JsUndefined
    | JsNull
    | JsBool(b: bool)
    | JsNum(n: int)
    | JsStr(s: string)
    | JsBytes(bytes: seq<byte>)   // a Uint8Array (or Node Buffer)
    | JsObject                    // any other object

  /** JavaScript truthiness: `!!v`. */
  predicate Truthy(v: JsValue) {
    match v
    case JsUndefined => false
    case JsNull => false
    case JsBool(b) => b
    case JsNum(n) => n != 0
    case JsStr(s) => s != ""
    case JsBytes(_) => true
    case JsObject => true
  }

  /** `v ?? d` */
  function OrDefault(v: JsValue, d: JsValue): JsValue {
    if v == JsUndefined || v == JsNull then d else v
  }

  /** A parameter default `p = d`: only `undefined` takes the default, `null`
      is passed on as given. */
  function ParamDefault(v: JsValue, d: JsValue): JsValue {
    if v == JsUndefined then d else v
  }

  /** `String(v)`; a Uint8Array prints its elements comma-separated. */
  function ToJsString(v: JsValue): string {
    match v
    case JsUndefined => "undefined"
    case JsNull => "null"
    case JsBool(b) => if b then "true" else "false"
    case JsNum(n) => IntToString(n)
    case JsStr(s) => s
    case JsBytes(bs) => JoinDecimal(bs)
    case JsObject => "[object Object]"
  }

  function JoinDecimal(bs: seq<byte>): string {
    if bs == [] then ""
    else if |bs| == 1 then NatToString(bs[0])
    else NatToString(bs[0]) + "," + JoinDecimal(bs[1..])
  }

  /** `String(n)` of an integer written in plain decimal, as the model renders
      every number, holds no letter at all. */
  lemma NumberStringHasNoLetters(n: int)
    ensures forall k :: 0 <= k < |ToJsString(JsNum(n))| ==> !('a' <= ToJsString(JsNum(n))[k] <= 'z')
    ensures forall k :: 0 <= k < |ToJsString(JsNum(n))| ==> !('A' <= ToJsString(JsNum(n))[k] <= 'Z')
  {
  }
}
