/** `RgbError`, the error the native RGB library bridge rejects with: a code
    that is either a bare error name or a tagged object (`{ type, ...data }`),
    matching on codes, the `[code] message` rendering with `JSON.stringify`
    of object codes, and the conversion of whatever a native call threw. */
module RgbErrors {
  import opened Optional
  import opened Text
  import opened Bytes
  import opened JsValues

  /** A value held by a field of an object code: a string or a number. */
  datatype Scalar = SStr(s: string) | SNum(n: int)

  /** `RgbLibErrors`: a bare name such as `'Offline'`, or an object given as
      its list of fields; the rendering writes them in list order. A
      JavaScript object has distinct keys; when a list repeats a key, the
      first occurrence is the one `Field` reads. */
  datatype RgbCode = NameCode(name: string) | ObjCode(fields: seq<(string, Scalar)>)

  /** Property access `obj[key]` (`None` when `key in obj` is false). */
  function Field(fields: seq<(string, Scalar)>, key: string): (v: Option<Scalar>)
    ensures v.None? <==> forall k :: 0 <= k < |fields| ==> fields[k].0 != key
    ensures v.Some? ==> (key, v.value) in fields
  {
    if fields == [] then None
    else if fields[0].0 == key then Some(fields[0].1)
    else
      var v := Field(fields[1..], key);
      assert forall k :: 1 <= k < |fields| ==> fields[k] == fields[1..][k - 1];
      v
  }

  /** `code.type` of an object code. */
  function TypeOf(fields: seq<(string, Scalar)>): Option<Scalar> {
    Field(fields, "type")
  }

  /** An `RgbError` instance: its `code`, `message`, `name`, `nativeMessage`
      and `originalError`. */
  datatype RgbError = RgbError(
    code: RgbCode,
    message: string,
    name: string,
    nativeMessage: string,
    originalError: Option<Thrown>)

  /** What a native call can reject with: an `RgbError`, another `Error`
      (with `code` absent, or present with any value), or a non-`Error`. */
  datatype Thrown =
    | Rgb(err: RgbError)
    | Plain(message: string, code: Option<JsValue>)
    | NonError(value: JsValue)

  /** The invariant the constructor establishes. */
  predicate WellFormed(e: RgbError) {
    e.name == "RgbError" && e.nativeMessage == e.message
  }

  /** `new RgbError(code, message, originalError)` */
  function NewRgbError(code: RgbCode, message: string, originalError: Option<Thrown>): (e: RgbError)
    ensures WellFormed(e)
    ensures e.code == code && e.message == message && e.originalError == originalError
  {
    RgbError(code, message, "RgbError", message, originalError)
  }

  /** `error.isCode(code)`; `None` stands for a `null` argument. */
  function IsCode(e: RgbError, code: Option<RgbCode>): bool {
    if e.code.NameCode? && code.Some? && code.value.NameCode? then
      e.code.name == code.value.name
    else if e.code.ObjCode? && code.Some? && code.value.ObjCode? then
      TypeOf(e.code.fields).Some? && TypeOf(code.value.fields).Some?
        && TypeOf(e.code.fields) == TypeOf(code.value.fields)
    else
      false
  }

  /** What a code is matched on, independently of `isCode`: the name of a
      bare code, or the `type` of an object code (when it has one). */
  datatype CodeKey = ByName(name: string) | ByType(typ: Scalar)

  function KeyOf(c: RgbCode): Option<CodeKey> {
    match c
    case NameCode(n) => Some(ByName(n))
    case ObjCode(fields) =>
      match TypeOf(fields)
      case None => None
      case Some(t) => Some(ByType(t))
  }

  /** `isCode` holds exactly when both codes have a key and the keys agree;
      a bare name never matches an object code, and `null` matches nothing. */
  lemma IsCodeMatchesKeys(e: RgbError, code: Option<RgbCode>)
    ensures IsCode(e, code) <==> code.Some? && KeyOf(e.code).Some? && KeyOf(e.code) == KeyOf(code.value)
  {
  }

  /** Matching object codes looks at `type` only: the data beside it is ignored. */
  lemma IsCodeIgnoresData(e: RgbError, f1: seq<(string, Scalar)>, f2: seq<(string, Scalar)>)
    requires TypeOf(f1) == TypeOf(f2)
    ensures IsCode(e, Some(ObjCode(f1))) == IsCode(e, Some(ObjCode(f2)))
  {
  }

  /** Matching is symmetric and transitive, and reflexive for every code with a key. */
  lemma IsCodeIsEquivalence(a: RgbError, b: RgbError, c: RgbError)
    ensures IsCode(a, Some(b.code)) == IsCode(b, Some(a.code))
    ensures IsCode(a, Some(b.code)) && IsCode(b, Some(c.code)) ==> IsCode(a, Some(c.code))
    ensures IsCode(a, Some(a.code)) <==> KeyOf(a.code).Some?
  {
    IsCodeMatchesKeys(a, Some(b.code));
    IsCodeMatchesKeys(b, Some(a.code));
    IsCodeMatchesKeys(b, Some(c.code));
    IsCodeMatchesKeys(a, Some(c.code));
    IsCodeMatchesKeys(a, Some(a.code));
  }

  // ---------------------------------------------------------------------
  // JSON.stringify of object codes

  /** The `\uXXXX` escape of a control character, with lower-case digits. */
  function UnicodeEscape(c: char): (r: string)
    requires c as int < 0x20
    ensures |r| == 6
  {
    "\\u00" + [LowerHexDigit(c as int / 16), LowerHexDigit(c as int % 16)]
  }

  /** How `JSON.stringify` writes one character inside a string literal. */
  function EscapeChar(c: char): (r: string)
    ensures |r| >= 1
  {
    if c == '"' then "\\\""
    else if c == '\\' then "\\\\"
    else if c as int == 8 then "\\b"
    else if c == '\t' then "\\t"
    else if c == '\n' then "\\n"
    else if c as int == 12 then "\\f"
    else if c == '\r' then "\\r"
    else if c as int < 0x20 then UnicodeEscape(c)
    else [c]
  }

  function Escape(s: string): string {
    if s == [] then "" else EscapeChar(s[0]) + Escape(s[1..])
  }

  /** `JSON.stringify(s)` of a string. */
  function Quote(s: string): string {
    "\"" + Escape(s) + "\""
  }

  function ScalarJson(v: Scalar): string {
    match v
    case SStr(s) => Quote(s)
    case SNum(n) => IntToString(n)
  }

  function MembersJson(fields: seq<(string, Scalar)>): string {
    if fields == [] then ""
    else if |fields| == 1 then Quote(fields[0].0) + ":" + ScalarJson(fields[0].1)
    else Quote(fields[0].0) + ":" + ScalarJson(fields[0].1) + "," + MembersJson(fields[1..])
  }

  /** `JSON.stringify(code)` of an object code. */
  function ObjectJson(fields: seq<(string, Scalar)>): string {
    "{" + MembersJson(fields) + "}"
  }

  /** Reading one (possibly escaped) character of a JSON string literal:
      the character and how many input characters it took. */
  function ReadChar(t: string): (r: Option<(char, nat)>)
    ensures r.Some? ==> 1 <= r.value.1 <= |t|
  {
    if t == [] then None
    else if t[0] != '\\' then
      if t[0] == '"' || t[0] as int < 0x20 then None else Some((t[0], 1))
    else if |t| < 2 then None
    else if t[1] == '"' then Some(('"', 2))
    else if t[1] == '\\' then Some(('\\', 2))
    else if t[1] == '/' then Some(('/', 2))
    else if t[1] == 'b' then Some((8 as char, 2))
    else if t[1] == 't' then Some(('\t', 2))
    else if t[1] == 'n' then Some(('\n', 2))
    else if t[1] == 'f' then Some((12 as char, 2))
    else if t[1] == 'r' then Some(('\r', 2))
    else if t[1] == 'u' && |t| >= 6 && AllHex(t[2..6]) then
      var v := HexValue(t[2]) * 4096 + HexValue(t[3]) * 256 + HexValue(t[4]) * 16 + HexValue(t[5]);
      if 0xD800 <= v < 0xE000 then None else Some((v as char, 6))
    else None
  }

  /** The text a JSON string literal's body stands for, if it is well formed. */
  function Unescape(t: string): Option<string>
    decreases |t|
  {
    if t == [] then Some([])
    else
      match ReadChar(t)
      case None => None
      case Some((c, n)) =>
        match Unescape(t[n..])
        case None => None
        case Some(rest) => Some([c] + rest)
  }

  lemma ReadEscapedChar(c: char, rest: string)
    ensures ReadChar(EscapeChar(c) + rest) == Some((c, |EscapeChar(c)|))
  {
    var t := EscapeChar(c) + rest;
    if c as int < 0x20 && c != '\t' && c != '\n' && c != '\r' && c as int != 8 && c as int != 12 {
      var hi, lo := c as int / 16, c as int % 16;
      assert t[..6] == "\\u00" + [LowerHexDigit(hi), LowerHexDigit(lo)];
      assert t[2..6] == ['0', '0', LowerHexDigit(hi), LowerHexDigit(lo)];
      HexValueOfDigit(hi);
      HexValueOfDigit(lo);
    }
  }

  /** Reading back what `JSON.stringify` wrote gives the original string. */
  lemma {:induction false} UnescapeEscape(s: string)
    ensures Unescape(Escape(s)) == Some(s)
    decreases |s|
  {
    if s != [] {
      var head, tail := EscapeChar(s[0]), Escape(s[1..]);
      ReadEscapedChar(s[0], tail);
      assert (head + tail)[|head|..] == tail;
      UnescapeEscape(s[1..]);
      assert [s[0]] + s[1..] == s;
    }
  }

  /** Distinct strings are written as distinct JSON literals. */
  lemma QuoteInjective(a: string, b: string)
    requires Quote(a) == Quote(b)
    ensures a == b
  {
    assert Escape(a) == Quote(a)[1..|Quote(a)| - 1];
    assert Escape(b) == Quote(b)[1..|Quote(b)| - 1];
    UnescapeEscape(a);
    UnescapeEscape(b);
  }

  // ---------------------------------------------------------------------
  // toString

  /** A template literal `${v}` of a field value (`undefined` when absent). */
  function ScalarText(v: Option<Scalar>): string {
    match v
    case None => "undefined"
    case Some(SStr(s)) => s
    case Some(SNum(n)) => IntToString(n)
  }

  /** The code part of the rendering: the name, or `[type] <json>`. */
  function CodeText(c: RgbCode): string {
    match c
    case NameCode(n) => n
    case ObjCode(fields) => "[" + ScalarText(TypeOf(fields)) + "] " + ObjectJson(fields)
  }

  /** `error.toString()`: `[<code>] <message>`. */
  function ToString(e: RgbError): (r: string)
    ensures StartsWith(r, "[") && EndsWith(r, "] " + e.message)
    ensures |r| == |CodeText(e.code)| + |e.message| + 3 && r[1..|r| - |e.message| - 2] == CodeText(e.code)
    ensures e.code.NameCode? ==> r[1..|r| - |e.message| - 2] == e.code.name
  {
    var c := CodeText(e.code);
    Bracketed(c, e.message);
    "[" + c + "] " + e.message
  }

  /** `[<c>] <m>` starts with `[`, ends with `] <m>`, and holds `c` between. */
  lemma Bracketed(c: string, m: string)
    ensures var r := "[" + c + "] " + m;
      StartsWith(r, "[") && EndsWith(r, "] " + m) && |r| == |c| + |m| + 3 && r[1..|r| - |m| - 2] == c
  {
    var r := "[" + c + "] " + m;
    assert r[1..|r| - |m| - 2] == c;
    assert r[|r| - |"] " + m|..] == "] " + m;
  }

  /** Reading a rendering `[<code>] <message>` back, splitting at the first `]`. */
  function ParseRendered(t: string): (r: Option<(string, string)>) {
    if |t| < 3 || t[0] != '[' then None
    else
      var i := IndexOf(t[1..], ']');
      if i < 0 || i + 2 >= |t| || t[i + 2] != ' ' then None
      else Some((t[1..i + 1], t[i + 3..]))
  }

  /** Reading back `[<n>] <m>` for a name free of `]`. */
  lemma ParseRenderedOf(n: string, m: string)
    requires ']' !in n
    ensures ParseRendered("[" + n + "] " + m) == Some((n, m))
  {
    var t := "[" + n + "] " + m;
    assert t[0] == '[';
    assert t[1..] == n + [']'] + (" " + m);
    IndexOfFirst(n, ']', " " + m);
    assert t[|n| + 2] == ' ';
    assert t[1..|n| + 1] == n;
    assert t[|n| + 3..] == m;
  }

  /** For a bare code free of `]`, the rendering gives back the code and the
      message; an object code renders with a bracketed type first. */
  lemma ToStringRoundTrip(e: RgbError)
    ensures e.code.NameCode? && ']' !in e.code.name ==>
      ParseRendered(ToString(e)) == Some((e.code.name, e.message))
    ensures e.code.ObjCode? ==>
      StartsWith(ToString(e), "[[" + ScalarText(TypeOf(e.code.fields)) + "] {")
  {
    if e.code.NameCode? && ']' !in e.code.name {
      ParseRenderedOf(e.code.name, e.message);
    }
  }

  // ---------------------------------------------------------------------
  // fromReactNativeError

  const UNKNOWN_ERROR := "Unknown error"

  /** `RgbError.fromReactNativeError(error)` */
  function FromReactNativeError(error: Thrown): (r: Thrown)
    ensures !r.NonError?
    ensures r.Rgb? <==> error.Rgb? || (error.Plain? && error.code.Some? && error.code.value.JsStr?)
    ensures error.Rgb? || (error.Plain? && !(error.code.Some? && error.code.value.JsStr?)) ==> r == error
    ensures error.Plain? && r.Rgb? ==>
      WellFormed(r.err) && IsCode(r.err, Some(NameCode(error.code.value.s)))
      && r.err.message == (if error.message == "" then UNKNOWN_ERROR else error.message)
      && r.err.originalError == Some(error)
    ensures error.NonError? ==> r == Plain(ToJsString(error.value), None)
  {
    match error
    case Rgb(_) => error
    case Plain(message, code) =>
      if code.Some? && code.value.JsStr? then
        Rgb(NewRgbError(NameCode(code.value.s), if message != "" then message else UNKNOWN_ERROR, Some(error)))
      else
        error
    case NonError(v) => Plain(ToJsString(v), None)
  }

  /** Converting twice is converting once. */
  lemma FromReactNativeErrorIdempotent(error: Thrown)
    ensures FromReactNativeError(FromReactNativeError(error)) == FromReactNativeError(error)
  {
  }

  /** Every converted error keeps the constructor's invariant when the input did. */
  lemma FromReactNativeErrorWellFormed(error: Thrown)
    requires error.Rgb? ==> WellFormed(error.err)
    ensures FromReactNativeError(error).Rgb? ==> WellFormed(FromReactNativeError(error).err)
  {
  }
}
