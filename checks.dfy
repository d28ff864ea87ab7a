/**
 * The parameter checks the storage channels make before acting
 * (`checkParam(cond, msg)` of src/util/check.js, which is not part of this
 * model: a failed condition throws a parameter violation whose message is
 * the operation's prefix followed by the check's message).
 *
 * Every channel checks `key`, then `ref`, then `safeguard` (which defaults to
 * `false`), then the handler of a registration, in that order; the first
 * failed check is the one thrown.
 */
module Checks {
  import opened Js
  import TypeCheck
  import Encoder

  /** `checkParam(key, 'key is required')` then `checkParam(isString(key), ...)`: the key's text. */
  function CheckKey(prefix: string, key: JsValue): (r: Result<string>)
    ensures r.Ok? <==> Truthy(key) && (key.Str? || key.StrObject?)
    ensures r.Ok? ==> r.value == key.s
    ensures r.Err? ==> r.error.ParamViolation?
  {
    if !Truthy(key) then Err(ParamViolation(prefix + "key is required"))
    else if !TypeCheck.IsString(key) then Err(ParamViolation(prefix + "key must be a string, NOT: "))
    else Ok(key.s)
  }

  /** What `ref` may be: a truthy string (or String object), or an object literal. */
  predicate AcceptedRef(ref: JsValue) {
    Truthy(ref) && (TypeCheck.IsString(ref) || TypeCheck.IsPlainObject(ref))
  }

  /** `checkParam(ref, 'ref is required')` then `checkParam(isString(ref) || isPlainObject(ref), ...)` */
  function CheckRef(prefix: string, ref: JsValue): (r: Outcome)
    ensures r.Pass? <==> (ref.Str? && ref.s != []) || ref.StrObject? || TypeCheck.IsPlainObject(ref)
    ensures r.Pass? <==> AcceptedRef(ref)
    ensures r.Fail? ==> r.error.ParamViolation?
  {
    if !Truthy(ref) then Fail(ParamViolation(prefix + "ref is required"))
    else if !(TypeCheck.IsString(ref) || TypeCheck.IsPlainObject(ref)) then
      Fail(ParamViolation(prefix + "ref must be a string -or- an object literal, NOT: "))
    else Pass
  }

  /** `checkParam(isBoolean(safeguard), ...)` with `safeguard=false` as the default: the flag. */
  function CheckSafeguard(prefix: string, safeguard: JsValue): (r: Result<bool>)
    ensures r.Ok? <==> safeguard.Undefined? || safeguard.Bool?
    ensures r.Ok? ==> Encoder.SafeguardArg(safeguard) == Bool(r.value)
    ensures r.Err? ==> r.error.ParamViolation?
  {
    var sg := Encoder.SafeguardArg(safeguard);
    if !TypeCheck.IsBoolean(sg) then Err(ParamViolation(prefix + "safeguard must be a boolean (true/false), NOT: "))
    else Ok(sg.b)
  }

  /** `checkParam(handler, 'handler is required')` then `checkParam(isFunction(handler), ...)` */
  function CheckHandler(prefix: string, handler: JsValue): (r: Outcome)
    ensures r.Pass? <==> Truthy(handler) && TypeCheck.IsFunction(handler)
    ensures handler.Func? ==> r.Pass?
    ensures r.Fail? ==> r.error.ParamViolation?
  {
    if !Truthy(handler) then Fail(ParamViolation(prefix + "handler is required"))
    else if !TypeCheck.IsFunction(handler) then Fail(ParamViolation(prefix + "handler must be a function, NOT: "))
    else Pass
  }

  /** The checks of a set or update, in order: the key's text and the safeguard flag. */
  function CheckSet(prefix: string, key: JsValue, ref: JsValue, safeguard: JsValue): (r: Result<(string, bool)>)
    ensures r.Ok? <==> CheckKey(prefix, key).Ok? && AcceptedRef(ref) && CheckSafeguard(prefix, safeguard).Ok?
    ensures r.Ok? ==> r.value == (key.s, CheckSafeguard(prefix, safeguard).value)
    ensures CheckKey(prefix, key).Err? ==> r == Err(CheckKey(prefix, key).error)
    ensures CheckKey(prefix, key).Ok? && CheckRef(prefix, ref).Fail? ==> r == Err(CheckRef(prefix, ref).error)
    ensures r.Err? ==> r.error.ParamViolation?
  {
    var k :- CheckKey(prefix, key);
    match CheckRef(prefix, ref)
    case Fail(e) => Err(e)
    case Pass =>
      var sg :- CheckSafeguard(prefix, safeguard);
      Ok((k, sg))
  }

  /** The checks of a registration, in order: the key's text. */
  function CheckRegister(prefix: string, key: JsValue, handler: JsValue): (r: Result<string>)
    ensures r.Ok? <==> CheckKey(prefix, key).Ok? && CheckHandler(prefix, handler).Pass?
    ensures r.Ok? ==> r.value == key.s
    ensures CheckKey(prefix, key).Err? ==> r == Err(CheckKey(prefix, key).error)
    ensures r.Err? ==> r.error.ParamViolation?
  {
    var k :- CheckKey(prefix, key);
    match CheckHandler(prefix, handler)
    case Fail(e) => Err(e)
    case Pass => Ok(k)
  }

  /** What a set accepts encodes to a non-empty text. */
  lemma EncodedNonEmpty(ref: JsValue, safeguard: bool, platform: Encoder.Platform)
    requires AcceptedRef(ref)
    requires Encoder.Encode(ref, Bool(safeguard), platform).Ok?
    ensures Encoder.Encode(ref, Bool(safeguard), platform).value != []
  {
    if !safeguard && !ref.Str? {
      assert Encoder.Layered(ref)[..|Encoder.JSON_MARKER|] == Encoder.JSON_MARKER;
    }
  }
}
