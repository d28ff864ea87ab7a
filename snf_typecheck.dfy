/**
 * The type checks of snf/src/util/typeCheck.js. Its `isArray`, `isBoolean`,
 * `isString` and `isFunction` are the same expressions as those of
 * src/util/typeCheck.js and are the `TypeCheck` members; only `isPlainObject`
 * differs: it has no truthiness guard, so reading `constructor` of `null`
 * throws.
 */
module SnfTypeCheck {
  import opened Js
  import TypeCheck

  /** `typeof v === 'object' && v.constructor === Object` */
  function IsPlainObject(v: JsValue): (r: Result<bool>)
    ensures r.Err? <==> v == Null
    ensures r.Err? ==> r.error.TypeError?
    ensures r.Ok? ==> r.value == TypeCheck.IsPlainObject(v)
  {
    if TypeOf(v) != "object" then Ok(false)
    else if v == Null then Err(TypeError("Cannot read properties of null (reading 'constructor')"))
    else Ok(Prop(v, "constructor") == Some(OBJECT_CONSTRUCTOR))
  }

  /** The two checks agree on every value but `null`, and `undefined` is simply not a plain object. */
  lemma AgreesExceptNull(v: JsValue)
    ensures v != Null ==> IsPlainObject(v) == Ok(TypeCheck.IsPlainObject(v))
    ensures IsPlainObject(Undefined) == Ok(false)
    ensures IsPlainObject(Null).Err?
  {
  }
}
