/**
 * The duck-typed checks of src/util/typeCheck.js, over `Js.JsValue`. Each
 * check is defined as the source writes it (truthiness, `typeof`, property
 * reads) and its contract says which values it accepts in terms of what the
 * value is.
 */
module TypeCheck {
  import opened Js

  /** `Array.isArray(v)` */
  predicate IsArray(v: JsValue) {
    v.Arr?
  }

  /** `v === true || v === false` */
  function IsBoolean(v: JsValue): (r: bool)
    ensures r <==> v.Bool?
  {
    v == Bool(true) || v == Bool(false)
  }

  /** The `constructor` an object value reports, own field first. */
  predicate ReportsObjectConstructor(v: JsValue)
    requires v.Obj? || v.Instance?
  {
    var own := Lookup(v.fields, "constructor");
    if own.Some? then own.value == OBJECT_CONSTRUCTOR else v.Obj?
  }

  /** `!!v && typeof v === 'object' && v.constructor === Object` */
  function IsPlainObject(v: JsValue): (r: bool)
    ensures r <==> (v.Obj? || v.Instance?) && ReportsObjectConstructor(v)
    ensures r && v.Obj? <== v.Obj? && "constructor" !in Names(v.fields)
    ensures r ==> !IsArray(v) && !v.StrObject? && !v.Func?
  {
    Truthy(v) && TypeOf(v) == "object" && Prop(v, "constructor") == Some(OBJECT_CONSTRUCTOR)
  }

  /** `!!v && typeof v === 'object' && !isPlainObject(v) && !isArray(v)` */
  function IsClassObject(v: JsValue): (r: bool)
    ensures r <==> v.StrObject? || ((v.Obj? || v.Instance?) && !ReportsObjectConstructor(v))
  {
    Truthy(v) && TypeOf(v) == "object" && !IsPlainObject(v) && !IsArray(v)
  }

  /** `typeof v === 'string' || v instanceof String` */
  function IsString(v: JsValue): (r: bool)
    ensures r <==> v.Str? || v.StrObject?
  {
    TypeOf(v) == "string" || v.StrObject?
  }

  /** `!!(v && v.constructor && v.call && v.apply)`: any function, or an object that carries `call` and `apply`. */
  function IsFunction(v: JsValue): (r: bool)
    ensures v.Func? ==> r
    ensures r ==> v.Func? || (HasOwnNamed(v, "call") && HasOwnNamed(v, "apply"))
    ensures r ==> !IsString(v) && !IsArray(v) && Truthy(v)
  {
    Truthy(v) && PropTruthy(v, "constructor") && PropTruthy(v, "call") && PropTruthy(v, "apply")
  }

  /** `!!v && v.subscribe`, read as a boolean. */
  function IsSvelteStore(v: JsValue): (r: bool)
    ensures r ==> HasOwnNamed(v, "subscribe")
  {
    Truthy(v) && PropTruthy(v, "subscribe")
  }

  /** `isSvelteStore(v) && v.set && v.update`, read as a boolean. */
  function IsSvelteWritable(v: JsValue): (r: bool)
    ensures r ==> IsSvelteStore(v)
    ensures r ==> HasOwnNamed(v, "set") && HasOwnNamed(v, "update")
  {
    IsSvelteStore(v) && PropTruthy(v, "set") && PropTruthy(v, "update")
  }

  /** Every truthy value of type object is exactly one of: a plain object, an array, a class object. */
  lemma ObjectPartition(v: JsValue)
    requires Truthy(v) && TypeOf(v) == "object"
    ensures IsPlainObject(v) || IsArray(v) || IsClassObject(v)
    ensures !(IsPlainObject(v) && IsArray(v))
    ensures !(IsPlainObject(v) && IsClassObject(v))
    ensures !(IsArray(v) && IsClassObject(v))
  {
  }

  /** The values of the class-object check's own test table. */
  lemma ClassObjectExamples()
    ensures !IsClassObject(Num(123))
    ensures !IsClassObject(Str("foo"))
    ensures !IsClassObject(Bool(true))
    ensures !IsClassObject(Arr([Num(1), Num(2)]))
    ensures !IsClassObject(Obj([Field("foo", Str("bar"))]))
    ensures !IsClassObject(Func(UserFn(0)))
    ensures !IsClassObject(Null)
    ensures !IsClassObject(Undefined)
    ensures IsClassObject(Instance("MyClass", [Field("foo", Str("bar"))]))
    ensures IsClassObject(Instance("Date", []))
  {
  }
}
