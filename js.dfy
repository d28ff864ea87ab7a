/**
 * JavaScript values, as far as the persistence engine observes them: their
 * truthiness, `typeof`, the properties its duck-typed checks read, string
 * conversion in template literals, and the errors its operations throw.
 *
 * Objects are ordered lists of named fields (JavaScript keeps insertion
 * order); a list whose names are distinct is a well-formed object. Numbers are
 * integers.
 */
module Js {
  import Text

  datatype Option<+T> = None | Some(value: T)

  /** What a JavaScript operation throws. */
  datatype Error =
    | ParamViolation(message: string)  // `check()` failure: a parameter violation
    | NotSupported(message: string)    // the platform lacks `btoa`/`atob`
    | InvalidCharacter                 // `btoa` on a character above 0xFF, `atob` on malformed text
    | SyntaxError                      // `JSON.parse` on malformed text
    | TypeError(message: string)
    | ReferenceError(name: string)

  /** The value of an operation that may throw. */
  datatype Result<+T> = Ok(value: T) | Err(error: Error) {
    predicate IsFailure() { Err? }
    function PropagateFailure<U>(): Result<U> requires Err? { Err(error) }
    function Extract(): T requires Ok? { value }
  }

  /** The completion of an operation that returns nothing but may throw. */
  datatype Outcome = Pass | Fail(error: Error) {
    predicate IsFailure() { Fail? }
    function PropagateFailure(): Outcome requires Fail? { this }
  }

  /** A function object: a built-in (Object, Array, ...), a class constructor, or user code. */
  datatype Fn = Builtin(name: string) | ClassConstructor(name: string) | UserFn(id: nat)

  datatype JsValue =
    | Undefined
    | Null
    | Bool(b: bool)
    | Num(n: int)
    | Str(s: string)                          // a primitive string
    | StrObject(s: string)                    // `new String(s)`
    | Arr(elems: seq<JsValue>)
    | Obj(fields: seq<Field>)                 // an object literal: its prototype is Object.prototype
    | Func(fn: Fn)
    | Instance(cls: string, fields: seq<Field>)  // an object built by `new cls(...)`, e.g. a Date

  datatype Field = Field(name: string, value: JsValue)

  const OBJECT_CONSTRUCTOR := Func(Builtin("Object"))

  /** `!!v` */
  predicate Truthy(v: JsValue) {
    match v
    case Undefined => false
    case Null => false
    case Bool(b) => b
    case Num(n) => n != 0
    case Str(s) => s != ""
    case _ => true
  }

  predicate Nullish(v: JsValue) {
    v == Undefined || v == Null
  }

  /** `typeof v` */
  function TypeOf(v: JsValue): string {
    match v
    case Undefined => "undefined"
    case Bool(_) => "boolean"
    case Num(_) => "number"
    case Str(_) => "string"
    case Func(_) => "function"
    case _ => "object"
  }

  // ---------------------------------------------------------------------------
  // Ordered fields: the own properties of an object, in insertion order.

  function Names(fields: seq<Field>): seq<string> {
    if fields == [] then [] else [fields[0].name] + Names(fields[1..])
  }

  predicate DistinctNames(fields: seq<Field>) {
    forall i, j :: 0 <= i < j < |fields| ==> fields[i].name != fields[j].name
  }

  /** `o[name]` on own fields: the first field so named, as JavaScript objects hold at most one. */
  function Lookup(fields: seq<Field>, name: string): (r: Option<JsValue>)
    ensures r.Some? <==> name in Names(fields)
  {
    if fields == [] then None
    else if fields[0].name == name then Some(fields[0].value)
    else Lookup(fields[1..], name)
  }

  /** `o[name] = value`: an existing field keeps its place, a new one goes last. */
  function Put(fields: seq<Field>, name: string, value: JsValue): (r: seq<Field>)
    ensures Names(r) == if name in Names(fields) then Names(fields) else Names(fields) + [name]
    ensures Lookup(r, name) == Some(value)
    ensures forall other :: other != name ==> Lookup(r, other) == Lookup(fields, other)
  {
    if fields == [] then [Field(name, value)]
    else if fields[0].name == name then [Field(name, value)] + fields[1..]
    else [fields[0]] + Put(fields[1..], name, value)
  }

  /** `o[name]`: the value of the field so named, or `undefined`. */
  function Member(fields: seq<Field>, name: string): JsValue {
    match Lookup(fields, name)
    case Some(v) => v
    case None => Undefined
  }

  /** A primitive: compared by value under `===`, where objects and functions are compared by identity. */
  predicate Primitive(v: JsValue) {
    v.Undefined? || v.Null? || v.Bool? || v.Num? || v.Str?
  }

  lemma {:induction false} PutFresh(fields: seq<Field>, name: string, value: JsValue)
    requires name !in Names(fields)
    ensures Put(fields, name, value) == fields + [Field(name, value)]
  {
    if fields != [] {
      PutFresh(fields[1..], name, value);
    }
  }

  lemma {:induction false} NamesDistinct(fields: seq<Field>)
    requires DistinctNames(fields) && fields != []
    ensures fields[0].name !in Names(fields[1..])
    ensures DistinctNames(fields[1..])
  {
    NamesIndex(fields[1..], fields[0].name);
  }

  lemma {:induction false} NamesIndex(fields: seq<Field>, name: string)
    ensures name in Names(fields) <==> exists i :: 0 <= i < |fields| && fields[i].name == name
  {
    if fields != [] {
      NamesIndex(fields[1..], name);
      if name in Names(fields[1..]) {
        var i :| 0 <= i < |fields[1..]| && fields[1..][i].name == name;
        assert fields[i + 1].name == name;
      }
      if exists i :: 0 <= i < |fields| && fields[i].name == name {
        var i :| 0 <= i < |fields| && fields[i].name == name;
        if i > 0 {
          assert fields[1..][i - 1].name == name;
        }
      }
    }
  }

  /** In fields with distinct names, the field at `i` is the one found by its name. */
  lemma {:induction false} LookupDistinct(fields: seq<Field>, i: nat)
    requires DistinctNames(fields) && i < |fields|
    ensures Lookup(fields, fields[i].name) == Some(fields[i].value)
  {
    if i > 0 {
      assert fields[1..][i - 1] == fields[i];
      LookupDistinct(fields[1..], i - 1);
    }
  }

  // ---------------------------------------------------------------------------
  // Property reads made by the duck-typed checks.

  /**
   * `v[name]`, for the names the checks read: own fields first, then what the
   * prototype provides (`constructor` always; `call` and `apply` for functions).
   * Reading a property of null or undefined throws, so it is excluded here.
   */
  function Prop(v: JsValue, name: string): Option<JsValue>
    requires !Nullish(v)
  {
    match v
    case Obj(fields) =>
      if name in Names(fields) then Lookup(fields, name)
      else if name == "constructor" then Some(OBJECT_CONSTRUCTOR) else None
    case Instance(cls, fields) =>
      if name in Names(fields) then Lookup(fields, name)
      else if name == "constructor" then Some(Func(ClassConstructor(cls))) else None
    case Func(_) =>
      if name == "constructor" then Some(Func(Builtin("Function")))
      else if name == "call" || name == "apply" then Some(Func(Builtin(name)))
      else None
    case _ =>
      if name == "constructor" then Some(Func(Builtin(
        match v
        case Arr(_) => "Array"
        case Bool(_) => "Boolean"
        case Num(_) => "Number"
        case _ => "String")))
      else None
  }

  /** Truthiness of `v[name]` (an absent property reads as `undefined`). */
  predicate PropTruthy(v: JsValue, name: string)
    requires !Nullish(v)
  {
    var p := Prop(v, name);
    p.Some? && Truthy(p.value)
  }

  /** `v.hasOwnProperty(name)` for a name that is not an array index nor `length`. */
  predicate HasOwnNamed(v: JsValue, name: string) {
    match v
    case Obj(fields) => name in Names(fields)
    case Instance(_, fields) => name in Names(fields)
    case _ => false
  }

  // ---------------------------------------------------------------------------
  // String conversion, as in a template literal `${v}`.

  function DisplayString(v: JsValue): string {
    match v
    case Undefined => "undefined"
    case Null => "null"
    case Bool(b) => if b then "true" else "false"
    case Num(n) => Text.NumberText(n)
    case Str(s) => s
    case StrObject(s) => s
    case Arr(elems) => ElementsDisplay(elems)
    case Func(_) => "function"
    case _ => "[object Object]"
  }

  /** `Array.prototype.join(',')`: null and undefined elements show as empty text. */
  function ElementsDisplay(elems: seq<JsValue>): string {
    if elems == [] then ""
    else
      var first := if Nullish(elems[0]) then "" else DisplayString(elems[0]);
      if |elems| == 1 then first else first + "," + ElementsDisplay(elems[1..])
  }

  // ---------------------------------------------------------------------------
  // String conversion that can throw: own `toString` and `valueOf` properties.

  const TO_PRIMITIVE_ERROR := "Cannot convert object to primitive value"

  /**
   * An object literal whose own properties leave `${o}` no primitive: its own
   * `toString` is not callable, so OrdinaryToPrimitive skips it, and its
   * `valueOf` is either not callable (skipped too) or is the prototype's,
   * which gives back the object itself.
   */
  predicate NoPrimitive(fields: seq<Field>) {
    var toString := Lookup(fields, "toString");
    var valueOf := Lookup(fields, "valueOf");
    toString.Some? && !toString.value.Func? && !(valueOf.Some? && valueOf.value.Func?)
  }

  /**
   * `${v}`, where an object's own properties can make the conversion throw.
   * An object literal runs OrdinaryToPrimitive with hint string: `toString`,
   * then `valueOf`, each skipped when not callable, the first primitive
   * result taken, a TypeError when there is none. The prototype's `toString`
   * gives `[object Object]`. An array is joined, converting each element the
   * same way. An own callable `toString` or `valueOf` is user code, which no
   * value read back from JSON holds; it is taken as the prototype's.
   */
  function TemplateString(v: JsValue): (r: Result<string>)
    ensures r.Ok? ==> r.value == DisplayString(v)
    ensures !v.Obj? && !v.Arr? ==> r.Ok?
    ensures v.Obj? ==> (r.Err? <==> NoPrimitive(v.fields))
    ensures r.Err? ==> r.error == TypeError(TO_PRIMITIVE_ERROR)
  {
    match v
    case Obj(fields) =>
      if NoPrimitive(fields) then Err(TypeError(TO_PRIMITIVE_ERROR)) else Ok("[object Object]")
    case Arr(elems) => ElementsTemplate(elems)
    case _ => Ok(DisplayString(v))
  }

  /** `Array.prototype.join(',')` with elements converted by `TemplateString`, left to right. */
  function ElementsTemplate(elems: seq<JsValue>): (r: Result<string>)
    ensures r.Ok? ==> r.value == ElementsDisplay(elems)
    ensures r.Err? ==> r.error == TypeError(TO_PRIMITIVE_ERROR)
  {
    if elems == [] then Ok("")
    else
      var first :- if Nullish(elems[0]) then Ok("") else TemplateString(elems[0]);
      if |elems| == 1 then Ok(first)
      else
        var rest :- ElementsTemplate(elems[1..]);
        Ok(first + "," + rest)
  }

  /** Joining an array throws exactly when converting one of its non-nullish elements does. */
  lemma {:induction false} ElementsTemplateFails(elems: seq<JsValue>)
    ensures ElementsTemplate(elems).Err? <==>
      exists i :: 0 <= i < |elems| && !Nullish(elems[i]) && TemplateString(elems[i]).Err?
  {
    if elems != [] {
      ElementsTemplateFails(elems[1..]);
      if exists i :: 0 <= i < |elems[1..]| && !Nullish(elems[1..][i]) && TemplateString(elems[1..][i]).Err? {
        var i :| 0 <= i < |elems[1..]| && !Nullish(elems[1..][i]) && TemplateString(elems[1..][i]).Err?;
        assert elems[i + 1] == elems[1..][i];
      }
      if exists i :: 0 <= i < |elems| && !Nullish(elems[i]) && TemplateString(elems[i]).Err? {
        var i :| 0 <= i < |elems| && !Nullish(elems[i]) && TemplateString(elems[i]).Err?;
        if i > 0 {
          assert elems[1..][i - 1] == elems[i];
        }
      }
    }
  }

  /**
   * For an object whose fields hold no function, as every object read back
   * from JSON, `${o}` throws exactly when it has an own `toString`.
   */
  lemma ObjectTemplateFails(fields: seq<Field>)
    requires forall i :: 0 <= i < |fields| ==> !fields[i].value.Func?
    ensures TemplateString(Obj(fields)).Err? <==> "toString" in Names(fields)
  {
    LookupIndex(fields, "toString");
    LookupIndex(fields, "valueOf");
  }

  /** A field found by name is one of the fields. */
  lemma {:induction false} LookupIndex(fields: seq<Field>, name: string)
    ensures Lookup(fields, name).Some? ==> exists i :: 0 <= i < |fields| && fields[i].value == Lookup(fields, name).value
  {
    if fields != [] && fields[0].name != name {
      LookupIndex(fields[1..], name);
      if Lookup(fields, name).Some? {
        var i :| 0 <= i < |fields[1..]| && fields[1..][i].value == Lookup(fields, name).value;
        assert fields[i + 1] == fields[1..][i];
      }
    }
  }
}
