/**
 * Svelte writable stores, and the two decorators that keep a set of methods
 * in a store's value (src/util/bindStoreValueMethods.js and its earlier twin
 * src/util/applyStoreValueMethods.js). A decorator replaces the store's `set`
 * and `update` so that every new value is `{...value, ...methods}`; here the
 * replaced store is a `MethodStore` over the same cell.
 */
module Stores {
  import opened Js
  import Text
  import TypeCheck

  /** A Svelte `writable`: `set` replaces the value, `update` applies a callback to it. */
  class Writable {
    var value: JsValue

    constructor (initial: JsValue)
      ensures value == initial
    {
      value := initial;
    }

    method Set(v: JsValue)
      modifies this
      ensures value == v
    {
      value := v;
    }

    method Update(callback: JsValue -> JsValue)
      modifies this
      ensures value == callback(old(value))
    {
      value := callback(value);
    }
  }

  // ---------------------------------------------------------------------------
  // Object spread

  /**
   * The own enumerable properties `{...v}` copies: an object's fields, the
   * elements of an array or the characters of a string under their indexes,
   * and nothing for the other values.
   */
  function Spread(v: JsValue): seq<Field> {
    match v
    case Obj(fields) => fields
    case Instance(_, fields) => fields
    case Arr(elems) => Indexed(elems, 0)
    case Str(s) => Indexed(Chars(s), 0)
    case StrObject(s) => Indexed(Chars(s), 0)
    case _ => []
  }

  /** Each character of a string, as a one-character string. */
  function Chars(s: string): (r: seq<JsValue>)
    ensures |r| == |s|
  {
    if s == [] then [] else [Str([s[0]])] + Chars(s[1..])
  }

  /** `values` as fields named by their indexes, counting from `from`. */
  function Indexed(values: seq<JsValue>, from: nat): (r: seq<Field>)
    ensures |r| == |values|
  {
    if values == [] then [] else [Field(Text.NatText(from), values[0])] + Indexed(values[1..], from + 1)
  }

  /** `{...fields, ...extra}`: each field of `extra` in turn is put into `fields`. */
  function PutAll(fields: seq<Field>, extra: seq<Field>): (r: seq<Field>)
    ensures forall n :: n in Names(r) <==> n in Names(fields) || n in Names(extra)
    decreases |extra|
  {
    if extra == [] then fields else PutAll(Put(fields, extra[0].name, extra[0].value), extra[1..])
  }

  /** `{...value, ...methods}` */
  function WithMethods(value: JsValue, methods: seq<Field>): JsValue {
    Obj(PutAll(Spread(value), methods))
  }

  /** Every method is in `fields`, under its name. */
  predicate Holds(fields: seq<Field>, methods: seq<Field>) {
    forall i :: 0 <= i < |methods| ==> Lookup(fields, methods[i].name) == Some(methods[i].value)
  }

  /** A name none of `extra` carries keeps its value: the other keys of the value are kept. */
  lemma {:induction false} PutAllOther(fields: seq<Field>, extra: seq<Field>, name: string)
    requires name !in Names(extra)
    ensures Lookup(PutAll(fields, extra), name) == Lookup(fields, name)
    decreases |extra|
  {
    if extra != [] {
      assert Names(extra) == [extra[0].name] + Names(extra[1..]);
      PutAllOther(Put(fields, extra[0].name, extra[0].value), extra[1..], name);
    }
  }

  /** After the merge, every method is in the value: method keys override the value's own. */
  lemma {:induction false} PutAllHolds(fields: seq<Field>, methods: seq<Field>)
    requires DistinctNames(methods)
    ensures Holds(PutAll(fields, methods), methods)
    decreases |methods|
  {
    if methods != [] {
      NamesDistinct(methods);
      var first := Put(fields, methods[0].name, methods[0].value);
      PutAllHolds(first, methods[1..]);
      PutAllOther(first, methods[1..], methods[0].name);
      var r := PutAll(fields, methods);
      forall i | 0 <= i < |methods|
        ensures Lookup(r, methods[i].name) == Some(methods[i].value)
      {
        if i > 0 {
          assert methods[i] == methods[1..][i - 1];
        }
      }
    }
  }

  /** Putting the value a field already has changes nothing. */
  lemma {:induction false} PutSame(fields: seq<Field>, name: string, value: JsValue)
    requires Lookup(fields, name) == Some(value)
    ensures Put(fields, name, value) == fields
  {
    if fields[0].name != name {
      PutSame(fields[1..], name, value);
    }
  }

  /** Merging methods a value holds already leaves it as it is. */
  lemma {:induction false} PutAllHeld(fields: seq<Field>, methods: seq<Field>)
    requires Holds(fields, methods)
    ensures PutAll(fields, methods) == fields
    decreases |methods|
  {
    if methods != [] {
      PutSame(fields, methods[0].name, methods[0].value);
      assert Holds(fields, methods[1..]) by {
        forall i | 0 <= i < |methods[1..]|
          ensures Lookup(fields, methods[1..][i].name) == Some(methods[1..][i].value)
        {
          assert methods[1..][i] == methods[i + 1];
        }
      }
      PutAllHeld(fields, methods[1..]);
    }
  }

  /**
   * The merge is idempotent: re-merging the same methods leaves the value
   * unchanged, so the decorators' identity update at construction and every
   * later `set` agree.
   */
  lemma WithMethodsIdempotent(value: JsValue, methods: seq<Field>)
    requires DistinctNames(methods)
    ensures WithMethods(WithMethods(value, methods), methods) == WithMethods(value, methods)
  {
    PutAllHolds(Spread(value), methods);
    PutAllHeld(PutAll(Spread(value), methods), methods);
  }

  /** What `set(v)` of a decorated store keeps: the methods, and every other own field of `v`. */
  lemma WithMethodsLookup(value: JsValue, methods: seq<Field>, name: string)
    requires DistinctNames(methods)
    ensures name in Names(methods) ==> Lookup(WithMethods(value, methods).fields, name) == Lookup(methods, name)
    ensures name !in Names(methods) ==> Lookup(WithMethods(value, methods).fields, name) == Lookup(Spread(value), name)
  {
    if name in Names(methods) {
      NamesIndex(methods, name);
      var i :| 0 <= i < |methods| && methods[i].name == name;
      PutAllHolds(Spread(value), methods);
      LookupDistinct(methods, i);
    } else {
      PutAllOther(Spread(value), methods, name);
    }
  }

  // ---------------------------------------------------------------------------
  // The two decorators

  const BIND_PREFIX := "bindStoreValueMethods() parameter violation: "
  const APPLY_PREFIX := "applyStoreValueMethods() parameter violation: "

  /**
   * The checks of `bindStoreValueMethods(store, methods)`, in order; `store`
   * is the argument as a JavaScript value and `value` the store's value.
   */
  function CheckBind(store: JsValue, value: JsValue, methods: JsValue): (r: Outcome)
    ensures r.Pass? <==> Truthy(store) && TypeCheck.IsSvelteWritable(store) && TypeCheck.IsPlainObject(value)
                         && TypeCheck.IsPlainObject(methods)
    ensures r.Fail? ==> r.error.ParamViolation? && BIND_PREFIX <= r.error.message
    ensures Truthy(store) && TypeCheck.IsSvelteWritable(store) && !TypeCheck.IsPlainObject(value) ==>
      r == Fail(ParamViolation(BIND_PREFIX + "store-value must be a plain object - in order to bind the methods"))
  {
    if !Truthy(store) then Fail(ParamViolation(BIND_PREFIX + "store is required"))
    else if !TypeCheck.IsSvelteWritable(store) then Fail(ParamViolation(BIND_PREFIX + "store must be a svelte Writable store"))
    else if !TypeCheck.IsPlainObject(value) then
      Fail(ParamViolation(BIND_PREFIX + "store-value must be a plain object - in order to bind the methods"))
    else if !Truthy(methods) then Fail(ParamViolation(BIND_PREFIX + "methods is required"))
    else if !TypeCheck.IsPlainObject(methods) then
      Fail(ParamViolation(BIND_PREFIX + "methods must be a plain object with name/method (key/value) pairs"))
    else Pass
  }

  /**
   * The checks of `applyStoreValueMethods(store, methods)`, in order: the
   * store needs truthy `subscribe`, `set` and `update`, and its value is not
   * checked.
   */
  function CheckApply(store: JsValue, methods: JsValue): (r: Outcome)
    ensures r.Pass? <==> Truthy(store) && TypeCheck.IsSvelteWritable(store) && TypeCheck.IsPlainObject(methods)
    ensures r.Fail? ==> r.error.ParamViolation? && APPLY_PREFIX <= r.error.message
  {
    if !Truthy(store) then Fail(ParamViolation(APPLY_PREFIX + "store is required"))
    else if !(PropTruthy(store, "subscribe") && PropTruthy(store, "set") && PropTruthy(store, "update")) then
      Fail(ParamViolation(APPLY_PREFIX + "store must be svelte store"))
    else if !Truthy(methods) then Fail(ParamViolation(APPLY_PREFIX + "methods is required"))
    else if !TypeCheck.IsPlainObject(methods) then
      Fail(ParamViolation(APPLY_PREFIX + "methods must be a plain object with name/method (key/value) pairs"))
    else Pass
  }

  /** A store whose `set` and `update` merge `methods` into every new value. */
  class MethodStore {
    /** The store's cell, which the original `set`/`update` write. */
    const cell: Writable
    const methods: seq<Field>

    /** The value is an object holding every method (for methods with distinct names, as objects have). */
    predicate Valid()
      reads this, cell
    {
      cell.value.Obj? && (DistinctNames(methods) ==> Holds(cell.value.fields, methods))
    }

    constructor (cell: Writable, methods: seq<Field>)
      ensures this.cell == cell && this.methods == methods
    {
      this.cell := cell;
      this.methods := methods;
    }

    /** The decorated `set(value)`: stores `{...value, ...methods}`. */
    method Set(value: JsValue)
      modifies cell
      ensures cell.value == WithMethods(value, methods)
      ensures Valid()
    {
      if DistinctNames(methods) {
        PutAllHolds(Spread(value), methods);
      }
      cell.Set(WithMethods(value, methods));
    }

    /** The decorated `update(callback)`: stores `{...callback(value), ...methods}`. */
    method Update(callback: JsValue -> JsValue)
      modifies cell
      ensures cell.value == WithMethods(callback(old(cell.value)), methods)
      ensures Valid()
    {
      var v := callback(cell.value);
      if DistinctNames(methods) {
        PutAllHolds(Spread(v), methods);
      }
      cell.Set(WithMethods(v, methods));
    }
  }

  /**
   * The decoration both decorators share, once their checks passed: replace
   * `set`/`update`, then run the identity update so the current value holds
   * the methods. The same store comes back.
   */
  method Decorate(cell: Writable, methods: seq<Field>) returns (r: MethodStore)
    modifies cell
    ensures r.cell == cell && r.methods == methods && r.Valid()
    ensures cell.value == WithMethods(old(cell.value), methods)
  {
    r := new MethodStore(cell, methods);
    r.Update(v => v);
  }

  /**
   * `bindStoreValueMethods(store, methods)`: `store` is the argument as its
   * checks see it and `cell` the writable it denotes.
   */
  method BindStoreValueMethods(store: JsValue, cell: Writable, methods: JsValue) returns (r: Result<MethodStore>)
    modifies cell
    ensures var c := CheckBind(store, old(cell.value), methods);
      (c.Fail? ==> r == Err(c.error) && cell.value == old(cell.value)) &&
      (c.Pass? ==> r.Ok? && r.value.cell == cell && r.value.methods == methods.fields && r.value.Valid()
                   && cell.value == WithMethods(old(cell.value), methods.fields))
  {
    var c := CheckBind(store, cell.value, methods);
    if c.Fail? {
      return Err(c.error);
    }
    var decorated := Decorate(cell, methods.fields);
    r := Ok(decorated);
  }

  /** `applyStoreValueMethods(store, methods)`: as `BindStoreValueMethods`, without the store-value check. */
  method ApplyStoreValueMethods(store: JsValue, cell: Writable, methods: JsValue) returns (r: Result<MethodStore>)
    modifies cell
    ensures var c := CheckApply(store, methods);
      (c.Fail? ==> r == Err(c.error) && cell.value == old(cell.value)) &&
      (c.Pass? ==> r.Ok? && r.value.cell == cell && r.value.methods == methods.fields && r.value.Valid()
                   && cell.value == WithMethods(old(cell.value), methods.fields))
  {
    var c := CheckApply(store, methods);
    if c.Fail? {
      return Err(c.error);
    }
    var decorated := Decorate(cell, methods.fields);
    r := Ok(decorated);
  }
}
