/**
 * The codec of src/util/encoder.js: `encode` turns a value into a string
 * that says how to turn it back, and `decode` reverses it.
 *
 * Layers, outermost first: the safeguard marker `afesa` before base64 text;
 * the JSON marker `asonja` before JSON text; a wrapper object `{apwra: v}`
 * around anything that is not a plain object; and the sentinel
 * `__undefined__` for `undefined`. Strings are stored as they are, so a string
 * that already looks like one of these layers is not given back.
 */
module Encoder {
  import opened Js
  import TypeCheck
  import Json
  import Base64
  import Text

  const JSON_MARKER := "asonja"
  const SAFEGUARD_MARKER := "afesa"
  const UNDEFINED_MARKER := "__undefined__"
  const WRAPPER_KEY := "apwra"
  /** The method the wrapper test calls on the parsed result. */
  const HAS_OWN := "hasOwnProperty"

  /** Which base64 primitives the browser offers. */
  datatype Platform = Platform(hasBtoa: bool, hasAtob: bool)

  const ENCODE_VIOLATION := "encode() parameter violation: "

  // ---------------------------------------------------------------------------
  // encode

  /** What `encode` refuses: functions and class-based objects. */
  predicate Encodable(ref: JsValue) {
    !(TypeCheck.IsFunction(ref) || TypeCheck.IsClassObject(ref))
  }

  /** The encoding before any safeguard. */
  function Layered(ref: JsValue): string {
    if ref.Str? then ref.s
    else if ref.Undefined? then UNDEFINED_MARKER
    else if TypeCheck.IsPlainObject(ref) then JSON_MARKER + Json.Stringify(ref)
    else JSON_MARKER + Json.Stringify(Obj([Field(WRAPPER_KEY, ref)]))
  }

  function Obfuscate(str: string, platform: Platform): (r: Result<string>)
    ensures !platform.hasBtoa ==> r.Err? && r.error.NotSupported?
    ensures platform.hasBtoa ==> r == Base64.Btoa(str)
  {
    if !platform.hasBtoa then Err(NotSupported("*** ERROR *** encode(): obfuscation NOT supported by this browser (btoa)."))
    else Base64.Btoa(str)
  }

  function Deobfuscate(str: string, platform: Platform): (r: Result<string>)
    ensures !platform.hasAtob ==> r.Err? && r.error.NotSupported?
    ensures platform.hasAtob ==> r == Base64.Atob(str)
  {
    if !platform.hasAtob then Err(NotSupported("*** ERROR *** decode(): de-obfuscation NOT supported by this browser (atob)."))
    else Base64.Atob(str)
  }

  /** An omitted `safeguard` argument defaults to `false`. */
  function SafeguardArg(safeguard: JsValue): JsValue {
    if safeguard.Undefined? then Bool(false) else safeguard
  }

  /** `encode(ref, safeguard)` */
  function Encode(ref: JsValue, safeguard: JsValue, platform: Platform): (r: Result<string>)
    ensures !Encodable(ref) ==> r.Err? && r.error.ParamViolation?
    ensures Encodable(ref) && !SafeguardArg(safeguard).Bool? ==> r.Err? && r.error.ParamViolation?
    ensures Encodable(ref) && SafeguardArg(safeguard) == Bool(false) ==> r == Ok(Layered(ref))
    ensures Encodable(ref) && safeguard == Bool(true) ==>
      (!platform.hasBtoa ==> r.Err? && r.error.NotSupported?) &&
      (platform.hasBtoa && Base64.Latin1(Layered(ref)) ==> r == Ok(SAFEGUARD_MARKER + Base64.Encode(Layered(ref)))) &&
      (!Base64.Latin1(Layered(ref)) ==> r.Err?)
  {
    if !Encodable(ref) then
      Err(ParamViolation(ENCODE_VIOLATION + "ref can be ANY type BUT a function or a class-based object)"))
    else
      var sg := SafeguardArg(safeguard);
      if !TypeCheck.IsBoolean(sg) then
        Err(ParamViolation(ENCODE_VIOLATION + "safeguard must be a boolean (true/false), NOT: "))
      else if sg.b then
        var obfuscated :- Obfuscate(Layered(ref), platform);
        Ok(SAFEGUARD_MARKER + obfuscated)
      else Ok(Layered(ref))
  }

  /** Omitting `safeguard` is passing `false`. */
  lemma SafeguardDefault(ref: JsValue, safeguard: JsValue, platform: Platform)
    ensures Encode(ref, safeguard, platform) == Encode(ref, SafeguardArg(safeguard), platform)
  {
  }

  // ---------------------------------------------------------------------------
  // decode, one layer at a time

  /** A leading safeguard marker: the rest is base64 text. */
  function UnwindSafeguard(text: string, platform: Platform): (r: Result<Option<string>>)
    ensures !Text.StartsWith(text, SAFEGUARD_MARKER) ==> r == Ok(None)
  {
    if Text.StartsWith(text, SAFEGUARD_MARKER) then
      var clear :- Deobfuscate(text[|SAFEGUARD_MARKER|..], platform);
      Ok(Some(clear))
    else Ok(None)
  }

  /** A leading JSON marker: the rest is JSON text. */
  function UnwindJson(result: JsValue): (r: Result<JsValue>)
    requires result.Str? || result.StrObject?
    ensures !Text.StartsWith(result.s, JSON_MARKER) ==> r == Ok(result)
  {
    if Text.StartsWith(result.s, JSON_MARKER) then Json.Parse(result.s[|JSON_MARKER|..]) else Ok(result)
  }

  /**
   * `result && result.hasOwnProperty('apwra')`: a truthy result with an own
   * `apwra` property stands for that property's value. The test calls the
   * result's own `hasOwnProperty` when it has one; parsed JSON holds no
   * function, so such an own property is not callable and the call throws.
   */
  function UnwindWrapper(result: JsValue): (r: Result<JsValue>)
    ensures !HasOwnNamed(result, WRAPPER_KEY) && !HasOwnNamed(result, HAS_OWN) ==> r == Ok(result)
    ensures Json.JsonValue(result) && HasOwnNamed(result, HAS_OWN) ==> r.Err? && r.error.TypeError?
    ensures Json.JsonValue(result) && !HasOwnNamed(result, HAS_OWN) && HasOwnNamed(result, WRAPPER_KEY) ==>
              r == Ok(Lookup(result.fields, WRAPPER_KEY).value)
  {
    Json.MemberJson(result, HAS_OWN);
    if Truthy(result) && HasOwnNamed(result, HAS_OWN) && !Lookup(result.fields, HAS_OWN).value.Func? then
      Err(TypeError("result.hasOwnProperty is not a function"))
    else if Truthy(result) && HasOwnNamed(result, WRAPPER_KEY) then Ok(Lookup(result.fields, WRAPPER_KEY).value)
    else Ok(result)
  }

  /** The sentinel stands for `undefined`. */
  function UnwindUndefined(result: JsValue): (r: JsValue)
    ensures r.Undefined? <==> result.Undefined? || result == Str(UNDEFINED_MARKER)
    ensures !r.Undefined? ==> r == result
  {
    if result == Str(UNDEFINED_MARKER) then Undefined else result
  }

  /** The last three layers: JSON text, the wrapper, and the sentinel. */
  function DecodeClear(result: JsValue): (r: Result<JsValue>)
    requires result.Str? || result.StrObject?
    ensures !Text.StartsWith(result.s, JSON_MARKER) ==> r == Ok(UnwindUndefined(result))
  {
    var parsed :- UnwindJson(result);
    var unwrapped :- UnwindWrapper(parsed);
    Ok(UnwindUndefined(unwrapped))
  }

  /** `decode(ref)` */
  function Decode(ref: JsValue, platform: Platform): (r: Result<JsValue>)
    ensures !TypeCheck.IsString(ref) ==> r == Ok(ref)
    ensures TypeCheck.IsString(ref) && !Text.StartsWith(ref.s, SAFEGUARD_MARKER) ==> r == DecodeClear(ref)
  {
    if !TypeCheck.IsString(ref) then Ok(ref)
    else
      var clear :- UnwindSafeguard(ref.s, platform);
      DecodeClear(if clear.Some? then Str(clear.value) else ref)
  }

  // ---------------------------------------------------------------------------
  // Properties

  /** A string that carries no marker and is not the sentinel decodes to itself. */
  lemma PlainStringPassesThrough(s: string, platform: Platform)
    requires !Text.StartsWith(s, SAFEGUARD_MARKER) && !Text.StartsWith(s, JSON_MARKER)
    requires s != UNDEFINED_MARKER
    ensures Decode(Str(s), platform) == Ok(Str(s))
  {
  }

  /** Any string is its own encoding when not safeguarded. */
  lemma StringEncodesToItself(s: string, platform: Platform)
    ensures Encode(Str(s), Bool(false), platform) == Ok(s)
    ensures Encode(Str(s), Undefined, platform) == Ok(s)
  {
  }

  /** `undefined` encodes to the sentinel, and the sentinel decodes to `undefined`. */
  lemma UndefinedSentinel(platform: Platform)
    ensures Encode(Undefined, Bool(false), platform) == Ok(UNDEFINED_MARKER)
    ensures Decode(Str(UNDEFINED_MARKER), platform) == Ok(Undefined)
  {
    Text.DiffersAt(UNDEFINED_MARKER, SAFEGUARD_MARKER, 0);
    Text.DiffersAt(UNDEFINED_MARKER, JSON_MARKER, 0);
  }

  /**
   * The values `decode(encode(ref))` gives back: anything `encode` accepts,
   * provided
   *  - a string carries no JSON marker, no safeguard marker unless it is
   *    safeguarded, and is not the sentinel;
   *  - anything else but `undefined` survives JSON, and a plain object has
   *    no own `apwra` property and no own `hasOwnProperty` property;
   *  - a safeguarded encoding is a binary string and the browser has both
   *    base64 primitives.
   */
  predicate RoundTrips(ref: JsValue, safeguarded: bool, platform: Platform) {
    Encodable(ref)
    && (ref.Str? ==>
          !Text.StartsWith(ref.s, JSON_MARKER) && ref.s != UNDEFINED_MARKER
          && (!safeguarded ==> !Text.StartsWith(ref.s, SAFEGUARD_MARKER)))
    && (!ref.Str? && !ref.Undefined? ==> Json.JsonValue(ref) && !HasOwnNamed(ref, WRAPPER_KEY) && !HasOwnNamed(ref, HAS_OWN))
    && (safeguarded ==> Base64.Latin1(Layered(ref)) && platform.hasBtoa && platform.hasAtob)
  }

  /** A value other than a string or `undefined` goes through JSON and comes back. */
  lemma {:induction false} JsonLayerRoundTrip(ref: JsValue)
    requires Encodable(ref) && !ref.Str? && !ref.Undefined?
    requires Json.JsonValue(ref) && !HasOwnNamed(ref, WRAPPER_KEY) && !HasOwnNamed(ref, HAS_OWN)
    ensures Text.StartsWith(Layered(ref), JSON_MARKER)
    ensures !Text.StartsWith(Layered(ref), SAFEGUARD_MARKER)
    ensures DecodeClear(Str(Layered(ref))) == Ok(ref)
  {
    var inner := if TypeCheck.IsPlainObject(ref) then ref else Obj([Field(WRAPPER_KEY, ref)]);
    JsonInner(ref, inner);
    var text := Json.Stringify(inner);
    assert Layered(ref) == JSON_MARKER + text;
    hide Layered, Encodable, TypeCheck.IsPlainObject, UnwindWrapper;
    JsonText(text);
    Json.RoundTrip(inner);
    hide Json.Stringify, Json.Parse, Json.JsonValue;
    assert UnwindJson(Str(Layered(ref))) == Ok(inner);
  }

  /** What the JSON layer stringifies: the value itself or its wrapper, which unwinds back to it. */
  lemma JsonInner(ref: JsValue, inner: JsValue)
    requires !ref.Str? && !ref.Undefined?
    requires Json.JsonValue(ref) && !HasOwnNamed(ref, WRAPPER_KEY) && !HasOwnNamed(ref, HAS_OWN)
    requires inner == if TypeCheck.IsPlainObject(ref) then ref else Obj([Field(WRAPPER_KEY, ref)])
    ensures Json.JsonValue(inner) && UnwindWrapper(inner) == Ok(ref)
  {
    if !TypeCheck.IsPlainObject(ref) {
      assert inner.fields[0].value == ref;
      assert Lookup(inner.fields, WRAPPER_KEY) == Some(ref);
    }
  }

  /** Text behind the JSON marker starts with that marker and not with the safeguard's. */
  lemma JsonText(text: string)
    ensures Text.StartsWith(JSON_MARKER + text, JSON_MARKER)
    ensures !Text.StartsWith(JSON_MARKER + text, SAFEGUARD_MARKER)
    ensures (JSON_MARKER + text)[|JSON_MARKER|..] == text
  {
    assert (JSON_MARKER + text)[..|JSON_MARKER|] == JSON_MARKER;
    Text.DiffersAt(JSON_MARKER + text, SAFEGUARD_MARKER, 1);
  }

  /** A string is its own layered text. */
  lemma StringLayerRoundTrip(s: string, safeguarded: bool)
    requires !Text.StartsWith(s, JSON_MARKER) && s != UNDEFINED_MARKER
    requires !safeguarded ==> !Text.StartsWith(s, SAFEGUARD_MARKER)
    ensures DecodeClear(Str(Layered(Str(s)))) == Ok(Str(s))
    ensures !safeguarded ==> !Text.StartsWith(Layered(Str(s)), SAFEGUARD_MARKER)
  {
    assert Layered(Str(s)) == s;
  }

  /** `undefined` is layered as the sentinel alone. */
  lemma UndefinedLayerRoundTrip()
    ensures DecodeClear(Str(Layered(Undefined))) == Ok(Undefined)
    ensures !Text.StartsWith(Layered(Undefined), SAFEGUARD_MARKER)
  {
    assert Layered(Undefined) == UNDEFINED_MARKER;
    Text.DiffersAt(UNDEFINED_MARKER, SAFEGUARD_MARKER, 0);
    Text.DiffersAt(UNDEFINED_MARKER, JSON_MARKER, 0);
  }

  /** The text before any safeguard decodes to the value. */
  lemma LayeredRoundTrip(ref: JsValue, safeguarded: bool, platform: Platform)
    requires RoundTrips(ref, safeguarded, platform)
    ensures DecodeClear(Str(Layered(ref))) == Ok(ref)
    ensures !safeguarded ==> !Text.StartsWith(Layered(ref), SAFEGUARD_MARKER)
  {
    if ref.Str? {
      StringLayerRoundTrip(ref.s, safeguarded);
    } else if ref.Undefined? {
      UndefinedLayerRoundTrip();
    } else {
      JsonLayerRoundTrip(ref);
    }
  }

  /**
   * `decode(encode(ref, safeguard)) == ref`, safeguarded or not, for every
   * value the codec can give back.
   */
  lemma RoundTrip(ref: JsValue, safeguard: bool, platform: Platform)
    requires RoundTrips(ref, safeguard, platform)
    ensures Encode(ref, Bool(safeguard), platform).Ok?
    ensures Decode(Str(Encode(ref, Bool(safeguard), platform).value), platform) == Ok(ref)
  {
    var layered := Layered(ref);
    LayeredRoundTrip(ref, safeguard, platform);
    if safeguard {
      var encoded := SAFEGUARD_MARKER + Base64.Encode(layered);
      assert Encode(ref, Bool(true), platform) == Ok(encoded);
      Base64.RoundTrip(layered);
      assert encoded[..|SAFEGUARD_MARKER|] == SAFEGUARD_MARKER;
      assert encoded[|SAFEGUARD_MARKER|..] == Base64.Encode(layered);
      assert UnwindSafeguard(encoded, platform) == Ok(Some(layered));
    }
  }

  // Values that do not come back.

  /** A string that starts with the JSON marker is read as JSON. */
  lemma JsonLookalikeString(platform: Platform)
    ensures Encode(Str("asonja1"), Bool(false), platform) == Ok("asonja1")
    ensures Decode(Str("asonja1"), platform) == Ok(Num(1))
  {
    var s := "asonja1";
    assert s[..|JSON_MARKER|] == JSON_MARKER;
    Text.DiffersAt(s, SAFEGUARD_MARKER, 1);
    assert s[|JSON_MARKER|..] == "1";
    assert Json.Stringify(Num(1)) == "1";
    Json.RoundTrip(Num(1));
  }

  /** The sentinel string itself comes back as `undefined`. */
  lemma SentinelString(platform: Platform)
    ensures Encode(Str(UNDEFINED_MARKER), Bool(false), platform) == Ok(UNDEFINED_MARKER)
    ensures Decode(Str(UNDEFINED_MARKER), platform) == Ok(Undefined)
  {
    UndefinedSentinel(platform);
  }

  /** A plain object with an own `apwra` property comes back as that property's value. */
  lemma WrapperLookalikeObject(platform: Platform)
    ensures Decode(Str(Encode(Obj([Field(WRAPPER_KEY, Num(5))]), Bool(false), platform).value), platform) == Ok(Num(5))
  {
    var o := Obj([Field(WRAPPER_KEY, Num(5))]);
    WrapperLookalikeShape(o);
    hide Decode, Encode, DecodeClear, UnwindWrapper, Json.Stringify, Json.Parse, Json.JsonValue, TypeCheck.IsPlainObject, Encodable;
    JsonLayerRoundTrip2(o, platform);
  }

  lemma WrapperLookalikeShape(o: JsValue)
    requires o == Obj([Field(WRAPPER_KEY, Num(5))])
    ensures o.Obj? && Json.JsonValue(o) && TypeCheck.IsPlainObject(o) && Encodable(o)
    ensures !HasOwnNamed(o, HAS_OWN) && HasOwnNamed(o, WRAPPER_KEY) && Lookup(o.fields, WRAPPER_KEY) == Some(Num(5))
  {
    assert o.fields[0].value == Num(5);
    assert Names(o.fields) == [WRAPPER_KEY];
  }

  lemma JsonLayerRoundTrip2(o: JsValue, platform: Platform)
    requires o.Obj? && Encodable(o) && TypeCheck.IsPlainObject(o) && Json.JsonValue(o)
    ensures Encode(o, Bool(false), platform) == Ok(JSON_MARKER + Json.Stringify(o))
    ensures Decode(Str(JSON_MARKER + Json.Stringify(o)), platform) ==
              if UnwindWrapper(o).Err? then UnwindWrapper(o) else Ok(UnwindUndefined(UnwindWrapper(o).value))
  {
    var text := Json.Stringify(o);
    assert (JSON_MARKER + text)[..|JSON_MARKER|] == JSON_MARKER;
    assert (JSON_MARKER + text)[|JSON_MARKER|..] == text;
    Text.DiffersAt(JSON_MARKER + text, SAFEGUARD_MARKER, 1);
    Json.RoundTrip(o);
  }

  /** A plain object with an own `hasOwnProperty` property encodes, but its decode throws. */
  lemma OwnHasOwnPropertyThrows(o: JsValue, platform: Platform)
    requires Encodable(o) && TypeCheck.IsPlainObject(o) && Json.JsonValue(o) && HasOwnNamed(o, HAS_OWN)
    ensures Encode(o, Bool(false), platform).Ok?
    ensures Decode(Str(Encode(o, Bool(false), platform).value), platform).Err?
  {
    assert o.Obj?;
    assert UnwindWrapper(o).Err?;
    hide Decode, Encode, DecodeClear, UnwindWrapper, Json.Stringify, Json.Parse;
    JsonLayerRoundTrip2(o, platform);
  }

  /** `{hasOwnProperty: 1}` is such an object. */
  lemma OwnHasOwnPropertyExample(platform: Platform)
    ensures Decode(Str(Encode(Obj([Field(HAS_OWN, Num(1))]), Bool(false), platform).value), platform).Err?
  {
    var o := Obj([Field(HAS_OWN, Num(1))]);
    assert Json.JsonValue(o) by {
      assert o.fields[0].value == Num(1);
    }
    assert Names(o.fields) == [HAS_OWN];
    assert TypeCheck.IsPlainObject(o) && Encodable(o);
    OwnHasOwnPropertyThrows(o, platform);
  }

  /** Without a safeguard, a string that starts with the safeguard marker is read as base64. */
  lemma SafeguardLookalikeString(platform: Platform)
    requires platform.hasAtob
    ensures Encode(Str("afesaQQ=="), Bool(false), platform) == Ok("afesaQQ==")
    ensures Decode(Str("afesaQQ=="), platform) == Ok(Str("A"))
  {
    hide *;
    StringEncodesToItself("afesaQQ==", platform);
    LookalikeDecodes("afesaQQ==", platform);
  }

  lemma LookalikeDecodes(s: string, platform: Platform)
    requires s == "afesaQQ==" && platform.hasAtob
    ensures Decode(Str(s), platform) == Ok(Str("A"))
  {
    assert s[..|SAFEGUARD_MARKER|] == SAFEGUARD_MARKER;
    assert s[|SAFEGUARD_MARKER|..] == "QQ==";
    assert Base64.RemoveWhitespace("QQ==") == "QQ==";
    assert Base64.StripPadding("QQ==") == "QQ";
    assert Base64.DecodeSymbols("QQ") == "A";
    Text.DiffersAt("A", JSON_MARKER, 0);
  }

  /** Without `btoa`, a safeguarded encode throws; without `atob`, decoding safeguarded text throws. */
  lemma MissingBase64(ref: JsValue, text: string)
    requires Encodable(ref)
    ensures Encode(ref, Bool(true), Platform(false, true)).Err?
    ensures Decode(Str(SAFEGUARD_MARKER + text), Platform(true, false)).Err?
  {
    assert (SAFEGUARD_MARKER + text)[..|SAFEGUARD_MARKER|] == SAFEGUARD_MARKER;
  }

  /** Marked JSON text that does not parse fails to decode. */
  lemma UnparsedJsonFails(s: string, platform: Platform)
    requires Json.Parse(s).Err?
    ensures Decode(Str(JSON_MARKER + s), platform).Err?
  {
    var t := JSON_MARKER + s;
    assert t[..|JSON_MARKER|] == JSON_MARKER && t[|JSON_MARKER|..] == s;
    Text.DiffersAt(t, SAFEGUARD_MARKER, 1);
  }

  /** `{"a":1}` is written as `asonja{"a":1}`. */
  lemma SmallObjectEncoded(platform: Platform)
    ensures Encode(Obj([Field("a", Num(1))]), Bool(false), platform) == Ok("asonja{\"a\":1}")
  {
    var o := Obj([Field("a", Num(1))]);
    assert Names(o.fields) == ["a"];
    assert TypeCheck.IsPlainObject(o) && Encodable(o);
    assert Json.EscapeString("a") == "a";
    assert Json.Quote("a") == "\"a\"";
    assert Text.NumberText(1) == "1";
    assert Json.Member(o.fields[0]) == "\"a\":1";
    assert Json.Members(o.fields[1..]) == "";
    assert Json.Members(o.fields) == "\"a\":1";
    assert Layered(o) == JSON_MARKER + "{\"a\":1}";
    assert SafeguardArg(Bool(false)) == Bool(false);
    assert Encode(o, Bool(false), platform) == Ok(Layered(o));
    assert JSON_MARKER + "{\"a\":1}" == "asonja{\"a\":1}";
  }
}
