/**
 * The named-parameter structure check that every named-parameter entry point
 * of the persistence engine runs before its own parameter checks: the
 * parameters must come as one plain object, with no extra positional argument
 * and no name the entry point does not know.
 */
module ParamStructure {
  import opened Js
  import Text
  import TypeCheck

  const ONLY_NAMED := "only named parameters may be supplied"

  /**
   * The named parameters an entry point destructures:
   * `isPlainObject(namedParams) ? namedParams : {}`.
   */
  function NamedFields(namedParams: JsValue): (r: seq<Field>)
    ensures r != [] ==> TypeCheck.IsPlainObject(namedParams)
  {
    if TypeCheck.IsPlainObject(namedParams) then namedParams.fields else []
  }

  /**
   * `Object.keys(unknownNamedArgs)`, where `...unknownNamedArgs` is the rest of
   * the destructuring: the own names that are not among the known ones, in
   * order.
   */
  function UnknownNames(fields: seq<Field>, known: seq<string>): (r: seq<string>)
    ensures forall n :: n in r <==> n in Names(fields) && n !in known
    ensures |r| <= |fields|
  {
    if fields == [] then []
    else (if fields[0].name in known then [] else [fields[0].name]) + UnknownNames(fields[1..], known)
  }

  /**
   * The unknown names keep the order of the fields: one more field adds its
   * name at the end exactly when it is not a known one.
   */
  lemma {:induction false} UnknownNamesAppend(fields: seq<Field>, f: Field, known: seq<string>)
    ensures UnknownNames(fields + [f], known) == UnknownNames(fields, known) + (if f.name in known then [] else [f.name])
    decreases |fields|
  {
    if fields == [] {
      assert fields + [f] == [f];
    } else {
      assert (fields + [f])[1..] == fields[1..] + [f];
      UnknownNamesAppend(fields[1..], f, known);
    }
  }

  /**
   * `checkNamedParamStructure(check, namedParams, arguments, unknownNamedArgs)`:
   * `argCount` is `arguments.length` and `unknown` the unknown names.
   */
  function CheckNamedParamStructure(prefix: string, namedParams: JsValue, argCount: nat, unknown: seq<string>): (r: Outcome)
    ensures r.Pass? <==> TypeCheck.IsPlainObject(namedParams) && argCount <= 1 && unknown == []
    ensures r.Fail? ==> r.error.ParamViolation? && prefix <= r.error.message
    ensures !TypeCheck.IsPlainObject(namedParams) ==> r == Fail(ParamViolation(prefix + ONLY_NAMED))
    ensures TypeCheck.IsPlainObject(namedParams) && argCount > 1 ==>
      r == Fail(ParamViolation(prefix + PositionalMessage(argCount)))
    ensures TypeCheck.IsPlainObject(namedParams) && argCount <= 1 && unknown != [] ==>
      r == Fail(ParamViolation(prefix + "unrecognized named parameter(s): " + Text.Join(unknown, ",")))
  {
    if !TypeCheck.IsPlainObject(namedParams) then Fail(ParamViolation(prefix + ONLY_NAMED))
    else if argCount > 1 then Fail(ParamViolation(prefix + PositionalMessage(argCount)))
    else if |unknown| != 0 then Fail(ParamViolation(prefix + "unrecognized named parameter(s): " + Text.Join(unknown, ",")))
    else Pass
  }

  function PositionalMessage(argCount: nat): string {
    "unrecognized positional parameters (only named parameters can be specified) ... "
      + Text.NatText(argCount) + " positional parameters were found"
  }

  /**
   * A call `f(namedParams, ...more)` of an entry point that knows `known`:
   * the structure check over what that call destructures. `namedParams` is
   * the value after the default parameter `= {}` has applied, so a call with
   * no argument, or with an explicit `undefined`, passes `{}` here; `argCount`
   * is `arguments.length`, which counts that explicit `undefined`.
   */
  function CheckCall(prefix: string, known: seq<string>, namedParams: JsValue, argCount: nat): Outcome {
    CheckNamedParamStructure(prefix, namedParams, argCount, UnknownNames(NamedFields(namedParams), known))
  }

  /**
   * A call passes exactly when it supplies one plain object (or nothing at
   * all, or `undefined`, which the default parameter turns into `{}`), and
   * every name in it is a known one.
   */
  lemma CallPasses(prefix: string, known: seq<string>, namedParams: JsValue, argCount: nat)
    ensures CheckCall(prefix, known, namedParams, argCount).Pass? <==>
      TypeCheck.IsPlainObject(namedParams) && argCount <= 1 && (forall n :: n in Names(namedParams.fields) ==> n in known)
  {
    var unknown := UnknownNames(NamedFields(namedParams), known);
    if TypeCheck.IsPlainObject(namedParams) && unknown != [] {
      // the first unknown name is a field name that is not known
      assert unknown[0] in unknown;
    }
  }

  const TEST_PREFIX := "functUnderTest() parameter violation: "
  const TEST_KNOWN := ["key", "initial"]

  /** The structure check's own test table, for an entry point knowing `key` and `initial`: a positional value. */
  lemma NotNamedExample()
    ensures CheckCall(TEST_PREFIX, TEST_KNOWN, Num(123), 1) == Fail(ParamViolation(TEST_PREFIX + ONLY_NAMED))
  {
  }

  /** A second positional argument after valid named parameters. */
  lemma PositionalExample()
    ensures var params := Obj([Field("key", Str("myKey")), Field("initial", Str("supplied"))]);
      CheckCall(TEST_PREFIX, TEST_KNOWN, params, 2) == Fail(ParamViolation(TEST_PREFIX + PositionalMessage(2)))
  {
  }

  /** Two unknown names, reported together in order. */
  lemma RogueExample()
    ensures var params := Obj([Field("key", Str("myKey")), Field("initial", Str("supplied")),
                               Field("rogue1", Str("rogue1")), Field("rogue2", Str("rogue2"))]);
      CheckCall(TEST_PREFIX, TEST_KNOWN, params, 1)
        == Fail(ParamViolation(TEST_PREFIX + "unrecognized named parameter(s): rogue1,rogue2"))
  {
    hide Text.Join, UnknownNames, NamedFields, CheckNamedParamStructure;
    RogueFields(ROGUE);
    RogueJoin();
  }

  const ROGUE := [Field("key", Str("myKey")), Field("initial", Str("supplied")),
                  Field("rogue1", Str("rogue1")), Field("rogue2", Str("rogue2"))]

  lemma RogueFields(rogue: seq<Field>)
    requires rogue == ROGUE
    ensures TypeCheck.IsPlainObject(Obj(rogue)) && NamedFields(Obj(rogue)) == rogue
    ensures UnknownNames(rogue, TEST_KNOWN) == ["rogue1", "rogue2"]
  {
    assert TypeCheck.IsPlainObject(Obj(rogue));
    assert rogue[2..][1..] == [rogue[3]];
  }

  lemma RogueJoin()
    ensures Text.Join(["rogue1", "rogue2"], ",") == "rogue1,rogue2"
  {
  }

  /** Valid calls pass, including the call with no argument at all, whose parameters default to `{}`. */
  lemma ValidExamples()
    ensures var params := Obj([Field("key", Str("myKey")), Field("initial", Str("supplied"))]);
      CheckCall(TEST_PREFIX, TEST_KNOWN, params, 1) == Pass
    ensures CheckCall(TEST_PREFIX, TEST_KNOWN, Obj([]), 0) == Pass
  {
  }
}
