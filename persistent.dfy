/**
 * The persistent stores of src/util/persistentWritable.js and
 * src/util/persistentStore.js: Svelte writables whose every `set` and
 * `update` also writes the app state through the older orchestrator
 * (`LegacyAppState`: the site hash and device storage), whose initial value
 * comes from that state, and which register a change handler per key.
 */
module Persistent {
  import opened Js
  import TypeCheck
  import Checks
  import Encoder
  import HashStorage
  import Fragment
  import HashEntries
  import Storage
  import ParamStructure
  import opened Handlers
  import opened Stores
  import opened AppStateRetention

  /** `const {name = dflt} = params`: the default applies when the member is `undefined`. */
  function Param(fields: seq<Field>, name: string, dflt: JsValue): JsValue {
    var v := Member(fields, name);
    if v == Undefined then dflt else v
  }

  /** `checkParam(false, msg)` of an operation whose messages start with `prefix`. */
  function Violation(prefix: string, msg: string): (e: Error)
    ensures e.ParamViolation? && prefix <= e.message
  {
    ParamViolation(prefix + msg)
  }

  // ---------------------------------------------------------------------------
  // Persisting one value under several keys

  /**
   * `setAppStateItem(key, ref, safeguard)` from the site hash text `hash`,
   * the recorded entries `cur` and the device texts `store`: a rejected call
   * changes nothing, and an accepted one is retained.
   */
  function Persisted(siteHash: HashStorage.HashStorage, device: Storage.Storage, hash: string, cur: seq<Field>,
                     store: map<string, string>, key: JsValue, ref: JsValue, safeguard: JsValue): (t: Retention)
    requires siteHash.Valid()
  {
    var c := Checks.CheckSet(SET_PREFIX, key, ref, safeguard);
    if c.Err? then Retention(Fail(c.error), hash, store)
    else Retained(siteHash, device, hash, cur, store, key, ref, safeguard)
  }

  /**
   * `keys.forEach((key) => setAppStateItem(key, encode(key, value), safeguard))`:
   * each key in turn, where the first failure throws and leaves the
   * remaining keys unwritten.
   */
  function PersistedAll(siteHash: HashStorage.HashStorage, device: Storage.Storage, hash: string, cur: seq<Field>,
                        store: map<string, string>, keys: seq<JsValue>, encode: (JsValue, JsValue) -> JsValue,
                        value: JsValue, safeguard: JsValue): (t: Retention)
    requires siteHash.Valid()
    decreases |keys|
  {
    if keys == [] then Retention(Pass, hash, store)
    else
      var before := PersistedAll(siteHash, device, hash, cur, store, keys[..|keys| - 1], encode, value, safeguard);
      var key := keys[|keys| - 1];
      if before.outcome.Fail? then before
      else Persisted(siteHash, device, before.hash, cur, before.store, key, encode(key, value), safeguard)
  }

  /** Persisting passes only when every key's entry passed the checks of a set. */
  lemma {:induction false} PersistedAllChecked(siteHash: HashStorage.HashStorage, device: Storage.Storage, hash: string,
                                               cur: seq<Field>, store: map<string, string>, keys: seq<JsValue>,
                                               encode: (JsValue, JsValue) -> JsValue, value: JsValue, safeguard: JsValue)
    requires siteHash.Valid()
    requires PersistedAll(siteHash, device, hash, cur, store, keys, encode, value, safeguard).outcome.Pass?
    ensures forall i :: 0 <= i < |keys| ==> Checks.CheckSet(SET_PREFIX, keys[i], encode(keys[i], value), safeguard).Ok?
    decreases |keys|
  {
    if keys != [] {
      var prefix := keys[..|keys| - 1];
      PersistedAllChecked(siteHash, device, hash, cur, store, prefix, encode, value, safeguard);
      forall i | 0 <= i < |keys|
        ensures Checks.CheckSet(SET_PREFIX, keys[i], encode(keys[i], value), safeguard).Ok?
      {
        if i < |keys| - 1 {
          assert keys[i] == prefix[i];
        }
      }
    }
  }

  /** A failure is final: the keys after the one that failed are not written. */
  lemma {:induction false} PersistedAllStops(siteHash: HashStorage.HashStorage, device: Storage.Storage, hash: string,
                                             cur: seq<Field>, store: map<string, string>, keys: seq<JsValue>, j: nat,
                                             encode: (JsValue, JsValue) -> JsValue, value: JsValue, safeguard: JsValue)
    requires siteHash.Valid() && j <= |keys|
    requires PersistedAll(siteHash, device, hash, cur, store, keys[..j], encode, value, safeguard).outcome.Fail?
    ensures PersistedAll(siteHash, device, hash, cur, store, keys, encode, value, safeguard)
         == PersistedAll(siteHash, device, hash, cur, store, keys[..j], encode, value, safeguard)
    decreases |keys|
  {
    if j < |keys| {
      var prefix := keys[..|keys| - 1];
      assert prefix[..j] == keys[..j];
      PersistedAllStops(siteHash, device, hash, cur, store, prefix, j, encode, value, safeguard);
    } else {
      assert keys[..j] == keys;
    }
  }

  /**
   * The site hash text `hash` reads and is kept by the browser, a set of `k`
   * writes text that does not start with `#`, and `cur` records key `k` as
   * truthy exactly when that text does.
   */
  predicate HashSynced(siteHash: HashStorage.HashStorage, hash: string, cur: seq<Field>, k: string)
    requires siteHash.Valid()
  {
    var live := HashStorage.Read(siteHash.bs, siteHash.isBrowser, hash, siteHash.platform);
    live.Ok? && (Truthy(Member(cur, k)) <==> Truthy(Member(live.value, k))) && Fragment.Kept(hash)
    && !Fragment.HashLed(HashEntries.Lead(hash, k))
  }

  /** A single key that persisted reads back as the value written, when the hash was in sync for it. */
  lemma PersistedOneThenGet(app: LegacyAppState, hash: string, cur: seq<Field>, store: map<string, string>,
                            key: JsValue, encode: (JsValue, JsValue) -> JsValue, value: JsValue, safeguard: JsValue)
    requires app.Valid() && (key.Str? || key.StrObject?)
    requires PersistedAll(app.siteHash, app.device, hash, cur, store, [key], encode, value, safeguard)
          == Retention(Pass, app.siteHash.hash, app.device.store)
    requires HashSynced(app.siteHash, hash, cur, key.s)
    requires app.device.available && Retrievable(app.siteHash.bs, key, encode(key, value), safeguard, app.device.platform)
    ensures app.GetItem(key) == Ok(encode(key, value))
  {
    PersistedOne(app.siteHash, app.device, hash, cur, store, key, encode, value, safeguard);
    RetainThenGet(app.siteHash, app.device, hash, cur, store, key, encode(key, value), safeguard);
  }

  /** One key persists as one `setAppStateItem`. */
  lemma PersistedOne(siteHash: HashStorage.HashStorage, device: Storage.Storage, hash: string,
                     cur: seq<Field>, store: map<string, string>, key: JsValue,
                     encode: (JsValue, JsValue) -> JsValue, value: JsValue, safeguard: JsValue)
    requires siteHash.Valid()
    ensures PersistedAll(siteHash, device, hash, cur, store, [key], encode, value, safeguard)
         == Persisted(siteHash, device, hash, cur, store, key, encode(key, value), safeguard)
  {
    assert [key][..0] == [];
  }

  // ---------------------------------------------------------------------------
  // persistentWritable()

  const WRITABLE_PREFIX := "persistentWritable() parameter violation: "
  const WRITABLE_PARAMS := ["key", "initialFallback", "startSubscriptionNotifier", "safeguard",
                            "crossCommunicateLocalStorageChanges"]

  /** The named parameters of `persistentWritable()` after their checks. */
  datatype WritableParams = WritableParams(key: JsValue, initialFallback: JsValue, safeguard: JsValue)

  /** The parameter checks of `persistentWritable(namedParams)`, in order; `argCount` is `arguments.length`. */
  function CheckWritableParams(namedParams: JsValue, argCount: nat): (r: Result<WritableParams>)
    ensures var fields := ParamStructure.NamedFields(namedParams);
      var key := Member(fields, "key");
      var notifier := Member(fields, "startSubscriptionNotifier");
      r.Ok? <==> (ParamStructure.CheckCall(WRITABLE_PREFIX, WRITABLE_PARAMS, namedParams, argCount).Pass?
        && Truthy(key) && TypeCheck.IsString(key) && Member(fields, "initialFallback") != Undefined
        && (Truthy(notifier) ==> TypeCheck.IsFunction(notifier))
        && Param(fields, "safeguard", Bool(false)).Bool?
        && Param(fields, "crossCommunicateLocalStorageChanges", Bool(false)).Bool?)
    ensures r.Ok? ==> (r.value.key.Str? || r.value.key.StrObject?) && Truthy(r.value.key)
                      && r.value.initialFallback != Undefined && r.value.safeguard.Bool?
    ensures r.Err? ==> r.error.ParamViolation? && WRITABLE_PREFIX <= r.error.message
  {
    var fields := ParamStructure.NamedFields(namedParams);
    var key := Member(fields, "key");
    var initialFallback := Member(fields, "initialFallback");
    var notifier := Member(fields, "startSubscriptionNotifier");
    var safeguard := Param(fields, "safeguard", Bool(false));
    var cross := Param(fields, "crossCommunicateLocalStorageChanges", Bool(false));
    var structure := ParamStructure.CheckCall(WRITABLE_PREFIX, WRITABLE_PARAMS, namedParams, argCount);
    if structure.Fail? then Err(structure.error)
    else if !Truthy(key) then Err(Violation(WRITABLE_PREFIX, "key is required"))
    else if !TypeCheck.IsString(key) then Err(Violation(WRITABLE_PREFIX, "key must be a string"))
    else if initialFallback == Undefined then Err(Violation(WRITABLE_PREFIX, "initialFallback is required"))
    else if Truthy(notifier) && !TypeCheck.IsFunction(notifier) then
      Err(Violation(WRITABLE_PREFIX, "startSubscriptionNotifier must be a function (when supplied)"))
    else if !TypeCheck.IsBoolean(safeguard) then
      Err(Violation(WRITABLE_PREFIX, "safeguard must be a boolean (when supplied), NOT: "))
    else if !TypeCheck.IsBoolean(cross) then
      Err(Violation(WRITABLE_PREFIX, "crossCommunicateLocalStorageChanges must be a boolean (when supplied), NOT: "))
    else Ok(WritableParams(key, initialFallback, safeguard))
  }

  /** `getAppStateItem(key) || initialFallback` */
  function InitialValue(got: JsValue, initialFallback: JsValue): (v: JsValue)
    ensures initialFallback != Undefined ==> v != Undefined
    ensures Truthy(got) ==> v == got
    ensures !Truthy(got) ==> v == initialFallback
  {
    if Truthy(got) then got else initialFallback
  }

  /**
   * The store `persistentWritable()` returns: its own writable, whose `set`
   * and `update` also persist the value under `key`. Its change handler
   * calls this `Set` with the new value.
   */
  class PersistentWritable {
    const app: LegacyAppState
    const cell: Writable
    const key: JsValue
    const safeguard: JsValue

    predicate Valid() {
      app.Valid() && (key.Str? || key.StrObject?) && safeguard.Bool?
    }

    constructor (app: LegacyAppState, cell: Writable, key: JsValue, safeguard: JsValue)
      ensures this.app == app && this.cell == cell && this.key == key && this.safeguard == safeguard
    {
      this.app := app;
      this.cell := cell;
      this.key := key;
      this.safeguard := safeguard;
    }

    /** The parts of `Valid`, for a caller that keeps the predicate hidden. */
    lemma ValidOf()
      requires app.Valid() && (key.Str? || key.StrObject?) && safeguard.Bool?
      ensures Valid()
    {
    }

    /** `set(value)`: the store takes the value, then `setAppStateItem(key, value, safeguard)`. */
    method Set(value: JsValue) returns (r: Outcome)
      requires Valid()
      modifies cell, app.siteHash, app.device
      ensures Valid()
      ensures cell.value == value
      ensures app.siteHash.cur == old(app.siteHash.cur) && app.siteHash.handlers == old(app.siteHash.handlers)
      ensures app.device.handlers == old(app.device.handlers)
      ensures Retention(r, app.siteHash.hash, app.device.store)
           == Persisted(app.siteHash, app.device, old(app.siteHash.hash), old(app.siteHash.cur), old(app.device.store), key, value, safeguard)
      ensures r.Pass? && Retrievable(app.siteHash.bs, key, value, safeguard, app.device.platform) && app.device.available
              && old(app.siteHash.InSync(key.s))
              ==> app.GetItem(key) == Ok(value)
    {
      hide Retained, Retrievable, Get, Checks.CheckSet;
      cell.Set(value);
      r := app.SetItem(key, value, safeguard);
    }

    /**
     * `update(callback)`: the callback's value is persisted, and the store
     * takes it only when that passed (a throw inside the callback leaves the
     * store as it was).
     */
    method Update(callback: JsValue -> JsValue) returns (r: Outcome)
      requires Valid()
      modifies cell, app.siteHash, app.device
      ensures Valid()
      ensures cell.value == if r.Pass? then callback(old(cell.value)) else old(cell.value)
      ensures app.siteHash.cur == old(app.siteHash.cur) && app.siteHash.handlers == old(app.siteHash.handlers)
      ensures app.device.handlers == old(app.device.handlers)
      ensures Retention(r, app.siteHash.hash, app.device.store)
           == Persisted(app.siteHash, app.device, old(app.siteHash.hash), old(app.siteHash.cur), old(app.device.store),
                        key, callback(old(cell.value)), safeguard)
    {
      hide Retained, Retrievable, Get, Checks.CheckSet;
      var next := callback(cell.value);
      r := app.SetItem(key, next, safeguard);
      if r.Pass? {
        cell.Set(next);
      }
    }
  }

  /**
   * `persistentWritable(namedParams)`: after the checks, a new writable
   * holding the persisted value (or the fallback), and a change handler
   * `Func(UserFn(handlerId))` registered for the key.
   */
  method NewPersistentWritable(app: LegacyAppState, namedParams: JsValue, argCount: nat, handlerId: nat)
    returns (r: Result<PersistentWritable>)
    requires app.Valid()
    modifies app.siteHash
    ensures app.siteHash.hash == old(app.siteHash.hash) && app.siteHash.cur == old(app.siteHash.cur)
    ensures var c := CheckWritableParams(namedParams, argCount);
      (c.Err? ==> r == Err(c.error) && app.siteHash.handlers == old(app.siteHash.handlers)) &&
      (c.Ok? && old(app.GetItem(c.value.key)).Err? ==>
         r == Err(old(app.GetItem(c.value.key)).error) && app.siteHash.handlers == old(app.siteHash.handlers)) &&
      (c.Ok? && old(app.GetItem(c.value.key)).Ok? ==>
         r.Ok? && fresh(r.value) && fresh(r.value.cell) && r.value.Valid()
         && r.value.app == app && r.value.key == c.value.key && r.value.safeguard == c.value.safeguard
         && r.value.cell.value == InitialValue(old(app.GetItem(c.value.key)).value, c.value.initialFallback)
         && app.siteHash.handlers == Registered(old(app.siteHash.handlers), c.value.key.s, Func(UserFn(handlerId))))
  {
    hide *;
    var c := CheckWritableParams(namedParams, argCount);
    if c.Err? {
      return Err(c.error);
    }
    var p := c.value;
    var got := app.GetItem(p.key);
    if got.Err? {
      return Err(got.error);
    }
    var cell := new Writable(InitialValue(got.value, p.initialFallback));
    var registered := app.Register(p.key, Func(UserFn(handlerId)));
    assert Checks.CheckRegister(REGISTER_PREFIX, p.key, Func(UserFn(handlerId))).Ok?;
    var store := new PersistentWritable(app, cell, p.key, p.safeguard);
    store.ValidOf();
    r := Ok(store);
  }

  // ---------------------------------------------------------------------------
  // persistentStore()

  const STORE_PREFIX := "persistentStore() parameter violation: "
  const STORE_PARAMS := ["key", "store", "safeguard", "encode", "decodeAndSync", "crossCommunicateLocalStorageChanges"]

  /** The named parameters of `persistentStore()` after their checks. */
  datatype StoreParams = StoreParams(keys: seq<JsValue>, safeguard: JsValue, codecSupplied: bool)

  /** `isString(key) ? [key] : key` */
  function KeysOf(key: JsValue): seq<JsValue> {
    if TypeCheck.IsString(key) then [key] else if key.Arr? then key.elems else []
  }

  /** Every key is a string. */
  predicate AllStrings(keys: seq<JsValue>) {
    forall k :: k in keys ==> TypeCheck.IsString(k)
  }

  /** The checks of the `key` parameter, yielding the keys it names. */
  function CheckStoreKey(key: JsValue): (r: Result<seq<JsValue>>)
    ensures r.Ok? <==> Truthy(key) && (TypeCheck.IsString(key) || key.Arr?) && AllStrings(KeysOf(key))
    ensures r.Ok? ==> r.value == KeysOf(key)
    ensures r.Err? ==> r.error.ParamViolation? && STORE_PREFIX <= r.error.message
  {
    if !Truthy(key) then Err(Violation(STORE_PREFIX, "key is required"))
    else if !(TypeCheck.IsString(key) || key.Arr?) then Err(Violation(STORE_PREFIX, "key must be a string or a string[]"))
    else if !AllStrings(KeysOf(key)) then Err(Violation(STORE_PREFIX, "key array must contain ALL strings"))
    else Ok(KeysOf(key))
  }

  /**
   * The checks of the `encode`/`decodeAndSync` pair for `keyCount` keys: the
   * violation they report, if any, without its prefix.
   */
  function CheckCodec(encode: JsValue, decode: JsValue, keyCount: nat): (r: Option<string>)
    ensures r.None? <==>
      ((encode == Undefined || TypeCheck.IsFunction(encode))
      && (decode == Undefined || TypeCheck.IsFunction(decode))
      && (encode == Undefined <==> decode == Undefined)
      && (keyCount != 1 ==> encode != Undefined))
  {
    if !(encode == Undefined || TypeCheck.IsFunction(encode)) then
      Some("encode must be a function (when supplied)")
    else if !(decode == Undefined || TypeCheck.IsFunction(decode)) then
      Some("decodeAndSync must be a function (when supplied)")
    else if (encode == Undefined) != (decode == Undefined) then
      Some("one of either encode or decodeAndSync were supplied without the other ... they BOTH must be provided together (they are bookends)")
    else if keyCount != 1 && encode == Undefined then
      Some("multiple keys MUST have an app-specific non-defaulted encode/decodeAndSync")
    else None
  }

  /**
   * The parameter checks of `persistentStore(namedParams)`, in order; `store`
   * is the store parameter, and `encode`/`decodeAndSync` count as supplied
   * when they are not `undefined`.
   */
  function CheckStoreParams(namedParams: JsValue, argCount: nat): (r: Result<StoreParams>)
    ensures var fields := ParamStructure.NamedFields(namedParams);
      var key := Member(fields, "key");
      var encode := Member(fields, "encode");
      var decode := Member(fields, "decodeAndSync");
      r.Ok? <==> (ParamStructure.CheckCall(STORE_PREFIX, STORE_PARAMS, namedParams, argCount).Pass?
        && Truthy(key) && (TypeCheck.IsString(key) || key.Arr?) && AllStrings(KeysOf(key))
        && Truthy(Member(fields, "store")) && TypeCheck.IsSvelteWritable(Member(fields, "store"))
        && Param(fields, "safeguard", Bool(false)).Bool?
        && (encode == Undefined || TypeCheck.IsFunction(encode))
        && (decode == Undefined || TypeCheck.IsFunction(decode))
        && (encode == Undefined <==> decode == Undefined)
        && (|KeysOf(key)| != 1 ==> encode != Undefined)
        && Param(fields, "crossCommunicateLocalStorageChanges", Bool(false)).Bool?)
    ensures r.Ok? ==> r.value.keys == KeysOf(Member(ParamStructure.NamedFields(namedParams), "key"))
    ensures r.Ok? ==> (forall k :: k in r.value.keys ==> k.Str? || k.StrObject?) && r.value.safeguard.Bool?
    ensures r.Ok? && |r.value.keys| != 1 ==> r.value.codecSupplied
    ensures r.Err? ==> r.error.ParamViolation? && STORE_PREFIX <= r.error.message
  {
    var fields := ParamStructure.NamedFields(namedParams);
    var store := Member(fields, "store");
    var safeguard := Param(fields, "safeguard", Bool(false));
    var encode := Member(fields, "encode");
    var cross := Param(fields, "crossCommunicateLocalStorageChanges", Bool(false));
    var structure := ParamStructure.CheckCall(STORE_PREFIX, STORE_PARAMS, namedParams, argCount);
    var keys := CheckStoreKey(Member(fields, "key"));
    if structure.Fail? then Err(structure.error)
    else if keys.Err? then Err(keys.error)
    else if !Truthy(store) then Err(Violation(STORE_PREFIX, "store is required"))
    else if !TypeCheck.IsSvelteWritable(store) then Err(Violation(STORE_PREFIX, "store must be a svelte Writable store"))
    else if !TypeCheck.IsBoolean(safeguard) then
      Err(Violation(STORE_PREFIX, "safeguard must be a boolean (when supplied), NOT: "))
    else if CheckCodec(encode, Member(fields, "decodeAndSync"), |keys.value|).Some? then
      Err(Violation(STORE_PREFIX, CheckCodec(encode, Member(fields, "decodeAndSync"), |keys.value|).value))
    else if !TypeCheck.IsBoolean(cross) then
      Err(Violation(STORE_PREFIX, "crossCommunicateLocalStorageChanges must be a boolean (when supplied), NOT: "))
    else Ok(StoreParams(keys.value, safeguard, encode != Undefined))
  }

  /** `DEFAULT_encode(key, storeValue)`: the store value itself. */
  function DefaultEncode(key: JsValue, storeValue: JsValue): JsValue {
    storeValue
  }

  /** `DEFAULT_decodeAndSync(key, persistentValue, store)`: the store is set to the persisted value. */
  function DefaultDecode(key: JsValue, persisted: JsValue, current: JsValue): JsValue {
    persisted
  }

  /**
   * The initial load: for each key in turn, a defined persisted value is
   * decoded into the store (`decodeAndSync(key, value, store)`, taken here
   * as one call of the store's own `set` with a value computed from the key,
   * the persisted value and the current value), and a failed read throws.
   */
  function Loaded(app: LegacyAppState, keys: seq<JsValue>, decode: (JsValue, JsValue, JsValue) -> JsValue,
                  value: JsValue): (r: Result<JsValue>)
    reads app.siteHash, app.device
    requires app.Valid()
    decreases |keys|
  {
    if keys == [] then Ok(value)
    else
      var before :- Loaded(app, keys[..|keys| - 1], decode, value);
      var key := keys[|keys| - 1];
      var got :- app.GetItem(key);
      Ok(if got == Undefined then before else decode(key, got, before))
  }

  /** The next key's read decodes into the value the keys before it loaded, unless a read failed. */
  lemma LoadedNext(app: LegacyAppState, keys: seq<JsValue>, i: nat, decode: (JsValue, JsValue, JsValue) -> JsValue,
                   value: JsValue)
    requires app.Valid() && i < |keys|
    ensures var before := Loaded(app, keys[..i], decode, value);
      var got := app.GetItem(keys[i]);
      Loaded(app, keys[..i + 1], decode, value)
        == if before.Err? then before
           else if got.Err? then Err(got.error)
           else Ok(if got.value == Undefined then before.value else decode(keys[i], got.value, before.value))
  {
    assert keys[..i + 1][..i] == keys[..i];
  }

  /** With nothing persisted under its keys, a store keeps the value it was created with. */
  lemma {:induction false} LoadedNothing(app: LegacyAppState, keys: seq<JsValue>,
                                         decode: (JsValue, JsValue, JsValue) -> JsValue, value: JsValue)
    requires app.Valid()
    requires forall k :: k in keys ==> app.GetItem(k) == Ok(Undefined)
    ensures Loaded(app, keys, decode, value) == Ok(value)
    decreases |keys|
  {
    if keys != [] {
      LoadedNothing(app, keys[..|keys| - 1], decode, value);
    }
  }

  /** A single-key store with the default codec starts from the persisted value, when there is one. */
  lemma LoadedDefault(app: LegacyAppState, key: JsValue, value: JsValue)
    requires app.Valid()
    requires app.GetItem(key).Ok? && app.GetItem(key).value != Undefined
    ensures Loaded(app, [key], DefaultDecode, value) == app.GetItem(key)
  {
    assert [key][..0] == [];
  }

  /** The handlers `keys.forEach((key) => registerAppStateChangeHandler(key, ...))` leaves, one per key. */
  function RegisteredAll(handlers: map<string, seq<JsValue>>, keys: seq<JsValue>, firstHandler: nat): map<string, seq<JsValue>>
    requires forall k :: k in keys ==> k.Str? || k.StrObject?
    decreases |keys|
  {
    if keys == [] then handlers
    else
      var n := |keys| - 1;
      Registered(RegisteredAll(handlers, keys[..n], firstHandler), keys[n].s, Func(UserFn(firstHandler + n)))
  }

  /**
   * The store `persistentStore()` returns: the given writable, whose `set`
   * and `update` also persist `encode(key, value)` under every key.
   */
  class PersistentStore {
    const app: LegacyAppState
    const cell: Writable
    const keys: seq<JsValue>
    const safeguard: JsValue
    const encode: (JsValue, JsValue) -> JsValue
    const decode: (JsValue, JsValue, JsValue) -> JsValue

    predicate Valid() {
      app.Valid() && safeguard.Bool? && forall k :: k in keys ==> k.Str? || k.StrObject?
    }

    constructor (app: LegacyAppState, cell: Writable, keys: seq<JsValue>, safeguard: JsValue,
                 encode: (JsValue, JsValue) -> JsValue, decode: (JsValue, JsValue, JsValue) -> JsValue)
      ensures this.app == app && this.cell == cell && this.keys == keys && this.safeguard == safeguard
      ensures this.encode == encode && this.decode == decode
    {
      this.app := app;
      this.cell := cell;
      this.keys := keys;
      this.safeguard := safeguard;
      this.encode := encode;
      this.decode := decode;
    }

    /** The parts of `Valid`, for a caller that keeps the predicate hidden. */
    lemma ValidOf()
      requires app.Valid() && safeguard.Bool? && forall k :: k in keys ==> k.Str? || k.StrObject?
      ensures Valid()
    {
    }

    /** Persisting `value` under every key, in order, up to the first failure. */
    method Persist(value: JsValue) returns (r: Outcome)
      requires Valid()
      modifies app.siteHash, app.device
      ensures Valid()
      ensures app.siteHash.cur == old(app.siteHash.cur) && app.siteHash.handlers == old(app.siteHash.handlers)
      ensures app.device.handlers == old(app.device.handlers)
      ensures Retention(r, app.siteHash.hash, app.device.store)
           == PersistedAll(app.siteHash, app.device, old(app.siteHash.hash), old(app.siteHash.cur), old(app.device.store),
                           keys, encode, value, safeguard)
      ensures |keys| == 1 && r.Pass? && Retrievable(app.siteHash.bs, keys[0], encode(keys[0], value), safeguard, app.device.platform)
              && app.device.available && old(app.siteHash.InSync(keys[0].s)) ==>
                app.GetItem(keys[0]) == Ok(encode(keys[0], value))
    {
      ghost var hash0, cur0, store0 := app.siteHash.hash, app.siteHash.cur, app.device.store;
      ghost var synced := |keys| == 1 && app.siteHash.InSync(keys[0].s);
      assert synced ==> HashSynced(app.siteHash, hash0, cur0, keys[0].s);
      r := PersistEach(value);
      if |keys| == 1 && r.Pass? && Retrievable(app.siteHash.bs, keys[0], encode(keys[0], value), safeguard, app.device.platform)
         && app.device.available && synced {
        assert keys == [keys[0]];
        PersistedOneThenGet(app, hash0, cur0, store0, keys[0], encode, value, safeguard);
      }
    }

    /** The loop of `Persist`: each key in turn, until one fails. */
    method PersistEach(value: JsValue) returns (r: Outcome)
      requires Valid()
      modifies app.siteHash, app.device
      ensures Valid()
      ensures PersistedSoFar(r, old(app.siteHash.hash), old(app.siteHash.cur), old(app.device.store), keys, value)
      ensures app.siteHash.handlers == old(app.siteHash.handlers) && app.device.handlers == old(app.device.handlers)
    {
      hide *;
      ghost var hash0, cur0, store0 := app.siteHash.hash, app.siteHash.cur, app.device.store;
      ghost var siteHandlers, deviceHandlers := app.siteHash.handlers, app.device.handlers;
      PersistedNothing(hash0, cur0, store0, value);
      r := Pass;
      var i := 0;
      while i < |keys| && r.Pass?
        invariant 0 <= i <= |keys| && Valid()
        invariant app.siteHash.handlers == siteHandlers && app.device.handlers == deviceHandlers
        invariant PersistedSoFar(r, hash0, cur0, store0, keys[..i], value)
      {
        assert keys[..i + 1] == keys[..i] + [keys[i]];
        r := PersistKey(value, keys[i], hash0, cur0, store0, keys[..i]);
        i := i + 1;
      }
      PersistedRest(r, hash0, cur0, store0, i, value);
    }

    /** Persisting no key leaves the channels as they are. */
    lemma PersistedNothing(hash0: string, cur0: seq<Field>, store0: map<string, string>, value: JsValue)
      requires Valid() && app.siteHash.hash == hash0 && app.siteHash.cur == cur0 && app.device.store == store0
      ensures PersistedSoFar(Pass, hash0, cur0, store0, keys[..0], value)
    {
      assert PersistedAll(app.siteHash, app.device, hash0, cur0, store0, keys[..0], encode, value, safeguard)
          == Retention(Pass, hash0, store0);
    }

    /** Once the keys up to `i` are persisted, and `i` is the last key or the one that failed, all keys are. */
    lemma PersistedRest(r: Outcome, hash0: string, cur0: seq<Field>, store0: map<string, string>, i: nat, value: JsValue)
      requires Valid() && i <= |keys| && (i < |keys| ==> r.Fail?)
      requires PersistedSoFar(r, hash0, cur0, store0, keys[..i], value)
      ensures PersistedSoFar(r, hash0, cur0, store0, keys, value)
    {
      hide Persisted, Retained, Retrievable, Get, Checks.CheckSet;
      if i < |keys| {
        PersistedAllStops(app.siteHash, app.device, hash0, cur0, store0, keys, i, encode, value, safeguard);
      } else {
        assert keys[..i] == keys;
      }
    }

    /**
     * Persisting the keys `done` from the channels as they were (`hash0`,
     * `cur0`, `store0`) gave `r` and left the channels as they are now.
     */
    ghost predicate PersistedSoFar(r: Outcome, hash0: string, cur0: seq<Field>, store0: map<string, string>,
                                   done: seq<JsValue>, value: JsValue)
      reads app.siteHash, app.device
      requires Valid()
    {
      app.siteHash.cur == cur0
      && Retention(r, app.siteHash.hash, app.device.store)
         == PersistedAll(app.siteHash, app.device, hash0, cur0, store0, done, encode, value, safeguard)
    }

    /** One step of `Persist`: the key after `done` persists from where `done` left the channels. */
    method PersistKey(value: JsValue, key: JsValue, ghost hash0: string, ghost cur0: seq<Field>,
                      ghost store0: map<string, string>, ghost done: seq<JsValue>) returns (r: Outcome)
      requires Valid() && PersistedSoFar(Pass, hash0, cur0, store0, done, value)
      modifies app.siteHash, app.device
      ensures Valid() && PersistedSoFar(r, hash0, cur0, store0, done + [key], value)
      ensures app.siteHash.handlers == old(app.siteHash.handlers) && app.device.handlers == old(app.device.handlers)
    {
      assert (done + [key])[..|done|] == done;
      hide Retained, Retrievable, Get, Checks.CheckSet;
      r := app.SetItem(key, encode(key, value), safeguard);
    }

    /** The replaced `set(storeValue)`: the store takes the value, then every key persists its encoding. */
    method Set(value: JsValue) returns (r: Outcome)
      requires Valid()
      modifies cell, app.siteHash, app.device
      ensures Valid()
      ensures cell.value == value
      ensures app.siteHash.cur == old(app.siteHash.cur) && app.siteHash.handlers == old(app.siteHash.handlers)
      ensures app.device.handlers == old(app.device.handlers)
      ensures Retention(r, app.siteHash.hash, app.device.store)
           == PersistedAll(app.siteHash, app.device, old(app.siteHash.hash), old(app.siteHash.cur), old(app.device.store),
                           keys, encode, value, safeguard)
      ensures |keys| == 1 && r.Pass? && Retrievable(app.siteHash.bs, keys[0], encode(keys[0], value), safeguard, app.device.platform)
              && app.device.available && old(app.siteHash.InSync(keys[0].s)) ==>
                app.GetItem(keys[0]) == Ok(encode(keys[0], value))
    {
      hide Retained, Retrievable, Get, PersistedAll;
      cell.Set(value);
      r := Persist(value);
    }

    /**
     * The replaced `update(callback)`: every key persists the encoding of the
     * callback's value, and the store takes that value only when all passed.
     */
    method Update(callback: JsValue -> JsValue) returns (r: Outcome)
      requires Valid()
      modifies cell, app.siteHash, app.device
      ensures Valid()
      ensures cell.value == if r.Pass? then callback(old(cell.value)) else old(cell.value)
      ensures app.siteHash.cur == old(app.siteHash.cur) && app.siteHash.handlers == old(app.siteHash.handlers)
      ensures app.device.handlers == old(app.device.handlers)
      ensures Retention(r, app.siteHash.hash, app.device.store)
           == PersistedAll(app.siteHash, app.device, old(app.siteHash.hash), old(app.siteHash.cur), old(app.device.store),
                           keys, encode, callback(old(cell.value)), safeguard)
    {
      hide Retained, Retrievable, Get, PersistedAll;
      var next := callback(cell.value);
      r := Persist(next);
      if r.Pass? {
        cell.Set(next);
      }
    }

    /**
     * A key's change handler: `decodeAndSync(key, newVal, store)`, taken here
     * as one call of the replaced `set` (so every key persists again) with the
     * value `decode` computes; the default decoder is exactly that.
     */
    method Sync(key: JsValue, newVal: JsValue) returns (r: Outcome)
      requires Valid()
      modifies cell, app.siteHash, app.device
      ensures Valid()
      ensures cell.value == decode(key, newVal, old(cell.value))
      ensures Retention(r, app.siteHash.hash, app.device.store)
           == PersistedAll(app.siteHash, app.device, old(app.siteHash.hash), old(app.siteHash.cur), old(app.device.store),
                           keys, encode, decode(key, newVal, old(cell.value)), safeguard)
    {
      hide Retained, Retrievable, Get, PersistedAll;
      r := Set(decode(key, newVal, cell.value));
    }
  }

  /**
   * `persistentStore(namedParams)`: `cell` is the writable the `store`
   * parameter denotes, `encodeFn` what the supplied `encode` computes, and
   * `decodeFn` the value a supplied `decodeAndSync` sets the store to (one
   * `set`, as the default does). After the checks, the initial load decodes
   * each key's persisted value into the store, a change handler
   * `Func(UserFn(firstHandler + i))` is registered for the `i`-th key, and
   * the same store comes back.
   */
  method NewPersistentStore(app: LegacyAppState, namedParams: JsValue, argCount: nat, cell: Writable,
                            encodeFn: (JsValue, JsValue) -> JsValue, decodeFn: (JsValue, JsValue, JsValue) -> JsValue,
                            firstHandler: nat)
    returns (r: Result<PersistentStore>)
    requires app.Valid()
    modifies cell, app.siteHash
    ensures app.siteHash.hash == old(app.siteHash.hash) && app.siteHash.cur == old(app.siteHash.cur)
    ensures var c := CheckStoreParams(namedParams, argCount);
      (c.Err? ==> r == Err(c.error) && cell.value == old(cell.value) && app.siteHash.handlers == old(app.siteHash.handlers)) &&
      (c.Ok? ==>
        var decode := if c.value.codecSupplied then decodeFn else DefaultDecode;
        var loaded := old(Loaded(app, c.value.keys, decode, cell.value));
        (loaded.Err? ==> r == Err(loaded.error) && app.siteHash.handlers == old(app.siteHash.handlers)) &&
        (loaded.Ok? ==>
          r.Ok? && fresh(r.value) && r.value.Valid() && r.value.app == app && r.value.cell == cell
          && r.value.keys == c.value.keys && r.value.safeguard == c.value.safeguard
          && r.value.encode == (if c.value.codecSupplied then encodeFn else DefaultEncode) && r.value.decode == decode
          && cell.value == loaded.value
          && app.siteHash.handlers == RegisteredAll(old(app.siteHash.handlers), c.value.keys, firstHandler)))
  {
    hide *;
    var c := CheckStoreParams(namedParams, argCount);
    if c.Err? {
      return Err(c.error);
    }
    var keys := c.value.keys;
    var encode := if c.value.codecSupplied then encodeFn else DefaultEncode;
    var decode := if c.value.codecSupplied then decodeFn else DefaultDecode;
    ghost var initial := cell.value;
    var loaded := LoadInto(app, keys, decode, cell);
    if loaded.Fail? {
      return Err(loaded.error);
    }
    LoadedKeys(app, keys, decode, initial);
    RegisterAll(app, keys, firstHandler);
    var store := new PersistentStore(app, cell, keys, c.value.safeguard, encode, decode);
    store.ValidOf();
    r := Ok(store);
  }

  /** The initial load into the store's own `set`, up to the first failed read. */
  method LoadInto(app: LegacyAppState, keys: seq<JsValue>, decode: (JsValue, JsValue, JsValue) -> JsValue, cell: Writable)
    returns (r: Outcome)
    requires app.Valid()
    modifies cell
    ensures var loaded := old(Loaded(app, keys, decode, cell.value));
      (loaded.Err? ==> r == Fail(loaded.error)) && (loaded.Ok? ==> r == Pass && cell.value == loaded.value)
  {
    ghost var initial := cell.value;
    assert Loaded(app, keys[..0], decode, initial) == Ok(initial);
    hide Loaded;
    var i := 0;
    while i < |keys|
      invariant 0 <= i <= |keys|
      invariant Loaded(app, keys[..i], decode, initial) == Ok(cell.value)
    {
      r := LoadKey(app, keys, i, decode, cell, initial);
      if r.Fail? {
        return;
      }
      i := i + 1;
    }
    assert keys[..i] == keys;
    r := Pass;
  }

  /** One step of `LoadInto`: the `i`-th key's read, decoded into the store when it gave a value. */
  method LoadKey(app: LegacyAppState, keys: seq<JsValue>, i: nat, decode: (JsValue, JsValue, JsValue) -> JsValue,
                 cell: Writable, ghost initial: JsValue) returns (r: Outcome)
    requires app.Valid() && i < |keys|
    requires Loaded(app, keys[..i], decode, initial) == Ok(cell.value)
    modifies cell
    ensures r.Pass? ==> Loaded(app, keys[..i + 1], decode, initial) == Ok(cell.value)
    ensures r.Fail? ==> Loaded(app, keys, decode, initial) == Err(r.error)
  {
    LoadedNext(app, keys, i, decode, initial);
    hide Loaded, Get, Js.Member, Js.Truthy;
    var got := app.GetItem(keys[i]);
    if got.Err? {
      LoadedFails(app, keys, i, decode, initial);
      return Fail(got.error);
    }
    if got.value != Undefined {
      cell.Set(decode(keys[i], got.value, cell.value));
    }
    r := Pass;
  }

  /** `keys.forEach((key) => registerAppStateChangeHandler(key, ...))` for keys that passed the key checks. */
  method RegisterAll(app: LegacyAppState, keys: seq<JsValue>, firstHandler: nat)
    requires app.Valid()
    requires forall k :: k in keys ==> Truthy(k) && (k.Str? || k.StrObject?)
    modifies app.siteHash
    ensures app.Valid()
    ensures app.siteHash.hash == old(app.siteHash.hash) && app.siteHash.cur == old(app.siteHash.cur)
    ensures app.siteHash.handlers == RegisteredAll(old(app.siteHash.handlers), keys, firstHandler)
  {
    ghost var handlers0 := app.siteHash.handlers;
    assert RegisteredAll(handlers0, keys[..0], firstHandler) == handlers0;
    hide RegisteredAll, Registered, Checks.CheckRegister;
    var i := 0;
    while i < |keys|
      invariant 0 <= i <= |keys| && app.Valid()
      invariant app.siteHash.hash == old(app.siteHash.hash) && app.siteHash.cur == old(app.siteHash.cur)
      invariant app.siteHash.handlers == RegisteredAll(handlers0, keys[..i], firstHandler)
    {
      assert keys[i] in keys;
      RegisterAccepted(keys[i], Func(UserFn(firstHandler + i)));
      RegisteredAllNext(handlers0, keys, i, firstHandler);
      var registered := app.Register(keys[i], Func(UserFn(firstHandler + i)));
      i := i + 1;
    }
    assert keys[..i] == keys;
  }

  /** A truthy string key and a function pass the checks of a registration. */
  lemma RegisterAccepted(key: JsValue, handler: JsValue)
    requires Truthy(key) && (key.Str? || key.StrObject?) && handler.Func?
    ensures Checks.CheckRegister(REGISTER_PREFIX, key, handler).Ok?
  {
  }

  /** The next key's handler is added to what the keys before it registered. */
  lemma RegisteredAllNext(handlers: map<string, seq<JsValue>>, keys: seq<JsValue>, i: nat, firstHandler: nat)
    requires forall k :: k in keys ==> k.Str? || k.StrObject?
    requires i < |keys|
    ensures RegisteredAll(handlers, keys[..i + 1], firstHandler)
         == Registered(RegisteredAll(handlers, keys[..i], firstHandler), keys[i].s, Func(UserFn(firstHandler + i)))
  {
    assert keys[..i + 1][..i] == keys[..i];
  }

  /** A load that passed read every key, so every key passed the key checks. */
  lemma {:induction false} LoadedKeys(app: LegacyAppState, keys: seq<JsValue>,
                                      decode: (JsValue, JsValue, JsValue) -> JsValue, value: JsValue)
    requires app.Valid() && Loaded(app, keys, decode, value).Ok?
    ensures forall k :: k in keys ==> Truthy(k) && app.GetItem(k).Ok?
    decreases |keys|
  {
    if keys != [] {
      var prefix := keys[..|keys| - 1];
      LoadedKeys(app, prefix, decode, value);
      assert forall k :: k in keys ==> k in prefix || k == keys[|keys| - 1];
    }
  }

  /** A read that fails at the `i`-th key fails the whole load. */
  lemma {:induction false} LoadedFails(app: LegacyAppState, keys: seq<JsValue>, i: nat,
                                       decode: (JsValue, JsValue, JsValue) -> JsValue, value: JsValue)
    requires app.Valid() && i < |keys|
    requires Loaded(app, keys[..i], decode, value).Ok? && app.GetItem(keys[i]).Err?
    ensures Loaded(app, keys, decode, value) == Err(app.GetItem(keys[i]).error)
    decreases |keys|
  {
    assert keys[..i + 1][..i] == keys[..i];
    if i + 1 < |keys| {
      var prefix := keys[..|keys| - 1];
      assert prefix[..i] == keys[..i] && prefix[i] == keys[i];
      LoadedFails(app, prefix, i, decode, value);
    } else {
      assert keys[..i + 1] == keys;
    }
  }
}
