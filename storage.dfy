/**
 * The local-storage channel: src/util/persistence/localStorage.js and its
 * older twin src/util/deviceStorage.js, one class for both.
 *
 * The browser's `window.localStorage` is the field `store`, a map from keys
 * to the strings stored; the availability probe, run once at load, fixes
 * `available`, and when it fails every access goes to a no-op stand-in. A
 * `storage` event (another window changed the storage) is the method
 * `OnStorage`, which returns the handler calls it makes, in order.
 *
 * The twins differ in the names of their operations, in what a `storage`
 * event passes to the handlers (decoded values, or the raw stored strings),
 * in the browser guards of the module, and in registration, which the older
 * twin cannot do (see DeviceRegisterAsWritten).
 */
module Storage {
  import opened Js
  import Encoder
  import Checks
  import opened Handlers

  /** Which of the twins. */
  datatype Kind = Local | Device

  datatype Operation = Get | Set | Remove | RegisterHandler

  /** The name of an operation, as it appears in its parameter violations. */
  function OperationName(kind: Kind, op: Operation): string {
    match (kind, op)
    case (Local, Get) => "getLocalStorageItem"
    case (Local, Set) => "setLocalStorageItem"
    case (Local, Remove) => "removeLocalStorageItem"
    case (Local, RegisterHandler) => "registerLocalStorageItemChangeHandler"
    case (Device, Get) => "fetchItem"
    case (Device, Set) => "storeItem"
    case (Device, Remove) => "removeItem"
    case (Device, RegisterHandler) => "registerDeviceStorageItemChangeHandler"
  }

  function Prefix(kind: Kind, op: Operation): string {
    OperationName(kind, op) + "() parameter violation: "
  }

  // ---------------------------------------------------------------------------
  // The availability probe

  /**
   * How the probe went: writing and removing `__storage_test__` succeeded,
   * or threw; `stored` is `storage.length` at that point (0 when there is no
   * storage object).
   */
  datatype Probe = Succeeded | Threw(domException: bool, code: int, name: string, stored: nat)

  /** The codes and names under which browsers report a full storage. */
  predicate QuotaExceeded(code: int, name: string) {
    code == 22 || code == 1014 || name == "QuotaExceededError" || name == "NS_ERROR_DOM_QUOTA_REACHED"
  }

  /**
   * `storageAvailable('localStorage')`. The newer twin answers `false` at
   * once outside a browser; the older one has no such guard, and there
   * reading `window` throws a ReferenceError, which is no DOMException.
   */
  function StorageAvailable(kind: Kind, isBrowser: bool, probe: Probe): (r: bool)
    ensures !isBrowser ==> !r
    ensures isBrowser && probe.Succeeded? ==> r
    ensures isBrowser && probe.Threw? ==>
      (r <==> probe.domException && QuotaExceeded(probe.code, probe.name) && probe.stored != 0)
  {
    if kind.Local? && !isBrowser then false
    else
      var outcome := if isBrowser then probe else Threw(false, 0, "ReferenceError", 0);
      match outcome
      case Succeeded => true
      case Threw(domException, code, name, stored) => domException && QuotaExceeded(code, name) && stored != 0
  }

  // ---------------------------------------------------------------------------
  // Reading an entry

  /**
   * `getItem(key)` and what the get makes of it: `undefined` when the
   * storage is a no-op, when nothing is stored and when the empty string is
   * stored; otherwise the decoded value, or what decoding throws.
   */
  function Fetch(available: bool, store: map<string, string>, platform: Encoder.Platform, key: string): (r: Result<JsValue>)
    ensures !available || key !in store || store[key] == "" ==> r == Ok(Undefined)
    ensures r.Err? ==> available && key in store && Encoder.Decode(Str(store[key]), platform).Err?
  {
    if !available then Ok(Undefined)
    else if key !in store || store[key] == "" then Ok(Undefined)
    else Encoder.Decode(Str(store[key]), platform)
  }

  /**
   * Set then get: a value a set accepts and the codec gives back is read
   * back as itself, and every other key reads as before.
   */
  lemma StoreThenFetch(store: map<string, string>, platform: Encoder.Platform, key: string,
                       ref: JsValue, safeguard: bool, other: string)
    requires Checks.AcceptedRef(ref) && Encoder.RoundTrips(ref, safeguard, platform)
    ensures Encoder.Encode(ref, Bool(safeguard), platform).Ok?
    ensures Fetch(true, store[key := Encoder.Encode(ref, Bool(safeguard), platform).value], platform, key) == Ok(ref)
    ensures other != key ==>
      Fetch(true, store[key := Encoder.Encode(ref, Bool(safeguard), platform).value], platform, other)
        == Fetch(true, store, platform, other)
  {
    Encoder.RoundTrip(ref, safeguard, platform);
    Checks.EncodedNonEmpty(ref, safeguard, platform);
  }

  /** Remove then get: a removed key reads as `undefined`; every other key reads as before. */
  lemma RemoveThenFetch(available: bool, store: map<string, string>, platform: Encoder.Platform, key: string, other: string)
    ensures Fetch(available, store - {key}, platform, key) == Ok(Undefined)
    ensures other != key ==> Fetch(available, store - {key}, platform, other) == Fetch(available, store, platform, other)
  {
  }

  /** The no-op stand-in: every key reads as `undefined`, whatever the browser holds. */
  lemma UnavailableReadsUndefined(store: map<string, string>, platform: Encoder.Platform, key: string)
    ensures Fetch(false, store, platform, key) == Ok(Undefined)
  {
  }

  /** A stored empty string reads as `undefined`, like a missing entry. */
  lemma EmptyReadsUndefined(store: map<string, string>, platform: Encoder.Platform, key: string)
    ensures Fetch(true, store[key := ""], platform, key) == Ok(Undefined)
    ensures Fetch(true, store - {key}, platform, key) == Ok(Undefined)
  {
  }

  // ---------------------------------------------------------------------------
  // The storage event

  /** `e.oldValue` / `e.newValue`: the stored string, or `null` when there was none. */
  function EventValue(value: Option<string>): JsValue {
    if value.Some? then Str(value.value) else Null
  }

  /**
   * The `{oldVal, newVal}` a storage event hands to the handlers: the newer
   * twin decodes both strings (the old one first), the older one passes
   * them as they are.
   */
  function HandedOver(kind: Kind, platform: Encoder.Platform, oldValue: Option<string>, newValue: Option<string>)
    : (r: Result<(JsValue, JsValue)>)
    ensures kind.Device? ==> r == Ok((EventValue(oldValue), EventValue(newValue)))
    ensures kind.Local? ==> (r.Ok? <==>
      Encoder.Decode(EventValue(oldValue), platform).Ok? && Encoder.Decode(EventValue(newValue), platform).Ok?)
    ensures kind.Local? && r.Ok? ==>
      r.value == (Encoder.Decode(EventValue(oldValue), platform).value, Encoder.Decode(EventValue(newValue), platform).value)
  {
    if kind.Device? then Ok((EventValue(oldValue), EventValue(newValue)))
    else
      var oldVal :- Encoder.Decode(EventValue(oldValue), platform);
      var newVal :- Encoder.Decode(EventValue(newValue), platform);
      Ok((oldVal, newVal))
  }

  /**
   * After another window sets a value, the newer twin's handlers receive
   * that value and the older twin's receive its encoding; a removed entry
   * arrives as `null` in both.
   */
  lemma EventAfterSet(platform: Encoder.Platform, oldValue: Option<string>, ref: JsValue, safeguard: bool)
    requires Encoder.RoundTrips(ref, safeguard, platform)
    requires Encoder.Decode(EventValue(oldValue), platform).Ok?
    ensures Encoder.Encode(ref, Bool(safeguard), platform).Ok?
    ensures var newValue := Some(Encoder.Encode(ref, Bool(safeguard), platform).value);
      HandedOver(Local, platform, oldValue, newValue).Ok? && HandedOver(Local, platform, oldValue, newValue).value.1 == ref
    ensures var newValue := Some(Encoder.Encode(ref, Bool(safeguard), platform).value);
      HandedOver(Device, platform, oldValue, newValue).value.1 == Str(Encoder.Encode(ref, Bool(safeguard), platform).value)
    ensures HandedOver(Local, platform, oldValue, None) == Ok((Encoder.Decode(EventValue(oldValue), platform).value, Null))
    ensures HandedOver(Device, platform, oldValue, None).value.1 == Null
  {
    Encoder.RoundTrip(ref, safeguard, platform);
    assert Encoder.Decode(Null, platform) == Ok(Null);
    hide Encoder.Encode, Encoder.Decode, Encoder.RoundTrips;
  }

  // ---------------------------------------------------------------------------
  // Registration in the older twin, as written

  /**
   * `registerDeviceStorageItemChangeHandler(key, handler)` as written: it
   * calls `isFunction`, which the module never imports, so once the key and
   * the presence of a handler are checked it throws a ReferenceError.
   */
  function DeviceRegisterAsWritten(key: JsValue, handler: JsValue): (r: Outcome)
    ensures Checks.CheckKey(Prefix(Device, RegisterHandler), key).Err? ==>
      r == Fail(Checks.CheckKey(Prefix(Device, RegisterHandler), key).error)
  {
    var prefix := Prefix(Device, RegisterHandler);
    match Checks.CheckKey(prefix, key)
    case Err(e) => Fail(e)
    case Ok(_) =>
      if !Truthy(handler) then Fail(ParamViolation(prefix + "handler is required"))
      else Fail(ReferenceError("isFunction"))
  }

  /**
   * No registration of the older twin succeeds: a registration the checks
   * accept, such as key `"k"` with a function, throws the ReferenceError.
   */
  lemma DeviceRegistrationAlwaysFails(key: JsValue, handler: JsValue)
    ensures DeviceRegisterAsWritten(key, handler).Fail?
    ensures Checks.CheckRegister(Prefix(Device, RegisterHandler), key, handler).Ok? ==>
      DeviceRegisterAsWritten(key, handler) == Fail(ReferenceError("isFunction"))
    ensures Checks.CheckRegister(Prefix(Device, RegisterHandler), Str("k"), Func(UserFn(0))).Ok?
  {
  }

  // ---------------------------------------------------------------------------
  // The channel

  class Storage {
    const kind: Kind
    /** `isBrowser` of src/util/env.js. */
    const isBrowser: bool
    /** `_localStorageAvailable`: whether the operations reach the browser's storage. */
    const available: bool
    /** Whether the browser provides `btoa` and `atob`. */
    const platform: Encoder.Platform
    /** `window.localStorage` */
    var store: map<string, string>
    /** `_handlers` */
    var handlers: map<string, seq<JsValue>>

    constructor Loaded(kind: Kind, isBrowser: bool, available: bool, platform: Encoder.Platform, store: map<string, string>)
      ensures this.kind == kind && this.isBrowser == isBrowser && this.available == available && this.platform == platform
      ensures this.store == store && handlers == map[]
    {
      this.kind := kind;
      this.isBrowser := isBrowser;
      this.available := available;
      this.platform := platform;
      this.store := store;
      handlers := map[];
    }

    /**
     * Loading the module over the browser's storage `store`: the probe
     * decides availability. The older twin installs its `storage` listener
     * without a browser guard, so outside a browser loading it throws.
     */
    static method Load(kind: Kind, isBrowser: bool, probe: Probe, platform: Encoder.Platform, store: map<string, string>)
      returns (r: Result<Storage>)
      ensures kind.Device? && !isBrowser ==> r == Err(ReferenceError("window"))
      ensures kind.Local? || isBrowser ==> r.Ok? && fresh(r.value)
      ensures r.Ok? ==> r.value.kind == kind && r.value.isBrowser == isBrowser && r.value.platform == platform
      ensures r.Ok? ==> r.value.available == StorageAvailable(kind, isBrowser, probe)
      ensures r.Ok? ==> r.value.store == store && r.value.handlers == map[]
    {
      if kind.Device? && !isBrowser {
        return Err(ReferenceError("window"));
      }
      var storage := new Storage.Loaded(kind, isBrowser, StorageAvailable(kind, isBrowser, probe), platform, store);
      return Ok(storage);
    }

    /** `getLocalStorageItem(key)` / `fetchItem(key)` */
    function GetItem(key: JsValue): (r: Result<JsValue>)
      reads this
      ensures Checks.CheckKey(Prefix(kind, Get), key).Err? ==> r == Err(Checks.CheckKey(Prefix(kind, Get), key).error)
      ensures Checks.CheckKey(Prefix(kind, Get), key).Ok? ==> r == Fetch(available, store, platform, key.s)
      ensures Checks.CheckKey(Prefix(kind, Get), key).Ok? && !available ==> r == Ok(Undefined)
      ensures r.Ok? && r.value != Undefined ==> available && key.s in store && store[key.s] != ""
    {
      var k :- Checks.CheckKey(Prefix(kind, Get), key);
      Fetch(available, store, platform, k)
    }

    /** `setLocalStorageItem(key, ref, safeguard)` / `storeItem(key, ref, safeguard)` */
    method SetItem(key: JsValue, ref: JsValue, safeguard: JsValue) returns (r: Outcome)
      modifies this
      ensures handlers == old(handlers)
      ensures var c := Checks.CheckSet(Prefix(kind, Set), key, ref, safeguard);
        c.Err? ==> r == Fail(c.error) && store == old(store)
      ensures var c := Checks.CheckSet(Prefix(kind, Set), key, ref, safeguard);
        var e := Encoder.Encode(ref, safeguard, platform);
        c.Ok? && e.Err? ==> r == Fail(e.error) && store == old(store)
      ensures var c := Checks.CheckSet(Prefix(kind, Set), key, ref, safeguard);
        var e := Encoder.Encode(ref, safeguard, platform);
        c.Ok? && e.Ok? ==> r == Pass && store == if available then old(store)[key.s := e.value] else old(store)
      ensures (r.Pass? && available && Encoder.SafeguardArg(safeguard).Bool?
               && Encoder.RoundTrips(ref, Encoder.SafeguardArg(safeguard).b, platform)) ==>
        GetItem(key) == Ok(ref)
      ensures r.Pass? ==> forall other :: other != key.s ==>
        Fetch(available, store, platform, other) == Fetch(available, old(store), platform, other)
    {
      hide Checks.CheckSet, Checks.CheckKey, Checks.CheckRef, Checks.CheckSafeguard, Prefix, OperationName;
      hide Encoder.Encode, Encoder.Layered, Encoder.Encodable, Encoder.Obfuscate;
      var c := Checks.CheckSet(Prefix(kind, Set), key, ref, safeguard);
      if c.Err? {
        return Fail(c.error);
      }
      var e := Encoder.Encode(ref, safeguard, platform);
      if e.Err? {
        return Fail(e.error);
      }
      if available {
        Encoder.SafeguardDefault(ref, safeguard, platform);
        if Encoder.RoundTrips(ref, Encoder.SafeguardArg(safeguard).b, platform) {
          StoreThenFetch(store, platform, key.s, ref, Encoder.SafeguardArg(safeguard).b, key.s);
        }
        store := store[key.s := e.value];
      }
      return Pass;
    }

    /** `removeLocalStorageItem(key)` / `removeItem(key)` */
    method RemoveItem(key: JsValue) returns (r: Outcome)
      modifies this
      ensures handlers == old(handlers)
      ensures var c := Checks.CheckKey(Prefix(kind, Remove), key);
        (c.Err? ==> r == Fail(c.error) && store == old(store)) &&
        (c.Ok? ==> r == Pass && store == if available then old(store) - {key.s} else old(store))
      ensures r.Pass? ==> GetItem(key) == Ok(Undefined)
    {
      var c := Checks.CheckKey(Prefix(kind, Remove), key);
      if c.Err? {
        return Fail(c.error);
      }
      if available {
        store := store - {c.value};
      }
      return Pass;
    }

    /**
     * `registerLocalStorageItemChangeHandler(key, handler)`, and the older
     * twin's registration with `isFunction` in scope: the handler goes last
     * in the key's list.
     */
    method Register(key: JsValue, handler: JsValue) returns (r: Outcome)
      modifies this
      ensures store == old(store)
      ensures var c := Checks.CheckRegister(Prefix(kind, RegisterHandler), key, handler);
        (r.Pass? <==> c.Ok?) &&
        (c.Ok? ==> handlers == Registered(old(handlers), c.value, handler)) &&
        (c.Err? ==> handlers == old(handlers) && r == Fail(c.error))
    {
      var c := Checks.CheckRegister(Prefix(kind, RegisterHandler), key, handler);
      if c.Err? {
        return Fail(c.error);
      }
      handlers := Registered(handlers, c.value, handler);
      return Pass;
    }

    /**
     * The `storage` listener (installed by the newer twin only in a
     * browser): the calls it makes for a change of `key`, in registration
     * order, or what decoding the event's values throws. The event that
     * `localStorage.clear()` fires carries `key === null`, which the source
     * looks up as the property `"null"`, calling the handlers registered
     * under that key; it is not modelled, so `key` is always a string here.
     */
    method OnStorage(key: string, oldValue: Option<string>, newValue: Option<string>) returns (r: Result<seq<Notification>>)
      ensures kind.Local? && !isBrowser ==> r == Ok([])
      ensures kind.Device? || isBrowser ==> (r.Ok? <==> HandedOver(kind, platform, oldValue, newValue).Ok?)
      ensures (kind.Device? || isBrowser) && r.Ok? ==>
        var (oldVal, newVal) := HandedOver(kind, platform, oldValue, newValue).value;
        r.value == Calls(HandlersOf(handlers, key), oldVal, newVal)
    {
      if kind.Local? && !isBrowser {
        return Ok([]);
      }
      var values := HandedOver(kind, platform, oldValue, newValue);
      if values.Err? {
        return Err(values.error);
      }
      var calls := CallHandlers(HandlersOf(handlers, key), values.value.0, values.value.1);
      return Ok(calls);
    }
  }
}
