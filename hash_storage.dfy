/**
 * The URL-hash storage channel: src/util/persistence/urlHashStorage.js and
 * its older twin src/util/siteHashStorage.js, one class over the bindings
 * each escapes (six for the URL channel, two for the site channel).
 *
 * The browser's `window.location.hash` (without its `#`) is the field
 * `hash`; `curUrlHash`, the module's copy of the entries, is `cur`; the
 * registered handlers are `handlers`. The `hashchange` event is the method
 * `OnHashChange`, which returns the handler calls it makes, in order.
 *
 * Reading uses the one-pass unescaping and writing keeps the stored text of
 * the other entries (see HashBindings.Unescape and HashEntries.SetRaw), the
 * corrected forms of what the source does; the text written passes through
 * what the browser's hash setter makes of it (Fragment.Assign: one leading
 * `#` dropped, tabs and newlines removed, the fragment percent-encoded),
 * which the source does not undo.
 */
module HashStorage {
  import opened Js
  import Text
  import Encoder
  import HashBindings
  import HashEntries
  import Fragment
  import Json
  import Checks
  import opened Handlers

  /**
   * `newVal === oldVal` for a value just read from the hash: an object read
   * from the hash is a fresh one, so only an equal primitive is identical.
   */
  predicate Identical(newVal: JsValue, oldVal: JsValue) {
    Primitive(newVal) && newVal == oldVal
  }

  /**
   * The listener's pass over the entries of the new hash, in order: the
   * entries it records and the calls it makes. An entry that differs from
   * the recorded one notifies that key's handlers and is then recorded.
   */
  function Diff(cur: seq<Field>, entries: seq<Field>, handlers: map<string, seq<JsValue>>): (seq<Field>, seq<Notification>)
    decreases |entries|
  {
    if entries == [] then (cur, [])
    else
      var (recorded, calls) := Diff(cur, entries[..|entries| - 1], handlers);
      var e := entries[|entries| - 1];
      var oldVal := Member(recorded, e.name);
      if Identical(e.value, oldVal) then (recorded, calls)
      else (Put(recorded, e.name, e.value), calls + Calls(HandlersOf(handlers, e.name), oldVal, e.value))
  }

  /**
   * The calls the listener makes, from the recorded entries as they were
   * before the event: each entry of the new hash that differs from its
   * recorded value calls that key's handlers with both values.
   */
  function Notified(cur: seq<Field>, entries: seq<Field>, handlers: map<string, seq<JsValue>>): seq<Notification>
    decreases |entries|
  {
    if entries == [] then []
    else
      var e := entries[|entries| - 1];
      var oldVal := Member(cur, e.name);
      Notified(cur, entries[..|entries| - 1], handlers)
        + (if Identical(e.value, oldVal) then [] else Calls(HandlersOf(handlers, e.name), oldVal, e.value))
  }

  lemma LookupSnoc(fields: seq<Field>, f: Field, k: string)
    ensures Lookup(fields + [f], k) == if Lookup(fields, k).Some? then Lookup(fields, k) else if f.name == k then Some(f.value) else None
    decreases |fields|
  {
    if fields != [] {
      assert (fields + [f])[1..] == fields[1..] + [f];
      LookupSnoc(fields[1..], f, k);
    }
  }

  lemma DistinctPrefix(entries: seq<Field>)
    requires DistinctNames(entries) && entries != []
    ensures DistinctNames(entries[..|entries| - 1])
    ensures Lookup(entries[..|entries| - 1], entries[|entries| - 1].name).None?
    ensures entries == entries[..|entries| - 1] + [entries[|entries| - 1]]
  {
    var prefix := entries[..|entries| - 1];
    var last := entries[|entries| - 1];
    forall i | 0 <= i < |prefix|
      ensures prefix[i].name != last.name
    {
      assert prefix[i] == entries[i];
    }
    NamesIndex(prefix, last.name);
  }

  /**
   * After the listener's pass, every key of the new hash holds its new value
   * and every other key keeps its recorded value: keys missing from the new
   * hash are not removed.
   */
  lemma {:induction false} DiffRecords(cur: seq<Field>, entries: seq<Field>, handlers: map<string, seq<JsValue>>, k: string)
    requires DistinctNames(entries)
    ensures Member(Diff(cur, entries, handlers).0, k) == if k in Names(entries) then Member(entries, k) else Member(cur, k)
    decreases |entries|
  {
    if entries != [] {
      var prefix := entries[..|entries| - 1];
      var e := entries[|entries| - 1];
      DistinctPrefix(entries);
      DiffRecords(cur, prefix, handlers, k);
      LookupSnoc(prefix, e, k);
      if k == e.name {
        DiffRecords(cur, prefix, handlers, e.name);
      }
    }
  }

  /** The listener's calls are those `Notified` lists: each key's old value is the one recorded before the event. */
  lemma {:induction false} DiffCalls(cur: seq<Field>, entries: seq<Field>, handlers: map<string, seq<JsValue>>)
    requires DistinctNames(entries)
    ensures Diff(cur, entries, handlers).1 == Notified(cur, entries, handlers)
    decreases |entries|
  {
    if entries != [] {
      var prefix := entries[..|entries| - 1];
      var e := entries[|entries| - 1];
      DistinctPrefix(entries);
      DiffCalls(cur, prefix, handlers);
      DiffRecords(cur, prefix, handlers, e.name);
    }
  }

  /** A key of the new hash notifies its handlers exactly when its value is not identical to the recorded one. */
  lemma {:induction false} NotifiedKey(cur: seq<Field>, entries: seq<Field>, handlers: map<string, seq<JsValue>>, i: nat)
    requires i < |entries|
    ensures var e := entries[i];
      Identical(e.value, Member(cur, e.name)) ==>
        Notified(cur, entries[..i + 1], handlers) == Notified(cur, entries[..i], handlers)
    ensures var e := entries[i];
      !Identical(e.value, Member(cur, e.name)) ==>
        Notified(cur, entries[..i + 1], handlers)
          == Notified(cur, entries[..i], handlers) + Calls(HandlersOf(handlers, e.name), Member(cur, e.name), e.value)
  {
    assert entries[..i + 1][..i] == entries[..i];
  }

  /**
   * The listener's loop over the entries of the new hash
   * (`Object.entries(hashMap).forEach(...)`), from the recorded entries
   * `start`: the entries recorded after it and the calls it makes.
   */
  method Listen(start: seq<Field>, entries: seq<Field>, handlers: map<string, seq<JsValue>>)
    returns (recorded: seq<Field>, calls: seq<Notification>)
    ensures (recorded, calls) == Diff(start, entries, handlers)
  {
    recorded, calls := start, [];
    var i := 0;
    while i < |entries|
      invariant 0 <= i <= |entries|
      invariant (recorded, calls) == Diff(start, entries[..i], handlers)
    {
      var key := entries[i].name;
      var newVal := entries[i].value;
      var oldVal := Member(recorded, key);
      if !Identical(newVal, oldVal) {
        var made := CallHandlers(HandlersOf(handlers, key), oldVal, newVal);
        calls := calls + made;
        recorded := Put(recorded, key, newVal);
      }
      assert entries[..i + 1][..i] == entries[..i];
      i := i + 1;
    }
    assert entries[..|entries|] == entries;
  }

  /** What the listener's pass means, for the distinct keys of a hash. */
  lemma DiffMeaning(cur: seq<Field>, entries: seq<Field>, handlers: map<string, seq<JsValue>>)
    requires DistinctNames(entries)
    ensures Diff(cur, entries, handlers).1 == Notified(cur, entries, handlers)
    ensures forall k :: Member(Diff(cur, entries, handlers).0, k) == (if k in Names(entries) then Member(entries, k) else Member(cur, k))
  {
    DiffCalls(cur, entries, handlers);
    forall k
      ensures Member(Diff(cur, entries, handlers).0, k) == (if k in Names(entries) then Member(entries, k) else Member(cur, k))
    {
      DiffRecords(cur, entries, handlers, k);
    }
  }

  /** The channel names, as they appear in the operation names. */
  const URL_CHANNEL := "Url"
  const SITE_CHANNEL := "Site"

  /** The prefix of a parameter violation raised by the operation `name`. */
  function ViolationPrefix(name: string): string {
    name + "() parameter violation: "
  }

  /** The prefix of `<operation><channel>HashItem()`: get, set and update. */
  function Prefix(operation: string, channel: string): string {
    ViolationPrefix(operation + channel + "HashItem")
  }

  /** The prefix of `register<channel>HashItemChangeHandler()`. */
  function RegisterPrefix(channel: string): string {
    ViolationPrefix("register" + channel + "HashItemChangeHandler")
  }

  /** The prefix of `isUrlHashItemDefined()`, which only the URL hash has. */
  const DEFINED_PREFIX := ViolationPrefix("isUrlHashItemDefined")

  /** Every URL hash operation's violation prefix names the exported function. */
  lemma UrlViolationPrefixes()
    ensures Prefix("get", URL_CHANNEL) == ViolationPrefix("getUrlHashItem")
    ensures Prefix("set", URL_CHANNEL) == ViolationPrefix("setUrlHashItem")
    ensures Prefix("update", URL_CHANNEL) == ViolationPrefix("updateUrlHashItem")
    ensures RegisterPrefix(URL_CHANNEL) == ViolationPrefix("registerUrlHashItemChangeHandler")
    ensures DEFINED_PREFIX == ViolationPrefix("isUrlHashItemDefined")
  {
    assert "get" + URL_CHANNEL + "HashItem" == "getUrlHashItem";
    assert "set" + URL_CHANNEL + "HashItem" == "setUrlHashItem";
    assert "update" + URL_CHANNEL + "HashItem" == "updateUrlHashItem";
    assert "register" + URL_CHANNEL + "HashItemChangeHandler" == "registerUrlHashItemChangeHandler";
  }

  /** Every site hash operation's violation prefix names the exported function. */
  lemma SiteViolationPrefixes()
    ensures Prefix("get", SITE_CHANNEL) == ViolationPrefix("getSiteHashItem")
    ensures Prefix("set", SITE_CHANNEL) == ViolationPrefix("setSiteHashItem")
    ensures Prefix("update", SITE_CHANNEL) == ViolationPrefix("updateSiteHashItem")
    ensures RegisterPrefix(SITE_CHANNEL) == ViolationPrefix("registerSiteHashItemChangeHandler")
  {
    assert "get" + SITE_CHANNEL + "HashItem" == "getSiteHashItem";
    assert "set" + SITE_CHANNEL + "HashItem" == "setSiteHashItem";
    assert "update" + SITE_CHANNEL + "HashItem" == "updateSiteHashItem";
    assert "register" + SITE_CHANNEL + "HashItemChangeHandler" == "registerSiteHashItemChangeHandler";
  }

  /** `getUrlHash()`: the entries the hash holds, or what decoding one of them throws. */
  function Read(bs: seq<HashBindings.Binding>, isBrowser: bool, hash: string, platform: Encoder.Platform): (r: Result<seq<Field>>)
    requires HashEntries.Escapes(bs)
    ensures !isBrowser || hash == "" ==> r == Ok([])
    ensures r.Ok? ==> DistinctNames(r.value)
  {
    HashEntries.ReadHashEntries(HashEntries.SinglePass, bs, hash, platform, "");
    HashEntries.ReadHash(HashEntries.SinglePass, bs, isBrowser, hash, platform)
  }

  /**
   * `setUrlHashItem(key, ref, safeguard)`: the hash it writes, or what it
   * throws: a parameter violation, an encoding failure, an entry of the
   * current hash that fails to decode, or, outside a browser, the missing
   * `window`. The hash is what the browser makes of the text assigned.
   */
  function SetText(bs: seq<HashBindings.Binding>, isBrowser: bool, hash: string, platform: Encoder.Platform,
                   prefix: string, key: JsValue, ref: JsValue, safeguard: JsValue): (r: Result<string>)
    requires HashEntries.Escapes(bs)
    ensures Checks.CheckSet(prefix, key, ref, safeguard).Err? ==> r.Err? && r.error.ParamViolation?
    ensures r.Ok? <==>
      Checks.CheckSet(prefix, key, ref, safeguard).Ok? &&
      Encoder.Encode(ref, safeguard, platform).Ok? && isBrowser && Read(bs, isBrowser, hash, platform).Ok?
    ensures r.Ok? ==> r.value == Fragment.Assign(HashEntries.SetRaw(bs, hash, key.s, Encoder.Encode(ref, safeguard, platform).value))
    ensures r.Ok? ==> Fragment.Kept(r.value)
    ensures Checks.CheckSet(prefix, key, ref, safeguard).Ok? && Encoder.Encode(ref, safeguard, platform).Ok? && !isBrowser ==>
      r == Err(ReferenceError("window"))
  {
    var checked :- Checks.CheckSet(prefix, key, ref, safeguard);
    var encoded :- Encoder.Encode(ref, safeguard, platform);
    var entries :- Read(bs, isBrowser, hash, platform);
    if !isBrowser then Err(ReferenceError("window"))
    else Ok(Fragment.Assign(HashEntries.SetRaw(bs, hash, checked.0, encoded)))
  }

  class HashStorage {
    /** The escape bindings of the channel. */
    const bs: seq<HashBindings.Binding>
    /** `Url` or `Site`, as in the names of the channel's functions. */
    const channel: string
    /** `isBrowser` of src/util/env.js, fixed at load. */
    const isBrowser: bool
    /** Whether the browser provides `btoa` and `atob`. */
    const platform: Encoder.Platform
    /** `window.location.hash`, without its `#`. */
    var hash: string
    /** `curUrlHash` */
    var cur: seq<Field>
    /** `_handlers` */
    var handlers: map<string, seq<JsValue>>

    predicate Valid() {
      HashEntries.Escapes(bs)
    }

    constructor Loaded(bs: seq<HashBindings.Binding>, channel: string, isBrowser: bool, platform: Encoder.Platform,
                       hash: string, cur: seq<Field>)
      ensures this.bs == bs && this.channel == channel && this.isBrowser == isBrowser && this.platform == platform
      ensures this.hash == hash && this.cur == cur && handlers == map[]
    {
      this.bs := bs;
      this.channel := channel;
      this.isBrowser := isBrowser;
      this.platform := platform;
      this.hash := hash;
      this.cur := cur;
      handlers := map[];
    }

    /**
     * Loading the module: `curUrlHash` is the launch hash's entries, and
     * loading throws when one of them fails to decode.
     */
    static method Load(bs: seq<HashBindings.Binding>, channel: string, isBrowser: bool, platform: Encoder.Platform, hash: string)
      returns (r: Result<HashStorage>)
      requires HashEntries.Escapes(bs)
      ensures r.Err? <==> Read(bs, isBrowser, hash, platform).Err?
      ensures r.Err? ==> r.error == Read(bs, isBrowser, hash, platform).error
      ensures r.Ok? ==> fresh(r.value) && r.value.Valid()
      ensures r.Ok? ==> r.value.bs == bs && r.value.channel == channel && r.value.isBrowser == isBrowser && r.value.platform == platform
      ensures r.Ok? ==> r.value.hash == hash && r.value.cur == Read(bs, isBrowser, hash, platform).value && r.value.handlers == map[]
    {
      var entries := Read(bs, isBrowser, hash, platform);
      if entries.Err? {
        return Err(entries.error);
      }
      var storage := new HashStorage.Loaded(bs, channel, isBrowser, platform, hash, entries.value);
      return Ok(storage);
    }

    /** `getUrlHash()` on the current hash. */
    function Live(): Result<seq<Field>>
      reads this
      requires Valid()
    {
      Read(bs, isBrowser, hash, platform)
    }

    /**
     * The recorded entry of `k` is truthy exactly when the current hash's
     * is, so an update decides as the current hash would. This holds at load,
     * and after a `hashchange` for every key the new hash holds. The hash is
     * one the browser keeps as it is, as every hash a browser holds is, and
     * a set of `k` writes text that does not start with `#`.
     */
    predicate InSync(k: string)
      reads this
      requires Valid()
    {
      Live().Ok? && (Truthy(Member(cur, k)) <==> Truthy(Member(Live().value, k))) && Fragment.Kept(hash)
      && !Fragment.HashLed(HashEntries.Lead(hash, k))
    }

    /** `getUrlHashItem(key)`: the value the current hash gives the key, `undefined` for none. */
    function GetItem(key: JsValue): (r: Result<JsValue>)
      reads this
      requires Valid()
      ensures Checks.CheckKey(Prefix("get", channel), key).Err? ==> r.Err? && r.error.ParamViolation?
      ensures r.Ok? <==> Checks.CheckKey(Prefix("get", channel), key).Ok? && Live().Ok?
      ensures r.Ok? ==> r.value == Member(Live().value, key.s)
      ensures r.Ok? && key.s !in Names(Live().value) ==> r.value == Undefined
    {
      var k :- Checks.CheckKey(Prefix("get", channel), key);
      var entries :- Live();
      Ok(Member(entries, k))
    }

    /**
     * `isUrlHashItemDefined(key)`: whether the value the current hash gives
     * the key is truthy. Only the URL hash exports it; the site hash has no
     * such operation, so nothing calls it on the site channel.
     */
    function IsItemDefined(key: JsValue): (r: Result<bool>)
      reads this
      requires Valid()
      ensures r.Ok? <==> GetItem(key).Ok?
      ensures r.Ok? ==> r.value == Truthy(GetItem(key).value)
      ensures Checks.CheckKey(DEFINED_PREFIX, key).Err? ==> r.Err? && r.error.ParamViolation?
    {
      var k :- Checks.CheckKey(DEFINED_PREFIX, key);
      var entries :- Live();
      Ok(Truthy(Member(entries, k)))
    }

    /** `setUrlHashItem(key, ref, safeguard)` */
    method SetItem(key: JsValue, ref: JsValue, safeguard: JsValue) returns (r: Outcome)
      requires Valid()
      modifies this
      ensures cur == old(cur) && handlers == old(handlers)
      ensures var s := SetText(bs, isBrowser, old(hash), platform, Prefix("set", channel), key, ref, safeguard);
        (r.Pass? <==> s.Ok?) && (s.Ok? ==> hash == s.value) && (s.Err? ==> hash == old(hash) && r == Fail(s.error))
      ensures r.Pass? && '&' !in key.s && '=' !in key.s
        && Encoder.SafeguardArg(safeguard).Bool? && Encoder.RoundTrips(ref, Encoder.SafeguardArg(safeguard).b, platform)
        && Encoder.Encode(ref, safeguard, platform).Ok? && HashBindings.MARK !in Encoder.Encode(ref, safeguard, platform).value
        && Fragment.Kept(old(hash)) && Fragment.Kept(key.s) && !Fragment.HashLed(HashEntries.Lead(old(hash), key.s))
        && Fragment.Kept(HashBindings.Escape(bs, Encoder.Encode(ref, safeguard, platform).value))
        ==> GetItem(key) == Ok(ref) && forall other :: other != key.s ==> Member(Live().value, other) == old(Member(Live().value, other))
    {
      hide Encoder.Encode, Encoder.RoundTrips, HashBindings.Escape, Fragment.Kept, Fragment.Encode, Fragment.Assign, HashEntries.SetRaw, Read;
      var s := SetText(bs, isBrowser, hash, platform, Prefix("set", channel), key, ref, safeguard);
      if s.Err? {
        return Fail(s.error);
      }
      ghost var before := hash;
      hash := s.value;
      if '&' !in key.s && '=' !in key.s && Encoder.SafeguardArg(safeguard).Bool?
        && Encoder.RoundTrips(ref, Encoder.SafeguardArg(safeguard).b, platform)
        && Encoder.Encode(ref, safeguard, platform).Ok? && HashBindings.MARK !in Encoder.Encode(ref, safeguard, platform).value
        && Fragment.Kept(before) && Fragment.Kept(key.s) && !Fragment.HashLed(HashEntries.Lead(before, key.s))
        && Fragment.Kept(HashBindings.Escape(bs, Encoder.Encode(ref, safeguard, platform).value))
      {
        SetThenGetAll(bs, before, platform, key.s, ref, safeguard);
      }
      return Pass;
    }

    /**
     * `updateUrlHashItem(key, ref, safeguard)`: a set that happens only when
     * the recorded entry of the key is truthy, and reports whether it did.
     */
    method UpdateItem(key: JsValue, ref: JsValue, safeguard: JsValue) returns (r: Result<bool>)
      requires Valid()
      modifies this
      ensures cur == old(cur) && handlers == old(handlers)
      ensures Checks.CheckSet(Prefix("update", channel), key, ref, safeguard).Err? ==>
        r == Err(Checks.CheckSet(Prefix("update", channel), key, ref, safeguard).error) && hash == old(hash)
      ensures Checks.CheckSet(Prefix("update", channel), key, ref, safeguard).Ok? && !Truthy(Member(cur, key.s)) ==>
        r == Ok(false) && hash == old(hash)
      ensures Checks.CheckSet(Prefix("update", channel), key, ref, safeguard).Ok? && Truthy(Member(cur, key.s)) ==>
        var s := SetText(bs, isBrowser, old(hash), platform, Prefix("set", channel), key, ref, safeguard);
        (s.Ok? ==> r == Ok(true) && hash == s.value) && (s.Err? ==> r == Err(s.error) && hash == old(hash))
    {
      var checked := Checks.CheckSet(Prefix("update", channel), key, ref, safeguard);
      if checked.Err? {
        return Err(checked.error);
      }
      if Truthy(Member(cur, key.s)) {
        var outcome := SetItem(key, ref, safeguard);
        if outcome.Fail? {
          return Err(outcome.error);
        }
        return Ok(true);
      }
      return Ok(false);
    }

    /** `registerUrlHashItemChangeHandler(key, handler)`: the handler goes last in the key's list. */
    method Register(key: JsValue, handler: JsValue) returns (r: Outcome)
      requires Valid()
      modifies this
      ensures hash == old(hash) && cur == old(cur)
      ensures var c := Checks.CheckRegister(RegisterPrefix(channel), key, handler);
        (r.Pass? <==> c.Ok?) &&
        (c.Ok? ==> handlers == Registered(old(handlers), c.value, handler)) &&
        (c.Err? ==> handlers == old(handlers) && r == Fail(c.error))
    {
      var c := Checks.CheckRegister(RegisterPrefix(channel), key, handler);
      if c.Err? {
        return Fail(c.error);
      }
      handlers := Registered(handlers, c.value, handler);
      return Pass;
    }

    /**
     * The `hashchange` listener, installed only in a browser: the handler
     * calls it makes for the entries of the new hash that changed, and what
     * reading the new hash throws.
     */
    method OnHashChange() returns (r: Result<seq<Notification>>)
      requires Valid()
      modifies this
      ensures hash == old(hash) && handlers == old(handlers)
      ensures !isBrowser ==> r == Ok([]) && cur == old(cur)
      ensures isBrowser && Live().Err? ==> r == Err(Live().error) && cur == old(cur)
      ensures isBrowser && Live().Ok? ==> r.Ok? && (cur, r.value) == Diff(old(cur), Live().value, handlers)
      ensures isBrowser && Live().Ok? ==> r.Ok? && r.value == Notified(old(cur), Live().value, handlers)
      ensures isBrowser && Live().Ok? ==>
        forall k :: Member(cur, k) == (if k in Names(Live().value) then Member(Live().value, k) else Member(old(cur), k))
    {
      if !isBrowser {
        return Ok([]);
      }
      var read := Live();
      if read.Err? {
        return Err(read.error);
      }
      var entries := read.value;
      var recorded, calls := Listen(cur, entries, handlers);
      cur := recorded;
      HashEntries.ReadHashEntries(HashEntries.SinglePass, bs, hash, platform, "");
      DiffMeaning(old(cur), entries, handlers);
      return Ok(calls);
    }
  }

  /**
   * Set then get: after a set that completes, the key reads back as the
   * value set, and every other key reads as it did before, for every value
   * a set accepts that the codec gives back and whose encoding holds no `@`.
   */
  lemma SetThenGet(bs: seq<HashBindings.Binding>, hash: string, platform: Encoder.Platform,
                   key: string, ref: JsValue, safeguard: bool, other: string)
    requires HashEntries.Escapes(bs)
    requires '&' !in key && '=' !in key
    requires Checks.AcceptedRef(ref) && Encoder.RoundTrips(ref, safeguard, platform)
    requires Encoder.Encode(ref, Bool(safeguard), platform).Ok?
    requires HashBindings.MARK !in Encoder.Encode(ref, Bool(safeguard), platform).value
    requires Read(bs, true, hash, platform).Ok?
    ensures var written := HashEntries.SetRaw(bs, hash, key, Encoder.Encode(ref, Bool(safeguard), platform).value);
      Read(bs, true, written, platform).Ok?
    ensures var written := HashEntries.SetRaw(bs, hash, key, Encoder.Encode(ref, Bool(safeguard), platform).value);
      Read(bs, true, written, platform).Ok? && Member(Read(bs, true, written, platform).value, key) == ref
    ensures var written := HashEntries.SetRaw(bs, hash, key, Encoder.Encode(ref, Bool(safeguard), platform).value);
      Read(bs, true, written, platform).Ok? &&
      (other != key ==> Member(Read(bs, true, written, platform).value, other) == Member(Read(bs, true, hash, platform).value, other))
  {
    var encoded := Encoder.Encode(ref, Bool(safeguard), platform).value;
    Encoder.RoundTrip(ref, safeguard, platform);
    Checks.EncodedNonEmpty(ref, safeguard, platform);
    var written := HashEntries.SetRaw(bs, hash, key, encoded);
    HashEntries.SetRawReads(bs, hash, key, encoded, platform);
    var after := Read(bs, true, written, platform).value;
    HashEntries.SetRawThenRead(bs, hash, key, encoded, platform, other);
    assert Lookup(after, key) == Some(ref);
    if other != key {
      var before := Read(bs, true, hash, platform).value;
      HashEntries.RawEntriesMirror(HashEntries.SinglePass, bs, hash, platform, other);
      assert Lookup(after, other) == Lookup(before, other);
    }
  }

  /**
   * Set then get, for every key at once, on the hash the browser keeps: the
   * browser changes nothing of the written text when the current hash, the
   * key and the escaped encoding hold nothing it percent-encodes.
   */
  lemma SetThenGetAll(bs: seq<HashBindings.Binding>, hash: string, platform: Encoder.Platform,
                      key: string, ref: JsValue, safeguard: JsValue)
    requires HashEntries.Escapes(bs)
    requires '&' !in key && '=' !in key
    requires Encoder.SafeguardArg(safeguard).Bool?
    requires Checks.AcceptedRef(ref) && Encoder.RoundTrips(ref, Encoder.SafeguardArg(safeguard).b, platform)
    requires Encoder.Encode(ref, safeguard, platform).Ok?
    requires HashBindings.MARK !in Encoder.Encode(ref, safeguard, platform).value
    requires Read(bs, true, hash, platform).Ok?
    requires Fragment.Kept(hash) && Fragment.Kept(key) && !Fragment.HashLed(HashEntries.Lead(hash, key))
    requires Fragment.Kept(HashBindings.Escape(bs, Encoder.Encode(ref, safeguard, platform).value))
    ensures var after := Read(bs, true, Fragment.Assign(HashEntries.SetRaw(bs, hash, key, Encoder.Encode(ref, safeguard, platform).value)), platform);
      after.Ok? && Member(after.value, key) == ref &&
      forall other :: other != key ==> Member(after.value, other) == Member(Read(bs, true, hash, platform).value, other)
  {
    var sg := Encoder.SafeguardArg(safeguard).b;
    Encoder.SafeguardDefault(ref, safeguard, platform);
    var written := HashEntries.SetRaw(bs, hash, key, Encoder.Encode(ref, safeguard, platform).value);
    HashEntries.SetRawKept(bs, hash, key, Encoder.Encode(ref, safeguard, platform).value);
    var after := Read(bs, true, written, platform);
    var before := Read(bs, true, hash, platform);
    SetThenGet(bs, hash, platform, key, ref, sg, key);
    forall other | other != key
      ensures Member(after.value, other) == Member(before.value, other)
    {
      SetThenGet(bs, hash, platform, key, ref, sg, other);
    }
  }

  // ---------------------------------------------------------------------------
  // The site hash and the browser's percent-encoding

  /** The JSON text of `{"a":1}`, as the encoder writes it. */
  const SMALL_OBJECT_TEXT := "asonja{\"a\":1}"
  /** What the browser keeps of `k=` and that text. */
  const SMALL_OBJECT_KEPT := "k=asonja{%22a%22:1}"

  /**
   * As written, the site hash escapes only `&` and `=`: setting `{"a":1}`
   * under `k` in an empty site hash leaves `k=asonja{%22a%22:1}` in the
   * browser, and from then on every read of the site hash fails.
   */
  lemma SiteObjectUnreadable(platform: Encoder.Platform)
    ensures HashEntries.Escapes(HashBindings.SITE_BINDINGS)
    ensures SetText(HashBindings.SITE_BINDINGS, true, "", platform, Prefix("set", SITE_CHANNEL),
                    Str("k"), Obj([Field("a", Num(1))]), Bool(false)) == Ok(SMALL_OBJECT_KEPT)
    ensures Read(HashBindings.SITE_BINDINGS, true, SMALL_OBJECT_KEPT, platform).Err?
  {
    HashEntries.BindingsEscape();
    SmallObjectSet(platform);
    SmallObjectKept();
    SmallObjectFails(platform);
  }

  lemma SmallObjectSet(platform: Encoder.Platform)
    ensures HashEntries.Escapes(HashBindings.SITE_BINDINGS)
    ensures SetText(HashBindings.SITE_BINDINGS, true, "", platform, Prefix("set", SITE_CHANNEL),
                    Str("k"), Obj([Field("a", Num(1))]), Bool(false)) == Ok(Fragment.Assign("k" + "=" + SMALL_OBJECT_TEXT))
  {
    var bs, o := HashBindings.SITE_BINDINGS, Obj([Field("a", Num(1))]);
    hide HashBindings.Escape, HashEntries.ReadItems, HashEntries.SetRaw, Fragment.Encode, Fragment.Assign, Text.Split, Json.Stringify;
    hide Encoder.Layered, Encoder.Encode, Checks.CheckSet, Prefix;
    HashEntries.BindingsEscape();
    assert Read(bs, true, "", platform) == Ok([]);
    SmallObjectAccepted(o, platform);
    SiteFreshItem("k", SMALL_OBJECT_TEXT);
  }

  /** `{"a":1}` passes the checks of a site-hash set and encodes to its JSON text. */
  lemma SmallObjectAccepted(o: JsValue, platform: Encoder.Platform)
    requires o == Obj([Field("a", Num(1))])
    ensures Checks.CheckSet(Prefix("set", SITE_CHANNEL), Str("k"), o, Bool(false)).Ok?
    ensures Encoder.Encode(o, Bool(false), platform) == Ok(SMALL_OBJECT_TEXT)
    ensures '&' !in SMALL_OBJECT_TEXT && '=' !in SMALL_OBJECT_TEXT
  {
    hide Encoder.Layered, Encoder.Encode, Json.Stringify;
    Encoder.SmallObjectEncoded(platform);
    assert Names(o.fields) == ["a"];
    assert Checks.AcceptedRef(o);
  }

  lemma SmallObjectKept()
    ensures Fragment.Assign("k" + "=" + SMALL_OBJECT_TEXT) == SMALL_OBJECT_KEPT
  {
    var a, b, c := "k=asonja{", "a", ":1}";
    hide Fragment.Encode;
    Fragment.AssignIsEncode("k" + "=" + SMALL_OBJECT_TEXT);
    assert "k" + "=" + SMALL_OBJECT_TEXT == a + "\"" + b + "\"" + c;
    Fragment.QuotesEncoded(a, b, c);
    assert a + "%22" + b + "%22" + c == SMALL_OBJECT_KEPT;
  }

  lemma SmallObjectFails(platform: Encoder.Platform)
    ensures HashEntries.Escapes(HashBindings.SITE_BINDINGS)
    ensures Read(HashBindings.SITE_BINDINGS, true, SMALL_OBJECT_KEPT, platform).Err?
  {
    var rest := "%22a%22:1}";
    hide Read;
    assert '&' !in rest && '=' !in rest && HashBindings.MARK !in rest;
    SiteUnquotedObjectFails("k", rest, platform);
    assert "k" + "=" + (Encoder.JSON_MARKER + "{" + rest) == SMALL_OBJECT_KEPT;
  }

  /**
   * A key that starts with `#`, set in an empty hash, loses its `#`: the hash
   * setter drops it, so the hash holds `a=v`, which gives `v` to the key `a`
   * and nothing to the key `#a`.
   */
  lemma LeadingHashKeyLost(platform: Encoder.Platform)
    ensures HashEntries.Escapes(HashBindings.SITE_BINDINGS)
    ensures SetText(HashBindings.SITE_BINDINGS, true, "", platform, Prefix("set", SITE_CHANNEL),
                    Str("#a"), Str("v"), Bool(false)) == Ok("a=v")
    ensures Read(HashBindings.SITE_BINDINGS, true, "a=v", platform) == Ok([Field("a", Str("v"))])
    ensures Member(Read(HashBindings.SITE_BINDINGS, true, "a=v", platform).value, "#a") == Undefined
  {
    LeadingHashKeySet(platform);
    LeadingHashKeyRead(platform);
    HashKeyMissing();
    hide *;
  }

  lemma HashKeyMissing()
    ensures Member([Field("a", Str("v"))], "#a") == Undefined
  {
    assert "a" != "#a";
  }

  lemma LeadingHashKeySet(platform: Encoder.Platform)
    ensures HashEntries.Escapes(HashBindings.SITE_BINDINGS)
    ensures SetText(HashBindings.SITE_BINDINGS, true, "", platform, Prefix("set", SITE_CHANNEL),
                    Str("#a"), Str("v"), Bool(false)) == Ok("a=v")
  {
    var bs := HashBindings.SITE_BINDINGS;
    hide HashBindings.Escape, HashEntries.ReadItems, HashEntries.SetRaw, Fragment.Assign, Text.Split;
    hide Encoder.Layered, Encoder.Encode;
    HashEntries.BindingsEscape();
    assert Read(bs, true, "", platform) == Ok([]);
    Encoder.StringEncodesToItself("v", platform);
    SiteFreshItem("#a", "v");
    assert "#a" + "=" + "v" == "#a=v";
    Fragment.LeadingHashDropped();
  }

  lemma LeadingHashKeyRead(platform: Encoder.Platform)
    ensures HashEntries.Escapes(HashBindings.SITE_BINDINGS)
    ensures Read(HashBindings.SITE_BINDINGS, true, "a=v", platform) == Ok([Field("a", Str("v"))])
  {
    var bs := HashBindings.SITE_BINDINGS;
    HashEntries.BindingsEscape();
    PlainValueStored(platform);
    hide HashEntries.ReadHash, HashEntries.StoredValue, HashEntries.Escapes, HashBindings.AllFramed;
    HashEntries.ReadSingle(HashEntries.SinglePass, bs, "a", "v", platform);
    assert "a" + "=" + "v" == "a=v";
  }

  lemma PlainValueStored(platform: Encoder.Platform)
    ensures HashBindings.AllFramed(HashBindings.SITE_BINDINGS)
    ensures HashEntries.StoredValue(HashEntries.SinglePass, HashBindings.SITE_BINDINGS, "v", platform) == Ok(Str("v"))
  {
    HashEntries.BindingsEscape();
    assert !Text.StartsWith("v", Encoder.SAFEGUARD_MARKER) && !Text.StartsWith("v", Encoder.JSON_MARKER);
    HashEntries.PlainTextStored(HashBindings.SITE_BINDINGS, "v", platform);
  }

  /** Set in an empty site hash, a text without `&` and `=` is written as it is. */
  lemma SiteFreshItem(key: string, e: string)
    requires '&' !in e && '=' !in e
    ensures HashBindings.AllFramed(HashBindings.SITE_BINDINGS)
    ensures HashEntries.SetRaw(HashBindings.SITE_BINDINGS, "", key, e) == key + "=" + e
  {
    var bs := HashBindings.SITE_BINDINGS;
    HashEntries.BindingsEscape();
    HashBindings.EscapeIsEach(bs, e);
    forall k | 0 <= k < |e|
      ensures !HashBindings.Bound(bs, e[k])
    {
      assert e[k] != '&' && e[k] != '=';
    }
    HashBindings.EscapeEachNoneBound(bs, e);
    hide HashBindings.Escape, HashBindings.EscapeEach;
    assert HashEntries.RawEntries("") == [];
    assert Put([], key, Str(e)) == [Field(key, Str(e))];
    assert HashEntries.RawItemTexts([Field(key, Str(e))]) == [key + "=" + e];
  }

  /** A site hash item holding marked JSON text whose object does not open with a member name fails every read. */
  lemma SiteUnquotedObjectFails(key: string, rest: string, platform: Encoder.Platform)
    requires '&' !in key && '=' !in key
    requires '&' !in rest && '=' !in rest && HashBindings.MARK !in rest
    requires rest != [] && rest[0] != '"' && rest[0] != '}' && !Json.IsWs(rest[0])
    ensures HashEntries.Escapes(HashBindings.SITE_BINDINGS)
    ensures Read(HashBindings.SITE_BINDINGS, true, key + "=" + (Encoder.JSON_MARKER + "{" + rest), platform).Err?
  {
    var bs := HashBindings.SITE_BINDINGS;
    var t := Encoder.JSON_MARKER + "{" + rest;
    hide Json.Parse, Json.ParseValue, Encoder.Decode, Encoder.DecodeClear, HashBindings.Unescape;
    hide HashEntries.ReadHash, HashEntries.ReadItems, HashEntries.ItemValue, Text.Split, Text.StartsWith;
    HashEntries.BindingsEscape();
    Json.UnquotedMemberFails(rest);
    assert Encoder.JSON_MARKER + ("{" + rest) == t;
    Encoder.UnparsedJsonFails("{" + rest, platform);
    assert HashBindings.MARK !in t;
    HashBindings.UnescapeUnmarked(bs, t);
    assert HashEntries.StoredValue(HashEntries.SinglePass, bs, t, platform).Err?;
    HashEntries.ReadSingleFails(HashEntries.SinglePass, bs, key, t, platform);
  }
}
