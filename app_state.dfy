/**
 * App-state retention over two channels: src/util/persistence/appStateRetention.js
 * (URL hash and local storage) and its older twin src/util/appStateRetention.js
 * (site hash and device storage).
 *
 * A value lives in the hash when its key is already there, and in local
 * storage otherwise; a get prefers a truthy hash value. The newer twin keeps a
 * ledger of every key it was asked about (`_keysInUse`), from which it builds
 * a shareable URL whose hash holds the whole app state.
 */
module AppStateRetention {
  import opened Js
  import Text
  import Encoder
  import Json
  import HashBindings
  import HashEntries
  import Fragment
  import Checks
  import opened Handlers
  import HashStorage
  import Storage

  const GET_PREFIX := "getAppStateItem() parameter violation: "
  const SET_PREFIX := "setAppStateItem() parameter violation: "
  const REGISTER_PREFIX := "registerAppStateChangeHandler() parameter violation: "

  // ---------------------------------------------------------------------------
  // The ledger of keys in use

  /** No key occurs twice. */
  predicate Distinct(ledger: seq<string>) {
    forall i, j :: 0 <= i < j < |ledger| ==> ledger[i] != ledger[j]
  }

  /** `_keysInUse[key] = key`: a new key goes last, a known one keeps its place. */
  function Recorded(ledger: seq<string>, key: string): (r: seq<string>)
    ensures ledger <= r && key in r
    ensures forall k :: k in r <==> k in ledger || k == key
    ensures Distinct(ledger) ==> Distinct(r)
  {
    if key in ledger then ledger else ledger + [key]
  }

  // ---------------------------------------------------------------------------
  // Reading across the channels

  /**
   * `getUrlHashItem(key) || getLocalStorageItem(key)` (in the older twin
   * `getSiteHashItem(key) || fetchItem(key)`): the hash's value when it is
   * truthy, and the stored one otherwise.
   */
  function Value(hashChannel: HashStorage.HashStorage, storage: Storage.Storage, key: JsValue): (r: Result<JsValue>)
    reads hashChannel, storage
    requires hashChannel.Valid()
    ensures hashChannel.GetItem(key).Err? ==> r == Err(hashChannel.GetItem(key).error)
    ensures hashChannel.GetItem(key).Ok? && Truthy(hashChannel.GetItem(key).value) ==> r == hashChannel.GetItem(key)
    ensures hashChannel.GetItem(key).Ok? && !Truthy(hashChannel.GetItem(key).value) ==> r == storage.GetItem(key)
  {
    var fromHash :- hashChannel.GetItem(key);
    if Truthy(fromHash) then Ok(fromHash) else storage.GetItem(key)
  }

  /** `getAppStateItem(key)`, apart from its ledger entry. */
  function Get(hashChannel: HashStorage.HashStorage, storage: Storage.Storage, key: JsValue): (r: Result<JsValue>)
    reads hashChannel, storage
    requires hashChannel.Valid()
    ensures Checks.CheckKey(GET_PREFIX, key).Err? ==> r == Err(Checks.CheckKey(GET_PREFIX, key).error)
    ensures Checks.CheckKey(GET_PREFIX, key).Ok? ==> r == Value(hashChannel, storage, key)
  {
    var _ :- Checks.CheckKey(GET_PREFIX, key);
    Value(hashChannel, storage, key)
  }

  // ---------------------------------------------------------------------------
  // Registration checks

  /** An omitted `crossCommunicateLocalStorageChanges` is `false`. */
  function CrossArg(cross: JsValue): JsValue {
    if cross.Undefined? then Bool(false) else cross
  }

  /** The checks of `registerAppStateChangeHandler`, in order: the key's text and the opt-in flag. */
  function CheckRegistration(key: JsValue, handler: JsValue, cross: JsValue): (r: Result<(string, bool)>)
    ensures r.Ok? <==> Checks.CheckRegister(REGISTER_PREFIX, key, handler).Ok? && (cross.Undefined? || cross.Bool?)
    ensures r.Ok? ==> r.value == (key.s, CrossArg(cross) == Bool(true))
    ensures Checks.CheckKey(REGISTER_PREFIX, key).Err? ==> r == Err(Checks.CheckKey(REGISTER_PREFIX, key).error)
    ensures r.Err? ==> r.error.ParamViolation?
  {
    var k :- Checks.CheckRegister(REGISTER_PREFIX, key, handler);
    if !CrossArg(cross).Bool? then
      Err(ParamViolation(REGISTER_PREFIX + "crossCommunicateLocalStorageChanges must be a boolean (true/false), NOT: "))
    else Ok((k, CrossArg(cross).b))
  }

  // ---------------------------------------------------------------------------
  // The shareable URL

  /** `location.hash`: empty for an empty fragment, `#` and the fragment otherwise. */
  function LocationHash(hash: string): string {
    if hash == "" then "" else "#" + hash
  }

  /** `location.href.replace(location.hash, '')`: the page's URL without its fragment. */
  function PageUrl(href: string, hash: string): string {
    Text.ReplaceFirst(href, LocationHash(hash), "")
  }

  /**
   * The text under which the shareable URL carries a value: its encoding,
   * escaped as a set writes it, so that reading the hash gives the value back.
   */
  function SharedText(bs: seq<HashBindings.Binding>, value: JsValue): (r: Result<string>)
    requires HashBindings.AllFramed(bs)
    ensures r.Ok? <==> Encoder.Encodable(value)
    ensures r.Ok? ==> r.value == HashBindings.Escape(bs, Encoder.Layered(value))
  {
    var encoded :- Encoder.Encode(value, Bool(false), Encoder.Platform(false, false));
    Ok(HashBindings.Escape(bs, encoded))
  }

  /** The entry of the shareable hash for one ledger key: the key and the text of its app-state value. */
  function SharedEntry(urlHash: HashStorage.HashStorage, local: Storage.Storage, key: string): (r: Result<Field>)
    reads urlHash, local
    requires urlHash.Valid()
    ensures r.Ok? <==> Get(urlHash, local, Str(key)).Ok? && Encoder.Encodable(Get(urlHash, local, Str(key)).value)
    ensures r.Ok? ==> r.value == Field(key, Str(HashBindings.Escape(urlHash.bs, Encoder.Layered(Get(urlHash, local, Str(key)).value))))
  {
    var value :- Get(urlHash, local, Str(key));
    var text :- SharedText(urlHash.bs, value);
    Ok(Field(key, Str(text)))
  }

  /**
   * The entries of the shareable hash, one per ledger key in ledger order,
   * or the first error a get or an encoding throws.
   */
  function SharedEntries(urlHash: HashStorage.HashStorage, local: Storage.Storage, keys: seq<string>): (r: Result<seq<Field>>)
    reads urlHash, local
    requires urlHash.Valid()
    ensures r.Ok? ==> |r.value| == |keys|
    ensures r.Ok? ==> forall i :: 0 <= i < |keys| ==> SharedEntry(urlHash, local, keys[i]) == Ok(r.value[i])
    decreases |keys|
  {
    if keys == [] then Ok([])
    else
      var entries :- SharedEntries(urlHash, local, keys[..|keys| - 1]);
      var entry :- SharedEntry(urlHash, local, keys[|keys| - 1]);
      SharedEntriesSnoc(urlHash, local, keys, entries, entry);
      Ok(entries + [entry])
  }

  lemma SharedEntriesSnoc(urlHash: HashStorage.HashStorage, local: Storage.Storage, keys: seq<string>,
                          entries: seq<Field>, entry: Field)
    requires urlHash.Valid() && keys != [] && |entries| == |keys| - 1
    requires forall i :: 0 <= i < |keys| - 1 ==> SharedEntry(urlHash, local, keys[..|keys| - 1][i]) == Ok(entries[i])
    requires SharedEntry(urlHash, local, keys[|keys| - 1]) == Ok(entry)
    ensures forall i :: 0 <= i < |keys| ==> SharedEntry(urlHash, local, keys[i]) == Ok((entries + [entry])[i])
  {
    hide SharedEntry;
    forall i | 0 <= i < |keys|
      ensures SharedEntry(urlHash, local, keys[i]) == Ok((entries + [entry])[i])
    {
      if i < |keys| - 1 {
        assert keys[..|keys| - 1][i] == keys[i];
      }
    }
  }

  /** Once a get or an encoding throws for a ledger key, the whole URL throws that. */
  lemma {:induction false} SharedEntriesFail(urlHash: HashStorage.HashStorage, local: Storage.Storage, keys: seq<string>, j: nat)
    requires urlHash.Valid()
    requires j <= |keys| && SharedEntries(urlHash, local, keys[..j]).Err?
    ensures SharedEntries(urlHash, local, keys) == Err(SharedEntries(urlHash, local, keys[..j]).error)
    decreases |keys| - j
  {
    if j < |keys| {
      assert keys[..j + 1][..j] == keys[..j];
      SharedEntriesFail(urlHash, local, keys, j + 1);
    } else {
      assert keys[..j] == keys;
    }
  }

  /** The shareable URL's hash is `key=text` items joined by `&`, one per entry. */
  lemma SharedTextSnoc(entries: seq<Field>, f: Field)
    ensures HashEntries.RawText(entries + [f]) ==
      if entries == [] then f.name + "=" + DisplayString(f.value)
      else HashEntries.RawText(entries) + "&" + f.name + "=" + DisplayString(f.value)
  {
    HashEntries.RawItemTextsSnoc(entries, f);
    Text.JoinSnoc(HashEntries.RawItemTexts(entries), f.name + "=" + DisplayString(f.value), "&");
  }

  /** One step of the URL's accumulation: the delimiter, then the entry's item. */
  lemma AppendItem(shared: string, delim: string, entries: seq<Field>, e: Field, text: string)
    requires shared == HashEntries.RawText(entries) && delim == (if entries == [] then "" else "&")
    requires e.value == Str(text)
    ensures shared + delim + e.name + "=" + text == HashEntries.RawText(entries + [e])
  {
    var item := e.name + "=" + text;
    HashEntries.RawItemTextsSnoc(entries, e);
    assert DisplayString(e.value) == text;
    Text.JoinSnoc(HashEntries.RawItemTexts(entries), item, "&");
    if entries == [] {
      assert HashEntries.RawText(entries + [e]) == item;
      assert shared + delim == "";
    } else {
      assert HashEntries.RawText(entries + [e]) == shared + "&" + item;
    }
    assert shared + delim + e.name + "=" + text == (shared + delim) + item;
  }

  /**
   * The reduce over the ledger `keys`: the `key=text` items of the shareable
   * hash joined by `&`, or the first error a get or an encoding throws.
   */
  method SharedHash(urlHash: HashStorage.HashStorage, local: Storage.Storage, keys: seq<string>) returns (r: Result<string>)
    requires urlHash.Valid()
    ensures var e := SharedEntries(urlHash, local, keys);
      (e.Err? ==> r == Err(e.error)) && (e.Ok? ==> r == Ok(HashEntries.RawText(e.value)))
  {
    hide SharedEntry, Get;
    SharedStart(urlHash, local, keys);
    var shared := "";
    var delim := "";
    ghost var entries: seq<Field> := [];
    var i := 0;
    while i < |keys|
      invariant 0 <= i <= |keys|
      invariant SharedEntries(urlHash, local, keys[..i]) == Ok(entries)
      invariant shared == HashEntries.RawText(entries)
      invariant delim == if i == 0 then "" else "&"
      invariant i == |entries|
    {
      var entry := SharedEntry(urlHash, local, keys[i]);
      SharedStep(urlHash, local, keys, i, entries, shared, delim);
      if entry.Err? {
        return Err(entry.error);
      }
      shared := shared + delim + keys[i] + "=" + entry.value.value.s;
      entries := entries + [entry.value];
      delim := "&";
      i := i + 1;
    }
    assert keys[..|keys|] == keys;
    return Ok(shared);
  }

  /** The reduce starts from no entries and an empty hash. */
  lemma SharedStart(urlHash: HashStorage.HashStorage, local: Storage.Storage, keys: seq<string>)
    requires urlHash.Valid()
    ensures SharedEntries(urlHash, local, keys[..0]) == Ok([]) && HashEntries.RawText([]) == ""
  {
  }

  /** One step of the reduce: the next ledger key either extends the entries and the hash or ends it with its error. */
  lemma SharedStep(urlHash: HashStorage.HashStorage, local: Storage.Storage, keys: seq<string>, i: nat,
                   entries: seq<Field>, shared: string, delim: string)
    requires urlHash.Valid() && i < |keys|
    requires SharedEntries(urlHash, local, keys[..i]) == Ok(entries) && shared == HashEntries.RawText(entries)
    requires delim == (if entries == [] then "" else "&")
    ensures SharedEntry(urlHash, local, keys[i]).Err? ==>
      SharedEntries(urlHash, local, keys) == Err(SharedEntry(urlHash, local, keys[i]).error)
    ensures SharedEntry(urlHash, local, keys[i]).Ok? ==>
      var e := SharedEntry(urlHash, local, keys[i]).value;
      e.value.Str? && SharedEntries(urlHash, local, keys[..i + 1]) == Ok(entries + [e])
      && shared + delim + keys[i] + "=" + e.value.s == HashEntries.RawText(entries + [e])
  {
    hide Get, HashEntries.RawText;
    assert keys[..i + 1][..i] == keys[..i];
    var entry := SharedEntry(urlHash, local, keys[i]);
    if entry.Err? {
      SharedEntriesFail(urlHash, local, keys, i + 1);
    } else {
      AppendItem(shared, delim, entries, entry.value, entry.value.value.s);
    }
  }

  /**
   * The text `getActiveUrlWithFullHash()` as written puts after `key=`: the
   * template literal `${getAppStateItem(key)}`, which neither encodes the
   * value nor escapes the hash's separators, and throws a TypeError for an
   * object whose own `toString` leaves it no primitive.
   */
  function SharedTextAsWritten(value: JsValue): (r: Result<string>)
    ensures value.Str? ==> r == Ok(value.s)
    ensures value.Obj? && "toString" !in Names(value.fields) ==> r == Ok("[object Object]")
    ensures value.Obj? && r.Err? <==> value.Obj? && NoPrimitive(value.fields)
    ensures r.Ok? ==> r.value == DisplayString(value)
  {
    TemplateString(value)
  }

  /** The get of a ledger key succeeds and its value converts to text. */
  predicate WritableAsWritten(urlHash: HashStorage.HashStorage, local: Storage.Storage, key: string)
    reads urlHash, local
    requires urlHash.Valid()
  {
    var value := Get(urlHash, local, Str(key));
    value.Ok? && SharedTextAsWritten(value.value).Ok?
  }

  /** The item as written of a ledger key that converts: `key=${value}`. */
  function ItemAsWritten(urlHash: HashStorage.HashStorage, local: Storage.Storage, key: string): Field
    reads urlHash, local
    requires urlHash.Valid() && WritableAsWritten(urlHash, local, key)
  {
    Field(key, Str(SharedTextAsWritten(Get(urlHash, local, Str(key)).value).value))
  }

  /**
   * The hash `getActiveUrlWithFullHash()` as written builds: one
   * `key=${getAppStateItem(key)}` item per ledger key, in ledger order,
   * joined by `&`, or the first error a get or a conversion throws.
   */
  function SharedEntriesAsWritten(urlHash: HashStorage.HashStorage, local: Storage.Storage, keys: seq<string>): (r: Result<seq<Field>>)
    reads urlHash, local
    requires urlHash.Valid()
    ensures r.Ok? <==> forall i :: 0 <= i < |keys| ==> WritableAsWritten(urlHash, local, keys[i])
    ensures r.Ok? ==> |r.value| == |keys| && forall i :: 0 <= i < |keys| ==>
      WritableAsWritten(urlHash, local, keys[i]) && r.value[i] == ItemAsWritten(urlHash, local, keys[i])
    decreases |keys|
  {
    if keys == [] then Ok([])
    else
      AsWrittenFails(urlHash, local, keys);
      var value :- Get(urlHash, local, Str(keys[0]));
      var text :- SharedTextAsWritten(value);
      var rest :- SharedEntriesAsWritten(urlHash, local, keys[1..]);
      AsWrittenCons(urlHash, local, keys, rest);
      Ok([Field(keys[0], Str(text))] + rest)
  }

  /** The items of all ledger keys convert exactly when the first key's and the rest's do. */
  lemma AsWrittenFails(urlHash: HashStorage.HashStorage, local: Storage.Storage, keys: seq<string>)
    requires urlHash.Valid() && keys != []
    ensures (forall i :: 0 <= i < |keys| ==> WritableAsWritten(urlHash, local, keys[i])) <==>
      WritableAsWritten(urlHash, local, keys[0]) && forall i :: 0 <= i < |keys[1..]| ==> WritableAsWritten(urlHash, local, keys[1..][i])
  {
    hide WritableAsWritten;
    assert forall i :: 1 <= i < |keys| ==> keys[i] == keys[1..][i - 1];
  }

  /** The first ledger key's item goes before the items of the rest. */
  lemma AsWrittenCons(urlHash: HashStorage.HashStorage, local: Storage.Storage, keys: seq<string>, rest: seq<Field>)
    requires urlHash.Valid() && keys != [] && WritableAsWritten(urlHash, local, keys[0])
    requires |rest| == |keys| - 1
    requires forall i :: 0 <= i < |keys[1..]| ==>
      WritableAsWritten(urlHash, local, keys[1..][i]) && rest[i] == ItemAsWritten(urlHash, local, keys[1..][i])
    ensures var r := [ItemAsWritten(urlHash, local, keys[0])] + rest;
      forall i :: 0 <= i < |keys| ==>
        WritableAsWritten(urlHash, local, keys[i]) && r[i] == ItemAsWritten(urlHash, local, keys[i])
  {
    hide WritableAsWritten, ItemAsWritten;
    var r := [ItemAsWritten(urlHash, local, keys[0])] + rest;
    forall i | 0 <= i < |keys|
      ensures WritableAsWritten(urlHash, local, keys[i]) && r[i] == ItemAsWritten(urlHash, local, keys[i])
    {
      if i > 0 {
        var t := keys[1..];
        assert keys[i] == t[i - 1] && r[i] == rest[i - 1];
      }
    }
  }

  /**
   * The URL as written does not escape a value's separators: a ledger key
   * `k` whose value is the string `a&b=c` is written as `k=a&b=c`, which
   * reads back with `k` holding `a` and an extra key `b` holding `c`.
   */
  lemma SharedHashAsWrittenSplits(urlHash: HashStorage.HashStorage, local: Storage.Storage, platform: Encoder.Platform,
                                  k: string, a: string, b: string, c: string)
    requires urlHash.Valid() && '&' !in k && '=' !in k && k != b
    requires HashEntries.PlainText(a) && HashEntries.PlainText(b) && HashEntries.PlainText(c)
    requires Get(urlHash, local, Str(k)) == Ok(Str(a + "&" + b + "=" + c))
    ensures SharedEntriesAsWritten(urlHash, local, [k]).Ok?
    ensures var hash := HashEntries.RawText(SharedEntriesAsWritten(urlHash, local, [k]).value);
      hash == k + "=" + a + "&" + b + "=" + c
      && HashStorage.Read(urlHash.bs, true, hash, platform).Ok?
      && Lookup(HashStorage.Read(urlHash.bs, true, hash, platform).value, k) == Some(Str(a))
      && Lookup(HashStorage.Read(urlHash.bs, true, hash, platform).value, b) == Some(Str(c))
  {
    var written := SharedEntriesAsWritten(urlHash, local, [k]).value;
    assert written == [Field(k, Str(a + "&" + b + "=" + c))];
    var entries := [Field(k, Str(a)), Field(b, Str(c))];
    SplitText(written, entries, k, a, b, c);
    assert HashEntries.PlainPair(entries);
    hide SharedEntriesAsWritten, Get, HashEntries.PlainText, HashEntries.PlainPair;
    HashEntries.TwoItemsRead(urlHash.bs, platform, entries);
  }

  /** The raw item `k=a&b=c` is the text of the two entries `k=a` and `b=c`. */
  lemma SplitText(written: seq<Field>, entries: seq<Field>, k: string, a: string, b: string, c: string)
    requires written == [Field(k, Str(a + "&" + b + "=" + c))]
    requires entries == [Field(k, Str(a)), Field(b, Str(c))]
    ensures HashEntries.RawText(written) == k + "=" + a + "&" + b + "=" + c
    ensures HashEntries.RawText(entries) == k + "=" + a + "&" + b + "=" + c
  {
    SharedTextSnoc([], written[0]);
    assert [] + [written[0]] == written;
    SharedTextSnoc([], entries[0]);
    assert [] + [entries[0]] == entries[..1];
    SharedTextSnoc(entries[..1], entries[1]);
    assert entries[..1] + [entries[1]] == entries;
  }

  /**
   * The URL as written does not carry an object: `{}` under a ledger key
   * becomes `key=[object Object]`, which the hash reads back as the string
   * `[object Object]`. The corrected text, `asonja{}`, reads back as `{}`.
   */
  lemma SharedTextAsWrittenLosesObjects(platform: Encoder.Platform)
    ensures SharedTextAsWritten(Obj([])) == Ok("[object Object]")
    ensures HashBindings.AllFramed(HashBindings.URL_BINDINGS)
    ensures HashEntries.StoredValue(HashEntries.SinglePass, HashBindings.URL_BINDINGS, "[object Object]", platform)
      == Ok(Str("[object Object]"))
    ensures SharedText(HashBindings.URL_BINDINGS, Obj([])).Ok?
    ensures HashEntries.StoredValue(HashEntries.SinglePass, HashBindings.URL_BINDINGS,
                                   SharedText(HashBindings.URL_BINDINGS, Obj([])).value, platform) == Ok(Obj([]))
  {
    HashEntries.BindingsEscape();
    ObjectTextReadsAsString(platform);
    EmptyObjectShareable(platform);
    SharedTextReadsBack(HashBindings.URL_BINDINGS, Obj([]), platform);
  }

  /** `[object Object]` in a hash item reads back as that string. */
  lemma ObjectTextReadsAsString(platform: Encoder.Platform)
    ensures HashBindings.AllFramed(HashBindings.URL_BINDINGS)
    ensures HashEntries.StoredValue(HashEntries.SinglePass, HashBindings.URL_BINDINGS, "[object Object]", platform)
      == Ok(Str("[object Object]"))
  {
    hide HashEntries.StoredValue;
    HashEntries.BindingsEscape();
    ObjectTextPlain("[object Object]");
    hide Text.StartsWith;
    HashEntries.PlainTextStored(HashBindings.URL_BINDINGS, "[object Object]", platform);
  }

  lemma ObjectTextPlain(text: string)
    requires text == "[object Object]"
    ensures HashBindings.MARK !in text && text != Encoder.UNDEFINED_MARKER
    ensures !Text.StartsWith(text, Encoder.SAFEGUARD_MARKER) && !Text.StartsWith(text, Encoder.JSON_MARKER)
  {
    Text.DiffersAt(text, Encoder.SAFEGUARD_MARKER, 0);
    Text.DiffersAt(text, Encoder.JSON_MARKER, 0);
  }

  /**
   * The URL as written throws for a value the codec carries: a plain JSON
   * object with an own `toString` (and no own `apwra` or `hasOwnProperty`)
   * round-trips through the codec, yet once a ledger key's get gives it back,
   * the template literal throws a TypeError and no URL is built.
   */
  lemma OwnToStringThrows(urlHash: HashStorage.HashStorage, local: Storage.Storage, platform: Encoder.Platform,
                          k: string, o: JsValue)
    requires urlHash.Valid() && o.Obj? && "toString" in Names(o.fields)
    requires Encoder.RoundTrips(o, false, platform)
    requires Get(urlHash, local, Str(k)) == Ok(o)
    ensures Encoder.Decode(Str(Encoder.Encode(o, Bool(false), platform).value), platform) == Ok(o)
    ensures SharedTextAsWritten(o).Err?
    ensures SharedEntriesAsWritten(urlHash, local, [k]).Err?
  {
    Encoder.RoundTrip(o, false, platform);
    forall i | 0 <= i < |o.fields|
      ensures !o.fields[i].value.Func?
    {
      Json.MemberJson(o, o.fields[i].name);
      Js.NamesIndex(o.fields, o.fields[i].name);
      LookupDistinct(o.fields, i);
    }
    ObjectTemplateFails(o.fields);
    assert !WritableAsWritten(urlHash, local, [k][0]);
  }

  /** `{toString: 1}` is such an object. */
  lemma OwnToStringExample(platform: Encoder.Platform)
    ensures Encoder.RoundTrips(Obj([Field("toString", Num(1))]), false, platform)
    ensures SharedTextAsWritten(Obj([Field("toString", Num(1))])).Err?
  {
    var o := Obj([Field("toString", Num(1))]);
    assert Names(o.fields) == ["toString"];
    assert Json.JsonValue(o) by {
      assert o.fields[0].value == Num(1);
    }
  }

  /** `{}` is shareable: its encoding is `asonja{}`. */
  lemma EmptyObjectShareable(platform: Encoder.Platform)
    ensures Encoder.Layered(Obj([])) == "asonja{}"
    ensures Shareable(Obj([]), platform)
  {
    assert Json.Stringify(Obj([])) == "{}";
  }

  /** What a ledger value needs for the corrected URL to carry it: an encoding that decodes back to it, that is not empty and that holds no `@`. */
  predicate Shareable(value: JsValue, platform: Encoder.Platform) {
    Encoder.RoundTrips(value, false, platform) && Encoder.Layered(value) != [] && HashBindings.MARK !in Encoder.Layered(value)
  }

  /** The corrected text of a shareable value can sit in a hash item, and reads back as the value. */
  lemma SharedTextReadsBack(bs: seq<HashBindings.Binding>, value: JsValue, platform: Encoder.Platform)
    requires HashEntries.Escapes(bs) && Shareable(value, platform)
    ensures SharedText(bs, value).Ok?
    ensures var t := SharedText(bs, value).value;
      t != [] && '&' !in t && '=' !in t && HashEntries.StoredValue(HashEntries.SinglePass, bs, t, platform) == Ok(value)
  {
    var layered := Encoder.Layered(value);
    HashBindings.EscapedIsItemSafe(bs, layered);
    HashBindings.UnescapeEscape(bs, layered);
    Encoder.RoundTrip(value, false, platform);
  }

  /**
   * The corrected shareable URL carries the whole app state of the ledger:
   * reading its hash gives every ledger key the value a get gives it, and no
   * other key anything, when the keys hold no separator and every value is
   * shareable. The browser keeps that hash text as it is when it holds no
   * character the fragment percent-encodes.
   */
  lemma SharedUrlReadsBack(urlHash: HashStorage.HashStorage, local: Storage.Storage, keys: seq<string>,
                           platform: Encoder.Platform, k: string)
    requires urlHash.Valid() && Distinct(keys)
    requires forall i :: 0 <= i < |keys| ==> '&' !in keys[i] && '=' !in keys[i]
    requires SharedEntries(urlHash, local, keys).Ok?
    requires forall i :: 0 <= i < |keys| ==>
      Get(urlHash, local, Str(keys[i])).Ok? && Shareable(Get(urlHash, local, Str(keys[i])).value, platform)
    requires Fragment.Kept(HashEntries.RawText(SharedEntries(urlHash, local, keys).value))
    ensures var hash := HashEntries.RawText(SharedEntries(urlHash, local, keys).value);
      Fragment.Encode(hash) == hash
    ensures var hash := HashEntries.RawText(SharedEntries(urlHash, local, keys).value);
      HashStorage.Read(urlHash.bs, true, hash, platform).Ok?
    ensures var hash := HashEntries.RawText(SharedEntries(urlHash, local, keys).value);
      HashStorage.Read(urlHash.bs, true, hash, platform).Ok? &&
      (k in keys ==>
         Get(urlHash, local, Str(k)).Ok?
         && Lookup(HashStorage.Read(urlHash.bs, true, hash, platform).value, k) == Some(Get(urlHash, local, Str(k)).value)) &&
      (k !in keys ==> Lookup(HashStorage.Read(urlHash.bs, true, hash, platform).value, k).None?)
  {
    hide Get, SharedEntry, SharedEntries, SharedText, HashEntries.RawText, HashEntries.ReadHash, HashEntries.StoredValue;
    hide Encoder.Layered, HashBindings.Escape, Encoder.RoundTrips;
    var bs := urlHash.bs;
    var entries := SharedEntries(urlHash, local, keys).value;
    Fragment.KeptIsUnchanged(HashEntries.RawText(entries));
    forall i | 0 <= i < |keys|
      ensures entries[i].name == keys[i]
      ensures HashEntries.StorableEntry(entries[i])
      ensures HashEntries.Decodes(HashEntries.SinglePass, bs, entries[i], platform)
      ensures HashEntries.StoredValue(HashEntries.SinglePass, bs, entries[i].value.s, platform) == Get(urlHash, local, Str(keys[i]))
    {
      assert SharedEntry(urlHash, local, keys[i]) == Ok(entries[i]);
      SharedTextReadsBack(bs, Get(urlHash, local, Str(keys[i])).value, platform);
    }
    assert HashEntries.Storable(entries) by {
      forall f | f in entries
        ensures HashEntries.StorableEntry(f)
      {
        var i :| 0 <= i < |entries| && entries[i] == f;
      }
    }
    assert forall f | f in entries :: HashEntries.Decodes(HashEntries.SinglePass, bs, f, platform) by {
      forall f | f in entries
        ensures HashEntries.Decodes(HashEntries.SinglePass, bs, f, platform)
      {
        var i :| 0 <= i < |entries| && entries[i] == f;
      }
    }
    HashEntries.RawTextReads(HashEntries.SinglePass, bs, entries, platform);
    HashEntries.ReadRaw(HashEntries.SinglePass, bs, entries, platform, k);
    NamesIndex(entries, k);
    if k in keys {
      var i :| 0 <= i < |keys| && keys[i] == k;
      LookupDistinct(entries, i);
    }
  }


  /** What retaining an entry leaves behind: its outcome, the hash text and the stored texts. */
  datatype Retention = Retention(outcome: Outcome, hash: string, store: map<string, string>)

  /**
   * Retaining an entry that passed its checks, on the channels' contents
   * `hash`, `cur` (the hash's decoded snapshot) and `store`: an entry the
   * snapshot holds goes to the hash, with the text a set of the hash writes;
   * any other entry goes to the storage (when it is available).
   */
  function Retained(hashChannel: HashStorage.HashStorage, storage: Storage.Storage, hash: string, cur: seq<Field>,
                    store: map<string, string>, key: JsValue, ref: JsValue, safeguard: JsValue): (t: Retention)
    requires HashEntries.Escapes(hashChannel.bs) && (key.Str? || key.StrObject?)
    ensures t.hash == hash || t.store == store
    ensures t.outcome.Fail? ==> t.hash == hash && t.store == store
    ensures !Truthy(Member(cur, key.s)) ==> t.hash == hash
    ensures !Truthy(Member(cur, key.s)) && !storage.available ==> t.store == store
    ensures Truthy(Member(cur, key.s)) && t.outcome.Pass? ==>
      hashChannel.isBrowser && HashStorage.Read(hashChannel.bs, true, hash, hashChannel.platform).Ok?
  {
    if Truthy(Member(cur, key.s)) then
      match HashStorage.SetText(hashChannel.bs, hashChannel.isBrowser, hash, hashChannel.platform,
                                HashStorage.Prefix("set", hashChannel.channel), key, ref, safeguard)
      case Ok(text) => Retention(Pass, text, store)
      case Err(e) => Retention(Fail(e), hash, store)
    else
      match Encoder.Encode(ref, safeguard, storage.platform)
      case Ok(text) => Retention(Pass, hash, if storage.available then store[key.s := text] else store)
      case Err(e) => Retention(Fail(e), hash, store)
  }

  /**
   * What a written value needs to be read back as it was: a key without the
   * hash's separators, a safeguard the encoder accepts, and an encoded text
   * that decodes to the value and holds no escape mark; the key and the
   * escaped text hold nothing the browser percent-encodes in the hash.
   */
  predicate Retrievable(bs: seq<HashBindings.Binding>, key: JsValue, ref: JsValue, safeguard: JsValue, platform: Encoder.Platform) {
    (key.Str? || key.StrObject?) && '&' !in key.s && '=' !in key.s
    && Encoder.SafeguardArg(safeguard).Bool? && Encoder.RoundTrips(ref, Encoder.SafeguardArg(safeguard).b, platform)
    && Encoder.Encode(ref, safeguard, platform).Ok?
    && HashBindings.MARK !in Encoder.Encode(ref, safeguard, platform).value
    && Fragment.Kept(key.s) && HashBindings.AllFramed(bs)
    && Fragment.Kept(HashBindings.Escape(bs, Encoder.Encode(ref, safeguard, platform).value))
  }

  /**
   * Set-then-get through the orchestrator: after a retained entry passed,
   * the value read back is the one written, provided the snapshot agreed
   * with the hash on the key beforehand, storage is available, and the
   * text survives the hash's escaping and the encoder's round trip.
   */
  lemma RetainThenGet(hashChannel: HashStorage.HashStorage, storage: Storage.Storage, hash: string, cur: seq<Field>,
                      store: map<string, string>, key: JsValue, ref: JsValue, safeguard: JsValue)
    requires hashChannel.Valid() && hashChannel.platform == storage.platform
    requires Checks.CheckSet(SET_PREFIX, key, ref, safeguard).Ok?
    requires HashStorage.Read(hashChannel.bs, hashChannel.isBrowser, hash, hashChannel.platform).Ok?
    requires Truthy(Member(cur, key.s)) <==>
             Truthy(Member(HashStorage.Read(hashChannel.bs, hashChannel.isBrowser, hash, hashChannel.platform).value, key.s))
    requires Fragment.Kept(hash)
    requires storage.available && Retrievable(hashChannel.bs, key, ref, safeguard, storage.platform)
    requires !Fragment.HashLed(HashEntries.Lead(hash, key.s))
    requires Retained(hashChannel, storage, hash, cur, store, key, ref, safeguard) == Retention(Pass, hashChannel.hash, storage.store)
    ensures Get(hashChannel, storage, key) == Ok(ref)
  {
    hide *;
    if Truthy(Member(cur, key.s)) {
      RetainedInHashThenGet(hashChannel, storage, hash, cur, store, key, ref, safeguard);
    } else {
      RetainedInStorageThenGet(hashChannel, storage, hash, cur, store, key, ref, safeguard);
    }
  }

  /** `RetainThenGet` when the snapshot holds a truthy value for the key: the hash took the entry. */
  lemma RetainedInHashThenGet(hashChannel: HashStorage.HashStorage, storage: Storage.Storage, hash: string, cur: seq<Field>,
                              store: map<string, string>, key: JsValue, ref: JsValue, safeguard: JsValue)
    requires hashChannel.Valid() && hashChannel.platform == storage.platform
    requires Checks.CheckSet(SET_PREFIX, key, ref, safeguard).Ok?
    requires HashStorage.Read(hashChannel.bs, hashChannel.isBrowser, hash, hashChannel.platform).Ok?
    requires Truthy(Member(cur, key.s)) <==>
             Truthy(Member(HashStorage.Read(hashChannel.bs, hashChannel.isBrowser, hash, hashChannel.platform).value, key.s))
    requires Fragment.Kept(hash)
    requires storage.available && Retrievable(hashChannel.bs, key, ref, safeguard, storage.platform)
    requires !Fragment.HashLed(HashEntries.Lead(hash, key.s))
    requires Retained(hashChannel, storage, hash, cur, store, key, ref, safeguard) == Retention(Pass, hashChannel.hash, storage.store)
    requires Truthy(Member(cur, key.s))
    ensures Get(hashChannel, storage, key) == Ok(ref)
  {
    hide Encoder.Encode, Encoder.Decode, Encoder.RoundTrips, Encoder.Layered, Encoder.Encodable;
    hide HashStorage.Read, HashEntries.SetRaw, HashEntries.Escapes, Storage.Fetch;
    hide Checks.CheckKey, Checks.CheckRef, Checks.CheckSafeguard;
    Encoder.SafeguardDefault(ref, safeguard, storage.platform);
    HashStorage.SetThenGetAll(hashChannel.bs, hash, hashChannel.platform, key.s, ref, safeguard);
  }

  /** `RetainThenGet` otherwise: the storage took the entry. */
  lemma RetainedInStorageThenGet(hashChannel: HashStorage.HashStorage, storage: Storage.Storage, hash: string, cur: seq<Field>,
                                 store: map<string, string>, key: JsValue, ref: JsValue, safeguard: JsValue)
    requires hashChannel.Valid() && hashChannel.platform == storage.platform
    requires Checks.CheckSet(SET_PREFIX, key, ref, safeguard).Ok?
    requires HashStorage.Read(hashChannel.bs, hashChannel.isBrowser, hash, hashChannel.platform).Ok?
    requires Truthy(Member(cur, key.s)) <==>
             Truthy(Member(HashStorage.Read(hashChannel.bs, hashChannel.isBrowser, hash, hashChannel.platform).value, key.s))
    requires Fragment.Kept(hash)
    requires storage.available && Retrievable(hashChannel.bs, key, ref, safeguard, storage.platform)
    requires !Fragment.HashLed(HashEntries.Lead(hash, key.s))
    requires Retained(hashChannel, storage, hash, cur, store, key, ref, safeguard) == Retention(Pass, hashChannel.hash, storage.store)
    requires !Truthy(Member(cur, key.s))
    ensures Get(hashChannel, storage, key) == Ok(ref)
  {
    hide Encoder.Encode, Encoder.Decode, Encoder.RoundTrips, Encoder.Layered, Encoder.Encodable;
    hide HashStorage.Read, HashEntries.SetRaw, HashEntries.Escapes, Storage.Fetch;
    hide Checks.CheckKey, Checks.CheckRef, Checks.CheckSafeguard;
    Encoder.SafeguardDefault(ref, safeguard, storage.platform);
    Storage.StoreThenFetch(store, storage.platform, key.s, ref, Encoder.SafeguardArg(safeguard).b, key.s);
  }

  /**
   * Retaining an entry that passed its checks (`const inHash =
   * updateUrlHashItem(...); if (!inHash) setLocalStorageItem(...)`): an
   * update of the hash, which happens when the hash holds the key already,
   * and a set of the storage otherwise.
   */
  method Retain(hashChannel: HashStorage.HashStorage, storage: Storage.Storage, key: JsValue, ref: JsValue, safeguard: JsValue)
    returns (r: Outcome)
    requires hashChannel.Valid() && hashChannel.platform == storage.platform
    requires Checks.CheckSet(SET_PREFIX, key, ref, safeguard).Ok?
    modifies hashChannel, storage
    ensures hashChannel.cur == old(hashChannel.cur) && hashChannel.handlers == old(hashChannel.handlers)
    ensures storage.handlers == old(storage.handlers)
    ensures Retention(r, hashChannel.hash, storage.store)
         == Retained(hashChannel, storage, old(hashChannel.hash), old(hashChannel.cur), old(storage.store), key, ref, safeguard)
  {
    // The proof needs only the contracts of the channels and of these functions, not their bodies.
    hide HashStorage.SetText, HashStorage.Read, HashStorage.Prefix, HashEntries.SetRaw, HashEntries.Escapes;
    hide Encoder.Encode, Encoder.Decode, Encoder.RoundTrips, Encoder.Layered, Encoder.Encodable, Encoder.Obfuscate;
    hide Checks.CheckSet, Checks.CheckKey, Checks.CheckRef, Checks.CheckSafeguard, Checks.AcceptedRef;
    hide Storage.Fetch, Storage.Prefix, Js.Member, Js.Truthy, Fragment.Encode, Fragment.Kept;
    hide Storage.Storage.GetItem, HashStorage.HashStorage.GetItem, HashStorage.HashStorage.Live;
    assert Checks.CheckSet(HashStorage.Prefix("update", hashChannel.channel), key, ref, safeguard).Ok?;
    var inHash := hashChannel.UpdateItem(key, ref, safeguard);
    r := RetainElsewhere(hashChannel, storage, key, ref, safeguard, inHash,
                         old(hashChannel.hash), old(hashChannel.cur), old(storage.store));
  }

  /**
   * The rest of `Retain` once the hash's update returned `inHash`: a set of
   * the storage when the hash did not take the entry.
   */
  method RetainElsewhere(hashChannel: HashStorage.HashStorage, storage: Storage.Storage, key: JsValue, ref: JsValue,
                         safeguard: JsValue, inHash: Result<bool>,
                         ghost hash0: string, ghost cur0: seq<Field>, ghost store0: map<string, string>)
    returns (r: Outcome)
    requires hashChannel.Valid() && hashChannel.platform == storage.platform
    requires Checks.CheckSet(SET_PREFIX, key, ref, safeguard).Ok? && storage.store == store0
    requires inHash.Err? ==>
      Retained(hashChannel, storage, hash0, cur0, store0, key, ref, safeguard) == Retention(Fail(inHash.error), hashChannel.hash, store0)
    requires inHash == Ok(true) ==>
      Retained(hashChannel, storage, hash0, cur0, store0, key, ref, safeguard) == Retention(Pass, hashChannel.hash, store0)
    requires inHash == Ok(false) ==> !Truthy(Member(cur0, key.s)) && hashChannel.hash == hash0
    modifies storage
    ensures storage.handlers == old(storage.handlers)
    ensures Retention(r, hashChannel.hash, storage.store) == Retained(hashChannel, storage, hash0, cur0, store0, key, ref, safeguard)
  {
    hide HashStorage.SetText, HashStorage.Read, HashStorage.Prefix, HashEntries.SetRaw, HashEntries.Escapes;
    hide Encoder.Decode, Encoder.RoundTrips, Encoder.Layered, Encoder.Encodable, Encoder.Obfuscate;
    hide Checks.CheckSet, Checks.CheckKey, Checks.CheckRef, Checks.CheckSafeguard, Checks.AcceptedRef;
    hide Storage.Fetch, Storage.Prefix, Js.Member, Js.Truthy, Fragment.Encode, Fragment.Kept;
    hide Storage.Storage.GetItem, HashStorage.HashStorage.GetItem, HashStorage.HashStorage.Live;
    match inHash
    case Err(e) =>
      r := Fail(e);
    case Ok(inHashNow) =>
      if inHashNow {
        r := Pass;
      } else {
        assert Checks.CheckSet(Storage.Prefix(storage.kind, Storage.Set), key, ref, safeguard).Ok?;
        r := storage.SetItem(key, ref, safeguard);
      }
  }

  class AppState {
    /** The URL-hash channel. */
    const urlHash: HashStorage.HashStorage
    /** The local-storage channel. */
    const local: Storage.Storage
    /** `Object.keys(_keysInUse)` */
    var keysInUse: seq<string>

    predicate Valid()
      reads this
    {
      urlHash.Valid() && urlHash.channel == HashStorage.URL_CHANNEL && local.kind == Storage.Local
      && urlHash.platform == local.platform && Distinct(keysInUse)
    }

    constructor (urlHash: HashStorage.HashStorage, local: Storage.Storage)
      requires urlHash.Valid() && urlHash.channel == HashStorage.URL_CHANNEL && local.kind == Storage.Local
      requires urlHash.platform == local.platform
      ensures Valid()
      ensures this.urlHash == urlHash && this.local == local && keysInUse == []
    {
      this.urlHash := urlHash;
      this.local := local;
      keysInUse := [];
    }

    /** `getAppStateItem(key)`: the key joins the ledger once it passes its check. */
    method GetItem(key: JsValue) returns (r: Result<JsValue>)
      requires Valid()
      modifies this
      ensures Valid()
      ensures r == Get(urlHash, local, key)
      ensures keysInUse == if Checks.CheckKey(GET_PREFIX, key).Ok? then Recorded(old(keysInUse), key.s) else old(keysInUse)
    {
      var k := Checks.CheckKey(GET_PREFIX, key);
      if k.Err? {
        return Err(k.error);
      }
      keysInUse := Recorded(keysInUse, k.value);
      return Value(urlHash, local, key);
    }

    /**
     * `setAppStateItem(key, ref, safeguard)`: an update of the hash, which
     * happens when the hash holds the key already, and a set of local storage
     * otherwise.
     */
    method SetItem(key: JsValue, ref: JsValue, safeguard: JsValue) returns (r: Outcome)
      requires Valid()
      modifies this, urlHash, local
      ensures Valid()
      ensures keysInUse == if Checks.CheckKey(SET_PREFIX, key).Ok? then Recorded(old(keysInUse), key.s) else old(keysInUse)
      ensures urlHash.cur == old(urlHash.cur) && urlHash.handlers == old(urlHash.handlers) && local.handlers == old(local.handlers)
      ensures var c := Checks.CheckSet(SET_PREFIX, key, ref, safeguard);
        (c.Err? ==> r == Fail(c.error) && urlHash.hash == old(urlHash.hash) && local.store == old(local.store)) &&
        (c.Ok? ==> Retention(r, urlHash.hash, local.store) == Retained(urlHash, local, old(urlHash.hash), old(urlHash.cur), old(local.store), key, ref, safeguard))
      ensures r.Pass? && Retrievable(urlHash.bs, key, ref, safeguard, local.platform) && local.available && old(urlHash.InSync(key.s)) ==>
        Get(urlHash, local, key) == Ok(ref)
    {
      // The proof needs only the contracts of the channels and of these functions, not their bodies.
      hide Retained, Retrievable, Get, HashStorage.SetText, HashStorage.Read, HashStorage.Prefix, HashEntries.Escapes;
      hide Encoder.Encode, Encoder.RoundTrips, Encoder.SafeguardArg, Checks.CheckKey, Checks.CheckRef, Checks.CheckSafeguard;
      hide Storage.Fetch, Storage.Prefix, Js.Member, Js.Truthy;
      var k := Checks.CheckKey(SET_PREFIX, key);
      if k.Err? {
        return Fail(k.error);
      }
      keysInUse := Recorded(keysInUse, k.value);
      var checked := Checks.CheckSet(SET_PREFIX, key, ref, safeguard);
      if checked.Err? {
        return Fail(checked.error);
      }
      r := Retain(urlHash, local, key, ref, safeguard);
      if r.Pass? && Retrievable(urlHash.bs, key, ref, safeguard, local.platform) && local.available && old(urlHash.InSync(key.s)) {
        RetainThenGet(urlHash, local, old(urlHash.hash), old(urlHash.cur), old(local.store), key, ref, safeguard);
      }
    }

    /**
     * `registerAppStateChangeHandler(key, handler, crossCommunicateLocalStorageChanges)`:
     * the handler goes to the hash when the current hash defines the key,
     * otherwise to local storage when the caller opts in, otherwise nowhere.
     */
    method Register(key: JsValue, handler: JsValue, cross: JsValue) returns (r: Outcome)
      requires Valid()
      modifies this, urlHash, local
      ensures Valid()
      ensures keysInUse == if Checks.CheckKey(REGISTER_PREFIX, key).Ok? then Recorded(old(keysInUse), key.s) else old(keysInUse)
      ensures urlHash.hash == old(urlHash.hash) && urlHash.cur == old(urlHash.cur) && local.store == old(local.store)
      ensures var c := CheckRegistration(key, handler, cross);
        c.Err? ==> r == Fail(c.error) && urlHash.handlers == old(urlHash.handlers) && local.handlers == old(local.handlers)
      ensures var c := CheckRegistration(key, handler, cross);
        c.Ok? && urlHash.IsItemDefined(key).Err? ==>
        r == Fail(urlHash.IsItemDefined(key).error) && urlHash.handlers == old(urlHash.handlers) && local.handlers == old(local.handlers)
      ensures var c := CheckRegistration(key, handler, cross);
        c.Ok? && urlHash.IsItemDefined(key) == Ok(true) ==>
        r == Pass && urlHash.handlers == Registered(old(urlHash.handlers), key.s, handler) && local.handlers == old(local.handlers)
      ensures var c := CheckRegistration(key, handler, cross);
        c.Ok? && urlHash.IsItemDefined(key) == Ok(false) ==>
        r == Pass && urlHash.handlers == old(urlHash.handlers) &&
        local.handlers == if c.value.1 then Registered(old(local.handlers), key.s, handler) else old(local.handlers)
    {
      hide HashStorage.Read, HashStorage.Prefix, HashStorage.HashStorage.GetItem, HashEntries.Escapes;
      hide Checks.CheckRegister, Checks.CheckKey, Checks.CheckHandler, Storage.Prefix, Js.Member, Js.Truthy;
      var k := Checks.CheckKey(REGISTER_PREFIX, key);
      if k.Err? {
        return Fail(k.error);
      }
      keysInUse := Recorded(keysInUse, k.value);
      var c := CheckRegistration(key, handler, cross);
      if c.Err? {
        return Fail(c.error);
      }
      var defined := urlHash.IsItemDefined(key);
      if defined.Err? {
        return Fail(defined.error);
      }
      if defined.value {
        r := urlHash.Register(key, handler);
      } else if c.value.1 {
        r := local.Register(key, handler);
      } else {
        r := Pass;
      }
    }

    /**
     * `getActiveUrlWithFullHash()` for the page at `href`: the page's URL
     * without its fragment, `#`, then `key=text` for every ledger key in
     * ledger order, joined by `&`.
     */
    method GetActiveUrlWithFullHash(href: string) returns (r: Result<string>)
      requires Valid()
      ensures SharedEntries(urlHash, local, keysInUse).Err? ==> r == Err(SharedEntries(urlHash, local, keysInUse).error)
      ensures SharedEntries(urlHash, local, keysInUse).Ok? ==>
        r == Ok(PageUrl(href, urlHash.hash) + "#" + HashEntries.RawText(SharedEntries(urlHash, local, keysInUse).value))
    {
      var shared := SharedHash(urlHash, local, keysInUse);
      if shared.Err? {
        return Err(shared.error);
      }
      return Ok(PageUrl(href, urlHash.hash) + "#" + shared.value);
    }
  }

  /** The older twin: the site hash and device storage, and no ledger. */
  class LegacyAppState {
    /** The site-hash channel. */
    const siteHash: HashStorage.HashStorage
    /** The device-storage channel. */
    const device: Storage.Storage

    predicate Valid() {
      siteHash.Valid() && siteHash.channel == HashStorage.SITE_CHANNEL && device.kind == Storage.Device
      && siteHash.platform == device.platform
    }

    constructor (siteHash: HashStorage.HashStorage, device: Storage.Storage)
      requires siteHash.Valid() && siteHash.channel == HashStorage.SITE_CHANNEL && device.kind == Storage.Device
      requires siteHash.platform == device.platform
      ensures Valid()
      ensures this.siteHash == siteHash && this.device == device
    {
      this.siteHash := siteHash;
      this.device := device;
    }

    /** `getAppStateItem(key)`: the site hash's value when truthy, the device's otherwise. */
    function GetItem(key: JsValue): (r: Result<JsValue>)
      reads siteHash, device
      requires Valid()
      ensures Checks.CheckKey(GET_PREFIX, key).Err? ==> r == Err(Checks.CheckKey(GET_PREFIX, key).error)
      ensures siteHash.GetItem(key).Err? ==> r.Err?
      ensures Checks.CheckKey(GET_PREFIX, key).Ok? && siteHash.GetItem(key).Ok? ==>
        r == if Truthy(siteHash.GetItem(key).value) then siteHash.GetItem(key) else device.GetItem(key)
      ensures r.Ok? && !Truthy(r.value) ==> r == device.GetItem(key)
    {
      Get(siteHash, device, key)
    }

    /**
     * `setAppStateItem(key, ref, safeguard)`: an update of the site hash,
     * which happens when the hash holds the key already, and a store to the
     * device otherwise.
     */
    method SetItem(key: JsValue, ref: JsValue, safeguard: JsValue) returns (r: Outcome)
      requires Valid()
      modifies siteHash, device
      ensures Valid()
      ensures siteHash.cur == old(siteHash.cur) && siteHash.handlers == old(siteHash.handlers) && device.handlers == old(device.handlers)
      ensures var c := Checks.CheckSet(SET_PREFIX, key, ref, safeguard);
        (c.Err? ==> r == Fail(c.error) && siteHash.hash == old(siteHash.hash) && device.store == old(device.store)) &&
        (c.Ok? ==> Retention(r, siteHash.hash, device.store) == Retained(siteHash, device, old(siteHash.hash), old(siteHash.cur), old(device.store), key, ref, safeguard))
      ensures r.Pass? && Retrievable(siteHash.bs, key, ref, safeguard, device.platform) && device.available && old(siteHash.InSync(key.s)) ==>
        Get(siteHash, device, key) == Ok(ref)
    {
      // The proof needs only the contracts of the channels and of these functions, not their bodies.
      hide Retained, Retrievable, Get, HashStorage.SetText, HashStorage.Read, HashStorage.Prefix, HashEntries.Escapes;
      hide Encoder.Encode, Encoder.RoundTrips, Encoder.SafeguardArg, Checks.CheckKey, Checks.CheckRef, Checks.CheckSafeguard;
      hide Storage.Fetch, Storage.Prefix, Js.Member, Js.Truthy;
      var checked := Checks.CheckSet(SET_PREFIX, key, ref, safeguard);
      if checked.Err? {
        return Fail(checked.error);
      }
      r := Retain(siteHash, device, key, ref, safeguard);
      if r.Pass? && Retrievable(siteHash.bs, key, ref, safeguard, device.platform) && device.available && old(siteHash.InSync(key.s)) {
        RetainThenGet(siteHash, device, old(siteHash.hash), old(siteHash.cur), old(device.store), key, ref, safeguard);
      }
    }

    /**
     * `registerAppStateChangeHandler(key, handler)`: the handler always goes
     * to the site hash, whether or not the hash holds the key; the device
     * registration stays disabled.
     */
    method Register(key: JsValue, handler: JsValue) returns (r: Outcome)
      requires Valid()
      modifies siteHash
      ensures Valid()
      ensures siteHash.hash == old(siteHash.hash) && siteHash.cur == old(siteHash.cur)
      ensures var c := Checks.CheckRegister(REGISTER_PREFIX, key, handler);
        (c.Err? ==> r == Fail(c.error) && siteHash.handlers == old(siteHash.handlers)) &&
        (c.Ok? ==> r == Pass && siteHash.handlers == Registered(old(siteHash.handlers), key.s, handler))
    {
      var c := Checks.CheckRegister(REGISTER_PREFIX, key, handler);
      if c.Err? {
        return Fail(c.error);
      }
      r := siteHash.Register(key, handler);
    }
  }
}
