/**
 * The URL hash as a map of entries, shared by src/util/persistence/urlHashStorage.js
 * and src/util/siteHashStorage.js (which differ only in the bindings they escape).
 *
 * Reading (`getUrlHash`): the hash (without `#`) is split at `&` into items and
 * each item at `=`; the first part is the key, the second the value text.
 * An item without a value text reads as the string `UNKNOWN`; any other
 * value text is unescaped and decoded. A later item with the same key
 * replaces the value of an earlier one, which keeps its position.
 *
 * Writing (`retainUrlHash`): every entry is written back as `key=text`,
 * joined by `&`. The source writes back the DECODED values of all entries,
 * which fails for entries that decode to anything but a string (`Retain`).
 * `SetRaw` writes back the stored text of the other entries untouched.
 */
module HashEntries {
  import opened Js
  import Text
  import Encoder
  import HashBindings
  import Json
  import Fragment

  const UNKNOWN := "UNKNOWN"

  /** Which unescaping a reader applies to value texts. */
  datatype Unescaping = Sequential | SinglePass

  function UnescapeWith(u: Unescaping, bs: seq<HashBindings.Binding>, s: string): string
    requires HashBindings.AllFramed(bs)
  {
    match u
    case Sequential => HashBindings.UnescapeAsWritten(bs, s)
    case SinglePass => HashBindings.Unescape(bs, s)
  }

  /** Bindings a hash can be written with: well formed, and escaping the item and key separators first. */
  predicate Escapes(bs: seq<HashBindings.Binding>) {
    HashBindings.WellFormed(bs) && |bs| >= 2 && bs[0].plain == '&' && bs[1].plain == '='
  }

  lemma BindingsEscape()
    ensures Escapes(HashBindings.URL_BINDINGS) && Escapes(HashBindings.SITE_BINDINGS)
  {
    HashBindings.BindingsWellFormed();
  }

  // ---------------------------------------------------------------------------
  // Reading

  /** The key of an item: what precedes its first `=`. */
  function ItemKey(item: string): (k: string)
    ensures '=' !in k
  {
    Text.Split(item, '=')[0]
  }

  /** The value text of an item: what follows its first `=`, up to a second `=`, unless empty. */
  function ItemText(item: string): (t: Option<string>)
    ensures t.Some? ==> t.value != [] && '=' !in t.value
  {
    var parts := Text.Split(item, '=');
    if |parts| >= 2 && parts[1] != "" then Some(parts[1]) else None
  }

  /** The value an item reads as. */
  function ItemValue(u: Unescaping, bs: seq<HashBindings.Binding>, item: string, platform: Encoder.Platform): Result<JsValue>
    requires HashBindings.AllFramed(bs)
  {
    match ItemText(item)
    case None => Ok(Str(UNKNOWN))
    case Some(text) => Encoder.Decode(Str(UnescapeWith(u, bs, text)), platform)
  }

  /** The entries of `items`, added to `acc` in order; the first item that fails to decode fails the whole read. */
  function ReadItems(u: Unescaping, bs: seq<HashBindings.Binding>, items: seq<string>, acc: seq<Field>, platform: Encoder.Platform): Result<seq<Field>>
    requires HashBindings.AllFramed(bs)
  {
    if items == [] then Ok(acc)
    else
      var value :- ItemValue(u, bs, items[0], platform);
      ReadItems(u, bs, items[1..], Put(acc, ItemKey(items[0]), value), platform)
  }

  /** `getUrlHash()`: outside a browser, and for an empty hash, there are no entries. */
  function ReadHash(u: Unescaping, bs: seq<HashBindings.Binding>, isBrowser: bool, hash: string, platform: Encoder.Platform): Result<seq<Field>>
    requires HashBindings.AllFramed(bs)
  {
    if !isBrowser || hash == "" then Ok([])
    else ReadItems(u, bs, Text.Split(hash, '&'), [], platform)
  }

  /** The last of `items` whose key is `k`. */
  function LastItem(items: seq<string>, k: string): (r: Option<string>)
    ensures r.Some? ==> r.value in items && ItemKey(r.value) == k
  {
    if items == [] then None
    else
      var later := LastItem(items[1..], k);
      if later.Some? then later
      else if ItemKey(items[0]) == k then Some(items[0])
      else None
  }

  /** A key holds the value of the last item with that key; keys of no item keep what they had. */
  lemma {:induction false} ReadItemsLastWins(u: Unescaping, bs: seq<HashBindings.Binding>, items: seq<string>, acc: seq<Field>, platform: Encoder.Platform, k: string)
    requires HashBindings.AllFramed(bs)
    requires ReadItems(u, bs, items, acc, platform).Ok?
    ensures LastItem(items, k).Some? ==>
      ItemValue(u, bs, LastItem(items, k).value, platform).Ok? &&
      Lookup(ReadItems(u, bs, items, acc, platform).value, k) == Some(ItemValue(u, bs, LastItem(items, k).value, platform).value)
    ensures LastItem(items, k).None? ==> Lookup(ReadItems(u, bs, items, acc, platform).value, k) == Lookup(acc, k)
  {
    if items != [] {
      var value := ItemValue(u, bs, items[0], platform).value;
      ReadItemsLastWins(u, bs, items[1..], Put(acc, ItemKey(items[0]), value), platform, k);
    }
  }

  /** The entries read have distinct keys when the entries they start from do. */
  lemma {:induction false} ReadItemsDistinct(u: Unescaping, bs: seq<HashBindings.Binding>, items: seq<string>, acc: seq<Field>, platform: Encoder.Platform)
    requires HashBindings.AllFramed(bs)
    requires ReadItems(u, bs, items, acc, platform).Ok?
    requires DistinctNames(acc)
    ensures DistinctNames(ReadItems(u, bs, items, acc, platform).value)
  {
    if items != [] {
      var value := ItemValue(u, bs, items[0], platform).value;
      PutDistinct(acc, ItemKey(items[0]), value);
      ReadItemsDistinct(u, bs, items[1..], Put(acc, ItemKey(items[0]), value), platform);
    }
  }

  lemma {:induction false} PutDistinct(fields: seq<Field>, name: string, value: JsValue)
    requires DistinctNames(fields)
    ensures DistinctNames(Put(fields, name, value))
  {
    if fields != [] {
      NamesDistinct(fields);
      PutDistinct(fields[1..], name, value);
      if fields[0].name != name {
        var rest := Put(fields[1..], name, value);
        NamesIndex(rest, fields[0].name);
        NamesIndex(fields[1..], fields[0].name);
        var r := [fields[0]] + rest;
        forall i, j | 0 <= i < j < |r|
          ensures r[i].name != r[j].name
        {
          if i == 0 {
            assert r[j] == rest[j - 1];
          } else {
            assert r[i] == rest[i - 1] && r[j] == rest[j - 1];
          }
        }
      } else {
        var r := [Field(name, value)] + fields[1..];
        forall i, j | 0 <= i < j < |r|
          ensures r[i].name != r[j].name
        {
          if i == 0 {
            assert r[j] == fields[j];
          } else {
            assert r[i] == fields[i] && r[j] == fields[j];
          }
        }
      }
    }
  }

  /**
   * `getUrlHash()` in full: no entries for an empty hash; otherwise the keys
   * are distinct and each holds the value of the last item with its key.
   */
  lemma ReadHashEntries(u: Unescaping, bs: seq<HashBindings.Binding>, hash: string, platform: Encoder.Platform, k: string)
    requires HashBindings.AllFramed(bs)
    ensures ReadHash(u, bs, true, "", platform) == Ok([])
    ensures ReadHash(u, bs, false, hash, platform) == Ok([])
    ensures ReadHash(u, bs, true, hash, platform).Ok? ==>
      var entries := ReadHash(u, bs, true, hash, platform).value;
      var last := LastItem(Text.Split(hash, '&'), k);
      DistinctNames(entries) &&
      (last.Some? && hash != "" ==>
         ItemValue(u, bs, last.value, platform).Ok? && Lookup(entries, k) == Some(ItemValue(u, bs, last.value, platform).value)) &&
      (last.None? ==> Lookup(entries, k) == None)
  {
    if hash != "" && ReadHash(u, bs, true, hash, platform).Ok? {
      ReadItemsLastWins(u, bs, Text.Split(hash, '&'), [], platform, k);
      ReadItemsDistinct(u, bs, Text.Split(hash, '&'), [], platform);
    } else if hash == "" {
      assert Text.Split(hash, '&') == [""];
      assert ItemKey("") == "";
    }
  }

  /** An item without a value text reads as `UNKNOWN`. */
  lemma MissingValueIsUnknown(u: Unescaping, bs: seq<HashBindings.Binding>, key: string, platform: Encoder.Platform)
    requires HashBindings.AllFramed(bs) && '=' !in key
    ensures ItemKey(key) == key && ItemValue(u, bs, key, platform) == Ok(Str(UNKNOWN))
    ensures ItemKey(key + "=") == key && ItemValue(u, bs, key + "=", platform) == Ok(Str(UNKNOWN))
  {
    Text.SplitNoSeparator(key, '=');
    Text.SplitAfterPart(key, '=', "");
    assert key + "=" == key + ['='] + "";
    Text.SplitNoSeparator("", '=');
  }

  // ---------------------------------------------------------------------------
  // Writing, as the source does

  /** `encodeHashBindings(val)` inside the template literal of `retainUrlHash`. */
  function ValueText(bs: seq<HashBindings.Binding>, val: JsValue): (r: Result<string>)
    requires HashBindings.AllFramed(bs)
    ensures r.Err? <==> Truthy(val) && !(val.Str? || val.StrObject?)
    ensures r.Err? ==> r.error.TypeError?
  {
    if !Truthy(val) then Ok(DisplayString(val))
    else if val.Str? || val.StrObject? then Ok(HashBindings.Escape(bs, val.s))
    else Err(TypeError("str.replaceAll is not a function"))
  }

  /** The `key=text` items `retainUrlHash` writes, one per entry. */
  function EntryItems(bs: seq<HashBindings.Binding>, entries: seq<Field>): (r: Result<seq<string>>)
    requires HashBindings.AllFramed(bs)
    ensures r.Err? <==> exists i :: 0 <= i < |entries| && ValueText(bs, entries[i].value).Err?
    ensures r.Err? ==> r.error.TypeError?
    ensures r.Ok? ==> |r.value| == |entries|
  {
    if entries == [] then Ok([])
    else
      assert forall i :: 1 <= i < |entries| ==> entries[i] == entries[1..][i - 1];
      var text :- ValueText(bs, entries[0].value);
      var rest :- EntryItems(bs, entries[1..]);
      Ok([entries[0].name + "=" + text] + rest)
  }

  /**
   * `retainUrlHash(hashMap)`: the text the hash is set to, or the error it
   * throws. It throws a `TypeError` exactly when some entry's value is truthy
   * and not a string, which the escaping cannot take.
   */
  function Retain(bs: seq<HashBindings.Binding>, entries: seq<Field>): (r: Result<string>)
    requires HashBindings.AllFramed(bs)
    ensures r.Err? <==> exists i :: 0 <= i < |entries| && Truthy(entries[i].value) && !(entries[i].value.Str? || entries[i].value.StrObject?)
    ensures r.Err? ==> r.error.TypeError?
    ensures entries == [] ==> r == Ok("")
  {
    var items :- EntryItems(bs, entries);
    Ok(Text.Join(items, "&"))
  }

  /**
   * The hash the source's set writes: every entry read back, the key's
   * replaced by the encoded text. It fails with the read's error when the
   * hash does not read, and otherwise only with the escaping's `TypeError`.
   */
  function SetAsWritten(bs: seq<HashBindings.Binding>, hash: string, key: string, encoded: string, platform: Encoder.Platform): (r: Result<string>)
    requires HashBindings.AllFramed(bs)
    ensures ReadHash(Sequential, bs, true, hash, platform).Err? ==> r == Err(ReadHash(Sequential, bs, true, hash, platform).error)
    ensures r.Err? ==> ReadHash(Sequential, bs, true, hash, platform).Err? || r.error.TypeError?
  {
    var entries :- ReadHash(Sequential, bs, true, hash, platform);
    Retain(bs, Put(entries, key, Str(encoded)))
  }

  /** Setting one key fails whenever another entry reads as an object, array, number or `true`. */
  lemma SetAsWrittenFailsOnObjects(bs: seq<HashBindings.Binding>, hash: string, key: string, encoded: string, platform: Encoder.Platform, other: string)
    requires HashBindings.AllFramed(bs)
    requires ReadHash(Sequential, bs, true, hash, platform).Ok?
    requires other != key
    requires var v := Lookup(ReadHash(Sequential, bs, true, hash, platform).value, other); v.Some? && Truthy(v.value) && !(v.value.Str? || v.value.StrObject?)
    ensures SetAsWritten(bs, hash, key, encoded, platform).Err?
    ensures SetAsWritten(bs, hash, key, encoded, platform).error.TypeError?
  {
    var entries := Put(ReadHash(Sequential, bs, true, hash, platform).value, key, Str(encoded));
    LookupIndex(entries, other);
    var i :| 0 <= i < |entries| && entries[i] == Field(other, Lookup(entries, other).value);
    assert ValueText(bs, entries[i].value).Err?;
  }

  /** A value the escaping of `retainUrlHash` throws on: a truthy value that is not a string. */
  predicate Unwritable(v: JsValue) {
    Truthy(v) && !(v.Str? || v.StrObject?)
  }

  /** Setting one key fails exactly when another key's entry reads as a truthy value that is not a string. */
  lemma SetAsWrittenFailsExactly(bs: seq<HashBindings.Binding>, hash: string, key: string, encoded: string, platform: Encoder.Platform)
    requires HashBindings.AllFramed(bs)
    requires ReadHash(Sequential, bs, true, hash, platform).Ok?
    ensures var entries := ReadHash(Sequential, bs, true, hash, platform).value;
      SetAsWritten(bs, hash, key, encoded, platform).Err? <==>
        exists other :: other != key && Lookup(entries, other).Some? && Unwritable(Lookup(entries, other).value)
  {
    var entries := ReadHash(Sequential, bs, true, hash, platform).value;
    ReadHashEntries(Sequential, bs, hash, platform, key);
    if SetAsWritten(bs, hash, key, encoded, platform).Err? {
      var put := Put(entries, key, Str(encoded));
      var i :| 0 <= i < |put| && ValueText(bs, put[i].value).Err?;
      PutOrigin(entries, key, Str(encoded), i);
      var j :| 0 <= j < |entries| && entries[j] == put[i] && entries[j].name != key;
      LookupDistinct(entries, j);
      assert Lookup(entries, entries[j].name).Some?;
    }
    forall other | other != key && Lookup(entries, other).Some? && Unwritable(Lookup(entries, other).value)
      ensures SetAsWritten(bs, hash, key, encoded, platform).Err?
    {
      SetAsWrittenFailsOnObjects(bs, hash, key, encoded, platform, other);
    }
  }

  /** Each field after a put is the new one, or a field of another name that was there before. */
  lemma {:induction false} PutOrigin(fields: seq<Field>, name: string, value: JsValue, i: nat)
    requires DistinctNames(fields) && i < |Put(fields, name, value)|
    ensures Put(fields, name, value)[i] == Field(name, value)
      || exists j :: 0 <= j < |fields| && fields[j] == Put(fields, name, value)[i] && fields[j].name != name
  {
    if fields != [] && i > 0 {
      if fields[0].name == name {
        assert Put(fields, name, value)[i] == fields[i];
      } else {
        PutOrigin(fields[1..], name, value, i - 1);
        if Put(fields, name, value)[i] != Field(name, value) {
          var j :| 0 <= j < |fields[1..]| && fields[1..][j] == Put(fields[1..], name, value)[i - 1] && fields[1..][j].name != name;
          assert fields[j + 1] == fields[1..][j];
        }
      }
    } else if fields != [] && fields[0].name != name {
      assert Put(fields, name, value)[0] == fields[0];
    }
  }

  lemma {:induction false} LookupIndex(fields: seq<Field>, name: string)
    requires Lookup(fields, name).Some?
    ensures exists i :: 0 <= i < |fields| && fields[i] == Field(name, Lookup(fields, name).value)
  {
    if fields[0].name != name {
      LookupIndex(fields[1..], name);
      var i :| 0 <= i < |fields[1..]| && fields[1..][i] == Field(name, Lookup(fields, name).value);
      assert fields[i + 1] == fields[1..][i];
    }
  }

  // ---------------------------------------------------------------------------
  // Writing the stored text back

  /** The stored text of an item: its value text, or `UNKNOWN`. */
  function StoredText(item: string): (t: string)
    ensures t != [] && '=' !in t
  {
    var text := ItemText(item);
    if text.Some? then text.value else UNKNOWN
  }

  /** The entries of items as stored text, without decoding: a later item replaces an earlier one. */
  function RawItems(items: seq<string>, acc: seq<Field>): seq<Field> {
    if items == [] then acc
    else RawItems(items[1..], Put(acc, ItemKey(items[0]), Str(StoredText(items[0]))))
  }

  /** The entries of a hash as stored text. */
  function RawEntries(hash: string): seq<Field> {
    if hash == "" then [] else RawItems(Text.Split(hash, '&'), [])
  }

  /** The `key=text` items that write entries of stored text back. */
  function RawItemTexts(entries: seq<Field>): (r: seq<string>)
    ensures |r| == |entries|
  {
    if entries == [] then []
    else [entries[0].name + "=" + DisplayString(entries[0].value)] + RawItemTexts(entries[1..])
  }

  lemma {:induction false} RawItemTextsSnoc(entries: seq<Field>, f: Field)
    ensures RawItemTexts(entries + [f]) == RawItemTexts(entries) + [f.name + "=" + DisplayString(f.value)]
  {
    if entries != [] {
      assert (entries + [f])[1..] == entries[1..] + [f];
      RawItemTextsSnoc(entries[1..], f);
    }
  }

  function RawText(entries: seq<Field>): string {
    Text.Join(RawItemTexts(entries), "&")
  }

  /** Entries of stored text that can be written into a hash and read back. */
  predicate Storable(entries: seq<Field>) {
    DistinctNames(entries) && forall f | f in entries :: StorableEntry(f)
  }

  predicate StorableEntry(f: Field) {
    f.value.Str? && f.value.s != [] && '=' !in f.value.s && '&' !in f.value.s
    && '=' !in f.name && '&' !in f.name
  }

  /** Set by rewriting the key's stored text only. */
  function SetRaw(bs: seq<HashBindings.Binding>, hash: string, key: string, encoded: string): string
    requires HashBindings.AllFramed(bs)
  {
    RawText(Put(RawEntries(hash), key, Str(HashBindings.Escape(bs, encoded))))
  }

  lemma {:induction false} PutElems(fields: seq<Field>, name: string, value: JsValue)
    ensures forall f | f in Put(fields, name, value) :: f in fields || f == Field(name, value)
  {
    if fields != [] && fields[0].name != name {
      PutElems(fields[1..], name, value);
      assert forall f | f in fields[1..] :: f in fields;
    }
  }

  lemma PutStorable(fields: seq<Field>, name: string, value: JsValue)
    requires Storable(fields) && StorableEntry(Field(name, value))
    ensures Storable(Put(fields, name, value))
  {
    PutDistinct(fields, name, value);
    PutElems(fields, name, value);
  }

  /** An item whose parts hold no `&`: its key and stored text hold none either. */
  lemma ItemParts(item: string)
    requires '&' !in item
    ensures StorableEntry(Field(ItemKey(item), Str(StoredText(item))))
  {
    Text.SplitParts(item, '=', '&');
  }

  /** Whatever a hash holds, its entries of stored text can be written back. */
  lemma {:induction false} RawItemsStorable(items: seq<string>, acc: seq<Field>)
    requires Storable(acc)
    requires forall i :: 0 <= i < |items| ==> '&' !in items[i]
    ensures Storable(RawItems(items, acc))
  {
    if items != [] {
      ItemParts(items[0]);
      PutStorable(acc, ItemKey(items[0]), Str(StoredText(items[0])));
      RawItemsStorable(items[1..], Put(acc, ItemKey(items[0]), Str(StoredText(items[0]))));
    }
  }

  lemma RawEntriesStorable(hash: string)
    ensures Storable(RawEntries(hash))
  {
    if hash != "" {
      RawItemsStorable(Text.Split(hash, '&'), []);
    }
  }

  /** A written item reads back as its key and text. */
  lemma ItemOf(name: string, text: string)
    requires '=' !in name && '=' !in text && text != []
    ensures ItemKey(name + "=" + text) == name
    ensures ItemText(name + "=" + text) == Some(text)
  {
    Text.SplitAfterPart(name, '=', text);
    Text.SplitNoSeparator(text, '=');
    assert name + "=" + text == name + ['='] + text;
  }

  lemma {:induction false} RawItemsAppend(acc: seq<Field>, entries: seq<Field>)
    requires Storable(acc + entries)
    ensures RawItems(RawItemTexts(entries), acc) == acc + entries
    decreases |entries|
  {
    if entries != [] {
      RawItemsStep(acc, entries);
      assert acc + [entries[0]] + entries[1..] == acc + entries;
      hide RawItems, RawItemTexts, Storable;
      RawItemsAppend(acc + [entries[0]], entries[1..]);
    }
  }

  /** The first item of the texts adds its entry to what was read so far. */
  lemma RawItemsStep(acc: seq<Field>, entries: seq<Field>)
    requires Storable(acc + entries) && entries != []
    ensures RawItems(RawItemTexts(entries), acc) == RawItems(RawItemTexts(entries[1..]), acc + [entries[0]])
  {
    var f := entries[0];
    FirstFresh(acc, entries);
    hide Storable;
    var texts := RawItemTexts(entries);
    RawItemTextsHead(entries);
    hide RawItems, RawItemTexts;
    FreshItemPut(acc, f);
    RawItemsUnfold(texts, acc);
  }

  lemma RawItemTextsHead(entries: seq<Field>)
    requires entries != [] && entries[0].value.Str?
    ensures RawItemTexts(entries)[0] == entries[0].name + "=" + entries[0].value.s
    ensures RawItemTexts(entries)[1..] == RawItemTexts(entries[1..])
  {
  }

  /** Reading the item of a fresh storable entry adds that entry. */
  lemma FreshItemPut(acc: seq<Field>, f: Field)
    requires StorableEntry(f) && f.name !in Names(acc)
    ensures var item := f.name + "=" + f.value.s;
      Put(acc, ItemKey(item), Str(StoredText(item))) == acc + [f]
  {
    ItemOf(f.name, f.value.s);
    PutFresh(acc, f.name, f.value);
  }

  lemma RawItemsUnfold(items: seq<string>, acc: seq<Field>)
    requires items != []
    ensures RawItems(items, acc) == RawItems(items[1..], Put(acc, ItemKey(items[0]), Str(StoredText(items[0]))))
  {
  }

  /** The first of the entries after `acc` is storable and its name is not among those of `acc`. */
  lemma FirstFresh(acc: seq<Field>, entries: seq<Field>)
    requires Storable(acc + entries) && entries != []
    ensures StorableEntry(entries[0]) && entries[0].name !in Names(acc)
  {
    var f := entries[0];
    assert f == (acc + entries)[|acc|];
    assert StorableEntry(f);
    forall i | 0 <= i < |acc|
      ensures acc[i].name != f.name
    {
      assert (acc + entries)[i] == acc[i];
    }
    NamesIndex(acc, f.name);
  }

  /** The items written for entries of stored text hold no `&`. */
  lemma {:induction false} RawItemTextsFree(entries: seq<Field>)
    requires forall f | f in entries :: StorableEntry(f)
    ensures forall i :: 0 <= i < |entries| ==> '&' !in RawItemTexts(entries)[i]
    ensures entries != [] ==> RawItemTexts(entries)[0] != []
  {
    if entries != [] {
      assert entries[0] in entries;
      assert forall f | f in entries[1..] :: f in entries;
      RawItemTextsFree(entries[1..]);
      assert forall i :: 1 <= i < |entries| ==> RawItemTexts(entries)[i] == RawItemTexts(entries[1..])[i - 1];
    }
  }

  /** Entries of stored text written into a hash read back as themselves. */
  lemma RawRoundTrip(entries: seq<Field>)
    requires Storable(entries)
    ensures RawEntries(RawText(entries)) == entries
  {
    if entries != [] {
      var items := RawItemTexts(entries);
      RawItemTextsFree(entries);
      Text.SplitJoin(items, '&');
      assert RawText(entries) != "" by {
        if |items| > 1 {
          assert Text.Join(items, "&") == items[0] + "&" + Text.Join(items[1..], "&");
        }
      }
      assert [] + entries == entries;
      RawItemsAppend([], entries);
    }
  }

  /** Setting one key rewrites its stored text and leaves the stored text of every other entry as it was. */
  lemma SetRawEntries(bs: seq<HashBindings.Binding>, hash: string, key: string, encoded: string)
    requires HashBindings.WellFormed(bs) && |bs| >= 2 && bs[0].plain == '&' && bs[1].plain == '='
    requires '&' !in key && '=' !in key && encoded != []
    ensures HashBindings.AllFramed(bs)
    ensures RawEntries(SetRaw(bs, hash, key, encoded)) == Put(RawEntries(hash), key, Str(HashBindings.Escape(bs, encoded)))
    ensures Lookup(RawEntries(SetRaw(bs, hash, key, encoded)), key) == Some(Str(HashBindings.Escape(bs, encoded)))
    ensures forall k :: k != key ==> Lookup(RawEntries(SetRaw(bs, hash, key, encoded)), k) == Lookup(RawEntries(hash), k)
  {
    HashBindings.EscapedIsItemSafe(bs, encoded);
    RawEntriesStorable(hash);
    PutStorable(RawEntries(hash), key, Str(HashBindings.Escape(bs, encoded)));
    RawRoundTrip(Put(RawEntries(hash), key, Str(HashBindings.Escape(bs, encoded))));
  }

  /** The stored text of a key. */
  function StoredOf(entries: seq<Field>, k: string): Option<string> {
    match Lookup(entries, k)
    case Some(Str(t)) => Some(t)
    case _ => None
  }

  /** What a stored text reads as. */
  function StoredValue(u: Unescaping, bs: seq<HashBindings.Binding>, text: string, platform: Encoder.Platform): Result<JsValue>
    requires HashBindings.AllFramed(bs)
  {
    Encoder.Decode(Str(UnescapeWith(u, bs, text)), platform)
  }

  /** Unmarked text that carries no marker of the encoder reads back as that string. */
  lemma PlainTextStored(bs: seq<HashBindings.Binding>, text: string, platform: Encoder.Platform)
    requires HashBindings.AllFramed(bs) && HashBindings.MARK !in text
    requires !Text.StartsWith(text, Encoder.SAFEGUARD_MARKER) && !Text.StartsWith(text, Encoder.JSON_MARKER)
    requires text != Encoder.UNDEFINED_MARKER
    ensures StoredValue(SinglePass, bs, text, platform) == Ok(Str(text))
  {
    HashBindings.UnescapeUnmarked(bs, text);
    Encoder.PlainStringPassesThrough(text, platform);
  }

  /** Text a hash item carries as it is and reads back as itself. */
  predicate PlainText(t: string) {
    t != [] && '&' !in t && '=' !in t && HashBindings.MARK !in t && t != Encoder.UNDEFINED_MARKER
    && !Text.StartsWith(t, Encoder.SAFEGUARD_MARKER) && !Text.StartsWith(t, Encoder.JSON_MARKER)
  }

  /** Two entries of plain text under distinct keys, as a hash holds them. */
  predicate PlainPair(entries: seq<Field>) {
    |entries| == 2 && entries[0].name != entries[1].name
    && (forall i :: 0 <= i < 2 ==> '&' !in entries[i].name && '=' !in entries[i].name)
    && (forall i :: 0 <= i < 2 ==> entries[i].value.Str? && PlainText(entries[i].value.s))
  }

  /** Two items of plain text read back as two string entries. */
  lemma TwoItemsRead(bs: seq<HashBindings.Binding>, platform: Encoder.Platform, entries: seq<Field>)
    requires Escapes(bs) && PlainPair(entries)
    ensures ReadHash(SinglePass, bs, true, RawText(entries), platform).Ok?
    ensures forall i :: 0 <= i < 2 ==>
      Lookup(ReadHash(SinglePass, bs, true, RawText(entries), platform).value, entries[i].name) == Some(entries[i].value)
  {
    PairStorable(bs, platform, entries);
    PlainEntry(bs, platform, entries[0]);
    PlainEntry(bs, platform, entries[1]);
    hide PlainPair, PlainText, Decodes;
    RawTextReads(SinglePass, bs, entries, platform);
    EntryReadsBack(bs, platform, entries, 0);
    EntryReadsBack(bs, platform, entries, 1);
  }

  /** In a hash written from storable entries, an entry whose text reads as its value is read as that value. */
  lemma EntryReadsBack(bs: seq<HashBindings.Binding>, platform: Encoder.Platform, entries: seq<Field>, i: nat)
    requires HashBindings.AllFramed(bs) && Storable(entries) && i < |entries|
    requires ReadHash(SinglePass, bs, true, RawText(entries), platform).Ok?
    requires entries[i].value.Str? && StoredValue(SinglePass, bs, entries[i].value.s, platform) == Ok(entries[i].value)
    ensures Lookup(ReadHash(SinglePass, bs, true, RawText(entries), platform).value, entries[i].name) == Some(entries[i].value)
  {
    RawRoundTrip(entries);
    LookupDistinct(entries, i);
    assert StoredOf(entries, entries[i].name) == Some(entries[i].value.s);
    hide Storable, RawText, RawEntries, StoredValue;
    RawEntriesMirror(SinglePass, bs, RawText(entries), platform, entries[i].name);
  }

  lemma PairStorable(bs: seq<HashBindings.Binding>, platform: Encoder.Platform, entries: seq<Field>)
    requires Escapes(bs) && PlainPair(entries)
    ensures Storable(entries) && forall f | f in entries :: Decodes(SinglePass, bs, f, platform)
  {
    PlainEntry(bs, platform, entries[0]);
    PlainEntry(bs, platform, entries[1]);
    hide PlainText, StorableEntry, Decodes;
    assert forall f | f in entries :: f == entries[0] || f == entries[1];
  }

  /** An entry of plain text under a key without separators can be written into a hash and read back. */
  lemma PlainEntry(bs: seq<HashBindings.Binding>, platform: Encoder.Platform, f: Field)
    requires Escapes(bs) && '&' !in f.name && '=' !in f.name && f.value.Str? && PlainText(f.value.s)
    ensures StorableEntry(f) && Decodes(SinglePass, bs, f, platform)
    ensures StoredValue(SinglePass, bs, f.value.s, platform) == Ok(f.value)
  {
    PlainTextStored(bs, f.value.s, platform);
  }

  lemma LookupStorable(entries: seq<Field>, k: string)
    requires Storable(entries) && Lookup(entries, k).Some?
    ensures StoredOf(entries, k).Some?
    ensures StorableEntry(Field(k, Str(StoredOf(entries, k).value)))
  {
    LookupIndex(entries, k);
    var i :| 0 <= i < |entries| && entries[i] == Field(k, Lookup(entries, k).value);
    assert entries[i] in entries;
  }

  /** In the items written for distinct entries, the last item with a key is that entry's. */
  lemma {:induction false} LastRawItem(entries: seq<Field>, k: string)
    requires Storable(entries)
    ensures StoredOf(entries, k).Some? ==> LastItem(RawItemTexts(entries), k) == Some(k + "=" + StoredOf(entries, k).value)
    ensures Lookup(entries, k).None? ==> LastItem(RawItemTexts(entries), k).None?
  {
    if entries != [] {
      var f := entries[0];
      assert f in entries;
      NamesDistinct(entries);
      assert Storable(entries[1..]) by {
        assert forall g | g in entries[1..] :: g in entries;
      }
      LastRawItem(entries[1..], k);
      ItemOf(f.name, f.value.s);
      assert RawItemTexts(entries)[1..] == RawItemTexts(entries[1..]);
      if f.name == k {
        assert Lookup(entries[1..], k).None?;
      }
    }
  }

  /** A hash written from entries of stored text splits into the items written. */
  lemma WrittenItems(entries: seq<Field>)
    requires Storable(entries) && entries != []
    ensures RawText(entries) != ""
    ensures Text.Split(RawText(entries), '&') == RawItemTexts(entries)
  {
    var items := RawItemTexts(entries);
    RawItemTextsFree(entries);
    Text.SplitJoin(items, '&');
    if |items| > 1 {
      assert Text.Join(items, "&") == items[0] + "&" + Text.Join(items[1..], "&");
    }
  }

  /**
   * Reading a hash written from entries of stored text gives each key the
   * value its stored text reads as.
   */
  lemma ReadRaw(u: Unescaping, bs: seq<HashBindings.Binding>, entries: seq<Field>, platform: Encoder.Platform, k: string)
    requires HashBindings.AllFramed(bs)
    requires Storable(entries)
    requires ReadHash(u, bs, true, RawText(entries), platform).Ok?
    ensures StoredOf(entries, k).Some? ==>
      StoredValue(u, bs, StoredOf(entries, k).value, platform).Ok? &&
      Lookup(ReadHash(u, bs, true, RawText(entries), platform).value, k) == Some(StoredValue(u, bs, StoredOf(entries, k).value, platform).value)
    ensures Lookup(entries, k).None? ==> Lookup(ReadHash(u, bs, true, RawText(entries), platform).value, k).None?
  {
    if entries != [] {
      WrittenItems(entries);
      LastRawItem(entries, k);
      ReadHashEntries(u, bs, RawText(entries), platform, k);
      if Lookup(entries, k).Some? {
        LookupStorable(entries, k);
        ItemOf(k, StoredOf(entries, k).value);
      }
    }
  }

  /**
   * After setting a key by its stored text, reading the hash gives that key
   * the value the encoded text decodes to, and every other key the value of
   * its own stored text, unless some entry fails to decode.
   */
  lemma SetRawThenRead(bs: seq<HashBindings.Binding>, hash: string, key: string, encoded: string, platform: Encoder.Platform, k: string)
    requires HashBindings.WellFormed(bs) && |bs| >= 2 && bs[0].plain == '&' && bs[1].plain == '='
    requires '&' !in key && '=' !in key && encoded != [] && HashBindings.MARK !in encoded
    requires ReadHash(SinglePass, bs, true, SetRaw(bs, hash, key, encoded), platform).Ok?
    ensures Encoder.Decode(Str(encoded), platform).Ok?
    ensures Lookup(ReadHash(SinglePass, bs, true, SetRaw(bs, hash, key, encoded), platform).value, key)
      == Some(Encoder.Decode(Str(encoded), platform).value)
    ensures k != key && StoredOf(RawEntries(hash), k).None? ==>
      Lookup(ReadHash(SinglePass, bs, true, SetRaw(bs, hash, key, encoded), platform).value, k).None?
    ensures k != key && StoredOf(RawEntries(hash), k).Some? ==>
      StoredValue(SinglePass, bs, StoredOf(RawEntries(hash), k).value, platform).Ok? &&
      Lookup(ReadHash(SinglePass, bs, true, SetRaw(bs, hash, key, encoded), platform).value, k)
      == Some(StoredValue(SinglePass, bs, StoredOf(RawEntries(hash), k).value, platform).value)
  {
    var entries := Put(RawEntries(hash), key, Str(HashBindings.Escape(bs, encoded)));
    SetRawEntries(bs, hash, key, encoded);
    SetRawStorable(bs, hash, key, encoded);
    HashBindings.UnescapeEscape(bs, encoded);
    assert StoredOf(entries, key) == Some(HashBindings.Escape(bs, encoded));
    ReadRaw(SinglePass, bs, entries, platform, key);
    RawEntriesStorable(hash);
    if k != key {
      assert StoredOf(entries, k) == StoredOf(RawEntries(hash), k);
      if StoredOf(RawEntries(hash), k).None? {
        if Lookup(RawEntries(hash), k).Some? {
          LookupStorable(RawEntries(hash), k);
        }
      }
      ReadRaw(SinglePass, bs, entries, platform, k);
    }
  }

  lemma SetRawStorable(bs: seq<HashBindings.Binding>, hash: string, key: string, encoded: string)
    requires HashBindings.WellFormed(bs) && |bs| >= 2 && bs[0].plain == '&' && bs[1].plain == '='
    requires '&' !in key && '=' !in key && encoded != []
    ensures HashBindings.AllFramed(bs)
    ensures Storable(Put(RawEntries(hash), key, Str(HashBindings.Escape(bs, encoded))))
    ensures SetRaw(bs, hash, key, encoded) == RawText(Put(RawEntries(hash), key, Str(HashBindings.Escape(bs, encoded))))
  {
    HashBindings.EscapedIsItemSafe(bs, encoded);
    RawEntriesStorable(hash);
    PutStorable(RawEntries(hash), key, Str(HashBindings.Escape(bs, encoded)));
  }

  // ---------------------------------------------------------------------------
  // When a hash reads without error

  /** `UNKNOWN` reads back as itself. */
  lemma UnknownReadsAsItself(u: Unescaping, bs: seq<HashBindings.Binding>, platform: Encoder.Platform)
    requires HashBindings.AllFramed(bs)
    ensures StoredValue(u, bs, UNKNOWN, platform) == Ok(Str(UNKNOWN))
  {
    assert HashBindings.MARK !in UNKNOWN;
    HashBindings.UnescapeUnmarked(bs, UNKNOWN);
    UnescapeAsWrittenUnmarked(bs, UNKNOWN);
    Text.DiffersAt(UNKNOWN, Encoder.SAFEGUARD_MARKER, 0);
    Text.DiffersAt(UNKNOWN, Encoder.JSON_MARKER, 0);
    Encoder.PlainStringPassesThrough(UNKNOWN, platform);
  }

  /** An item reads as its stored text does. */
  lemma StoredTextValue(u: Unescaping, bs: seq<HashBindings.Binding>, item: string, platform: Encoder.Platform)
    requires HashBindings.AllFramed(bs)
    ensures ItemValue(u, bs, item, platform) == StoredValue(u, bs, StoredText(item), platform)
  {
    if ItemText(item).None? {
      UnknownReadsAsItself(u, bs, platform);
    }
  }

  /** Reading items fails exactly when one of them fails to decode, even one a later item replaces. */
  lemma {:induction false} ReadItemsOk(u: Unescaping, bs: seq<HashBindings.Binding>, items: seq<string>, acc: seq<Field>, platform: Encoder.Platform)
    requires HashBindings.AllFramed(bs)
    ensures ReadItems(u, bs, items, acc, platform).Ok? <==>
      forall i :: 0 <= i < |items| ==> ItemValue(u, bs, items[i], platform).Ok?
  {
    hide ItemValue, ItemKey, Put, HashBindings.AllFramed;
    if items != [] && ItemValue(u, bs, items[0], platform).Ok? {
      ReadItemsOk(u, bs, items[1..], Put(acc, ItemKey(items[0]), ItemValue(u, bs, items[0], platform).value), platform);
      assert forall i :: 1 <= i < |items| ==> items[i] == items[1..][i - 1];
    }
  }

  /** An entry of stored text that reads without error. */
  predicate Decodes(u: Unescaping, bs: seq<HashBindings.Binding>, f: Field, platform: Encoder.Platform)
    requires HashBindings.AllFramed(bs)
  {
    f.value.Str? && StoredValue(u, bs, f.value.s, platform).Ok?
  }

  lemma {:induction false} RawItemsDecode(u: Unescaping, bs: seq<HashBindings.Binding>, items: seq<string>, acc: seq<Field>, platform: Encoder.Platform)
    requires HashBindings.AllFramed(bs)
    requires forall f | f in acc :: Decodes(u, bs, f, platform)
    requires forall i :: 0 <= i < |items| ==> ItemValue(u, bs, items[i], platform).Ok?
    ensures forall f | f in RawItems(items, acc) :: Decodes(u, bs, f, platform)
  {
    if items != [] {
      StoredTextValue(u, bs, items[0], platform);
      var name := ItemKey(items[0]);
      var value := Str(StoredText(items[0]));
      PutElems(acc, name, value);
      assert forall i :: 0 <= i < |items[1..]| ==> items[1..][i] == items[i + 1];
      RawItemsDecode(u, bs, items[1..], Put(acc, name, value), platform);
    }
  }

  /** The stored text of every entry of a hash that reads without error reads without error. */
  lemma RawEntriesDecode(u: Unescaping, bs: seq<HashBindings.Binding>, hash: string, platform: Encoder.Platform)
    requires HashBindings.AllFramed(bs)
    requires ReadHash(u, bs, true, hash, platform).Ok?
    ensures forall f | f in RawEntries(hash) :: Decodes(u, bs, f, platform)
  {
    if hash != "" {
      ReadItemsOk(u, bs, Text.Split(hash, '&'), [], platform);
      RawItemsDecode(u, bs, Text.Split(hash, '&'), [], platform);
    }
  }

  lemma {:induction false} RawItemTextAt(entries: seq<Field>, i: nat)
    requires i < |entries|
    ensures RawItemTexts(entries)[i] == entries[i].name + "=" + DisplayString(entries[i].value)
  {
    if i > 0 {
      RawItemTextAt(entries[1..], i - 1);
    }
  }

  /** A hash written from entries of stored text that all decode reads without error. */
  lemma RawTextReads(u: Unescaping, bs: seq<HashBindings.Binding>, entries: seq<Field>, platform: Encoder.Platform)
    requires HashBindings.AllFramed(bs) && Storable(entries)
    requires forall f | f in entries :: Decodes(u, bs, f, platform)
    ensures ReadHash(u, bs, true, RawText(entries), platform).Ok?
  {
    if entries != [] {
      WrittenItems(entries);
      var items := RawItemTexts(entries);
      forall i | 0 <= i < |items|
        ensures ItemValue(u, bs, items[i], platform).Ok?
      {
        assert entries[i] in entries;
        EntryItemDecodes(u, bs, entries, i, platform);
      }
      hide ItemValue, ReadItems, RawItemTexts, RawText, Text.Split;
      ReadItemsOk(u, bs, items, [], platform);
    }
  }

  /** The item written for a storable entry that decodes reads without error. */
  lemma EntryItemDecodes(u: Unescaping, bs: seq<HashBindings.Binding>, entries: seq<Field>, i: nat, platform: Encoder.Platform)
    requires HashBindings.AllFramed(bs) && i < |entries|
    requires StorableEntry(entries[i]) && Decodes(u, bs, entries[i], platform)
    ensures ItemValue(u, bs, RawItemTexts(entries)[i], platform).Ok?
  {
    hide Encoder.Decode, UnescapeWith, Text.Split, RawItemTexts;
    RawItemTextAt(entries, i);
    assert DisplayString(entries[i].value) == entries[i].value.s;
    ItemOf(entries[i].name, entries[i].value.s);
  }

  lemma {:induction false} RawItemsLastWins(items: seq<string>, acc: seq<Field>, k: string)
    ensures LastItem(items, k).Some? ==> Lookup(RawItems(items, acc), k) == Some(Str(StoredText(LastItem(items, k).value)))
    ensures LastItem(items, k).None? ==> Lookup(RawItems(items, acc), k) == Lookup(acc, k)
  {
    if items != [] {
      RawItemsLastWins(items[1..], Put(acc, ItemKey(items[0]), Str(StoredText(items[0]))), k);
    }
  }

  /** The stored text of a key reads as the value the hash gives that key. */
  lemma RawEntriesMirror(u: Unescaping, bs: seq<HashBindings.Binding>, hash: string, platform: Encoder.Platform, k: string)
    requires HashBindings.AllFramed(bs)
    requires ReadHash(u, bs, true, hash, platform).Ok?
    ensures StoredOf(RawEntries(hash), k).Some? ==>
      StoredValue(u, bs, StoredOf(RawEntries(hash), k).value, platform).Ok? &&
      Lookup(ReadHash(u, bs, true, hash, platform).value, k) == Some(StoredValue(u, bs, StoredOf(RawEntries(hash), k).value, platform).value)
    ensures StoredOf(RawEntries(hash), k).None? ==> Lookup(ReadHash(u, bs, true, hash, platform).value, k).None?
  {
    ReadHashEntries(u, bs, hash, platform, k);
    hide ReadHash, StoredValue, ItemValue, Encoder.Decode;
    if hash != "" {
      var items := Text.Split(hash, '&');
      RawItemsLastWins(items, [], k);
      hide RawItems, Text.Split;
      var last := LastItem(items, k);
      if last.Some? {
        StoredTextValue(u, bs, last.value, platform);
      }
    }
  }

  /**
   * Setting a key by its stored text keeps a hash that reads without error
   * readable, when the new text decodes.
   */
  lemma SetRawReads(bs: seq<HashBindings.Binding>, hash: string, key: string, encoded: string, platform: Encoder.Platform)
    requires HashBindings.WellFormed(bs) && |bs| >= 2 && bs[0].plain == '&' && bs[1].plain == '='
    requires '&' !in key && '=' !in key && encoded != [] && HashBindings.MARK !in encoded
    requires ReadHash(SinglePass, bs, true, hash, platform).Ok?
    requires Encoder.Decode(Str(encoded), platform).Ok?
    ensures ReadHash(SinglePass, bs, true, SetRaw(bs, hash, key, encoded), platform).Ok?
  {
    var value := Str(HashBindings.Escape(bs, encoded));
    SetRawStorable(bs, hash, key, encoded);
    RawEntriesDecode(SinglePass, bs, hash, platform);
    HashBindings.UnescapeEscape(bs, encoded);
    PutElems(RawEntries(hash), key, value);
    RawTextReads(SinglePass, bs, Put(RawEntries(hash), key, value), platform);
  }

  // ---------------------------------------------------------------------------
  // What the source's set does to entries it did not set

  /** A single item `key=text`, with no `&` and a non-empty text without `=`, reads as that key and text. */
  lemma SingleItem(key: string, text: string)
    requires '&' !in key && '&' !in text && '=' !in key && '=' !in text && text != []
    ensures Text.Split(key + "=" + text, '&') == [key + "=" + text]
    ensures ItemKey(key + "=" + text) == key && ItemText(key + "=" + text) == Some(text)
  {
    ItemOf(key, text);
    assert '&' !in key + "=" + text;
    Text.SplitNoSeparator(key + "=" + text, '&');
  }

  /** Text without `@` is left alone by the source's unescaping. */
  lemma {:induction false} UnescapeAsWrittenUnmarked(bs: seq<HashBindings.Binding>, s: string)
    requires HashBindings.AllFramed(bs) && HashBindings.MARK !in s
    ensures HashBindings.UnescapeAsWritten(bs, s) == s
    decreases |bs|
  {
    if bs != [] {
      var e := bs[0].escaped;
      assert HashBindings.Framed(e);
      forall i: nat | i + |e| <= |s|
        ensures !Text.OccursAt(s, e, i)
      {
        assert s[i..i + |e|][0] == s[i];
        assert s[i] in s;
      }
      Text.ReplaceAllNone(s, e, [bs[0].plain]);
      assert forall b | b in bs[1..] :: b in bs;
      UnescapeAsWrittenUnmarked(bs[1..], s);
    }
  }

  /** A hash of one item reads as one entry. */
  lemma ReadSingle(u: Unescaping, bs: seq<HashBindings.Binding>, key: string, text: string, platform: Encoder.Platform)
    requires HashBindings.AllFramed(bs)
    requires '&' !in key && '&' !in text && '=' !in key && '=' !in text && text != []
    requires StoredValue(u, bs, text, platform).Ok?
    ensures ReadHash(u, bs, true, key + "=" + text, platform) == Ok([Field(key, StoredValue(u, bs, text, platform).value)])
  {
    SingleItem(key, text);
    var item := key + "=" + text;
    var v := StoredValue(u, bs, text, platform).value;
    assert item != "";
    assert ItemValue(u, bs, item, platform) == Ok(v);
    assert [item][1..] == [];
    assert Put([], key, v) == [Field(key, v)];
    assert ReadItems(u, bs, [], [Field(key, v)], platform) == Ok([Field(key, v)]);
  }

  /** A single item whose text fails to decode fails the read. */
  lemma ReadSingleFails(u: Unescaping, bs: seq<HashBindings.Binding>, key: string, text: string, platform: Encoder.Platform)
    requires HashBindings.AllFramed(bs)
    requires '&' !in key && '&' !in text && '=' !in key && '=' !in text && text != []
    requires StoredValue(u, bs, text, platform).Err?
    ensures ReadHash(u, bs, true, key + "=" + text, platform).Err?
  {
    SingleItem(key, text);
    var item := key + "=" + text;
    assert item != "";
    assert ItemValue(u, bs, item, platform).Err?;
  }

  /**
   * A key holding `=` is written without escaping, so the item `k1=k2=e` reads as
   * the key `k1` holding what `k2` decodes to, and the written key is not found.
   */
  lemma SeparatorKeyMisreads(u: Unescaping, bs: seq<HashBindings.Binding>, k1: string, k2: string, e: string, platform: Encoder.Platform)
    requires HashBindings.AllFramed(bs)
    requires '&' !in k1 && '=' !in k1 && '&' !in k2 && '=' !in k2 && k2 != []
    requires '&' !in e && '=' !in e
    requires StoredValue(u, bs, k2, platform).Ok?
    ensures ReadHash(u, bs, true, (k1 + "=" + k2) + "=" + e, platform)
         == Ok([Field(k1, StoredValue(u, bs, k2, platform).value)])
    ensures Lookup(ReadHash(u, bs, true, (k1 + "=" + k2) + "=" + e, platform).value, k1 + "=" + k2) == None
  {
    var item := (k1 + "=" + k2) + "=" + e;
    var v := StoredValue(u, bs, k2, platform).value;
    MisreadItem(k1, k2, e);
    hide Text.Split, ItemKey, ItemText, StoredValue;
    assert ItemValue(u, bs, item, platform) == Ok(v);
    assert [item][1..] == [];
    assert Put([], k1, v) == [Field(k1, v)];
    assert ReadItems(u, bs, [], [Field(k1, v)], platform) == Ok([Field(k1, v)]);
    assert |k1| < |k1 + "=" + k2|;
  }

  /** The item `k1=k2=e` has the key `k1` and the text `k2`, and is the hash's only item. */
  lemma MisreadItem(k1: string, k2: string, e: string)
    requires '&' !in k1 && '=' !in k1 && '&' !in k2 && '=' !in k2 && k2 != []
    requires '&' !in e && '=' !in e
    ensures ItemKey((k1 + "=" + k2) + "=" + e) == k1 && ItemText((k1 + "=" + k2) + "=" + e) == Some(k2)
    ensures Text.Split((k1 + "=" + k2) + "=" + e, '&') == [(k1 + "=" + k2) + "=" + e]
    ensures (k1 + "=" + k2) + "=" + e != []
  {
    MisreadParts(k1, k2, e);
    MisreadSingle(k1, k2, e);
    hide Text.Split;
    var parts := Text.Split((k1 + "=" + k2) + "=" + e, '=');
    assert parts[0] == k1 && parts[1] == k2;
  }

  lemma MisreadParts(k1: string, k2: string, e: string)
    requires '=' !in k1 && '=' !in k2
    ensures Text.Split((k1 + "=" + k2) + "=" + e, '=') == [k1, k2] + Text.Split(e, '=')
  {
    assert (k1 + "=" + k2) + "=" + e == k1 + ['='] + (k2 + ['='] + e);
    Text.SplitAfterPart(k1, '=', k2 + ['='] + e);
    Text.SplitAfterPart(k2, '=', e);
  }

  lemma MisreadSingle(k1: string, k2: string, e: string)
    requires '&' !in k1 && '&' !in k2 && '&' !in e
    ensures Text.Split((k1 + "=" + k2) + "=" + e, '&') == [(k1 + "=" + k2) + "=" + e]
  {
    Text.SplitNoSeparator((k1 + "=" + k2) + "=" + e, '&');
  }

  /** `asonja{}` decodes to an empty object. */
  lemma DecodeEmptyObject(text: string, platform: Encoder.Platform)
    requires text == "asonja{}"
    ensures Encoder.Decode(Str(text), platform) == Ok(Obj([]))
    ensures '&' !in text && '=' !in text && HashBindings.MARK !in text && text != []
  {
    assert text[..|Encoder.JSON_MARKER|] == Encoder.JSON_MARKER;
    assert text[|Encoder.JSON_MARKER|..] == "{}";
    Text.DiffersAt(text, Encoder.SAFEGUARD_MARKER, 1);
    assert Json.Stringify(Obj([])) == "{}";
    Json.RoundTrip(Obj([]));
  }

  /**
   * When the stored text of `key` decodes to something other than a string,
   * the source's set of any other key throws.
   */
  lemma SetAsWrittenThrowsAfter(bs: seq<HashBindings.Binding>, key: string, text: string, other: string, encoded: string, platform: Encoder.Platform)
    requires HashBindings.AllFramed(bs)
    requires '&' !in key && '&' !in text && '=' !in key && '=' !in text && text != []
    requires HashBindings.MARK !in text && key != other
    requires Encoder.Decode(Str(text), platform).Ok?
    requires Truthy(Encoder.Decode(Str(text), platform).value)
    requires !Encoder.Decode(Str(text), platform).value.Str? && !Encoder.Decode(Str(text), platform).value.StrObject?
    ensures SetAsWritten(bs, key + "=" + text, other, encoded, platform).Err?
    ensures SetAsWritten(bs, key + "=" + text, other, encoded, platform).error.TypeError?
  {
    UnescapeAsWrittenUnmarked(bs, text);
    ReadSingle(Sequential, bs, key, text, platform);
    SetAsWrittenFailsOnObjects(bs, key + "=" + text, other, encoded, platform, key);
  }

  /** With `{}` stored under a key, the source's set of any other key throws: the object read back has no `replaceAll`. */
  lemma SetAsWrittenThrowsAfterObject(key: string, other: string, encoded: string, platform: Encoder.Platform)
    requires '&' !in key && '=' !in key && key != other
    ensures HashBindings.AllFramed(HashBindings.SITE_BINDINGS)
    ensures SetAsWritten(HashBindings.SITE_BINDINGS, key + "=" + "asonja{}", other, encoded, platform).Err?
    ensures SetAsWritten(HashBindings.SITE_BINDINGS, key + "=" + "asonja{}", other, encoded, platform).error.TypeError?
  {
    HashBindings.BindingsWellFormed();
    var text := "asonja{}";
    DecodeEmptyObject(text, platform);
    SetAsWrittenThrowsAfter(HashBindings.SITE_BINDINGS, key, text, other, encoded, platform);
  }

  lemma EntryItemsCons(bs: seq<HashBindings.Binding>, k: string, v: string, rest: seq<Field>)
    requires HashBindings.AllFramed(bs) && v != [] && EntryItems(bs, rest).Ok?
    ensures EntryItems(bs, [Field(k, Str(v))] + rest) == Ok([k + "=" + HashBindings.Escape(bs, v)] + EntryItems(bs, rest).value)
  {
    var entries := [Field(k, Str(v))] + rest;
    assert entries[1..] == rest;
    assert ValueText(bs, Str(v)) == Ok(HashBindings.Escape(bs, v));
  }

  lemma EntryItemsOne(bs: seq<HashBindings.Binding>, k: string, v: string)
    requires HashBindings.AllFramed(bs) && v != []
    ensures EntryItems(bs, [Field(k, Str(v))]) == Ok([k + "=" + HashBindings.Escape(bs, v)])
  {
    var item := k + "=" + HashBindings.Escape(bs, v);
    assert EntryItems(bs, []) == Ok([]);
    EntryItemsCons(bs, k, v, []);
    assert [Field(k, Str(v))] + [] == [Field(k, Str(v))];
    assert [item] + [] == [item];
  }

  /** Two string entries are written as `k1=t1&k2=t2`. */
  lemma RetainTwo(bs: seq<HashBindings.Binding>, k1: string, v1: string, k2: string, v2: string)
    requires HashBindings.AllFramed(bs) && v1 != [] && v2 != []
    ensures Retain(bs, [Field(k1, Str(v1)), Field(k2, Str(v2))])
      == Ok((k1 + "=" + HashBindings.Escape(bs, v1)) + "&" + (k2 + "=" + HashBindings.Escape(bs, v2)))
  {
    var a := k1 + "=" + HashBindings.Escape(bs, v1);
    var b := k2 + "=" + HashBindings.Escape(bs, v2);
    EntryItemsOne(bs, k2, v2);
    EntryItemsCons(bs, k1, v1, [Field(k2, Str(v2))]);
    assert [Field(k1, Str(v1))] + [Field(k2, Str(v2))] == [Field(k1, Str(v1)), Field(k2, Str(v2))];
    assert [a] + [b] == [a, b];
    assert [a, b][1..] == [b];
    assert Text.Join([a, b], "&") == a + "&" + b;
  }

  /**
   * When the stored text of `key` reads as a non-empty string, the source's
   * set of any other key writes that string back in place of the stored text.
   */
  lemma SetAsWrittenClears(bs: seq<HashBindings.Binding>, key: string, text: string, clear: string, other: string, encoded: string, platform: Encoder.Platform)
    requires HashBindings.AllFramed(bs)
    requires '&' !in key && '&' !in text && '=' !in key && '=' !in text && text != []
    requires key != other && clear != [] && encoded != []
    requires StoredValue(Sequential, bs, text, platform) == Ok(Str(clear))
    ensures SetAsWritten(bs, key + "=" + text, other, encoded, platform)
      == Ok((key + "=" + HashBindings.Escape(bs, clear)) + "&" + (other + "=" + HashBindings.Escape(bs, encoded)))
  {
    ReadSingle(Sequential, bs, key, text, platform);
    assert Put([Field(key, Str(clear))], other, Str(encoded)) == [Field(key, Str(clear)), Field(other, Str(encoded))];
    RetainTwo(bs, key, clear, other, encoded);
  }

  /**
   * With `A` stored safeguarded under a key (`afesaQQ==`, escaped), the
   * source's set of any other key writes it back as the clear `A`.
   */
  lemma SetAsWrittenDropsSafeguard(key: string, other: string, encoded: string, platform: Encoder.Platform)
    requires platform.hasAtob
    requires '&' !in key && '=' !in key && key != other && encoded != []
    ensures HashBindings.AllFramed(HashBindings.SITE_BINDINGS)
    ensures SetAsWritten(HashBindings.SITE_BINDINGS, key + "=" + "afesaQQ@E@@E@", other, encoded, platform)
      == Ok((key + "=" + "A") + "&" + (other + "=" + HashBindings.Escape(HashBindings.SITE_BINDINGS, encoded)))
  {
    var bs := HashBindings.SITE_BINDINGS;
    var text := "afesaQQ@E@@E@";
    SafeguardedText(text, platform);
    EscapeLetterA(bs);
    SetAsWrittenClears(bs, key, text, "A", other, encoded, platform);
  }

  lemma SafeguardedText(text: string, platform: Encoder.Platform)
    requires platform.hasAtob && text == "afesaQQ@E@@E@"
    ensures HashBindings.AllFramed(HashBindings.SITE_BINDINGS)
    ensures StoredValue(Sequential, HashBindings.SITE_BINDINGS, text, platform) == Ok(Str("A"))
    ensures '&' !in text && '=' !in text && text != []
  {
    hide HashBindings.UnescapeAsWritten, HashBindings.AllFramed, Encoder.Decode, Encoder.Encode, Text.ReplaceAll;
    SafeguardedUnescape();
    Encoder.SafeguardLookalikeString(platform);
    assert UnescapeWith(Sequential, HashBindings.SITE_BINDINGS, text) == "afesaQQ==";
  }

  lemma EscapeLetterA(bs: seq<HashBindings.Binding>)
    requires bs == HashBindings.SITE_BINDINGS
    ensures HashBindings.Escape(bs, "A") == "A"
  {
    HashBindings.BindingsWellFormed();
    EscapePlain(bs, "A");
  }

  /** No `@A@` in `afesaQQ@E@@E@`. */
  lemma NoAmpersandEscape()
    ensures Text.ReplaceAll("afesaQQ@E@@E@", "@A@", "&") == "afesaQQ@E@@E@"
  {
    var s := "afesaQQ@E@@E@";
    forall i: nat | i + 3 <= |s|
      ensures !Text.OccursAt(s, "@A@", i)
    {
      if s[i] == '@' {
        assert s[i..i + 3][1] == s[i + 1];
      } else {
        assert s[i..i + 3][0] == s[i];
      }
    }
    Text.ReplaceAllNone(s, "@A@", "&");
  }

  lemma TwoEqualsEscapes()
    ensures Text.ReplaceAll("afesaQQ@E@@E@", "@E@", "=") == "afesaQQ=="
  {
    assert Text.ReplaceAll("", "@E@", "=") == "";
    assert "@E@"[..3] == "@E@" && "@E@"[3..] == "";
    assert Text.ReplaceAll("@E@", "@E@", "=") == "=";
    assert "@E@@E@"[..3] == "@E@" && "@E@@E@"[3..] == "@E@";
    assert Text.ReplaceAll("@E@@E@", "@E@", "=") == "==";
    ReplaceLetters("afesaQQ", "@E@@E@", "@E@", "=");
    assert "afesaQQ" + "@E@@E@" == "afesaQQ@E@@E@";
  }

  lemma SafeguardedUnescape()
    ensures HashBindings.AllFramed(HashBindings.SITE_BINDINGS)
    ensures HashBindings.UnescapeAsWritten(HashBindings.SITE_BINDINGS, "afesaQQ@E@@E@") == "afesaQQ=="
  {
    HashBindings.BindingsWellFormed();
    NoAmpersandEscape();
    TwoEqualsEscapes();
    assert HashBindings.SITE_BINDINGS[1..][1..] == [];
  }

  /** Text before the first `@` is copied as it is. */
  lemma {:induction false} ReplaceLetters(prefix: string, rest: string, pat: string, rep: string)
    requires pat != [] && pat[0] == HashBindings.MARK && HashBindings.MARK !in prefix
    ensures Text.ReplaceAll(prefix + rest, pat, rep) == prefix + Text.ReplaceAll(rest, pat, rep)
    decreases |prefix|
  {
    if prefix != [] {
      var s := prefix + rest;
      assert s[0] == prefix[0] && prefix[0] in prefix;
      if |s| >= |pat| {
        assert s[..|pat|][0] != pat[0];
      }
      assert s[1..] == prefix[1..] + rest;
      assert HashBindings.MARK !in prefix[1..];
      ReplaceLetters(prefix[1..], rest, pat, rep);
    } else {
      assert prefix + rest == rest;
    }
  }

  /** A text without bound characters is its own escape. */
  lemma EscapePlain(bs: seq<HashBindings.Binding>, s: string)
    requires HashBindings.WellFormed(bs)
    requires forall b | b in bs :: b.plain !in s
    ensures HashBindings.Escape(bs, s) == s
  {
    HashBindings.EscapeIsEach(bs, s);
    EscapeEachPlain(bs, s);
  }

  lemma {:induction false} EscapeEachPlain(bs: seq<HashBindings.Binding>, s: string)
    requires HashBindings.WellFormed(bs)
    requires forall b | b in bs :: b.plain !in s
    ensures HashBindings.EscapeEach(bs, s) == s
  {
    if s != [] {
      assert forall b | b in bs :: b.plain != s[0] by {
        assert s[0] in s;
      }
      assert forall b | b in bs :: b.plain !in s[1..];
      EscapeEachPlain(bs, s[1..]);
    }
  }

  // ---------------------------------------------------------------------------
  // What the browser keeps of a written hash

  /** An entry of stored text whose key and text the browser writes as they are. */
  predicate KeptEntry(f: Field) {
    Fragment.Kept(f.name) && f.value.Str? && Fragment.Kept(f.value.s)
  }

  lemma {:induction false} SplitKept(s: string, c: char)
    requires Fragment.Kept(s)
    ensures forall i :: 0 <= i < |Text.Split(s, c)| ==> Fragment.Kept(Text.Split(s, c)[i])
  {
    if s != [] {
      Fragment.KeptConcat([s[0]], s[1..]);
      assert s == [s[0]] + s[1..];
      SplitKept(s[1..], c);
      var rest := Text.Split(s[1..], c);
      if s[0] != c {
        Fragment.KeptConcat([s[0]], rest[0]);
        assert forall i :: 1 <= i < |Text.Split(s, c)| ==> Text.Split(s, c)[i] == rest[i];
      } else {
        assert forall i :: 1 <= i < |Text.Split(s, c)| ==> Text.Split(s, c)[i] == rest[i - 1];
      }
    }
  }

  lemma ItemKept(item: string)
    requires Fragment.Kept(item)
    ensures Fragment.Kept(ItemKey(item)) && Fragment.Kept(StoredText(item))
  {
    SplitKept(item, '=');
  }

  lemma {:induction false} RawItemsKept(items: seq<string>, acc: seq<Field>)
    requires forall i :: 0 <= i < |items| ==> Fragment.Kept(items[i])
    requires forall f | f in acc :: KeptEntry(f)
    ensures forall f | f in RawItems(items, acc) :: KeptEntry(f)
  {
    if items != [] {
      ItemKept(items[0]);
      var next := Put(acc, ItemKey(items[0]), Str(StoredText(items[0])));
      PutElems(acc, ItemKey(items[0]), Str(StoredText(items[0])));
      assert forall i :: 0 <= i < |items[1..]| ==> items[1..][i] == items[i + 1];
      RawItemsKept(items[1..], next);
    }
  }

  lemma {:induction false} JoinKept(parts: seq<string>)
    requires forall i :: 0 <= i < |parts| ==> Fragment.Kept(parts[i])
    ensures Fragment.Kept(Text.Join(parts, "&"))
  {
    if |parts| > 1 {
      assert forall i :: 0 <= i < |parts[1..]| ==> parts[1..][i] == parts[i + 1];
      JoinKept(parts[1..]);
      Fragment.KeptConcat(parts[0], "&");
      Fragment.KeptConcat(parts[0] + "&", Text.Join(parts[1..], "&"));
    }
  }

  lemma {:induction false} RawItemTextsKept(entries: seq<Field>)
    requires forall f | f in entries :: KeptEntry(f)
    ensures forall i :: 0 <= i < |RawItemTexts(entries)| ==> Fragment.Kept(RawItemTexts(entries)[i])
  {
    if entries != [] {
      var f := entries[0];
      assert KeptEntry(f);
      Fragment.KeptConcat(f.name, "=");
      Fragment.KeptConcat(f.name + "=", f.value.s);
      assert forall g | g in entries[1..] :: g in entries;
      RawItemTextsKept(entries[1..]);
      assert forall i :: 1 <= i < |RawItemTexts(entries)| ==> RawItemTexts(entries)[i] == RawItemTexts(entries[1..])[i - 1];
    }
  }

  /** What a set writes starts as the current hash does or, into an empty hash, as the key does. */
  function Lead(hash: string, key: string): string {
    if hash == "" then key else hash
  }

  /** A non-empty first part of a split starts as the text does. */
  lemma SplitFirst(s: string, c: char)
    requires Text.Split(s, c)[0] != []
    ensures s != [] && Text.Split(s, c)[0][0] == s[0]
  {
  }

  /** Folding items into entries keeps the first entry's name. */
  lemma {:induction false} RawItemsFirst(items: seq<string>, acc: seq<Field>)
    requires acc != []
    ensures RawItems(items, acc) != [] && RawItems(items, acc)[0].name == acc[0].name
  {
    if items != [] {
      var next := Put(acc, ItemKey(items[0]), Str(StoredText(items[0])));
      assert next[0].name == acc[0].name;
      RawItemsFirst(items[1..], next);
    }
  }

  /** The first name of the entries a set writes: the current hash's first key, or the key. */
  lemma SetRawFirstName(hash: string, key: string, v: JsValue)
    ensures Put(RawEntries(hash), key, v) != []
    ensures Put(RawEntries(hash), key, v)[0].name ==
      if hash == "" then key else ItemKey(Text.Split(hash, '&')[0])
  {
    if hash != "" {
      var items := Text.Split(hash, '&');
      RawItemsFirst(items[1..], [Field(ItemKey(items[0]), Str(StoredText(items[0])))]);
    }
  }

  /**
   * The text a set writes starts with `#` only when the current hash does,
   * or, into an empty hash, the key does.
   */
  lemma SetRawLead(bs: seq<HashBindings.Binding>, hash: string, key: string, encoded: string)
    requires HashBindings.AllFramed(bs)
    ensures Fragment.HashLed(SetRaw(bs, hash, key, encoded)) ==> Fragment.HashLed(Lead(hash, key))
  {
    var put := Put(RawEntries(hash), key, Str(HashBindings.Escape(bs, encoded)));
    SetRawFirstName(hash, key, Str(HashBindings.Escape(bs, encoded)));
    var parts := RawItemTexts(put);
    var first := put[0].name + "=" + DisplayString(put[0].value);
    assert parts[0] == first;
    assert SetRaw(bs, hash, key, encoded)[0] == first[0];
    if put[0].name != [] && hash != "" {
      var items := Text.Split(hash, '&');
      SplitFirst(items[0], '=');
      SplitFirst(hash, '&');
    }
  }

  /**
   * The browser writes a set's hash as it is when the current hash is one it
   * serves (already percent-encoded), the key and the escaped text of the
   * value hold nothing it would encode, and the text does not start with `#`.
   */
  lemma SetRawKept(bs: seq<HashBindings.Binding>, hash: string, key: string, encoded: string)
    requires HashBindings.AllFramed(bs)
    requires Fragment.Kept(hash) && Fragment.Kept(key) && Fragment.Kept(HashBindings.Escape(bs, encoded))
    ensures Fragment.Kept(SetRaw(bs, hash, key, encoded))
    ensures Fragment.Encode(SetRaw(bs, hash, key, encoded)) == SetRaw(bs, hash, key, encoded)
    ensures !Fragment.HashLed(Lead(hash, key)) ==> Fragment.Assign(SetRaw(bs, hash, key, encoded)) == SetRaw(bs, hash, key, encoded)
  {
    var entries := RawEntries(hash);
    if hash != "" {
      SplitKept(hash, '&');
      RawItemsKept(Text.Split(hash, '&'), []);
    }
    var put := Put(entries, key, Str(HashBindings.Escape(bs, encoded)));
    PutElems(entries, key, Str(HashBindings.Escape(bs, encoded)));
    RawItemTextsKept(put);
    JoinKept(RawItemTexts(put));
    Fragment.KeptIsUnchanged(SetRaw(bs, hash, key, encoded));
    SetRawLead(bs, hash, key, encoded);
    Fragment.AssignUnchanged(SetRaw(bs, hash, key, encoded));
  }
}
