# svelte-native-forms app-state persistence, modelled in Dafny

This project models the app-state persistence engine of svelte-native-forms and proves properties of the model. The engine keeps small pieces of application state in one of two channels.

- **The URL hash.** `#key=value&...`, in `src/util/persistence/urlHashStorage.js` and its older twin `src/util/siteHashStorage.js`. Values are encoded, then escaped so that `&` and `=` never occur inside them. The whole hash is rewritten on every set. A `hashchange` event notifies the handlers registered for the keys whose values changed.
- **Browser storage.** `src/util/persistence/localStorage.js` and its older twin `src/util/deviceStorage.js`. A key maps to the encoded value. A failed availability probe turns every operation into a no-op. A `storage` event notifies the handlers of the changed key.

On top of the channels:

- **The orchestrators** `src/util/persistence/appStateRetention.js` and `src/util/appStateRetention.js`.
  - A get prefers a truthy hash value.
  - A set writes exactly one channel.
  - Registration picks a channel.
  - The newer orchestrator keeps a grow-only ledger of keys in use and builds a shareable URL from it.
- **The Svelte store bindings.**
  - `persistentWritable` and `persistentStore` persist every mutation.
  - `bindStoreValueMethods` and `applyStoreValueMethods` merge a set of methods into every store value.
- **The helpers.**
  - The codec (`encoder.js`: JSON marker, `{apwra: v}` wrapper, `undefined` sentinel and base64 safeguard).
  - The named-parameter check.
  - The two `typeCheck.js` files.
  - The throttle and debounce of `dampen.js`.

## How the model is laid out

| module (file) | models |
|---|---|
| `Js` (js.dfy) | JavaScript values as the engine observes them: truthiness, `typeof`, property reads, string conversion. Objects are ordered field lists. |
| `Text` (text.dfy) | `startsWith`, `replaceAll`, `replace`, `split`, `join` and decimal number text. |
| `TypeCheck`, `SnfTypeCheck` | The two `typeCheck.js` files. |
| `Json`, `Base64` | `JSON.stringify`/`JSON.parse` (RFC 8259, compact form) and `btoa`/`atob` (section 4 of RFC 4648), written out concretely. |
| `Encoder` | `encode`/`decode`, with the codec's round trip under its real preconditions. |
| `HashBindings`, `HashEntries`, `HashStorage` | The hash escaping, the parse and re-serialisation of the hash, and the `HashStorage` class. One class serves both hash twins, parameterised by the bindings each escapes. |
| `Checks`, `Handlers`, `Storage` | Parameter checks, per-key handler lists, and the `Storage` class. One class serves both storage twins. |
| `AppStateRetention` | The classes `AppState` (newer) and `LegacyAppState` (older) over the channel objects. |
| `ParamStructure`, `Dampen` | `checkNamedParamStructure` and the rate limiters, as state machines. The time is an input. |
| `Stores`, `Persistent` | A `Writable` cell with `set`/`update`, the method-merging decorators (`MethodStore`), and the classes `PersistentWritable` and `PersistentStore`. |

State the source changes in place is modelled with classes and `modifies` clauses:

- the hash string and `curUrlHash`;
- the storage map;
- the handler lists;
- the ledger;
- the store cell;
- the throttle and debounce slots.

Pure code is modelled with functions and lemmas. Operations that can throw return an `Outcome` or `Result`, which carries the parameter violation or `TypeError` as a value.

Two behaviours are kept as the code has them, though a reader might expect otherwise:

- `updateUrlHashItem` consults `curUrlHash`, which src/util/persistence/urlHashStorage.js:41-43 describes as a module-scoped copy of the hash used to find changed items. That map starts as the launch parse, but the `hashchange` listener overwrites it with each change it sees, so it is not a launch snapshot.
- `throttled` drops a call that comes too soon and never replays it; the comment at src/util/dampen.js:15 says it will not run the last callback. The model keeps that, as `Dampen.TrailingCallLost` states.

Where the code is wrong (see "## Findings"), the model states the code as written in a separately named member, with a lemma that exhibits the defect, and the classes run the corrected definition:

- `HashStorage` reads the hash with the one-pass unescape (`HashEntries.SinglePass`), not the sequential `replaceAll` chain (`HashEntries.Sequential`).
- Its set rewrites only the key's stored text (`HashEntries.SetRaw`), not every decoded entry (`HashEntries.SetAsWritten`).
- The older device storage's registration appends the handler, where the source always throws.
- `AppState.GetActiveUrlWithFullHash` writes each value's encoded, escaped text, not the template-literal text (`AppStateRetention.SharedEntriesAsWritten`).

Every text the model assigns to the hash passes through `Fragment.Assign`, what the browser's hash setter makes of it: one leading `#` is dropped, ASCII tabs and newlines are removed, and the fragment is percent-encoded (`Fragment.Encode`). Nothing decodes it when the hash is read, as in the source.

## Model

| member | source | states |
|---|---|---|
| TypeCheck.IsBoolean | src/util/typeCheck.js:11-13 | true exactly for the two boolean values |
| TypeCheck.IsPlainObject | src/util/typeCheck.js:16-18 | true exactly for an object whose `constructor` is `Object`; never for an array, a `String` object or a function (so `null` and arrays give false) |
| TypeCheck.IsClassObject | src/util/typeCheck.js:21-24 | true exactly for a `String` object or an object whose `constructor` is not `Object` |
| TypeCheck.IsString | src/util/typeCheck.js:27-29 | true exactly for primitive strings and `String` objects |
| TypeCheck.IsFunction | src/util/typeCheck.js:33-35 | every function passes; anything that passes is a function or carries own `call` and `apply`, and is a truthy non-string, non-array |
| TypeCheck.IsSvelteStore | src/util/typeCheck.js:38-41 | a store has its own `subscribe` |
| TypeCheck.IsSvelteWritable | src/util/typeCheck.js:44-47 | a writable is a store and has its own `set` and `update` |
| TypeCheck.ObjectPartition | src/util/typeCheck.js:16-24 | every truthy value of type object is exactly one of plain object, array, class object |
| TypeCheck.ClassObjectExamples | src/util/typeCheck.js:62-71 | the commented test table: number, string, boolean, array, JSON object, function, null and undefined are not class objects; a class instance and a `Date` are |
| SnfTypeCheck.IsPlainObject | snf/src/util/typeCheck.js:16-18 | throws a `TypeError` exactly for `null`; otherwise agrees with the guarded check |
| SnfTypeCheck.AgreesExceptNull | snf/src/util/typeCheck.js:16-18 | the unguarded and guarded checks agree on every value except `null`; `undefined` is simply not a plain object |
| Encoder.Obfuscate | src/util/encoder.js:147-153 | fails as unsupported without `btoa`; otherwise is the base64 encoding of the text |
| Encoder.Deobfuscate | src/util/encoder.js:155-161 | fails as unsupported without `atob`; otherwise is the base64 decoding of the text |
| Encoder.Encode | src/util/encoder.js:44-82 | a function or class object is refused, then a non-boolean safeguard; unsafeguarded, the result is the layered text (string as is, sentinel, marker + JSON of the object or of `{apwra: v}`); safeguarded, it is `afesa` + base64 of that text, and fails without `btoa` or for text beyond Latin-1 |
| Encoder.SafeguardDefault | src/util/encoder.js:44 | omitting `safeguard` is the same as passing `false` |
| Encoder.UnwindSafeguard | src/util/encoder.js:117-120 | text without the safeguard marker is left for the next layer |
| Encoder.UnwindJson | src/util/encoder.js:123-126 | text without the JSON marker is left for the next layer |
| Encoder.DecodeClear | src/util/encoder.js:123-136 | without the JSON marker only the sentinel is unwound |
| Encoder.UnwindWrapper | src/util/encoder.js:129-131 | a value with neither an own `apwra` nor an own `hasOwnProperty` passes unchanged; a JSON value with an own `hasOwnProperty` throws a TypeError, since that property is not callable; otherwise the `apwra` field's value comes back |
| Encoder.UnwindUndefined | src/util/encoder.js:134-136 | the result is `undefined` exactly for `undefined` and the sentinel string, and any other value comes back unchanged |
| Encoder.Decode | src/util/encoder.js:98-140 | any non-string is passed through unchanged; a string without the safeguard marker goes straight to the JSON, wrapper and sentinel layers, where a parsed object with an own `hasOwnProperty` throws a TypeError (`UnwindWrapper`) |
| Encoder.PlainStringPassesThrough | src/util/encoder.js:109-136 | a string with neither marker that is not the sentinel decodes to itself |
| Encoder.StringEncodesToItself | src/util/encoder.js:58-60 | unsafeguarded, any string (safeguard `false` or omitted) encodes to itself |
| Encoder.UndefinedSentinel | src/util/encoder.js:62-64 | `undefined` encodes to the sentinel and the sentinel decodes to `undefined` |
| Encoder.JsonLayerRoundTrip | src/util/encoder.js:66-73 | a value other than a string or `undefined` that survives JSON and has neither an own `apwra` nor an own `hasOwnProperty` goes through the JSON layer and comes back |
| Encoder.StringLayerRoundTrip | src/util/encoder.js:58-60 | a string with no JSON marker that is not the sentinel is its own layered text and decodes to itself |
| Encoder.UndefinedLayerRoundTrip | src/util/encoder.js:62-64 | the sentinel layer gives `undefined` back |
| Encoder.LayeredRoundTrip | src/util/encoder.js:55-73 | the unsafeguarded text of every round-tripping value (which excludes an own `apwra` and an own `hasOwnProperty`) decodes to that value |
| Encoder.RoundTrip | src/util/encoder.js:44-140 | `decode(encode(ref, safeguard)) == ref`, safeguarded or not, for every value meeting the codec's real preconditions (no marker-lookalike string, no own `apwra` or `hasOwnProperty`, JSON-representable, base64 available) |
| Encoder.JsonLookalikeString | src/util/encoder.js:123-126 | the string `asonja1` encodes to itself but decodes to the number 1 |
| Encoder.SentinelString | src/util/encoder.js:134-136 | the string `__undefined__` comes back as `undefined` |
| Encoder.WrapperLookalikeObject | src/util/encoder.js:129-131 | `{apwra: 5}` comes back as 5 |
| Encoder.JsonLayerRoundTrip2 | src/util/encoder.js:66-67 | a plain object encodes to `asonja` + its JSON, whose decode is what the wrapper layer makes of the object: a TypeError for an own `hasOwnProperty`, the `apwra` field's value, or the object itself |
| Encoder.SafeguardLookalikeString | src/util/encoder.js:117-120 | the string `afesaQQ==` encodes to itself but decodes to `A` |
| Encoder.OwnHasOwnPropertyThrows | src/util/encoder.js:129-131 | a plain JSON object with an own `hasOwnProperty` property encodes, but its decode throws |
| Encoder.UnparsedJsonFails | src/util/encoder.js:123-126 | marked text that `JSON.parse` rejects fails to decode |
| Encoder.SmallObjectEncoded | src/util/encoder.js:66-67 | `{a: 1}` encodes to `asonja{"a":1}` |
| Encoder.MissingBase64 | src/util/encoder.js:147-161 | without `btoa` a safeguarded encode fails; without `atob` decoding safeguarded text fails |
| Base64.EncodeSymbols | src/util/encoder.js:151 | three bytes become four base64 symbols, and a last group of one or two bytes becomes two or three; the length follows from the input's |
| Base64.Encode | src/util/encoder.js:151 | padded base64 text, a multiple of four symbols long |
| Base64.Btoa | src/util/encoder.js:151 | `btoa` succeeds exactly on Latin-1 text and otherwise fails with an invalid-character error |
| Base64.DecodeSymbols | src/util/encoder.js:159 | the bytes decoded from base64 symbols are Latin-1 |
| Base64.Atob | src/util/encoder.js:159 | `atob` either fails with an invalid-character error or gives Latin-1 text |
| Base64.GroupDecodeEncode | src/util/encoder.js:151-159 | one group of one to three bytes survives encoding then decoding |
| Base64.DecodeEncodeSymbols | src/util/encoder.js:151-159 | decoding the symbols of any Latin-1 text gives the text back |
| Base64.EncodedHasNoWhitespace | src/util/encoder.js:151-159 | `atob`'s whitespace removal leaves `btoa`'s output as it is |
| Base64.StripEncodedPadding | src/util/encoder.js:151-159 | removing the padding of `btoa`'s output leaves exactly its symbols |
| Base64.RoundTrip | src/util/encoder.js:151-159 | `atob(btoa(s)) == s` for every Latin-1 text |
| Json.Parse | src/util/encoder.js:125 | a parse failure is a syntax error |
| Json.Stringify | src/util/encoder.js:67 | `JSON.stringify` never gives empty text; an object is written between braces and a string between quotes |
| Json.UnquotedMemberFails | src/util/encoder.js:125 | `JSON.parse` rejects an object whose first member does not start with `"`, such as `{%22a%22:1}` |
| Json.ValueRoundTrip | src/util/encoder.js:67-72 | the parser reads back any JSON-representable value from its serialised text and stops where that text ends |
| Json.ArrayRoundTrip | src/util/encoder.js:72 | arrays of JSON-representable values read back element for element |
| Json.ObjectRoundTrip | src/util/encoder.js:67 | plain objects with distinct names and JSON-representable values read back member for member |
| Json.NumberParse | src/util/encoder.js:72 | an integer's text reads back as that integer |
| Json.EscapeStringParse | src/util/encoder.js:67-72 | an escaped string literal reads back as the original characters |
| Json.RoundTrip | src/util/encoder.js:67-125 | `JSON.parse(JSON.stringify(v)) == v` for every JSON-representable value |
| HashBindings.BindingsWellFormed | src/util/persistence/urlHashStorage.js:34 | both sets of hash bindings escape distinct characters into distinct `@…@` texts that hold none of the bound characters |
| HashBindings.EscapeChar | src/util/persistence/urlHashStorage.js:34 | one character becomes the escape text of its binding, and a character without a binding stays itself |
| HashBindings.EscapeIsEach | src/util/persistence/urlHashStorage.js:34 | the chain of `replaceAll` calls of `encodeHashBindings` escapes every character on its own |
| HashBindings.EscapeEachFree | src/util/persistence/urlHashStorage.js:34 | escaped text holds no bound character |
| HashBindings.EscapedIsItemSafe | src/util/persistence/urlHashStorage.js:34 | escaped text holds neither `&` nor `=`, so it can sit in a `key=value` item of the hash, and only empty text escapes to empty text |
| HashBindings.EscapeAt | src/util/persistence/urlHashStorage.js:35 | the binding found at the head of a text is one of the bindings and its escape text starts the text |
| HashBindings.UnescapeEscape | src/util/persistence/urlHashStorage.js:34-35 | unescaping in one left-to-right pass undoes `encodeHashBindings` for every text without `@` |
| HashBindings.UnescapeAsWrittenMisreads | src/util/persistence/urlHashStorage.js:34-35 | `decodeHashBindings` as written does not undo `encodeHashBindings`: `=A&` is escaped to `@E@A@A@` and read back as `@E&A@`, whereas the one-pass unescape reads back `=A&` |
| HashBindings.EscapeKept | src/util/persistence/urlHashStorage.js:34 | escaped text passes the browser's fragment encoding unchanged when every character the browser would encode is one the bindings escape |
| HashBindings.UrlEscapeKept | src/util/persistence/urlHashStorage.js:34 | the URL hash escapes `"`, so escaped text whose only encodable characters are `"` (JSON text of ASCII, say) passes the browser unchanged |
| HashBindings.SiteEscapeKeepsQuote | src/util/siteHashStorage.js:30 | the site hash escapes only `&` and `=`: a `"` survives its escaping, and the browser then encodes the text |
| Fragment.Encode | src/util/persistence/urlHashStorage.js:145 | the fragment state's percent-encoding of the assigned text: never shorter, and holding nothing it would encode again |
| Fragment.Assign | src/util/persistence/urlHashStorage.js:145 | what the browser keeps of a string assigned to `location.hash`: one leading `#` dropped, tabs and newlines removed, the rest percent-encoded; the result holds nothing the encoding changes |
| Fragment.AssignUnchanged | src/util/persistence/urlHashStorage.js:145 | the browser keeps an assigned text as it is exactly when it holds nothing the percent-encoding changes and does not start with `#` |
| Fragment.AssignIsEncode | src/util/persistence/urlHashStorage.js:145 | without a leading `#`, a tab or a newline, the assignment is the percent-encoding alone |
| Fragment.LeadingHashDropped | src/util/persistence/urlHashStorage.js:145 | `#a=v` is stored as `a=v` |
| Fragment.NewlineRemoved | src/util/persistence/urlHashStorage.js:145 | a newline in the assigned text is removed, not encoded |
| Fragment.KeptIsUnchanged | src/util/persistence/urlHashStorage.js:145 | the percent-encoding leaves a text as it is exactly when the text holds no character of the fragment percent-encode set, and lengthens it otherwise |
| Fragment.Idempotent | src/util/persistence/urlHashStorage.js:145 | percent-encoding the encoded text again changes it no further |
| Fragment.EncodeConcat | src/util/persistence/urlHashStorage.js:145 | the encoding works character by character, so it distributes over concatenation |
| Fragment.QuotesEncoded | src/util/siteHashStorage.js:111 | in text otherwise kept, each `"` becomes `%22` |
| HashEntries.BindingsEscape | src/util/persistence/urlHashStorage.js:34 | both binding sets escape `&` and `=` first and are well formed |
| HashEntries.ItemKey | src/util/persistence/urlHashStorage.js:62 | an item's key holds no `=` |
| HashEntries.ItemText | src/util/persistence/urlHashStorage.js:62-65 | an item's value text, when it has one, is non-empty and holds no `=` |
| HashEntries.LastItem | src/util/persistence/urlHashStorage.js:61-73 | the item found for a key is one of the items and has that key |
| HashEntries.ReadItemsLastWins | src/util/persistence/urlHashStorage.js:61-73 | in the hash map read, a key holds the value of the last item with that key, and keys of no item keep what they had |
| HashEntries.ReadItemsDistinct | src/util/persistence/urlHashStorage.js:61-73 | the hash map read has distinct keys |
| HashEntries.ReadItemsOk | src/util/persistence/urlHashStorage.js:61-73 | reading the items fails exactly when one of them fails to decode, even one that a later item replaces |
| HashEntries.ReadHashEntries | src/util/persistence/urlHashStorage.js:51-76 | `getUrlHash()` in full: no entries outside a browser or for an empty hash; otherwise distinct keys, each holding the value of the last item with that key |
| HashEntries.MissingValueIsUnknown | src/util/persistence/urlHashStorage.js:65-67 | an item with no value text, or an empty one, reads as `'UNKNOWN'` |
| HashEntries.ValueText | src/util/persistence/urlHashStorage.js:140 | `encodeHashBindings(val)` throws a TypeError exactly when the value is truthy and is not a string |
| HashEntries.EntryItems | src/util/persistence/urlHashStorage.js:139-143 | writing the entries fails exactly when one entry's value cannot be escaped, and then with a TypeError; otherwise it gives one item per entry |
| HashEntries.RetainTwo | src/util/persistence/urlHashStorage.js:137-146 | `retainUrlHash` writes two string entries as `k1=t1&k2=t2`, each text escaped |
| HashEntries.Retain | src/util/persistence/urlHashStorage.js:137-146 | `retainUrlHash` throws a TypeError exactly when some entry is truthy and not a string; no entries give the empty hash |
| HashEntries.SetAsWritten | src/util/persistence/urlHashStorage.js:162-189 | the set as written fails with the read's error when the current hash does not read, and otherwise only with the escaping's TypeError |
| HashEntries.SetAsWrittenFailsExactly | src/util/persistence/urlHashStorage.js:186-188 | once the current hash reads, the set as written fails exactly when some other key holds a truthy value that is not a string |
| HashEntries.SetAsWrittenFailsOnObjects | src/util/persistence/urlHashStorage.js:186-188 | setting one key throws a TypeError whenever another entry reads back as an object, an array, a number or `true` |
| HashEntries.SetAsWrittenThrowsAfter | src/util/siteHashStorage.js:148-153 | once a key's stored text decodes to something truthy other than a string, setting any other key throws |
| HashEntries.SetAsWrittenThrowsAfterObject | src/util/siteHashStorage.js:148-153 | with `{}` stored under one key, setting any other key throws a TypeError |
| HashEntries.SetAsWrittenClears | src/util/siteHashStorage.js:148-153 | setting another key writes a key's decoded string back in place of its stored text |
| HashEntries.SetAsWrittenDropsSafeguard | src/util/siteHashStorage.js:148-153 | setting another key writes a safeguarded `A` back as clear `A` |
| HashEntries.StoredText | src/util/persistence/urlHashStorage.js:65-70 | the stored text of an item is non-empty and holds no `=` |
| HashEntries.RawEntriesStorable | src/util/persistence/urlHashStorage.js:61-73 | the stored texts of any hash can be written back into a hash |
| HashEntries.RawRoundTrip | src/util/persistence/urlHashStorage.js:61-73 | entries of stored text written into a hash read back as themselves |
| HashEntries.WrittenItems | src/util/persistence/urlHashStorage.js:137-146 | a hash written from entries splits at `&` into exactly the items written |
| HashEntries.SetRawEntries | src/util/persistence/urlHashStorage.js:186-188 | the corrected set rewrites the stored text of its key to the escaped encoded text and leaves every other key's stored text as it was |
| HashEntries.SetRawStorable | src/util/persistence/urlHashStorage.js:186-188 | the corrected set writes a hash of storable entries |
| HashEntries.SetRawThenRead | src/util/persistence/urlHashStorage.js:115-131 | after the corrected set, the key reads back as the value its encoded text decodes to and every other key as before |
| HashEntries.SetRawReads | src/util/persistence/urlHashStorage.js:162-189 | the corrected set keeps a readable hash readable when the new text decodes |
| HashEntries.SetRawKept | src/util/persistence/urlHashStorage.js:145 | the corrected set writes text the percent-encoding keeps as it is, when the current hash, the key and the escaped value hold nothing it encodes; the browser then keeps the text as it is when the current hash, or the key for an empty hash, does not start with `#` |
| HashEntries.SetRawLead | src/util/persistence/urlHashStorage.js:137-145 | the text a set writes starts with `#` only when the current hash does, or, into an empty hash, the key does |
| HashEntries.RawEntriesMirror | src/util/persistence/urlHashStorage.js:51-76 | the stored text of a key reads as the value the hash map gives that key, and keys absent from one are absent from the other |
| HashEntries.RawTextReads | src/util/persistence/urlHashStorage.js:51-76 | a hash written from entries whose stored texts all decode reads without error |
| HashEntries.ReadSingle | src/util/persistence/urlHashStorage.js:51-76 | a hash of one item reads as one entry |
| HashEntries.ReadSingleFails | src/util/persistence/urlHashStorage.js:61-73 | a hash of one item whose text fails to decode fails the whole read |
| HashEntries.PlainTextStored | src/util/persistence/urlHashStorage.js:65-70 | text without `@` that carries no encoder marker reads back as that string |
| HashEntries.TwoItemsRead | src/util/persistence/urlHashStorage.js:51-76 | a hash of two plain string items under distinct keys reads back with each key holding its string |
| HashEntries.SeparatorKeyMisreads | src/util/persistence/urlHashStorage.js:61-70 | the item `k1=k2=e`, which a set of key `k1=k2` writes, reads as key `k1` holding what `k2` decodes to, and key `k1=k2` is absent |
| HashEntries.UnknownReadsAsItself | src/util/persistence/urlHashStorage.js:67-70 | `'UNKNOWN'` written back reads as itself |
| HashStorage.DiffRecords | src/util/persistence/urlHashStorage.js:277-288 | after the `hashchange` listener's pass, every key of the new hash holds its new value and every other key keeps its recorded value: keys missing from the new hash are not removed |
| HashStorage.DiffCalls | src/util/persistence/urlHashStorage.js:277-288 | the listener calls each changed key's handlers with the value recorded before the event and the new value |
| HashStorage.NotifiedKey | src/util/persistence/urlHashStorage.js:278-285 | a key of the new hash notifies its handlers exactly when its value is not identical (`!==`) to the recorded one |
| HashStorage.Listen | src/util/persistence/urlHashStorage.js:277-289 | the listener's loop over the new hash's entries records and calls what the pass over those entries does |
| HashStorage.DiffMeaning | src/util/persistence/urlHashStorage.js:272-291 | what the listener's pass means for the distinct keys of a hash: the calls it makes and the entries it records |
| HashStorage.Read | src/util/persistence/urlHashStorage.js:51-76 | no entries outside a browser or for an empty hash, and otherwise entries under distinct keys |
| HashStorage.SetText | src/util/persistence/urlHashStorage.js:162-189 | `setUrlHashItem` over the corrected write `HashEntries.SetRaw`: a hash is written exactly when the parameters pass, the value encodes, the current hash reads and it runs in a browser; the text written is what the browser's hash setter keeps of the current hash with only the key's stored text replaced, and holds nothing the browser would encode again; a parameter failure is a parameter violation, and outside a browser the missing `window` throws |
| HashStorage.HashStorage.Load | src/util/persistence/urlHashStorage.js:43 | loading the module records the launch hash's entries, and throws exactly when one of them fails to decode |
| HashStorage.HashStorage.GetItem | src/util/persistence/urlHashStorage.js:115-132 | `getUrlHashItem(key)` gives the value the current hash holds for the key, `undefined` for none, after the key checks |
| HashStorage.HashStorage.IsItemDefined | src/util/persistence/urlHashStorage.js:88-103 | `isUrlHashItemDefined(key)` is whether that value is truthy; a bad key is a violation under the `isUrlHashItemDefined()` prefix |
| HashStorage.HashStorage.SetItem | src/util/persistence/urlHashStorage.js:162-189 | set writes the hash `SetText` gives, or fails leaving the hash as it was; for a key without `&` or `=`, a value the codec gives back whose encoding holds no `@`, a current hash, key and escaped encoding the browser keeps as they are, and a written text that does not start with `#` (the current hash's, or for an empty hash the key's, first character), the key then reads back as the value set and every other key as before |
| HashStorage.HashStorage.UpdateItem | src/util/persistence/urlHashStorage.js:208-232 | update checks its parameters, then sets and reports `true` only when `curUrlHash` (the entries recorded at load and overwritten by each `hashchange`) holds a truthy value for the key, and otherwise reports `false` and leaves the hash alone |
| HashStorage.HashStorage.Register | src/util/persistence/urlHashStorage.js:246-264 | registration appends the handler to the key's list after the key and handler checks, whose violations carry the `register<channel>HashItemChangeHandler()` prefix, and changes nothing else |
| HashStorage.UrlViolationPrefixes | src/util/persistence/urlHashStorage.js:91-249 | the violations of the URL hash's get, set, update, register and defined checks are prefixed by the exported function's own name |
| HashStorage.SiteViolationPrefixes | src/util/siteHashStorage.js:84-213 | the violations of the site hash's get, set, update and register checks are prefixed by the exported function's own name |
| HashStorage.HashStorage.OnHashChange | src/util/persistence/urlHashStorage.js:272-291 | the `hashchange` listener, only in a browser: the handler calls for the entries that changed, the recorded entries updated for the keys of the new hash, or the error reading the new hash throws |
| HashStorage.SetThenGet | src/util/persistence/urlHashStorage.js:115-132 | after a set that completes, the key reads back as the value set, and every other key as before, for every value a set accepts whose codec round-trips and whose encoding holds no `@` |
| HashStorage.SetThenGetAll | src/util/persistence/urlHashStorage.js:115-132 | the same, for every other key at once |
| HashStorage.LeadingHashKeyLost | src/util/siteHashStorage.js:103-111 | setting `v` under `#a` in an empty site hash leaves `a=v` in the browser, which gives `v` to `a` and nothing to `#a` |
| HashStorage.SiteObjectUnreadable | src/util/siteHashStorage.js:103-111 | setting `{a: 1}` under `k` in an empty site hash leaves `k=asonja{%22a%22:1}` in the browser, and every later read of the site hash fails |
| HashStorage.SiteUnquotedObjectFails | src/util/siteHashStorage.js:54-64 | a site hash item holding marked JSON text whose object does not open with a member name fails every read |
| Storage.StorageAvailable | src/util/persistence/localStorage.js:203-231 | the probe: no storage outside a browser for the newer twin; a probe that succeeds means available; one that throws means available only for a quota DOMException over a non-empty storage |
| Storage.Fetch | src/util/persistence/localStorage.js:48-59 | `undefined` when storage is the no-op stand-in, nothing is stored or the empty string is; a failure only when the stored text fails to decode |
| Storage.StoreThenFetch | src/util/persistence/localStorage.js:38-97 | set then get: a value a set accepts and the codec gives back reads back as itself, and every other key reads as before |
| Storage.RemoveThenFetch | src/util/persistence/localStorage.js:38-60 | remove then get: the removed key reads as `undefined` and every other key as before |
| Storage.UnavailableReadsUndefined | src/util/persistence/localStorage.js:241-249 | with the no-op stand-in, every key reads as `undefined`, whatever the browser holds |
| Storage.EmptyReadsUndefined | src/util/persistence/localStorage.js:48-53 | a stored empty string reads as `undefined`, like a missing entry |
| Storage.HandedOver | src/util/persistence/localStorage.js:176-178 | the newer twin's storage event decodes both values, the old one first, and fails when either fails; the older twin passes the raw strings, or `null` |
| Storage.EventAfterSet | src/util/persistence/localStorage.js:174-187 | after another window sets a value, the newer twin's handlers receive that value and the older twin's its encoding; a removed entry arrives as `null` in both |
| Storage.DeviceRegisterAsWritten | src/util/deviceStorage.js:131-148 | the older twin's registration checks the key and the presence of a handler, then throws a ReferenceError for the missing `isFunction` |
| Storage.DeviceRegistrationAlwaysFails | src/util/deviceStorage.js:19-21 | no registration of the older twin succeeds, not even one every check accepts, such as key `"k"` with a function |
| Storage.Storage.Load | src/util/persistence/localStorage.js:202-249 | loading decides availability by the probe; the older twin's unguarded listener makes loading outside a browser throw |
| Storage.Storage.GetItem | src/util/persistence/localStorage.js:38-60 | a get checks the key, reads `undefined` from the no-op stand-in, and gives a value other than `undefined` only for a non-empty stored string |
| Storage.Storage.SetItem | src/util/persistence/localStorage.js:72-97 | a set stores the encoding under the key when storage is available and changes nothing otherwise; a parameter or encoding failure leaves the store as it was; the key then reads back as the value set and every other key as before |
| Storage.Storage.RemoveItem | src/util/persistence/localStorage.js:105-116 | a remove deletes the key when storage is available, after which it reads as `undefined` |
| Storage.Storage.Register | src/util/persistence/localStorage.js:148-165 | registration appends the handler to the key's list after the key and handler checks, and leaves the store alone; for the older twin this is the corrected registration, since the source's always throws (`DeviceRegistrationAlwaysFails`) |
| Storage.Storage.OnStorage | src/util/persistence/localStorage.js:174-187 | a storage event calls the key's handlers in registration order with the values handed over, or fails with what decoding throws; the newer twin listens only in a browser |
| Checks.CheckKey | src/util/persistence/localStorage.js:44-45 | a key passes exactly when it is a truthy string, and gives its text; otherwise a parameter violation |
| Checks.CheckRef | src/util/persistence/localStorage.js:82-83 | a value to store passes exactly when it is a non-empty string, a String object or an object literal |
| Checks.CheckSafeguard | src/util/persistence/localStorage.js:72-86 | the safeguard passes exactly when it is a boolean or omitted, and an omitted one means `false` |
| Checks.CheckHandler | src/util/persistence/localStorage.js:157-158 | a handler passes exactly when it is a truthy function |
| Checks.CheckSet | src/util/persistence/localStorage.js:75-86 | a set's checks run in order, key then value then safeguard, and the first one that fails is reported |
| Checks.CheckRegister | src/util/persistence/localStorage.js:150-158 | a registration's checks run in order, key then handler |
| Checks.EncodedNonEmpty | src/util/persistence/localStorage.js:83-93 | every value a set accepts encodes to a non-empty text |
| Handlers.Calls | src/util/persistence/localStorage.js:182-185 | each registered handler is called once, in registration order, with the old and new values |
| Handlers.CallHandlers | src/util/persistence/localStorage.js:183-185 | the `forEach` loop over the handlers makes exactly those calls |
| Handlers.Registered | src/util/persistence/localStorage.js:161-164 | registration appends the handler to the key's list, priming an empty one, and leaves every other key's list alone |
| AppStateRetention.Recorded | src/util/persistence/appStateRetention.js:27 | `_keysInUse[key] = key`: the ledger keeps its order, a new key goes last, a known key keeps its place, and no key occurs twice |
| AppStateRetention.Value | src/util/persistence/appStateRetention.js:31 | a get gives the hash's value when it is truthy and the storage's otherwise, and fails with the hash read's error |
| AppStateRetention.Get | src/util/persistence/appStateRetention.js:19-33 | `getAppStateItem(key)` checks the key, then gives that value |
| AppStateRetention.CheckRegistration | src/util/persistence/appStateRetention.js:61-77 | a registration passes exactly when the key and handler checks pass and the opt-in flag is a boolean or omitted; an omitted flag is `false` |
| AppStateRetention.SharedText | src/util/persistence/appStateRetention.js:94 | the corrected shareable text of a value: it exists exactly for encodable values and is the value's encoding, escaped as a set of the hash escapes it |
| AppStateRetention.SharedEntry | src/util/persistence/appStateRetention.js:93-96 | a ledger key's entry in the shareable hash exists exactly when its get succeeds and its value is encodable |
| AppStateRetention.SharedEntries | src/util/persistence/appStateRetention.js:93-97 | one entry per ledger key, in ledger order |
| AppStateRetention.SharedEntriesFail | src/util/persistence/appStateRetention.js:93-97 | once a get or an encoding throws for a ledger key, building the whole URL throws that error |
| AppStateRetention.SharedHash | src/util/persistence/appStateRetention.js:92-97 | the reduce over the ledger gives the `key=text` items joined by `&`, or the first error thrown |
| AppStateRetention.SharedStep | src/util/persistence/appStateRetention.js:93-96 | one step of the reduce either extends the entries and the text by one item or ends with that key's error |
| AppStateRetention.SharedTextAsWritten | src/util/persistence/appStateRetention.js:94 | the text as written is the template literal: a string stays itself, an object without an own `toString` becomes `[object Object]`, an object whose own `toString` and `valueOf` leave it no primitive throws a TypeError, and any text it gives is the value's display string |
| Js.TemplateString | src/util/persistence/appStateRetention.js:94 | `${v}`: it throws only a TypeError, exactly for an object whose own `toString` is not callable and whose `valueOf` is not an own callable one (or through an array element), and otherwise gives the value's display string |
| Js.ElementsTemplateFails | src/util/persistence/appStateRetention.js:94 | converting an array throws exactly when converting one of its non-nullish elements throws |
| Js.ObjectTemplateFails | src/util/persistence/appStateRetention.js:94 | for an object holding no function, as every object read back from JSON, `${o}` throws exactly when it has an own `toString` |
| AppStateRetention.OwnToStringThrows | src/util/persistence/appStateRetention.js:93-95 | a plain JSON object with an own `toString`, such as `{toString: 1}`, round-trips through the codec, yet once a ledger key holds it the URL as written throws |
| AppStateRetention.OwnToStringExample | src/util/persistence/appStateRetention.js:94 | `{toString: 1}` round-trips through the codec and its template-literal conversion throws |
| AppStateRetention.SharedTextAsWrittenLosesObjects | src/util/persistence/appStateRetention.js:94 | as written, `{}` under a ledger key reads back from the URL's hash as the string `[object Object]`; the corrected text reads back as `{}` |
| AppStateRetention.SharedEntriesAsWritten | src/util/persistence/appStateRetention.js:91-97 | as written, the URL builds exactly when every ledger key's get succeeds and its value converts in the template literal, with one item per ledger key, in order, holding that text |
| AppStateRetention.SharedHashAsWrittenSplits | src/util/persistence/appStateRetention.js:94 | as written, a ledger key `k` holding the string `a&b=c` is written as `k=a&b=c`, which reads back as `k` holding `a` and an extra key `b` holding `c` |
| AppStateRetention.ObjectTextReadsAsString | src/util/persistence/appStateRetention.js:94 | `[object Object]` in a hash item reads back as that string |
| AppStateRetention.EmptyObjectShareable | src/util/persistence/appStateRetention.js:94 | `{}` encodes as `asonja{}` and has a corrected shareable text |
| AppStateRetention.SharedTextReadsBack | src/util/persistence/appStateRetention.js:94 | the corrected text of a shareable value is a non-empty hash item text that reads back as the value |
| AppStateRetention.SharedUrlReadsBack | src/util/persistence/appStateRetention.js:91-100 | when the corrected URL's hash text holds nothing the browser percent-encodes, the browser keeps it as it is, and reading it gives every ledger key the value its get gives, and no other key anything |
| AppStateRetention.Retained | src/util/persistence/appStateRetention.js:53-57 | retaining changes at most one channel: the hash when its snapshot holds a truthy value for the key, the storage otherwise (and only when it is available); a failure changes neither |
| AppStateRetention.RetainThenGet | src/util/persistence/appStateRetention.js:19-57 | set then get through both channels gives back the value written, when the snapshot agreed with the hash on the key, storage is available, the value survives escaping and the codec, and the hash text written keeps its first character (it does not start with `#`) |
| AppStateRetention.Retain | src/util/persistence/appStateRetention.js:54-57 | the update of the hash, then the set of the storage when the update reports `false`, leave exactly what `Retained` describes |
| AppStateRetention.AppState.GetItem | src/util/persistence/appStateRetention.js:19-33 | a get gives `Get` and records the key in the ledger once the key passes its check |
| AppStateRetention.AppState.SetItem | src/util/persistence/appStateRetention.js:36-58 | a set records the key once it passes, fails on a parameter violation with nothing retained, and otherwise retains as `Retained` says; the key then reads back as the value set |
| AppStateRetention.AppState.Register | src/util/persistence/appStateRetention.js:61-88 | a registration records the key, then registers with the hash when the current hash defines the key, else with local storage when the caller opts in, else nowhere |
| AppStateRetention.AppState.GetActiveUrlWithFullHash | src/util/persistence/appStateRetention.js:91-100 | the page's URL without its fragment, `#`, then the corrected `key=text` items of every ledger key joined by `&`, or the first error thrown |
| AppStateRetention.LegacyAppState.GetItem | src/util/appStateRetention.js:77-90 | the older `getAppStateItem`: a key failing its check gives that violation, a failing site-hash read fails, and otherwise the site hash's value when truthy and the device's otherwise |
| AppStateRetention.LegacyAppState.SetItem | src/util/appStateRetention.js:101-122 | the older twin retains in the site hash or the device storage, as `Retained` says, with no ledger; the key then reads back as the value set |
| AppStateRetention.LegacyAppState.Register | src/util/appStateRetention.js:139-168 | the older twin always registers with the site hash, whether or not the hash holds the key, and never with the device |
| ParamStructure.NamedFields | src/util/checkNamedParamStructure.js:111 | an entry point destructures named parameters only from a plain object, and from `{}` otherwise |
| ParamStructure.UnknownNames | src/util/checkNamedParamStructure.js:66 | the unknown names are exactly the given names that are not known ones, and there are no more of them than fields |
| ParamStructure.UnknownNamesAppend | src/util/checkNamedParamStructure.js:66 | the unknown names keep the order of the fields: one more field adds its name at the end exactly when it is not known |
| ParamStructure.CheckNamedParamStructure | src/util/checkNamedParamStructure.js:57-68 | the check passes exactly for a plain object, at most one argument and no unknown name; otherwise it reports the first failing check, in source order, with its message |
| ParamStructure.CallPasses | src/util/checkNamedParamStructure.js:57-68 | a call passes exactly when it supplies one plain object, or nothing, and every name in it is known |
| ParamStructure.NotNamedExample | src/util/checkNamedParamStructure.js:124 | a positional `123` fails with "only named parameters may be supplied" |
| ParamStructure.PositionalExample | src/util/checkNamedParamStructure.js:125 | a second positional argument fails with the positional-parameters message naming 2 |
| ParamStructure.RogueExample | src/util/checkNamedParamStructure.js:126 | two unknown names are reported together, in order: `rogue1,rogue2` |
| ParamStructure.ValidExamples | src/util/checkNamedParamStructure.js:128 | valid named parameters pass, and so does a call with no argument, which defaults to `{}` |
| Dampen.Runs | src/util/dampen.js:16-26 | the calls a throttled wrapper runs are some of its calls, in order, the first at least `delay` after the last run and each at least `delay` after the one before |
| Dampen.RunsAppend | src/util/dampen.js:19-24 | one more call runs exactly when it comes at least `delay` after the last run so far |
| Dampen.TrailingCallLost | src/util/dampen.js:15-26 | a dropped call is never run later: with delay 100, a call at 150 that follows a run at 100 is lost even when nothing follows it |
| Dampen.Throttled.Invoke | src/util/dampen.js:18-25 | a throttled call either runs `fn` with its arguments, returns its result and becomes the last run, or is dropped and returns `undefined`; the runs so far stay those `Runs` gives |
| Dampen.TimerDelay | src/util/dampen.js:46-49 | the delay `setTimeout` waits: `delay` converted to a 32-bit signed integer, with a negative result as 0; it equals `delay` for 0 to 2^31 - 1, lies in that range always, and is 0 for 2^31 (`Dampen.WrappedDelays`) |
| Dampen.WrappedDelays | src/util/dampen.js:46-49 | a delay of 2^31 wraps to a timer due at once, and 2^32 + 5 to one due after 5 |
| Dampen.Step | src/util/dampen.js:42-49 | a call sets a timer due `TimerDelay(delay)` after it with its arguments, replacing any pending one; a tick at or after the pending timer's due time runs it with its arguments and clears it; any other tick changes nothing |
| Dampen.Debounce | src/util/dampen.js:40-51 | the runs a sequence of events makes, never more than the calls plus the timer pending at the start |
| Dampen.DebounceCalm | src/util/dampen.js:40-51 | every run of a debounced wrapper fires at a tick, carries the arguments of the last call before that tick (or of the timer pending at the start, when no call came before it), comes at least `TimerDelay(delay)` after that call, and no call comes between that call and the tick |
| Dampen.DebounceAppend | src/util/dampen.js:42-49 | one more event steps from the pending timer the earlier events left |
| Dampen.LatestCallWins | src/util/dampen.js:43-49 | after a call, the pending run uses that call's arguments, however many calls came before |
| Dampen.Debounced.Invoke | src/util/dampen.js:42-50 | a debounced call clears any pending timer and sets one due `TimerDelay(delay)` later with its arguments, running nothing |
| Dampen.Debounced.Elapse | src/util/dampen.js:46-49 | when the clock reaches a due timer, the timer clears and `fn` runs with the pending arguments; otherwise nothing happens |
| Stores.Writable.Set | src/util/bindStoreValueMethods.js:29 | the original `set` replaces the store's value |
| Stores.Writable.Update | src/util/bindStoreValueMethods.js:36 | the original `update` replaces the value by the callback's result on it |
| Stores.Chars | src/util/bindStoreValueMethods.js:31 | spreading a string gives one field per character |
| Stores.Indexed | src/util/bindStoreValueMethods.js:31 | spread elements are named by their indexes, one field per element |
| Stores.PutAll | src/util/bindStoreValueMethods.js:31 | `{...fields, ...extra}` holds exactly the names of both |
| Stores.PutAllOther | src/util/bindStoreValueMethods.js:31 | a name that no method carries keeps the value's own field |
| Stores.PutAllHolds | src/util/bindStoreValueMethods.js:31 | after the merge every method is in the value under its name: methods override the value's own keys |
| Stores.PutAllHeld | src/util/bindStoreValueMethods.js:58 | merging methods that the value holds already leaves it as it is |
| Stores.WithMethodsIdempotent | src/util/bindStoreValueMethods.js:42-58 | re-merging the same methods changes nothing, so the identity update at decoration and every later `set` agree |
| Stores.WithMethodsLookup | src/util/bindStoreValueMethods.js:31 | a decorated `set(v)` keeps every method and every other own field of `v` |
| Stores.CheckBind | src/util/bindStoreValueMethods.js:19-25 | `bindStoreValueMethods` passes exactly for a truthy Svelte writable whose value is a plain object, with a plain object of methods, and reports the first failing check |
| Stores.CheckApply | src/util/applyStoreValueMethods.js:26-31 | `applyStoreValueMethods` passes exactly for a truthy Svelte writable and a plain object of methods, without checking the store's value |
| Stores.MethodStore.Set | src/util/bindStoreValueMethods.js:30-34 | the decorated `set(value)` stores `{...value, ...methods}`, which holds every method |
| Stores.MethodStore.Update | src/util/bindStoreValueMethods.js:37-49 | the decorated `update(callback)` stores the callback's result merged with the methods |
| Stores.Decorate | src/util/bindStoreValueMethods.js:28-62 | decoration replaces `set` and `update`, then its identity update makes the current value hold the methods; the same store comes back |
| Stores.BindStoreValueMethods | src/util/bindStoreValueMethods.js:13-63 | the checks decide; once they pass, the store is decorated and its value merged with the methods; otherwise nothing changes |
| Stores.ApplyStoreValueMethods | src/util/applyStoreValueMethods.js:20-68 | the same without the store-value check |
| Persistent.PersistedAllChecked | src/util/persistentStore.js:77-79 | persisting passes only when every key's entry passed the checks of a set |
| Persistent.PersistedAllStops | src/util/persistentStore.js:77-79 | a failure is final: the keys after the one that threw are not written |
| Persistent.PersistedOne | src/util/persistentStore.js:77-79 | a single key persists as one `setAppStateItem` of its encoding |
| Persistent.PersistedOneThenGet | src/util/persistentStore.js:73-80 | a single key that persisted reads back as the encoding written, when the hash was in sync for it (including a written text that does not start with `#`), the device available and the value retrievable |
| Persistent.CheckWritableParams | src/util/persistentWritable.js:16-45 | `persistentWritable` passes exactly when the structure check passes, the key is a truthy string, `initialFallback` is given, a truthy notifier is a function and both flags are booleans or omitted; a failure is a parameter violation with its prefix |
| Persistent.InitialValue | src/util/persistentWritable.js:50 | the store starts from the persisted value when it is truthy, and otherwise from the fallback, which is never `undefined` |
| Persistent.PersistentWritable.Set | src/util/persistentWritable.js:61-66 | `set(value)` gives the store the value, then retains it as `setAppStateItem` does, whether or not that passes |
| Persistent.PersistentWritable.Update | src/util/persistentWritable.js:68-80 | `update(callback)` retains the callback's value and gives it to the store only when the retention passed |
| Persistent.NewPersistentWritable | src/util/persistentWritable.js:13-97 | after the checks and the first read, a new store holding the persisted value or the fallback, with one change handler registered with the site hash for the key; a failing check or read changes nothing |
| Persistent.CheckStoreKey | src/util/persistentStore.js:32-35 | the key parameter passes exactly when it is a truthy string or an array of strings, and names the keys `[key]` or the array |
| Persistent.CheckCodec | src/util/persistentStore.js:46-57 | the codec passes exactly when both functions are functions, both or neither are supplied, and several keys come with a supplied pair |
| Persistent.CheckStoreParams | src/util/persistentStore.js:17-60 | `persistentStore` passes exactly when every check passes, in order; then its keys are strings, its safeguard a boolean, and several keys come with a supplied codec |
| Persistent.LoadedNext | src/util/persistentStore.js:63-68 | each key's read decodes a defined value into what the keys before it loaded, and a failed read fails the load |
| Persistent.LoadedNothing | src/util/persistentStore.js:63-68 | with nothing persisted under its keys, a store keeps the value it was created with |
| Persistent.LoadedDefault | src/util/persistentStore.js:131-133 | a single-key store with the default codec starts from the persisted value, when there is one |
| Persistent.LoadedKeys | src/util/persistentStore.js:63-68 | a load that passed read every key |
| Persistent.LoadedFails | src/util/persistentStore.js:63-68 | a read that fails at one key fails the whole load with that error |
| Persistent.PersistentStore.Persist | src/util/persistentStore.js:77-79 | every key persists its encoding in order, up to the first failure, as `PersistedAll` says; a single key then reads back as its encoding |
| Persistent.PersistentStore.PersistEach | src/util/persistentStore.js:77-79 | the loop over the keys leaves the channels as persisting the keys in order leaves them |
| Persistent.PersistentStore.PersistKey | src/util/persistentStore.js:78 | one key persists from where the keys before it left the channels |
| Persistent.PersistentStore.Set | src/util/persistentStore.js:73-80 | the replaced `set` gives the store the value, then persists it under every key |
| Persistent.PersistentStore.Update | src/util/persistentStore.js:83-97 | the replaced `update` persists the callback's value under every key and gives it to the store only when all passed |
| Persistent.PersistentStore.Sync | src/util/persistentStore.js:104-107 | a key's change handler sets the store to the decoded value, through the replaced `set`, so every key persists again |
| Persistent.NewPersistentStore | src/util/persistentStore.js:14-112 | after the checks, the initial load decodes each key's persisted value into the store, one change handler per key is registered, and the same store comes back with the codec chosen; a failing check or read stops there |
| Persistent.LoadInto | src/util/persistentStore.js:63-68 | the initial load through the store's own `set` ends with the value `Loaded` gives, or with the first failed read |
| Persistent.LoadKey | src/util/persistentStore.js:64-67 | one key's read, decoded into the store when it gave a value |
| Persistent.RegisterAll | src/util/persistentStore.js:103-108 | one change handler per key is appended to the site hash's handlers, in key order |
| Persistent.RegisterAccepted | src/util/persistentStore.js:104 | a truthy string key and a function pass a registration's checks |
| Persistent.RegisteredAllNext | src/util/persistentStore.js:103-108 | the next key's handler goes after those the keys before it registered |

## Left out

- Browser plumbing is replaced by fields and explicit methods: `window.location.hash` is a field, which every write sets to what the hash setter keeps of the assigned text (`Fragment.Assign`: one leading `#` dropped, tabs and newlines removed, the fragment percent-encoded); `addEventListener`, `console.warn` and `DOMException` objects are not modelled. The probe's outcome is a `Probe` input.
- `window.location.href` is an input of `GetActiveUrlWithFullHash`.
- Subscriptions are not modelled: `subscribe`, subscriber notification and `startSubscriptionNotifier`. The notifier is only type-checked.
- The internals of Svelte `writable` are replaced by the `Writable` cell.
- A decorator replaces `store.set` and `store.update` on the store object itself. The model returns a wrapper object over the same cell instead. Stacking several decorators on one store, and other holders of the old `set`, are not modelled.
- Floating-point numbers, `NaN` and `Infinity` are not modelled: numbers are integers. JavaScript's ordering of integer-like keys before other keys, in object spread and in `JSON.stringify`, is not modelled either: objects keep insertion order.
- Objects are assumed to have distinct field names wherever a lemma needs it (`DistinctNames`).
- Persistent.PersistentStore.Persist: read-back after persisting is stated for a single-key store only. For several keys, the ensures gives the retention record of every key but not the value each key then reads.
- `persistentStore` (src/util/persistentStore.js) and `persistentWritable` (src/util/persistentWritable.js:93) pass an opt-in flag to the older orchestrator's `registerAppStateChangeHandler`, which takes no such parameter. The model drops the flag, as the call does.
- `src/util/check.js` (`checkParam`, `verifyParam`) is not part of this model. Its effect is modelled as a parameter violation carrying the operation's message prefix.
- `src/util/noOp.js` is not part of this model.
- The commented-out sample at the end of `checkNamedParamStructure.js` (lines 96-131) also checks the sample's own `key` and `initial`. Only the structure check is modelled; the `ParamStructure` example lemmas state the outcomes of the first four sample calls.
- The offending value that a violation message appends after its text (`NOT: ` and the value) is not modelled; the prefix naming the operation and the message text are modelled as the source writes them.
- TypeCheck.IsSvelteStore: only an own `subscribe` is seen. The source's `ref.subscribe` also finds one inherited from a class prototype, and the value model has no prototypes.
- TypeCheck.IsSvelteWritable: only own `set` and `update` are seen, for the same reason.
- HashStorage.HashStorage.GetItem: a property inherited from `Object.prototype` is not modelled. In the source, `getUrlHashItem('constructor')` gives the `Object` function, which `getAppStateItem` then prefers as a truthy hash value, and an item named `__proto__` is not an own key. The model gives `undefined` for the first and an ordinary entry for the second.
- HashStorage.HashStorage.Load: it records the launch entries read with the corrected one-pass unescape. The source's sequential `replaceAll` reads some escaped texts differently (`HashBindings.UnescapeAsWrittenMisreads`).
- HashStorage.HashStorage.IsItemDefined: it gives the truthiness of the corrected read, for the same reason.
- HashStorage.HashStorage.OnHashChange: it reads the new hash with the corrected unescape, for the same reason.
- HashStorage.SetText: the write is the corrected `HashEntries.SetRaw`. The source re-encodes every decoded entry (`HashEntries.SetAsWritten`). It throws once another key holds an object, and it writes a safeguarded entry back in the clear.
- Fragment.KeptIsUnchanged: it is about the percent-encoding alone. A text it calls kept can still change when assigned: a leading `#` is dropped. The browser-level statement is `Fragment.AssignUnchanged`, which the read-back members use.
- HashStorage.HashStorage.SetItem: it is built on the corrected `SetText`. Its read-back needs a key without `&` or `=`, because the source writes keys unescaped: a key `a=b` with value `v` is written as `a=b=v`, which reads back as key `a` holding `b` (`HashEntries.SeparatorKeyMisreads`). Its read-back also needs a text the browser's hash setter leaves as it is, so a written text starting with `#` is excluded: a key `#a` set in an empty hash is stored as `a=v` and then reads as `undefined` (`HashStorage.LeadingHashKeyLost`).
- HashStorage.HashStorage.UpdateItem: it sets through the corrected `SetItem`.
- HashStorage.SetThenGet: it is proved of the corrected write and read, for keys without `&` or `=`. It is about the text before the browser's hash setter, which `SetThenGetAll` adds.
- HashStorage.SetThenGetAll: it is proved of the corrected write and read, for keys without `&` or `=`. It requires that the hash setter leave the written text as it is, so it says nothing of a written text that starts with `#` (`HashStorage.LeadingHashKeyLost`).
- Storage.Storage.Register: for the older device twin it appends the handler. The source always throws a `ReferenceError` there (`Storage.DeviceRegistrationAlwaysFails`).
- AppStateRetention.Recorded: the ledger keeps insertion order. `Object.keys` lists integer-like keys first, ascending, so ledger keys `b`, `2`, `1` are walked as `1`, `2`, `b`. The same order is not modelled for `Object.entries` in `retainUrlHash` (`HashEntries.Retain`) or in the `hashchange` pass (`HashStorage.Listen`). The key `__proto__` is recorded too, where the source's `_keysInUse['__proto__'] = '__proto__'` hits the `Object.prototype.__proto__` setter, is ignored, and never reaches `Object.keys`.
- ParamStructure.UnknownNames: the unknown names follow the order of the fields. `Object.keys(unknownNamedArgs)` lists integer-like names first, ascending, so the list in the violation message can differ from the model's order when a name such as `2` is supplied (`ParamStructure.UnknownNamesAppend` states the field order).
- AppStateRetention.SharedTextAsWritten: an own callable `toString` or `valueOf` is user code and is taken as the prototype's (`[object Object]`); values read back from JSON hold no functions, so no get gives one. A class instance converts as `[object Object]`, not through its class's `toString` (a `Date`, say); the codec refuses class instances, so no get gives one either.
- AppStateRetention.SharedEntry: it is the corrected entry, holding the encoded, escaped text of the value. The source interpolates the raw value and needs no encoding (`AppStateRetention.SharedEntriesAsWritten`).
- AppStateRetention.SharedEntries: it builds the corrected entries, for the same reason.
- AppStateRetention.SharedEntriesFail: it counts encoding failures, which only the corrected build meets.
- AppStateRetention.SharedHash: the reduce over the corrected item texts.
- AppStateRetention.SharedStep: a step of the corrected build.
- AppStateRetention.AppState.GetActiveUrlWithFullHash: it builds the corrected URL.
- AppStateRetention.Retained: it retains through the corrected hash set.
- AppStateRetention.Retain: it retains through the corrected hash set.
- AppStateRetention.RetainThenGet: it is proved through the corrected hash set and read. Its hash case requires that the written text not start with `#`, which the hash setter would drop (`HashStorage.LeadingHashKeyLost`); the same holds of `AppState.SetItem`'s and `LegacyAppState.SetItem`'s read-back through `InSync`.
- AppStateRetention.AppState.SetItem: it retains through the corrected hash set.
- AppStateRetention.LegacyAppState.SetItem: it retains through the corrected site-hash set.
- Persistent.PersistentWritable.Set: it persists through the corrected site-hash set.
- Persistent.PersistentWritable.Update: where the source's set throws because another key holds an object, the corrected set passes and the store takes the value.
- Persistent.PersistentStore.Set: it persists through the corrected site-hash set.
- Persistent.PersistentStore.Update: the store takes the value when the corrected retention passes.
- Persistent.PersistentStore.Sync: its outcome is the corrected retention's.
- Persistent.PersistedOneThenGet: it is proved through the corrected site-hash set and read. It requires through `HashSynced` that the written text not start with `#`, as do the read-backs of `Persistent.PersistentStore.Persist` and `Persistent.PersistentStore.Set` through `InSync`.
- Persistent.PersistentStore.Sync: a supplied `decodeAndSync(key, value, store)` is a procedure on the store; the model takes it to be one `store.set` of a value computed from the key, the new value and the current value, as `DEFAULT_decodeAndSync` is. A supplied one that calls `store.update` (which keeps the old value when persisting fails), sets several times, never sets (so nothing persists again) or throws is not modelled.
- Persistent.NewPersistentStore: its initial load takes a supplied `decodeAndSync` the same way, as one `set` of a computed value, so the store always takes the decoded value of each persisted key; the other behaviours of a supplied procedure listed under `Persistent.PersistentStore.Sync` are not modelled there either.
- Storage.Storage.OnStorage: the `storage` event of `localStorage.clear()`, whose `key` is `null`, is not modelled. In the source `_handlers[null]` looks up the property `"null"`, so that event calls the handlers registered under the key `"null"` with the decoded (newer twin) or raw (older twin) `null` values. A key naming an `Object.prototype` property is not modelled either: in the source `_handlers['constructor']` (or `toString`, `__proto__`, ...) is an inherited truthy non-array, so `handlers.forEach` throws a `TypeError` (src/util/persistence/localStorage.js:183-185); the model calls no handler.
- Handlers.Registered: a key naming an `Object.prototype` property (`constructor`, `toString`, `__proto__`, ...) is not modelled. In the source `_handlers[key]` is then an inherited truthy value, so the pump is not primed and `_handlers[key].push(handler)` throws a `TypeError` (src/util/persistence/urlHashStorage.js:260-263, src/util/persistence/localStorage.js:161-164, src/util/siteHashStorage.js:224-227). The model appends the handler like any other key's.
- HashStorage.HashStorage.Register: it appends the handler for a key naming an `Object.prototype` property, where the source throws a `TypeError` (see `Handlers.Registered`).
- Storage.Storage.Register: for the newer twin, it appends the handler for a key naming an `Object.prototype` property, where the source throws a `TypeError` (see `Handlers.Registered`).
- HashStorage.Listen: a key of the new hash naming an `Object.prototype` property is not modelled. In the source `curUrlHash[key]` is then the inherited value (the `Object` function for `constructor`), which differs from the new value, and `_handlers[key]` is an inherited truthy non-array, so `handlers.forEach` throws a `TypeError` before `curUrlHash[key]` is recorded, ending the pass (src/util/persistence/urlHashStorage.js:277-288, src/util/siteHashStorage.js:241-252). The model compares with `undefined`, calls the handlers the model registered under the key, and records the value. The same holds for `HashStorage.HashStorage.OnHashChange`, which runs this pass.
- HashStorage.HashStorage.IsItemDefined: a key naming an `Object.prototype` property is not modelled: `isUrlHashItemDefined('constructor')` is true in the source, because `hashMap['constructor']` is the inherited `Object` function (src/util/persistence/urlHashStorage.js:99-102); the model gives false.
- HashStorage.HashStorage.UpdateItem: a key naming an `Object.prototype` property is not modelled: `curUrlHash['constructor']` is the inherited `Object` function, so the source sets the hash and returns true (src/util/persistence/urlHashStorage.js:225-227); the model returns false and leaves the hash alone.
- AppStateRetention.AppState.Register: for a key naming an `Object.prototype` property, such as `constructor`, the source's defined-check is true (the inherited `Object` function) and the hash registration then throws a `TypeError` at `push`; the model takes the defined-check as false and registers with local storage when the caller opts in.
- AppStateRetention.LegacyAppState.Register: it always registers with the site hash, as the source does, but for a key naming an `Object.prototype` property the source's `push` throws a `TypeError` there (src/util/siteHashStorage.js:224-227); the model appends. `Persistent.RegisterAll` and `Persistent.NewPersistentWritable`, which register through the site hash, inherit the gap.
- Json.Parse: strings are sequences of Unicode scalar values, not JavaScript's UTF-16 code units. `JSON.parse` reads a surrogate-pair escape such as `"\ud83d\ude00"` as one character and accepts a lone surrogate escape; the model rejects every `\uD800`-`\uDFFF` escape, so a stored text holding one fails to decode here where it decodes in the source. Texts the model writes never hold such an escape.
- Stores.Chars: spreading a string gives one field per Unicode scalar value; JavaScript gives one per UTF-16 code unit, so `{...'😀'}` has the two fields `0` and `1` in the source and one here.
- Handlers.CallHandlers: handlers are calls returned as values and never throw. In the source a throwing handler aborts the `forEach` (src/util/persistence/localStorage.js:183-185, src/util/persistence/urlHashStorage.js:284). That skips the later handlers and, in the `hashchange` pass, the `curUrlHash` updates of that key and every later one (`HashStorage.Listen`, `Storage.Storage.OnStorage`).
- Storage.Storage.SetItem: available storage always takes the value. The `QuotaExceededError` that `localStorage.setItem` throws on a full store is not modelled.

## Findings

| source | as written | input that shows it | evidently intended | confidence | as-written member | corrected member |
|---|---|---|---|---|---|---|
| src/util/persistence/urlHashStorage.js:35 | Unescaping runs one `replaceAll` per escape text, in order. Text that was already unescaped can then form a new escape text. | The stored value `=A&`, escaped as `@E@A@A@`, reads back as `@E&A@`. The site hash's two-token escaping at src/util/siteHashStorage.js:31 has the same flaw. | Unescaping reverses escaping for every text without `@` that does not start with a marker. | not executed | HashBindings.UnescapeAsWrittenMisreads | HashBindings.UnescapeEscape |
| src/util/siteHashStorage.js:148-153 | `retainSiteHash` and `retainUrlHash` write back the decoded values of all other keys. An object value makes the escaping's `replaceAll` throw. A safeguarded value is written back in the clear. | Key `a` holds `{}` (stored as `asonja{}`), then another key is set: the call throws. Key `a` holds the safeguarded `A`, then another key is set: the hash then holds `a=A`. | Setting one key leaves every other key's stored text as it was. | not executed | HashEntries.SetAsWrittenDropsSafeguard | HashEntries.SetRawThenRead |
| src/util/deviceStorage.js:141 | Registration calls `isFunction`, but the file imports only other checks (lines 19-21). | Any registration, such as key `k` with a function handler, throws a `ReferenceError`. | A valid handler is appended to the key's list. | not executed | Storage.DeviceRegistrationAlwaysFails | Storage.Storage.Register |
| src/util/persistence/appStateRetention.js:94 | The shareable URL interpolates each value into a template string. An object is written as `[object Object]` (or throws, when an own `toString` leaves it no primitive: `AppStateRetention.OwnToStringThrows`), and no escaping is applied. | The ledger holds a key whose value is `{}`: the URL carries `[object Object]`, which reads back as that string. | Each ledger key's value is written as its encoded, escaped text, so it reads back as the same value. | not executed | AppStateRetention.SharedTextAsWrittenLosesObjects | AppStateRetention.SharedUrlReadsBack |
| src/util/persistence/appStateRetention.js:94 | The shareable URL interpolates each value without escaping `&` or `=`. | The ledger key `k` holds the string `a&b=c`: the URL's hash is `k=a&b=c`, which reads back as `k` holding `a` plus an extra key `b` holding `c`. | Each value is escaped, so it reads back under its own key alone. | not executed | AppStateRetention.SharedHashAsWrittenSplits | AppStateRetention.SharedUrlReadsBack |
| src/util/siteHashStorage.js:30 | The site hash escapes only `&` and `=`. The `"` of JSON text reaches `window.location.hash` (line 111), and the browser writes it as `%22`. Reading back at line 49 does not decode it. | Setting `{a: 1}` under `k` in an empty site hash leaves `k=asonja{%22a%22:1}`, and from then on every read of the site hash throws a SyntaxError. | The value reads back, as in the newer URL hash, which escapes `"`. | not executed | HashStorage.SiteObjectUnreadable | HashBindings.UrlEscapeKept |
