# Girder settings store and file-record rules, modelled in Dafny

This project models two pieces of the Girder data-management server.

**The settings store** (`girder/models/setting.py`) is a collection of
`{_id, key, value}` documents. It supports these operations:

- `get` reads a key. When no document holds the key, it falls back to the
  caller's default, then the static default table, then a registered
  default function, then `None`.
- `set` overwrites the first document with the key, or inserts a new one.
  In both cases it saves through `validate`.
- `validate` runs the validator registered for the key, or rejects the
  key on the field `key`.
- `unset` deletes every document with the key.
- `reconnect` repairs older databases. It drops the non-unique indices on
  `key` and deletes duplicate documents, keeping the lowest id of each key.
  Then it creates a unique index on `key`.
- The built-in validators normalise `doc['value']` in place. They cover
  CORS lists, enumerated policies, integers parsed with Python's `int()`,
  host strings, the enabled-plugin list and the collection-creation policy.

**The file rules** (`girder/models/file.py`) are these:

- `validate` checks a file record and fills in its `exts`.
- The size bookkeeping adds a size change to the item, its folder and its
  root. `propagateSizeChange`, the negative change in `remove`, and the
  created-file handler `_propagateSizeToItem` all do this.
- `createFile` can reuse an existing file.
- `updateSize` reads a file's size.

Modules:

- `Values` holds the document values, the errors and the outcome of a
  validator.
- `Seqs` holds an order-keeping filter.
- `Text` holds the parts of Python's string handling that the source
  uses.
- `Numbers` holds `int()` and `str()` on integers.
- `SettingValidators` holds each validator that changes or checks the value twice:
  - as a function on values that states what it computes;
  - as a method that rewrites a `SettingDoc` in place, proved equal to
    that function.
- `Settings` holds the document and index sequences, and the
  `SettingStore` class whose methods change them.
- `Files` holds the `FileDoc` that `validate` rewrites and the `FileStore`
  class, whose fields are the file records and a size table keyed by
  entity.
- `CorsExample` holds the worked allowed-methods example.

The following are parameters of the model, fixed when a store is built:

- the validator registry, mapping each key to a built-in validator or a
  plugin's function;
- the default-function registry;
- the static default table;
- plugin toposorting;
- the group and user existence tests;
- the item table of the file store.

## Model

| member | source | states |
|---|---|---|
| Settings.FindKey | girder/models/setting.py:109 | `findOne({'key': key})` finds the first document in storage order holding the key, or nothing exactly when no document holds it |
| Settings.SettingStore.Get | girder/models/setting.py:109-115 | the value of the first document with the key; with no such document, the explicit default when one is given, otherwise `GetDefault(key)`; under a unique key index, the value of any document with the key; reads only, so it creates nothing |
| Settings.SettingStore.GetDefault | girder/models/setting.py:158-165 | the static table's entry when the key is in it; otherwise the registered default function's result; otherwise `None` |
| Settings.SettingStore.Validation | girder/models/setting.py:91-96 | an unregistered key fails with `Invalid setting key "<key>".` on field `key` and the value untouched; a registered key gives exactly its validator's outcome |
| SettingValidators.Run | girder/models/setting.py:92-94 | a plugin's validator gives exactly its own outcome; the SMTP username and password accept any value unchanged; every validation error of a built-in validator other than the collection policy is on field `value` |
| Settings.SettingStore.Validate | girder/models/setting.py:84-98 | the document's new value and the error raised are the outcome `Validation` gives for its key and old value |
| Settings.Upsert | girder/models/setting.py:127-136 | when a document has the key, the first such document takes the value and keeps its id, and every other position is unchanged; when none has it, exactly one `{key, value}` document with the fresh id is appended |
| Settings.UpsertLookup | girder/models/setting.py:127-136 | after an upsert, the key reads back the saved value and every other key reads back what it did before |
| Settings.UpsertCount | girder/models/setting.py:127-136 | setting a present key keeps the length and the number of documents with that key; setting an absent key adds exactly one document, and the key then has exactly one; other keys' counts are unchanged |
| Settings.UpsertKeepsUnique | girder/models/setting.py:127-136 | an upsert with a fresh id keeps ids unique, and keeps keys unique when they were |
| Settings.SettingStore.Store | girder/models/setting.py:127-136 | the write of `save`: the collection becomes the upsert of the value with the next fresh id; the saved document is in the collection, keeps the id of the document it overwrote or takes the next id (which is then used up), `get` of the key returns the value whatever the default, no other key changes, and ids and the unique-key guarantee are kept |
| Settings.SettingStore.Set | girder/models/setting.py:127-136 | a failed validation returns its error and changes nothing; otherwise the collection is the upsert of the validated (normalised) value, the result is that document and is stored, its id is the overwritten document's or the next id (which is then used up), `get` of the key returns that value whatever the default, no other key changes and the indices stay |
| Settings.CountKeyAtMostOne | girder/models/setting.py:82 | with keys unique, at most one document holds any key |
| Settings.WithoutKey | girder/models/setting.py:146-147 | a document survives exactly when it was present and holds another key |
| Settings.DeleteKey | girder/models/setting.py:146-147 | the loop over the documents with the key leaves exactly `WithoutKey` |
| Settings.WithoutKeyFacts | girder/models/setting.py:146-147 | deleting a key leaves no document with it, keeps ids and keys unique, and changes nothing when the key was absent |
| Settings.LookupAppend | girder/models/setting.py:109 | appending a document changes a key's reading only when the key was absent and the new document holds it |
| Settings.WithoutKeyLookup | girder/models/setting.py:146-147 | after the deletion the key reads back nothing and every other key reads back what it did before |
| Settings.WithoutKeyAbsent | girder/models/setting.py:146-147 | after the deletion no document with the key remains to be read |
| Settings.SettingStore.Unset | girder/models/setting.py:146-147 | the collection becomes `WithoutKey`; a following `get(key, D)` returns `D`; other keys read back unchanged; no-op when the key is absent |
| Settings.KeyIndexNames | girder/models/setting.py:59-64 | a name is collected exactly when some index on `key` carries it |
| Settings.ScanKeyIndices | girder/models/setting.py:57-64 | the flag is set exactly when a unique index on `key` exists; when it is not, the names collected are every key index's |
| Settings.SettingStore.DropIndexes | girder/models/setting.py:65-67 | the indices left are the old ones, in order, whose names were not dropped |
| Settings.Deduplicated | girder/models/setting.py:68-81 | a document survives exactly when it was present and has the smallest id among the documents with its key |
| Settings.MinOfKeyExists | girder/models/setting.py:78-81 | every key present has a document with the lowest id |
| Settings.DedupKeysUnique | girder/models/setting.py:68-81 | after deleting the duplicates, each key has one document and ids remain unique |
| Settings.DedupKeepsKeys | girder/models/setting.py:78-81 | no key is lost: each key keeps its lowest-id document |
| Settings.DedupOfUniqueKeys | girder/models/setting.py:68-81 | a collection without duplicate keys is left as it is |
| Settings.SettingStore.RemoveDuplicates | girder/models/setting.py:74-81 | the deletion loop leaves exactly `Deduplicated` of the old collection |
| Settings.CreateKeyIndex | girder/models/setting.py:82 | afterwards a unique index on `key` exists; one already present is kept as is, otherwise the `key_1` unique index is appended |
| Settings.SettingStore.Reconnect | girder/models/setting.py:46-82 | afterwards a unique key index exists and keys are unique, with each key keeping its lowest-id document; an existing unique index means nothing changes; otherwise the non-unique key indices are dropped and `key_1` is the only key index; unreadable index information drops nothing |
| SettingValidators.PluginsEnabled | girder/models/setting.py:175-179 | a list is replaced by its toposorted closure; anything else fails with the plugins message and is kept |
| SettingValidators.ValidateCorePluginsEnabled | girder/models/setting.py:169-179 | the in-place validator's new value and error are `PluginsEnabled`'s |
| SettingValidators.LowerChoice | girder/models/setting.py:184-188 | a string is stored lower-cased, and is accepted exactly when its lower-case form is allowed; a non-string fails with the `lower` AttributeError and is kept |
| SettingValidators.ValidateCoreAddToGroupPolicy | girder/models/setting.py:183-188 | lower-cased, then one of `never`, `noadmin`, `nomod`, `yesadmin`, `yesmod` or the empty string |
| SettingValidators.ValidateCoreRegistrationPolicy | girder/models/setting.py:282-286 | lower-cased, then one of `open`, `closed`, `approve` |
| SettingValidators.ValidateCoreEmailVerification | girder/models/setting.py:290-294 | lower-cased, then one of `required`, `optional`, `disabled` |
| SettingValidators.ExactChoice | girder/models/setting.py:315-318 | the value is unchanged and accepted exactly when it is one of the allowed strings |
| SettingValidators.ValidateCoreSmtpEncryption | girder/models/setting.py:314-318 | accepted exactly for `none`, `starttls`, `ssl`, without case change |
| SettingValidators.ValidateCoreUserDefaultFolders | girder/models/setting.py:344-348 | accepted exactly for `public_private`, `none` |
| Numbers.IntOf | girder/models/setting.py:212 | `int(v)` returns an integer unchanged; it raises TypeError exactly on values that are not integers, booleans or strings; a string converts as `Numbers.ParseInt` reads it (an optional sign and decimal digits after stripping), else ValueError |
| Numbers.ParseDecimalString | girder/models/setting.py:212 | `int(str(n)) == n` for every integer `n` |
| Numbers.IntOfDecimal | girder/models/setting.py:212 | a setting given as the decimal text of `n` converts to `n` |
| SettingValidators.IntAtLeast | girder/models/setting.py:210-217 | accepted exactly when `int()` converts the value to a number at least the minimum; a converted value is stored as that integer even when it is then rejected; a TypeError from `int()` propagates; other failures carry the setting's message |
| SettingValidators.ValidateCoreCookieLifetime | girder/models/setting.py:209-217 | the stored value is `int(value)`, accepted exactly when it is > 0 |
| SettingValidators.ValidateCoreSmtpPort | girder/models/setting.py:303-311 | the stored value is `int(value)`, accepted exactly when it is > 0 |
| SettingValidators.ValidateCoreUploadMinimumChunkSize | girder/models/setting.py:333-341 | the stored value is `int(value)`, accepted exactly when it is >= 0 |
| SettingValidators.StringOnly | girder/models/setting.py:222-229 | a string is replaced by its normalised form and accepted; anything else fails with the setting's message and is kept |
| SettingValidators.CorsTokens | girder/models/setting.py:223 | every token is a non-empty run of non-whitespace without a comma |
| SettingValidators.CorsReadBack | girder/models/setting.py:226 | splitting a `", "`-joined list of such tokens gives the tokens back |
| SettingValidators.CorsMethods | girder/models/setting.py:223-226 | the stored allowed methods are their tokens joined with `", "`, and those tokens are the distinct upper-cased tokens of the input, in first-occurrence order |
| SettingValidators.CorsMethodsIdempotent | girder/models/setting.py:223-226 | normalising the stored allowed methods again changes nothing |
| CorsExample.CorsMethodsExample | girder/models/setting.py:223-226 | `"get, GET, post"` is stored as `"GET, POST"` |
| SettingValidators.ValidateCoreCorsAllowMethods | girder/models/setting.py:221-229 | the in-place validator's new value and error are those of `StringOnly` with the methods normalisation |
| SettingValidators.CorsHeaders | girder/models/setting.py:235-238 | the stored allowed headers are their tokens joined with `", "`, and those tokens are the distinct tokens of the input, in first-occurrence order |
| SettingValidators.CorsHeadersIdempotent | girder/models/setting.py:235-238 | normalising the stored allowed headers again changes nothing |
| SettingValidators.ValidateCoreCorsAllowHeaders | girder/models/setting.py:233-241 | the in-place validator's new value and error are those of `StringOnly` with the headers normalisation |
| SettingValidators.TrimSlashes | girder/models/setting.py:248 | each origin loses its trailing slashes and nothing else |
| SettingValidators.CorsOrigins | girder/models/setting.py:247-251 | when no token is made of slashes alone, the stored allowed origins are their tokens joined with `", "`, and those tokens are the distinct slash-trimmed tokens of the input, in first-occurrence order |
| SettingValidators.CorsOriginsIdempotent | girder/models/setting.py:247-251 | normalising the stored allowed origins again changes nothing |
| SettingValidators.ValidateCoreCorsAllowOrigin | girder/models/setting.py:245-255 | the in-place validator's new value and error are those of `StringOnly` with the origins normalisation |
| Text.Dedup | girder/models/setting.py:225 | `OrderedDict.fromkeys`: no repeats, and the same elements as the input |
| Text.DedupOrder | girder/models/setting.py:225 | the survivors appear in the order of their first occurrences |
| Text.DedupOfNoDup | girder/models/setting.py:225 | a list without repeats is left as it is |
| SettingValidators.Check | girder/models/setting.py:259-261 | the value is kept and accepted exactly when the test holds; otherwise the error is the setting's message on field `value` |
| SettingValidators.ValidateCoreEmailFromAddress | girder/models/setting.py:258-261 | accepted exactly when the value is truthy, and never changed |
| SettingValidators.ValidateCoreSmtpHost | girder/models/setting.py:297-300 | accepted exactly when the value is truthy, and never changed |
| SettingValidators.ValidateCoreEmailHost | girder/models/setting.py:264-269 | a string is stored whitespace-stripped; anything else fails |
| Text.StripIdempotent | girder/models/setting.py:267 | stripping a stripped host again changes nothing |
| Text.StripSlice | girder/models/setting.py:267 | `strip()` removes whitespace only, and only at the two ends: the result is a contiguous slice of the input |
| SettingValidators.AsObjectId | girder/models/setting.py:200 | a string id becomes the ObjectId it names |
| SettingValidators.FirstMissing | girder/models/setting.py:198-199 | every id before the position loads, and the id at it does not |
| SettingValidators.LoadedIds | girder/models/setting.py:198-204 | all ids load exactly when there is no error; then each id is converted in place; otherwise the error is `NotFound` for the first id that does not load |
| SettingValidators.LoadIds | girder/models/setting.py:198-204 | the load-then-convert loop computes exactly `LoadedIds` |
| SettingValidators.PolicyIds | girder/models/setting.py:198-204 | no error exactly when the field is absent or a list whose ids all load; other fields are untouched; on success the list holds the converted ids; a field that is not a list raises the TypeError; otherwise the error is `NotFound` of the first id that does not load |
| SettingValidators.CollectionCreatePolicy | girder/models/setting.py:193-206 | a non-object fails with no field; the policy is accepted exactly when all its groups and users load; then `groups` and `users` hold their ids converted to ObjectIds, `open` is present, defaulting to `False`, and other fields are untouched; a `groups` (then `users`) field that is not a list raises the TypeError, and one with an id that does not load raises `NotFound` of the first such id, with model `group` or `user` |
| SettingValidators.ValidateCoreCollectionCreatePolicy | girder/models/setting.py:192-206 | the in-place validator's new value and error are `CollectionCreatePolicy`'s |
| SettingValidators.RevalidateAccepted | girder/models/setting.py:91-96 | a value a built-in validator accepted is accepted again, unchanged, so re-saving a stored setting is stable |
| Files.FileCheck | girder/models/file.py:116-128 | no error exactly when there is an assetstore id, or the stripped link starts with `http:`/`https:`, and the name is non-empty; with neither assetstore nor link the error is the missing-source message on `linkUrl`; a link without `http:`/`https:` and no assetstore gives the scheme message on `linkUrl`; with a valid source, a missing or empty name gives the empty-name message on `name` |
| Files.Exts | girder/models/file.py:130 | every extension is lower-case and free of dots |
| Files.ExtsCount | girder/models/file.py:130 | there are as many extensions as dots in the name; a name without a dot has none |
| Files.ExtsAfterFirstDot | girder/models/file.py:130 | the extensions re-joined with dots are the lower-cased text after the first dot |
| Text.JoinSplitOn | girder/models/file.py:130 | re-joining `name.split('.')` with dots gives the name back |
| Files.Validate | girder/models/file.py:115-132 | the error is `FileCheck`'s; a link without an assetstore is stored stripped; on success `exts` becomes `Exts(name)` |
| Files.RevalidateFile | girder/models/file.py:121-126 | a file that passed validation passes again after its link was stripped, and stripping the link again changes nothing |
| Files.Increment | girder/models/file.py:191-203 | one entity's size grows by the amount; no other size changes |
| Files.IncrementsPropagate | girder/models/file.py:189-203 | the increments to the item (when asked), the folder and the root compose to one closed-form size table |
| Files.PropagateUndo | girder/models/file.py:189-203 | propagating `-a` after `a` restores every size |
| Files.FileStore.PropagateSizeChange | girder/models/file.py:173-203 | every size is the old one plus the change for the item (only when `updateItemSize`), for its folder and for its root; nothing else changes |
| Files.FileStore.PropagateSizeToItem | girder/models/file.py:261-265 | a file without an item or with a zero or missing size changes nothing; otherwise its size is propagated, item included; an item that does not load raises the `NoneType` TypeError |
| Files.FileStore.Remove | girder/models/file.py:64-75 | a file of an item with a size takes `-size` from the item's hierarchy; a file without a size or item changes no size; on success exactly the records with other ids remain |
| Files.FindFile | girder/models/file.py:226-229 | the match has the item and the name; no match exactly when no file has both |
| Files.NewFile | girder/models/file.py:233-241 | the new record is unsaved, has the item, name and size given, and passes validation exactly when its name is non-empty, failing otherwise on `name` |
| Files.FileStore.CreateFile | girder/models/file.py:225-245 | with `reuseExisting`, an existing file of the item with that name is returned and nothing changes; otherwise the new record is returned unsaved, or validated and appended with a fresh id and its `exts`, after which its size propagates to its item; the next id is used up exactly when a record is saved |
| Files.UpdateSize | girder/models/file.py:351 | returns `(size, 0)`, with the size defaulting to 0 |

## Left out

- Case mapping covers the ASCII letters only. Python's `lower()` and `upper()` map all of Unicode.
- `int()` on floats, on strings with underscores and on non-ASCII digits is not modelled. Numbers.ParseInt accepts an optional sign and ASCII digits after stripping.
- `defaultCoreEmailHost` reads the current HTTP request, so it is not modelled. A registered default function is a parameter.
- `constants.py` is not part of this model. The key strings (`SettingKey`) and the static default table (`SettingDefault.defaults`) are parameters of the store.
- `model_base.py` is not part of this model. `save` is modelled as validate, then replace by position or append with a fresh id. `findOne` is the first document in storage order, and `find` with `remove` is a filter.
- Plugin validators are modelled as functions of the value only. The source hands them the whole document.
- `Settings.SettingStore.Reconnect`: the aggregation's order of groups and the `delete_one` calls are flattened into one pass over the documents. `index_information` is reduced to each index's name, first key field and `unique` flag. So a unique compound index whose first field is `key`, such as `[('key', 1), ('x', 1)]`, is treated as a unique index on `key` alone: `Settings.SettingStore.Valid` then assumes that no two documents share a key, although such an index allows it and the source skips the repair. When `create_index` would conflict with an existing index of the same name, the error is not modelled.
- `Settings.SettingStore.Reconnect`: the base-class reconnect and the warning log lines are left out.
- Event binding and dispatch are not modelled. The created-file handler `_propagateSizeToItem` is modelled on its own and called by `Files.FileStore.CreateFile` after the insert.
- `SettingValidators.CollectionCreatePolicy`: `groups` or `users` that are not lists are modelled as a TypeError. The group and user loads are predicates, and an id that does not load raises `NotFound`.
- Assetstore adapters, downloads, the deletion of the stored bytes in `remove`, and timestamps are not modelled.
- Concurrency is not modelled, including the non-atomic read-then-save of `set`.
- `Files.Validate`: a `linkUrl` that is not a string, which raises AttributeError in the source, is outside the model because links are strings.
- `SettingValidators.CorsOriginsIdempotent`: proved only when no origin token consists of slashes alone. Such a token is stored as an empty entry, and the next normalisation drops it.
- `SettingValidators.CorsOrigins`: its read-back of the stored tokens is stated only when no origin token consists of slashes alone, for the same reason.
- `Files.FileRecord`: an absent field and a field present with the value None are both None. So the KeyError of `file['itemId']` on a record without the field, and the TypeError of `-file['size']` when the size is None, are not modelled: `Files.FileStore.Remove` treats both as "no item" or "no size". Likewise `Files.UpdateSize` reads a size of None as 0, where `file.get('size', 0)` returns None.
- `Files.FileStore`: the item, folder and root sizes are a map kept apart from the item table, and nothing ties the two. An increment of an entity absent from the map changes nothing, as an update that matches no document does.
- `SettingValidators.RevalidateAccepted`: stated for the built-in validators other than the plugin list and the collection policy. Those depend on the toposort and on the id loads.
