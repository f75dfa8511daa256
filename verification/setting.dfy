/**
 * The settings store: a collection of (id, key, value) documents with a
 * lookup order for reads (stored value, then the caller's default, then the
 * system default), validated writes, deletion by key, and the one-time
 * repair that makes keys unique.
 */
module Settings {
  import opened Values
  import opened Text
  import opened SettingValidators
  import opened Seqs

  /** A stored setting document. */
  datatype Setting = Setting(id: nat, key: string, value: Value)

  /** An index of the collection: its name, the first field of its key, and whether it is unique. */
  datatype Index = Index(name: string, field: string, unique: bool)

  /**
   * What plugins and the core register per key: the validator, and the
   * function computing a default value when the static table has none.
   */
  datatype Registry = Registry(validators: map<string, Validator>, defaultFns: map<string, () -> Value>)

  /** The index `create_index('key', unique=True)` makes. */
  const KeyIndex := Index("key_1", "key", true)

  // ---- sequences of documents --------------------------------------------------

  predicate IdsUnique(docs: seq<Setting>) {
    DistinctBy(docs, (d: Setting) => d.id)
  }

  predicate KeysUnique(docs: seq<Setting>) {
    DistinctBy(docs, (d: Setting) => d.key)
  }

  /** The position of the first document with the key: what findOne({'key': key}) returns. */
  function FindKey(docs: seq<Setting>, key: string): (r: Option<nat>)
    ensures r.Some? ==> r.value < |docs| && docs[r.value].key == key
    ensures r.Some? ==> forall j :: 0 <= j < r.value ==> docs[j].key != key
    ensures r.None? <==> forall d :: d in docs ==> d.key != key
  {
    if docs == [] then None
    else if docs[0].key == key then Some(0)
    else match FindKey(docs[1..], key)
      case None => None
      case Some(i) => Some(i + 1)
  }

  /** The first document with the key is the one at i. */
  lemma FindKeyAt(docs: seq<Setting>, key: string, i: nat)
    requires i < |docs| && docs[i].key == key
    requires forall j :: 0 <= j < i ==> docs[j].key != key
    ensures FindKey(docs, key) == Some(i)
  {
    assert docs[i] in docs;
  }

  /** The stored value for the key, if a document has it. */
  function Lookup(docs: seq<Setting>, key: string): Option<Value> {
    match FindKey(docs, key)
    case Some(i) => Some(docs[i].value)
    case None => None
  }

  /** The number of documents with the key. */
  function CountKey(docs: seq<Setting>, key: string): (n: nat)
    ensures n <= |docs|
    ensures n == 0 <==> forall d :: d in docs ==> d.key != key
  {
    if docs == [] then 0
    else (if docs[0].key == key then 1 else 0) + CountKey(docs[1..], key)
  }

  lemma {:induction false} CountKeyAppend(docs: seq<Setting>, d: Setting, key: string)
    ensures CountKey(docs + [d], key) == CountKey(docs, key) + (if d.key == key then 1 else 0)
  {
    if docs != [] {
      assert (docs + [d])[1..] == docs[1..] + [d];
      CountKeyAppend(docs[1..], d, key);
    }
  }

  /** Changing a document's value, but not its key, changes no count. */
  lemma {:induction false} CountKeyUpdate(docs: seq<Setting>, i: nat, d: Setting, key: string)
    requires i < |docs| && docs[i].key == d.key
    ensures CountKey(docs[i := d], key) == CountKey(docs, key)
  {
    if i > 0 {
      assert docs[i := d][1..] == docs[1..][i - 1 := d];
      CountKeyUpdate(docs[1..], i - 1, d, key);
    }
  }

  /** With unique keys, no key is on more than one document. */
  lemma {:induction false} CountKeyAtMostOne(docs: seq<Setting>, key: string)
    requires KeysUnique(docs)
    ensures CountKey(docs, key) <= 1
  {
    if docs != [] {
      CountKeyAtMostOne(docs[1..], key);
      if docs[0].key == key {
        forall d | d in docs[1..] ensures d.key != key {
          var m :| 0 <= m < |docs[1..]| && docs[1..][m] == d;
          assert docs[m + 1] == d;
        }
      }
    }
  }

  // ---- set: overwrite or insert ------------------------------------------------

  /**
   * The collection after saving `value` under `key`: the first document with
   * the key gets the new value and keeps its id; without one, a new document
   * with a fresh id is appended.
   */
  function Upsert(docs: seq<Setting>, key: string, value: Value, freshId: nat): (r: seq<Setting>)
    ensures |r| == |docs| || r == docs + [Setting(freshId, key, value)]
    ensures FindKey(docs, key).Some? ==>
      var i := FindKey(docs, key).value;
      && |r| == |docs|
      && r[i] == docs[i].(value := value)
      && forall j :: 0 <= j < |docs| && j != i ==> r[j] == docs[j]
    ensures FindKey(docs, key).None? ==> r == docs + [Setting(freshId, key, value)]
  {
    match FindKey(docs, key)
    case Some(i) => docs[i := Setting(docs[i].id, key, value)]
    case None => docs + [Setting(freshId, key, value)]
  }

  /** After an upsert, the key reads back the saved value and every other key reads as before. */
  lemma UpsertLookup(docs: seq<Setting>, key: string, value: Value, freshId: nat, other: string)
    ensures Lookup(Upsert(docs, key, value, freshId), key) == Some(value)
    ensures other != key ==> Lookup(Upsert(docs, key, value, freshId), other) == Lookup(docs, other)
  {
    var r := Upsert(docs, key, value, freshId);
    match FindKey(docs, key)
    case Some(i) =>
      FindKeyAt(r, key, i);
      if other != key {
        match FindKey(docs, other)
        case Some(j) => FindKeyAt(r, other, j);
        case None => assert forall d :: d in r ==> d.key != other;
      }
    case None =>
      FindKeyAt(r, key, |docs|);
      if other != key {
        match FindKey(docs, other)
        case Some(j) => FindKeyAt(r, other, j);
        case None => assert forall d :: d in r ==> d.key != other;
      }
  }

  /**
   * An upsert never adds a second document for a key: a present key keeps
   * its count and the collection its size; an absent key gets exactly one
   * new document. No other key's count changes.
   */
  lemma UpsertCount(docs: seq<Setting>, key: string, value: Value, freshId: nat, other: string)
    ensures CountKey(docs, key) > 0 ==> |Upsert(docs, key, value, freshId)| == |docs|
    ensures CountKey(docs, key) > 0 ==> CountKey(Upsert(docs, key, value, freshId), key) == CountKey(docs, key)
    ensures CountKey(docs, key) == 0 ==> |Upsert(docs, key, value, freshId)| == |docs| + 1
    ensures CountKey(docs, key) == 0 ==> CountKey(Upsert(docs, key, value, freshId), key) == 1
    ensures other != key ==> CountKey(Upsert(docs, key, value, freshId), other) == CountKey(docs, other)
  {
    match FindKey(docs, key)
    case Some(i) =>
      CountKeyUpdate(docs, i, Setting(docs[i].id, key, value), key);
      CountKeyUpdate(docs, i, Setting(docs[i].id, key, value), other);
    case None =>
      CountKeyAppend(docs, Setting(freshId, key, value), key);
      CountKeyAppend(docs, Setting(freshId, key, value), other);
  }

  /** Overwriting a document's value, keeping its id and key, keeps ids and keys distinct. */
  lemma OverwriteKeepsUnique(docs: seq<Setting>, i: nat, value: Value)
    requires i < |docs|
    ensures IdsUnique(docs) ==> IdsUnique(docs[i := docs[i].(value := value)])
    ensures KeysUnique(docs) ==> KeysUnique(docs[i := docs[i].(value := value)])
    ensures forall d :: d in docs[i := docs[i].(value := value)] ==> exists e :: e in docs && e.id == d.id
  {
    var r := docs[i := docs[i].(value := value)];
    assert forall j :: 0 <= j < |docs| ==> r[j].id == docs[j].id && r[j].key == docs[j].key;
    forall d | d in r ensures exists e :: e in docs && e.id == d.id {
      var m :| 0 <= m < |r| && r[m] == d;
      assert docs[m] in docs;
    }
  }

  /** Appending a document with an unused id, and a key no document has, keeps ids and keys distinct. */
  lemma AppendKeepsUnique(docs: seq<Setting>, d: Setting)
    requires forall e :: e in docs ==> e.id < d.id
    ensures IdsUnique(docs) ==> IdsUnique(docs + [d])
    ensures KeysUnique(docs) && (forall e :: e in docs ==> e.key != d.key) ==> KeysUnique(docs + [d])
  {
    var r := docs + [d];
    assert forall j :: 0 <= j < |docs| ==> r[j] == docs[j] && r[j] in docs;
  }

  /** An upsert with an unused id keeps ids distinct, and keeps keys distinct. */
  lemma UpsertKeepsUnique(docs: seq<Setting>, key: string, value: Value, freshId: nat)
    requires forall d :: d in docs ==> d.id < freshId
    ensures IdsUnique(docs) ==> IdsUnique(Upsert(docs, key, value, freshId))
    ensures KeysUnique(docs) ==> KeysUnique(Upsert(docs, key, value, freshId))
    ensures forall d :: d in Upsert(docs, key, value, freshId) ==> d.id <= freshId
  {
    match FindKey(docs, key)
    case Some(i) =>
      assert Upsert(docs, key, value, freshId) == docs[i := docs[i].(value := value)];
      OverwriteKeepsUnique(docs, i, value);
    case None =>
      AppendKeepsUnique(docs, Setting(freshId, key, value));
  }

  // ---- unset: delete by key ------------------------------------------------------

  /** The collection without the documents that have the key. */
  function WithoutKey(docs: seq<Setting>, key: string): (r: seq<Setting>)
    ensures forall d :: d in r <==> d in docs && d.key != key
  {
    Filter(docs, (d: Setting) => d.key != key)
  }

  /** Appending a document changes a key's reading only when the key was absent and the document has it. */
  lemma LookupAppend(docs: seq<Setting>, d: Setting, key: string)
    ensures Lookup(docs + [d], key)
         == if Lookup(docs, key).Some? then Lookup(docs, key) else if d.key == key then Some(d.value) else None
  {
    var all := docs + [d];
    match FindKey(docs, key)
    case Some(i) =>
      assert all[i] == docs[i];
      FindKeyAt(all, key, i);
    case None =>
      if d.key == key {
        FindKeyAt(all, key, |docs|);
      } else {
        assert forall x :: x in all ==> x.key != key;
      }
  }

  /** No document with the key survives its deletion. */
  lemma WithoutKeyAbsent(docs: seq<Setting>, key: string)
    ensures Lookup(WithoutKey(docs, key), key) == None
  {
    assert FindKey(WithoutKey(docs, key), key).None?;
  }

  /** After deleting a key, it reads as absent and every other key reads as before. */
  lemma {:induction false} WithoutKeyLookup(docs: seq<Setting>, key: string, other: string)
    ensures Lookup(WithoutKey(docs, key), key) == None
    ensures other != key ==> Lookup(WithoutKey(docs, key), other) == Lookup(docs, other)
  {
    WithoutKeyAbsent(docs, key);
    if docs != [] && other != key {
      var n := |docs| - 1;
      var front := docs[..n];
      WithoutKeyLookup(front, key, other);
      assert docs == front + [docs[n]];
      LookupAppend(front, docs[n], other);
      if docs[n].key != key {
        assert WithoutKey(docs, key) == WithoutKey(front, key) + [docs[n]];
        LookupAppend(WithoutKey(front, key), docs[n], other);
      } else {
        assert WithoutKey(docs, key) == WithoutKey(front, key);
      }
    }
  }

  /** The loop of unset: every document the query for the key finds is removed, the others stay in order. */
  method DeleteKey(docs: seq<Setting>, key: string) returns (kept: seq<Setting>)
    ensures kept == WithoutKey(docs, key)
  {
    kept := [];
    var i := 0;
    while i < |docs|
      invariant 0 <= i <= |docs|
      invariant kept == WithoutKey(docs[..i], key)
    {
      assert docs[..i + 1][..i] == docs[..i];
      if docs[i].key != key {
        kept := kept + [docs[i]];
      }
      i := i + 1;
    }
    assert docs[..i] == docs;
  }

  /**
   * Deleting a key keeps ids and keys distinct, leaves no document with the
   * key, and changes nothing when no document had it.
   */
  lemma WithoutKeyFacts(docs: seq<Setting>, key: string)
    ensures IdsUnique(docs) ==> IdsUnique(WithoutKey(docs, key))
    ensures KeysUnique(docs) ==> KeysUnique(WithoutKey(docs, key))
    ensures CountKey(WithoutKey(docs, key), key) == 0
    ensures CountKey(docs, key) == 0 ==> WithoutKey(docs, key) == docs
  {
    if IdsUnique(docs) {
      FilterKeepsDistinct(docs, (d: Setting) => d.key != key, (d: Setting) => d.id);
    }
    if KeysUnique(docs) {
      FilterKeepsDistinct(docs, (d: Setting) => d.key != key, (d: Setting) => d.key);
    }
    if CountKey(docs, key) == 0 {
      FilterAll(docs, (d: Setting) => d.key != key);
    }
  }

  // ---- reconnect: duplicate removal and the unique key index --------------------

  /** Whether d has the smallest id among the documents with its key. */
  predicate IsMinOfKey(docs: seq<Setting>, d: Setting) {
    forall e :: e in docs && e.key == d.key ==> d.id <= e.id
  }

  /** The collection after the duplicate removal: of each key, only the document with the lowest id. */
  function Deduplicated(docs: seq<Setting>): (r: seq<Setting>)
    ensures forall d :: d in r <==> d in docs && IsMinOfKey(docs, d)
  {
    Filter(docs, (d: Setting) => IsMinOfKey(docs, d))
  }

  /** Every key has a document with the lowest id among those with it. */
  lemma {:induction false} MinOfKeyExists(docs: seq<Setting>, d: Setting)
    requires d in docs
    ensures exists m :: m in docs && m.key == d.key && IsMinOfKey(docs, m)
  {
    if docs[0] == d {
      if |docs| > 1 && exists e :: e in docs[1..] && e.key == d.key && e.id < d.id {
        var e :| e in docs[1..] && e.key == d.key && e.id < d.id;
        MinOfKeyExists(docs[1..], e);
        var m :| m in docs[1..] && m.key == d.key && IsMinOfKey(docs[1..], m);
        assert IsMinOfKey(docs, m);
      } else {
        assert IsMinOfKey(docs, d);
      }
    } else {
      assert d in docs[1..];
      MinOfKeyExists(docs[1..], d);
      var m :| m in docs[1..] && m.key == d.key && IsMinOfKey(docs[1..], m);
      if docs[0].key == d.key && docs[0].id < m.id {
        assert IsMinOfKey(docs, docs[0]);
      } else {
        assert IsMinOfKey(docs, m);
      }
    }
  }

  /** The repair leaves no two documents with the same key, and keeps ids distinct. */
  lemma DedupKeysUnique(docs: seq<Setting>)
    requires IdsUnique(docs)
    ensures KeysUnique(Deduplicated(docs))
    ensures IdsUnique(Deduplicated(docs))
  {
    var r := Deduplicated(docs);
    FilterKeepsDistinct(docs, (d: Setting) => IsMinOfKey(docs, d), (d: Setting) => d.id);
    forall i, j | 0 <= i < j < |r| ensures r[i].key != r[j].key {
      assert r[i] in r && r[j] in r;
    }
  }

  /** Every key that had a document still has one after the repair: the one with the lowest id. */
  lemma DedupKeepsKeys(docs: seq<Setting>, d: Setting)
    requires IdsUnique(docs)
    requires d in docs
    ensures exists m :: m in Deduplicated(docs) && m.key == d.key && IsMinOfKey(docs, m)
  {
    MinOfKeyExists(docs, d);
    var m :| m in docs && m.key == d.key && IsMinOfKey(docs, m);
    assert m in Deduplicated(docs);
  }

  /** The ids deleted by the first k steps of the repair's loop: those of the non-minimal documents before k. */
  ghost predicate DeletedBefore(docs: seq<Setting>, deleted: set<nat>, k: nat) {
    forall m :: 0 <= m < |docs| ==> (docs[m].id in deleted <==> m < k && !IsMinOfKey(docs, docs[m]))
  }

  /** One step of the repair's loop deletes the id of the k-th document exactly when it is not minimal. */
  lemma DeletedStep(docs: seq<Setting>, deleted: set<nat>, k: nat)
    requires IdsUnique(docs) && k < |docs|
    requires DeletedBefore(docs, deleted, k)
    ensures DeletedBefore(docs, if IsMinOfKey(docs, docs[k]) then deleted else deleted + {docs[k].id}, k + 1)
  {
    assert forall m :: 0 <= m < |docs| && m != k ==> docs[m].id != docs[k].id;
  }

  /** With unique keys already, the repair deletes nothing. */
  lemma DedupOfUniqueKeys(docs: seq<Setting>)
    requires KeysUnique(docs)
    ensures Deduplicated(docs) == docs
  {
    forall d | d in docs ensures IsMinOfKey(docs, d) {
      forall e | e in docs && e.key == d.key ensures d.id <= e.id {
        var i :| 0 <= i < |docs| && docs[i] == d;
        var j :| 0 <= j < |docs| && docs[j] == e;
        assert i == j;
      }
    }
    FilterAll(docs, (d: Setting) => IsMinOfKey(docs, d));
  }

  predicate HasUniqueKeyIndex(ixs: seq<Index>) {
    exists ix :: ix in ixs && ix.field == "key" && ix.unique
  }

  /** The names of the indices on `key`, in order. */
  function KeyIndexNames(ixs: seq<Index>): (names: seq<string>)
    ensures forall n :: n in names <==> exists ix :: ix in ixs && ix.field == "key" && ix.name == n
  {
    if ixs == [] then []
    else
      var n := |ixs| - 1;
      assert ixs == ixs[..n] + [ixs[n]];
      KeyIndexNames(ixs[..n]) + (if ixs[n].field == "key" then [ixs[n].name] else [])
  }

  /** create_index('key', unique=True): nothing when a unique index on key exists, else the new index. */
  function CreateKeyIndex(ixs: seq<Index>): (r: seq<Index>)
    ensures HasUniqueKeyIndex(r)
    ensures HasUniqueKeyIndex(ixs) ==> r == ixs
    ensures !HasUniqueKeyIndex(ixs) ==> r == ixs + [KeyIndex]
  {
    if HasUniqueKeyIndex(ixs) then ixs
    else
      assert KeyIndex in ixs + [KeyIndex];
      ixs + [KeyIndex]
  }

  /**
   * The first loop of the repair: whether a unique index on key exists and,
   * when none does, the names of the non-unique ones to drop.
   */
  method ScanKeyIndices(ixs: seq<Index>) returns (hasUnique: bool, present: seq<string>)
    ensures hasUnique <==> HasUniqueKeyIndex(ixs)
    ensures !hasUnique ==> present == KeyIndexNames(ixs)
  {
    hasUnique := false;
    present := [];
    var i := 0;
    while i < |ixs|
      invariant 0 <= i <= |ixs|
      invariant !hasUnique && !HasUniqueKeyIndex(ixs[..i])
      invariant present == KeyIndexNames(ixs[..i])
    {
      assert ixs[..i + 1] == ixs[..i] + [ixs[i]];
      if ixs[i].field == "key" {
        if ixs[i].unique {
          hasUnique := true;
          assert ixs[i] in ixs;
          break;
        }
        present := present + [ixs[i].name];
      }
      i := i + 1;
    }
    if !hasUnique {
      assert ixs[..i] == ixs;
    }
  }

  // ---- the store ---------------------------------------------------------------

  /** The settings collection, with what the process registered for it. */
  class SettingStore {
    var docs: seq<Setting>
    var indices: seq<Index>
    var nextId: nat
    const registry: Registry
    const staticDefaults: map<string, Value>
    const env: Collaborators

    /**
     * Ids are distinct and below the next id to hand out; when a unique
     * index whose first field is key exists, no two documents share a key.
     */
    ghost predicate Valid()
      reads this
    {
      && IdsUnique(docs)
      && (forall d :: d in docs ==> d.id < nextId)
      && (HasUniqueKeyIndex(indices) ==> KeysUnique(docs))
    }

    /** An existing collection, as an older install may have left it. */
    constructor (docs: seq<Setting>, indices: seq<Index>, nextId: nat,
                 registry: Registry, staticDefaults: map<string, Value>, env: Collaborators)
      requires IdsUnique(docs) && forall d :: d in docs ==> d.id < nextId
      requires HasUniqueKeyIndex(indices) ==> KeysUnique(docs)
      ensures Valid()
      ensures this.docs == docs && this.indices == indices && this.nextId == nextId
      ensures this.registry == registry && this.staticDefaults == staticDefaults && this.env == env
    {
      this.docs := docs;
      this.indices := indices;
      this.nextId := nextId;
      this.registry := registry;
      this.staticDefaults := staticDefaults;
      this.env := env;
    }

    /** The system default for a key: the static table, else the registered default function, else None. */
    function GetDefault(key: string): (r: Value)
      ensures key in staticDefaults ==> r == staticDefaults[key]
      ensures key !in staticDefaults && key in registry.defaultFns ==> r == registry.defaultFns[key]()
      ensures key !in staticDefaults && key !in registry.defaultFns ==> r == Null
    {
      if key in staticDefaults then staticDefaults[key]
      else if key in registry.defaultFns then registry.defaultFns[key]()
      else Null
    }

    /**
     * get(key, default): the value of the first document with the key; with
     * none, the caller's default when one was passed, else the system default.
     */
    function Get(key: string, default: Option<Value>): (r: Value)
      reads this
      ensures forall i :: 0 <= i < |docs| && docs[i].key == key && (forall j :: 0 <= j < i ==> docs[j].key != key) ==> r == docs[i].value
      ensures (forall d :: d in docs ==> d.key != key) && default.Some? ==> r == default.value
      ensures (forall d :: d in docs ==> d.key != key) && default.None? ==> r == GetDefault(key)
      ensures Valid() && HasUniqueKeyIndex(indices) ==> forall d :: d in docs && d.key == key ==> r == d.value
    {
      match FindKey(docs, key)
      case Some(i) =>
        assert Valid() && HasUniqueKeyIndex(indices) ==> forall d :: d in docs && d.key == key ==> d == docs[i] by {
          if Valid() && HasUniqueKeyIndex(indices) {
            forall d | d in docs && d.key == key ensures d == docs[i] {
              var m :| 0 <= m < |docs| && docs[m] == d;
              assert !(m < i) && !(i < m);
            }
          }
        }
        forall i' | 0 <= i' < |docs| && docs[i'].key == key && (forall j :: 0 <= j < i' ==> docs[j].key != key)
          ensures i' == i
        {
          FindKeyAt(docs, key, i');
        }
        docs[i].value
      case None =>
        if default.Some? then default.value else GetDefault(key)
    }

    /** What validate does with a value saved under the key: the key's validator, or the invalid-key error. */
    function Validation(key: string, v: Value): (o: Outcome)
      ensures key !in registry.validators ==> o == Outcome(v, Some(ValidationError("Invalid setting key \"" + key + "\".", Some("key"))))
      ensures key in registry.validators ==> o == Run(registry.validators[key], v, env)
    {
      if key in registry.validators then Run(registry.validators[key], v, env)
      else Outcome(v, Some(ValidationError("Invalid setting key \"" + key + "\".", Some("key"))))
    }

    /** validate(doc): run the key's validator on the document in place. */
    method Validate(doc: SettingDoc) returns (err: Option<Error>)
      modifies doc`value
      ensures Outcome(doc.value, err) == Validation(doc.key, old(doc.value))
    {
      if doc.key !in registry.validators {
        return Some(ValidationError("Invalid setting key \"" + doc.key + "\".", Some("key")));
      }
      match registry.validators[doc.key]
      case CorePluginsEnabled => err := ValidateCorePluginsEnabled(doc, env);
      case CoreAddToGroupPolicy => err := ValidateCoreAddToGroupPolicy(doc);
      case CoreCollectionCreatePolicy => err := ValidateCoreCollectionCreatePolicy(doc, env);
      case CoreCookieLifetime => err := ValidateCoreCookieLifetime(doc);
      case CoreCorsAllowMethods => err := ValidateCoreCorsAllowMethods(doc);
      case CoreCorsAllowHeaders => err := ValidateCoreCorsAllowHeaders(doc);
      case CoreCorsAllowOrigin => err := ValidateCoreCorsAllowOrigin(doc);
      case CoreEmailFromAddress => err := ValidateCoreEmailFromAddress(doc);
      case CoreEmailHost => err := ValidateCoreEmailHost(doc);
      case CoreRegistrationPolicy => err := ValidateCoreRegistrationPolicy(doc);
      case CoreEmailVerification => err := ValidateCoreEmailVerification(doc);
      case CoreSmtpHost => err := ValidateCoreSmtpHost(doc);
      case CoreSmtpPort => err := ValidateCoreSmtpPort(doc);
      case CoreSmtpEncryption => err := ValidateCoreSmtpEncryption(doc);
      case CoreSmtpUsername => err := None;
      case CoreSmtpPassword => err := None;
      case CoreUploadMinimumChunkSize => err := ValidateCoreUploadMinimumChunkSize(doc);
      case CoreUserDefaultFolders => err := ValidateCoreUserDefaultFolders(doc);
      case Plugin(run) =>
        var o := run(doc.value);
        doc.value := o.value;
        err := o.error;
    }

    /**
     * set(key, value): overwrite the value of the document with the key, or
     * create one, and save it through validate. A rejected value saves nothing.
     */
    method Set(key: string, value: Value) returns (r: Result<Setting>)
      requires Valid()
      modifies this`docs, this`nextId
      ensures Valid()
      ensures Validation(key, value).error.Some? ==> r == Failure(Validation(key, value).error.value)
      ensures Validation(key, value).error.Some? ==> docs == old(docs) && nextId == old(nextId)
      ensures Validation(key, value).error.None? ==> r.Success? && r.value.key == key && r.value.value == Validation(key, value).value
      ensures Validation(key, value).error.None? ==> docs == Upsert(old(docs), key, Validation(key, value).value, old(nextId))
      ensures Lookup(docs, key) == if r.Success? then Some(r.value.value) else Lookup(old(docs), key)
      ensures forall k :: k != key ==> Lookup(docs, k) == Lookup(old(docs), k)
      ensures indices == old(indices)
      ensures r.Success? ==> r.value in docs && forall default :: Get(key, default) == r.value.value
      ensures r.Success? ==> r.value.id == match FindKey(old(docs), key)
                                           case Some(i) => old(docs)[i].id
                                           case None => old(nextId)
      ensures r.Success? ==> nextId == if FindKey(old(docs), key).Some? then old(nextId) else old(nextId) + 1
    {
      var found := FindKey(docs, key);
      var doc: SettingDoc;
      if found.None? {
        doc := new SettingDoc(None, key, value);
      } else {
        doc := new SettingDoc(Some(docs[found.value].id), key, docs[found.value].value);
        doc.value := value;
      }
      var err := Validate(doc);
      if err.Some? {
        return Failure(err.value);
      }
      var saved := Store(key, doc.value);
      return Success(saved);
    }

    /** The write of save: the first document with the key takes the value, or a new document is appended. */
    method Store(key: string, v: Value) returns (saved: Setting)
      requires Valid()
      modifies this`docs, this`nextId
      ensures Valid()
      ensures docs == Upsert(old(docs), key, v, old(nextId))
      ensures saved.key == key && saved.value == v
      ensures Lookup(docs, key) == Some(v)
      ensures forall k :: k != key ==> Lookup(docs, k) == Lookup(old(docs), k)
      ensures saved in docs && forall default :: Get(key, default) == v
      ensures saved.id == match FindKey(old(docs), key)
                          case Some(i) => old(docs)[i].id
                          case None => old(nextId)
      ensures nextId == if FindKey(old(docs), key).Some? then old(nextId) else old(nextId) + 1
    {
      forall k ensures Lookup(Upsert(docs, key, v, nextId), k) == if k == key then Some(v) else Lookup(docs, k) {
        UpsertLookup(docs, key, v, nextId, k);
      }
      UpsertKeepsUnique(docs, key, v, nextId);
      var found := FindKey(docs, key);
      if found.Some? {
        saved := Setting(docs[found.value].id, key, v);
        OverwriteKeepsUnique(docs, found.value, v);
        docs := docs[found.value := saved];
      } else {
        saved := Setting(nextId, key, v);
        docs := docs + [saved];
        nextId := nextId + 1;
      }
    }

    /** unset(key): delete every document with the key; other documents stay as they were. */
    method Unset(key: string)
      requires Valid()
      modifies this`docs
      ensures Valid()
      ensures docs == WithoutKey(old(docs), key)
      ensures forall dflt :: Get(key, Some(dflt)) == dflt
      ensures forall k :: k != key ==> Lookup(docs, k) == Lookup(old(docs), k)
      ensures CountKey(old(docs), key) == 0 ==> docs == old(docs)
    {
      var kept := DeleteKey(docs, key);
      WithoutKeyFacts(docs, key);
      forall k | k != key ensures Lookup(kept, k) == Lookup(docs, k) {
        WithoutKeyLookup(docs, key, k);
      }
      docs := kept;
    }

    /** The drop loop of the repair: drop_index for each name. */
    method DropIndexes(names: seq<string>)
      modifies this`indices
      ensures indices == Filter(old(indices), (ix: Index) => ix.name !in names)
    {
      ghost var orig := indices;
      FilterAll(orig, (ix: Index) => ix.name !in names[..0]);
      var j := 0;
      while j < |names|
        invariant 0 <= j <= |names|
        invariant indices == Filter(orig, (ix: Index) => ix.name !in names[..j])
      {
        FilterFilter(orig, (ix: Index) => ix.name !in names[..j], (ix: Index) => ix.name != names[j],
                     (ix: Index) => ix.name !in names[..j + 1]);
        indices := Filter(indices, (ix: Index) => ix.name != names[j]);
        j := j + 1;
      }
      assert names[..j] == names;
    }

    /** The delete loop of the repair: delete_one for every id but the lowest of each key. */
    method RemoveDuplicates()
      requires IdsUnique(docs)
      modifies this`docs
      ensures docs == Deduplicated(old(docs))
    {
      var orig := docs;
      ghost var deleted: set<nat> := {};
      FilterAll(orig, (d: Setting) => d.id !in deleted);
      var k := 0;
      while k < |orig|
        invariant 0 <= k <= |orig|
        invariant DeletedBefore(orig, deleted, k)
        invariant docs == Filter(orig, (d: Setting) => d.id !in deleted)
      {
        DeletedStep(orig, deleted, k);
        if !IsMinOfKey(orig, orig[k]) {
          var id := orig[k].id;
          FilterFilter(orig, (d: Setting) => d.id !in deleted, (d: Setting) => d.id != id,
                       (d: Setting) => d.id !in deleted + {id});
          docs := Filter(docs, (d: Setting) => d.id != id);
          deleted := deleted + {id};
        }
        k := k + 1;
      }
      FilterSame(orig, (d: Setting) => d.id !in deleted, (d: Setting) => IsMinOfKey(orig, d));
    }

    /**
     * reconnect: unless a unique index on key exists, drop the non-unique
     * indices on key, delete every document but the lowest-id one of each
     * key, and create the unique index. When the index information cannot be
     * read, the repair runs as if there were no index.
     */
    method Reconnect(indexInfoReadable: bool)
      requires Valid()
      modifies this`docs, this`indices
      ensures Valid()
      ensures HasUniqueKeyIndex(indices) && KeysUnique(docs)
      ensures docs == Deduplicated(old(docs))
      ensures indexInfoReadable && HasUniqueKeyIndex(old(indices)) ==> docs == old(docs) && indices == old(indices)
      ensures indexInfoReadable && !HasUniqueKeyIndex(old(indices)) ==>
        indices == Filter(old(indices), (ix: Index) => ix.name !in KeyIndexNames(old(indices))) + [KeyIndex]
      ensures indexInfoReadable && !HasUniqueKeyIndex(old(indices)) ==>
        forall ix :: ix in indices && ix.field == "key" ==> ix == KeyIndex
      ensures !indexInfoReadable ==> indices == CreateKeyIndex(old(indices))
    {
      var info := if indexInfoReadable then indices else [];
      var hasUnique, present := ScanKeyIndices(info);
      if hasUnique {
        DedupOfUniqueKeys(docs);
        return;
      }
      ghost var origIx := indices;
      DropIndexes(present);
      if !indexInfoReadable {
        FilterAll(origIx, (ix: Index) => ix.name !in present);
      }
      assert !HasUniqueKeyIndex(indices) || !indexInfoReadable;
      ghost var orig := docs;
      RemoveDuplicates();
      DedupKeysUnique(orig);
      indices := CreateKeyIndex(indices);
    }
  }
}
