/**
 * The file-record rules: what validate demands of a file document and
 * writes into it, the size bookkeeping that keeps item, folder and root
 * sizes in step with the files beneath them, and record creation with
 * reuse of an existing file.
 */
module Files {
  import opened Values
  import opened Text
  import opened Seqs

  const MissingSourceMessage := "File must have either an assetstore ID or a link URL."
  const LinkSchemeMessage := "Linked file URL must start with http: or https:."
  const EmptyNameMessage := "File name must not be empty."
  /** What subscripting the None that load(..., force=True) returns for a missing item raises. */
  const NoItemError := TypeError("'NoneType' object is not subscriptable")

  /** A file document as validate and save receive it; validate writes `linkUrl` and `exts` in place. */
  class FileDoc {
    var id: Option<nat>
    var name: Option<string>
    var itemId: Option<nat>
    var size: Option<int>
    var assetstoreId: Option<nat>
    var linkUrl: Option<string>
    var exts: seq<string>
    var mimeType: Option<string>
    var creatorId: nat

    constructor (r: FileRecord)
      ensures Record() == r
    {
      id := r.id;
      name := r.name;
      itemId := r.itemId;
      size := r.size;
      assetstoreId := r.assetstoreId;
      linkUrl := r.linkUrl;
      exts := r.exts;
      mimeType := r.mimeType;
      creatorId := r.creatorId;
    }

    /** The document's fields as a stored record. */
    function Record(): FileRecord
      reads this
    {
      FileRecord(id, name, itemId, size, assetstoreId, linkUrl, exts, mimeType, creatorId)
    }
  }

  /**
   * A stored file. An absent field is None: `size` may be missing on link
   * files, `assetstoreId` on link files, `linkUrl` on assetstore files, and
   * `id` until the record is saved.
   */
  datatype FileRecord = FileRecord(
    id: Option<nat>,
    name: Option<string>,
    itemId: Option<nat>,
    size: Option<int>,
    assetstoreId: Option<nat>,
    linkUrl: Option<string>,
    exts: seq<string>,
    mimeType: Option<string>,
    creatorId: nat)

  // ---- validate ------------------------------------------------------------------

  /** Whether a URL starts with `http:` or `https:`. */
  predicate IsHttpUrl(url: string) {
    "http:" <= url || "https:" <= url
  }

  /** The extensions of a file name: its lower-cased segments after the first dot. */
  function Exts(name: string): (exts: seq<string>)
    ensures forall e :: e in exts ==> '.' !in e && Lower(e) == e
  {
    var tail := SplitOn(name, '.')[1..];
    assert forall p :: p in tail ==> '.' !in Lower(p) && Lower(Lower(p)) == Lower(p) by {
      forall p | p in tail ensures '.' !in Lower(p) && Lower(Lower(p)) == Lower(p) {
        assert p in SplitOn(name, '.');
        LowerFacts(p);
      }
    }
    LowerAll(tail)
  }

  /** A name has one extension per dot in it; a name without a dot has none. */
  lemma ExtsCount(name: string)
    ensures |Exts(name)| == Count(name, '.')
    ensures '.' !in name ==> Exts(name) == []
  {
    SplitOnCount(name, '.');
  }

  /** Splitting a name at its first dot: the stem, then the pieces of the rest. */
  lemma SplitAtFirstDot(stem: string, rest: string)
    requires '.' !in stem
    ensures SplitOn(stem + "." + rest, '.') == [stem] + SplitOn(rest, '.')
  {
    var s := stem + "." + rest;
    var k := FirstIndex(s, '.');
    assert s[|stem|] == '.';
    assert s[..k] == stem && s[k + 1..] == rest;
  }

  /** Joined back with dots, the extensions are the lower-cased part of the name after its first dot. */
  lemma ExtsAfterFirstDot(stem: string, rest: string)
    requires '.' !in stem
    ensures Join(Exts(stem + "." + rest), ".") == Lower(rest)
  {
    SplitAtFirstDot(stem, rest);
    var parts := SplitOn(rest, '.');
    assert SplitOn(stem + "." + rest, '.')[1..] == parts;
    JoinSplitOn(rest, '.');
    LowerOfJoin(parts, ".");
  }

  /**
   * The error validate raises for a document with these fields, if any:
   * a file without an assetstore needs a link URL, which after stripping
   * must be an http or https URL; then the name must be present and non-empty.
   */
  function FileCheck(assetstoreId: Option<nat>, linkUrl: Option<string>, name: Option<string>): (err: Option<Error>)
    ensures err.None? <==>
      (assetstoreId.Some? || (linkUrl.Some? && IsHttpUrl(Strip(linkUrl.value)))) && name.Some? && name.value != []
    ensures err.Some? ==> err.value.ValidationError? && err.value.field in {Some("linkUrl"), Some("name")}
    ensures assetstoreId.None? && linkUrl.None? ==> err == Some(ValidationError(MissingSourceMessage, Some("linkUrl")))
    ensures assetstoreId.None? && linkUrl.Some? && !IsHttpUrl(Strip(linkUrl.value)) ==>
      err == Some(ValidationError(LinkSchemeMessage, Some("linkUrl")))
    ensures (assetstoreId.Some? || (linkUrl.Some? && IsHttpUrl(Strip(linkUrl.value)))) && (name.None? || name.value == []) ==>
      err == Some(ValidationError(EmptyNameMessage, Some("name")))
  {
    if assetstoreId.None? && linkUrl.None? then Some(ValidationError(MissingSourceMessage, Some("linkUrl")))
    else if assetstoreId.None? && !IsHttpUrl(Strip(linkUrl.value)) then Some(ValidationError(LinkSchemeMessage, Some("linkUrl")))
    else if name.None? || name.value == [] then Some(ValidationError(EmptyNameMessage, Some("name")))
    else None
  }

  /**
   * validate(doc): check the document, strip the link URL of a file without
   * an assetstore, and set the extensions of an accepted document from its
   * name. Only `linkUrl` and `exts` change.
   */
  method Validate(doc: FileDoc) returns (err: Option<Error>)
    modifies doc`linkUrl, doc`exts
    ensures err == FileCheck(old(doc.assetstoreId), old(doc.linkUrl), doc.name)
    ensures doc.linkUrl == if old(doc.assetstoreId).None? && old(doc.linkUrl).Some? then Some(Strip(old(doc.linkUrl).value)) else old(doc.linkUrl)
    ensures doc.exts == if err.None? then Exts(doc.name.value) else old(doc.exts)
  {
    if doc.assetstoreId.None? {
      if doc.linkUrl.None? {
        return Some(ValidationError(MissingSourceMessage, Some("linkUrl")));
      }
      doc.linkUrl := Some(Strip(doc.linkUrl.value));
      if !IsHttpUrl(doc.linkUrl.value) {
        return Some(ValidationError(LinkSchemeMessage, Some("linkUrl")));
      }
    }
    if doc.name.None? || doc.name.value == [] {
      return Some(ValidationError(EmptyNameMessage, Some("name")));
    }
    doc.exts := Exts(doc.name.value);
    return None;
  }

  /** Validating a record the validator has already accepted changes nothing and accepts it again. */
  lemma RevalidateFile(assetstoreId: Option<nat>, linkUrl: Option<string>, name: Option<string>)
    requires FileCheck(assetstoreId, linkUrl, name).None?
    ensures assetstoreId.None? ==> FileCheck(assetstoreId, Some(Strip(linkUrl.value)), name).None?
    ensures assetstoreId.None? ==> Strip(Strip(linkUrl.value)) == Strip(linkUrl.value)
  {
    if assetstoreId.None? {
      StripIdempotent(linkUrl.value);
    }
  }

  // ---- size bookkeeping ------------------------------------------------------------

  /** The models whose records carry a `size`: items, folders, and the roots of the hierarchy. */
  datatype Kind = ItemKind | FolderKind | CollectionKind | UserKind

  /** A record whose `size` the hierarchy tracks. */
  datatype Entity = Entity(model: Kind, id: nat)

  /** What the size propagation reads from an item: its id, its folder and the root (a collection or a user) it lives under. */
  datatype Item = Item(id: nat, folderId: nat, baseParentType: Kind, baseParentId: nat)

  /**
   * increment(query={'_id': id}, field='size', amount): add to the size of the
   * entity when it exists; an update that matches nothing changes nothing.
   */
  function Increment(sizes: map<Entity, int>, e: Entity, amount: int): (r: map<Entity, int>)
    ensures r.Keys == sizes.Keys
    ensures forall x :: x in sizes ==> r[x] == sizes[x] + (if x == e then amount else 0)
  {
    if e in sizes then sizes[e := sizes[e] + amount] else sizes
  }

  function ItemEntity(item: Item): Entity { Entity(ItemKind, item.id) }
  function FolderEntity(item: Item): Entity { Entity(FolderKind, item.folderId) }
  function RootEntity(item: Item): Entity { Entity(item.baseParentType, item.baseParentId) }

  /** What a propagation adds to an entity: the amount once for each of its targets the entity is. */
  function Share(e: Entity, item: Item, amount: int, updateItemSize: bool): int {
    (if updateItemSize && e == ItemEntity(item) then amount else 0)
    + (if e == FolderEntity(item) then amount else 0)
    + (if e == RootEntity(item) then amount else 0)
  }

  /**
   * The sizes after propagating an increment from a file of the item: the
   * increment added once to the item (when asked), once to its folder and
   * once to its root, and to nothing else; entities that do not exist are
   * not created.
   */
  function Propagated(sizes: map<Entity, int>, item: Item, amount: int, updateItemSize: bool): (r: map<Entity, int>)
    ensures r.Keys == sizes.Keys
  {
    map e | e in sizes :: sizes[e] + Share(e, item, amount, updateItemSize)
  }

  /** The three increments of propagateSizeChange, one after the other, make the propagation. */
  lemma IncrementsPropagate(sizes: map<Entity, int>, item: Item, amount: int, updateItemSize: bool)
    ensures var s1 := if updateItemSize then Increment(sizes, ItemEntity(item), amount) else sizes;
      Increment(Increment(s1, FolderEntity(item), amount), RootEntity(item), amount)
      == Propagated(sizes, item, amount, updateItemSize)
  {
    var s1 := if updateItemSize then Increment(sizes, ItemEntity(item), amount) else sizes;
    var s3 := Increment(Increment(s1, FolderEntity(item), amount), RootEntity(item), amount);
    var p := Propagated(sizes, item, amount, updateItemSize);
    forall e | e in sizes ensures s3[e] == p[e] {
      IncrementShare(sizes, s1, s3, e, item, amount, updateItemSize);
    }
  }

  /** One entity's size after the three increments is its old size plus its share. */
  lemma IncrementShare(sizes: map<Entity, int>, s1: map<Entity, int>, s3: map<Entity, int>,
                       e: Entity, item: Item, amount: int, updateItemSize: bool)
    requires e in sizes
    requires s1 == if updateItemSize then Increment(sizes, ItemEntity(item), amount) else sizes
    requires s3 == Increment(Increment(s1, FolderEntity(item), amount), RootEntity(item), amount)
    ensures s3[e] == sizes[e] + Share(e, item, amount, updateItemSize)
  {
    assert s1[e] == sizes[e] + (if updateItemSize && e == ItemEntity(item) then amount else 0);
  }

  /** Two propagations from the same item add up. */
  lemma PropagateTwice(sizes: map<Entity, int>, item: Item, a: int, b: int, updateItemSize: bool)
    ensures Propagated(Propagated(sizes, item, a, updateItemSize), item, b, updateItemSize)
         == Propagated(sizes, item, a + b, updateItemSize)
  {
    var once := Propagated(sizes, item, a, updateItemSize);
    var twice := Propagated(once, item, b, updateItemSize);
    var sum := Propagated(sizes, item, a + b, updateItemSize);
    forall e | e in sizes ensures twice[e] == sum[e] {
      assert Share(e, item, a, updateItemSize) + Share(e, item, b, updateItemSize)
          == Share(e, item, a + b, updateItemSize);
    }
  }

  /** Removing a file takes back exactly what adding it propagated. */
  lemma PropagateUndo(sizes: map<Entity, int>, item: Item, a: int, updateItemSize: bool)
    ensures Propagated(Propagated(sizes, item, a, updateItemSize), item, -a, updateItemSize) == sizes
  {
    PropagateTwice(sizes, item, a, -a, updateItemSize);
  }

  /** The first file of the item with the name: findOne({'itemId': ..., 'name': ...}). */
  function FindFile(files: seq<FileRecord>, itemId: nat, name: string): (r: Option<nat>)
    ensures r.Some? ==> r.value < |files| && files[r.value].itemId == Some(itemId) && files[r.value].name == Some(name)
    ensures r.None? <==> forall f :: f in files ==> !(f.itemId == Some(itemId) && f.name == Some(name))
  {
    if files == [] then None
    else if files[0].itemId == Some(itemId) && files[0].name == Some(name) then Some(0)
    else match FindFile(files[1..], itemId, name)
      case None => None
      case Some(i) => Some(i + 1)
  }

  /** The record createFile builds, before it is saved. */
  function NewFile(creatorId: nat, itemId: Option<nat>, name: string, size: int, assetstoreId: nat, mimeType: Option<string>): (r: FileRecord)
    ensures r.id.None? && r.itemId == itemId && r.name == Some(name) && r.size == Some(size)
    ensures FileCheck(r.assetstoreId, r.linkUrl, r.name).None? <==> name != []
    ensures FileCheck(r.assetstoreId, r.linkUrl, r.name).Some? ==> FileCheck(r.assetstoreId, r.linkUrl, r.name) == Some(ValidationError(EmptyNameMessage, Some("name")))
  {
    FileRecord(None, Some(name), itemId, Some(size), Some(assetstoreId), None, [], mimeType, creatorId)
  }

  /** updateSize(file): the recorded size, 0 when the record has none, and no change. */
  function UpdateSize(f: FileRecord): (r: (int, int))
    ensures r.1 == 0
    ensures f.size.Some? ==> r.0 == f.size.value
    ensures f.size.None? ==> r.0 == 0
  {
    (if f.size.Some? then f.size.value else 0, 0)
  }

  /** The file collection and the sizes of the records above files. */
  class FileStore {
    var files: seq<FileRecord>
    var sizes: map<Entity, int>
    var nextId: nat
    const items: map<nat, Item>

    /** Every stored file has an id below the next one to hand out, and no two share one. */
    ghost predicate Valid()
      reads this
    {
      && (forall f :: f in files ==> f.id.Some? && f.id.value < nextId)
      && FileIdsUnique(files)
    }

    constructor (files: seq<FileRecord>, sizes: map<Entity, int>, nextId: nat, items: map<nat, Item>)
      requires forall f :: f in files ==> f.id.Some? && f.id.value < nextId
      requires FileIdsUnique(files)
      ensures Valid()
      ensures this.files == files && this.sizes == sizes && this.nextId == nextId && this.items == items
    {
      this.files := files;
      this.sizes := sizes;
      this.nextId := nextId;
      this.items := items;
    }

    /** propagateSizeChange(item, sizeIncrement, updateItemSize). */
    method PropagateSizeChange(item: Item, sizeIncrement: int, updateItemSize: bool)
      modifies this`sizes
      ensures sizes == Propagated(old(sizes), item, sizeIncrement, updateItemSize)
    {
      IncrementsPropagate(sizes, item, sizeIncrement, updateItemSize);
      if updateItemSize {
        sizes := Increment(sizes, ItemEntity(item), sizeIncrement);
      }
      sizes := Increment(sizes, FolderEntity(item), sizeIncrement);
      sizes := Increment(sizes, RootEntity(item), sizeIncrement);
    }

    /**
     * The handler of a created file: a file with an item and a non-zero size
     * adds its size to the item, the folder and the root.
     */
    method PropagateSizeToItem(file: FileRecord) returns (err: Option<Error>)
      modifies this`sizes
      ensures file.itemId.None? || file.size.None? || file.size == Some(0) ==> err.None? && sizes == old(sizes)
      ensures file.itemId.Some? && file.size.Some? && file.size != Some(0) && file.itemId.value !in items ==>
        err == Some(NoItemError) && sizes == old(sizes)
      ensures file.itemId.Some? && file.size.Some? && file.size != Some(0) && file.itemId.value in items ==>
        err.None? && sizes == Propagated(old(sizes), items[file.itemId.value], file.size.value, true)
    {
      if file.itemId.Some? && file.size.Some? && file.size.value != 0 {
        if file.itemId.value !in items {
          return Some(NoItemError);
        }
        PropagateSizeChange(items[file.itemId.value], file.size.value, true);
      }
      return None;
    }

    /**
     * remove(file, updateItemSize), without the assetstore's deletion of the
     * bytes: a file of an item that records a size takes that size back
     * from the item's hierarchy; then the record is deleted.
     */
    method Remove(file: FileRecord, updateItemSize: bool) returns (err: Option<Error>)
      requires Valid()
      modifies this`files, this`sizes
      ensures Valid()
      ensures file.itemId.Some? && file.size.Some? && file.itemId.value !in items ==>
        err == Some(NoItemError) && files == old(files) && sizes == old(sizes)
      ensures file.itemId.Some? && file.size.Some? && file.itemId.value in items ==>
        sizes == Propagated(old(sizes), items[file.itemId.value], -file.size.value, updateItemSize)
      ensures file.itemId.None? || file.size.None? ==> sizes == old(sizes)
      ensures err.None? ==> files == Filter(old(files), (f: FileRecord) => f.id != file.id)
      ensures err.None? <==> !(file.itemId.Some? && file.size.Some? && file.itemId.value !in items)
    {
      if file.itemId.Some? && file.size.Some? {
        if file.itemId.value !in items {
          return Some(NoItemError);
        }
        PropagateSizeChange(items[file.itemId.value], -file.size.value, updateItemSize);
      }
      FilterKeepsDistinct(files, (f: FileRecord) => f.id != file.id, (f: FileRecord) => f.id);
      files := Filter(files, (f: FileRecord) => f.id != file.id);
      return None;
    }

    /**
     * createFile: with reuseExisting, the item's file of that name if there
     * is one; otherwise a new record, returned as is or saved through
     * validate, after which the created-file handler propagates its size.
     */
    method CreateFile(creatorId: nat, itemId: Option<nat>, name: string, size: int, assetstoreId: nat,
                      mimeType: Option<string>, saveFile: bool, reuseExisting: bool) returns (r: Result<FileRecord>)
      requires Valid()
      modifies this`files, this`sizes, this`nextId
      ensures Valid()
      ensures reuseExisting && itemId.None? ==> r == Failure(NoItemError) && files == old(files) && sizes == old(sizes)
      ensures reuseExisting && itemId.Some? && FindFile(old(files), itemId.value, name).Some? ==>
        r == Success(old(files)[FindFile(old(files), itemId.value, name).value]) && files == old(files) && sizes == old(sizes)
      ensures (reuseExisting ==> itemId.Some? && FindFile(old(files), itemId.value, name).None?) && !saveFile ==>
        r == Success(NewFile(creatorId, itemId, name, size, assetstoreId, mimeType)) && files == old(files) && sizes == old(sizes)
      ensures (reuseExisting ==> itemId.Some? && FindFile(old(files), itemId.value, name).None?) && saveFile && name == [] ==>
        r == Failure(ValidationError(EmptyNameMessage, Some("name"))) && files == old(files) && sizes == old(sizes)
      ensures (reuseExisting ==> itemId.Some? && FindFile(old(files), itemId.value, name).None?) && saveFile && name != [] ==>
        && files == old(files) + [NewFile(creatorId, itemId, name, size, assetstoreId, mimeType).(id := Some(old(nextId)), exts := Exts(name))]
        && (r.Success? ==> r.value == files[|files| - 1])
        && (itemId.None? || size == 0 ==> r.Success? && sizes == old(sizes))
        && (itemId.Some? && size != 0 && itemId.value in items ==> r.Success? && sizes == Propagated(old(sizes), items[itemId.value], size, true))
        && (itemId.Some? && size != 0 && itemId.value !in items ==> r == Failure(NoItemError) && sizes == old(sizes))
      ensures nextId == if (reuseExisting ==> itemId.Some? && FindFile(old(files), itemId.value, name).None?) && saveFile && name != []
                        then old(nextId) + 1 else old(nextId)
    {
      if reuseExisting {
        if itemId.None? {
          return Failure(NoItemError);
        }
        var existing := FindFile(files, itemId.value, name);
        if existing.Some? {
          return Success(files[existing.value]);
        }
      }
      var record := NewFile(creatorId, itemId, name, size, assetstoreId, mimeType);
      if !saveFile {
        return Success(record);
      }
      var doc := new FileDoc(record);
      var err := Validate(doc);
      assert err == FileCheck(record.assetstoreId, record.linkUrl, record.name);
      if err.Some? {
        return Failure(err.value);
      }
      doc.id := Some(nextId);
      var saved := doc.Record();
      assert saved == record.(id := Some(nextId), exts := Exts(name));
      files := files + [saved];
      nextId := nextId + 1;
      err := PropagateSizeToItem(saved);
      if err.Some? {
        return Failure(err.value);
      }
      return Success(saved);
    }
  }

  predicate FileIdsUnique(files: seq<FileRecord>) {
    DistinctBy(files, (f: FileRecord) => f.id)
  }
}
