/**
 * The persisted shapes of the remoteDocuments object store and its metadata
 * row, and the orders of its primary key and of its two secondary indexes.
 */
module Schema {
  import opened Ordering
  import opened Model

  /** The timestamp struct stored inside noDocument and unknownDocument payloads. */
  datatype DbTimestamp = DbTimestamp(seconds: int, nanoseconds: int)

  /** The sortable [seconds, nanoseconds] key. */
  type DbTimestampKey = (int, int)

  /** The primary key of a remote document row: the document path as an array. */
  type DbRemoteDocumentKey = ResourcePath

  datatype DbNoDocument = DbNoDocument(path: ResourcePath, readTime: DbTimestamp)

  datatype DbUnknownDocument = DbUnknownDocument(path: ResourcePath, version: DbTimestamp)

  /** The wire document produced by the remote serializer (api.Document), opaque to the cache. */
  datatype ProtoDocument = ProtoDocument(name: ResourcePath, fields: ObjectValue, updateTime: Timestamp)

  /**
   * A remote document row. The three payload slots are nullable; readTime
   * and parentPath are absent on rows that predate them.
   */
  datatype DbRemoteDocument = DbRemoteDocument(
    unknownDocument: Option<DbUnknownDocument>,
    noDocument: Option<DbNoDocument>,
    document: Option<ProtoDocument>,
    hasCommittedMutations: bool,
    readTime: Option<DbTimestampKey>,
    parentPath: Option<ResourcePath>)

  predicate HasPayload(r: DbRemoteDocument) {
    r.document.Some? || r.noDocument.Some? || r.unknownDocument.Some?
  }

  predicate ExactlyOnePayload(r: DbRemoteDocument) {
    (if r.document.Some? then 1 else 0)
    + (if r.noDocument.Some? then 1 else 0)
    + (if r.unknownDocument.Some? then 1 else 0) == 1
  }

  /** The single row of the remoteDocumentGlobal store. */
  datatype DbRemoteDocumentGlobal = DbRemoteDocumentGlobal(byteSize: int)

  /** An entry of the readTime index: (index key, primary key). */
  type ReadTimeEntry = (DbTimestampKey, DbRemoteDocumentKey)

  /** An entry of the collectionReadTime index: ([parentPath, readTime], primary key). */
  type CollectionReadTimeEntry = ((ResourcePath, DbTimestampKey), DbRemoteDocumentKey)

  predicate IntLess(a: int, b: int) {
    a < b
  }

  predicate TimestampKeyLess(a: DbTimestampKey, b: DbTimestampKey) {
    PairLess(a, b, IntLess, IntLess)
  }

  /** Index entries are ordered by index key, ties by primary key. */
  predicate ReadTimeEntryLess(a: ReadTimeEntry, b: ReadTimeEntry) {
    PairLess(a, b, TimestampKeyLess, PathLess)
  }

  predicate CollectionKeyLess(a: (ResourcePath, DbTimestampKey), b: (ResourcePath, DbTimestampKey)) {
    PairLess(a, b, PathLess, TimestampKeyLess)
  }

  predicate CollectionEntryLess(a: CollectionReadTimeEntry, b: CollectionReadTimeEntry) {
    PairLess(a, b, CollectionKeyLess, PathLess)
  }

  lemma TimestampKeyLessIsStrictTotal()
    ensures StrictTotalOrder(TimestampKeyLess)
  {
    PairIsStrictTotal(IntLess, IntLess);
  }

  lemma ReadTimeEntryLessIsStrictTotal()
    ensures StrictTotalOrder(ReadTimeEntryLess)
  {
    TimestampKeyLessIsStrictTotal();
    PathLessIsStrictTotal();
    PairIsStrictTotal(TimestampKeyLess, PathLess);
  }

  lemma CollectionKeyLessIsStrictTotal()
    ensures StrictTotalOrder(CollectionKeyLess)
  {
    TimestampKeyLessIsStrictTotal();
    PathLessIsStrictTotal();
    PairIsStrictTotal(PathLess, TimestampKeyLess);
  }

  lemma CollectionEntryLessIsStrictTotal()
    ensures StrictTotalOrder(CollectionEntryLess)
  {
    CollectionKeyLessIsStrictTotal();
    PathLessIsStrictTotal();
    PairIsStrictTotal(CollectionKeyLess, PathLess);
  }

  /** The row's key in the readTime index, if it has one. */
  function ReadTimeIndexKey(r: DbRemoteDocument): Option<DbTimestampKey> {
    r.readTime
  }

  /** The row's key in the collectionReadTime index, if it has one. */
  function CollectionIndexKey(r: DbRemoteDocument): Option<(ResourcePath, DbTimestampKey)> {
    if r.parentPath.Some? && r.readTime.Some? then Some((r.parentPath.value, r.readTime.value)) else None
  }
}
