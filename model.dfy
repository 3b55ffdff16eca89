/**
 * The in-memory document model the cache hands out: snapshot versions,
 * document keys, the closed MaybeDocument variant and the query interface
 * the cache consumes.
 */
module Model {
  import opened Ordering

  datatype Option<+T> = None | Some(value: T)

  /** The fatal failures (assertions and `fail`) the core can raise. */
  datatype Error =
    | UnexpectedDbRemoteDocument      // a stored record with no payload slot
    | UnknownRemoteDocumentType       // the same, found while sizing a record
    | MissingMetadata                 // the byteSize row is absent
    | DocumentNotRead(key: DocumentKey) // a staged key without a recorded prior size
    | ZeroReadTime                    // an upsert staged with read time MIN
    | CollectionGroupQuery            // a collection-group query reached the cache

  datatype Result<+T> = Ok(value: T) | Err(error: Error)

  type ResourcePath = seq<string>

  /** ResourcePath.popLast; the empty path has no parent and stays empty. */
  function PopLast(p: ResourcePath): (r: ResourcePath)
    ensures |p| > 0 ==> |r| == |p| - 1 && IsPrefix(r, p)
  {
    if |p| == 0 then [] else p[..|p| - 1]
  }

  datatype Timestamp = Timestamp(seconds: int, nanoseconds: int)

  datatype SnapshotVersion = SnapshotVersion(timestamp: Timestamp)

  /** SnapshotVersion.MIN, the timestamp (0, 0). */
  const MinVersion := SnapshotVersion(Timestamp(0, 0))

  /** SnapshotVersion.forDeletedDoc(): the version of a sentinel delete, version 0. */
  function ForDeletedDoc(): SnapshotVersion {
    MinVersion
  }

  /** Timestamp order: by seconds, then by nanoseconds. */
  predicate VersionLess(a: SnapshotVersion, b: SnapshotVersion) {
    || a.timestamp.seconds < b.timestamp.seconds
    || (a.timestamp.seconds == b.timestamp.seconds && a.timestamp.nanoseconds < b.timestamp.nanoseconds)
  }

  datatype DocumentKey = DocumentKey(path: ResourcePath)

  /** DocumentKey.comparator. */
  predicate KeyLess(a: DocumentKey, b: DocumentKey) {
    PathLess(a.path, b.path)
  }

  /** The field values of a document, opaque to the cache. */
  datatype ObjectValue = ObjectValue(fields: map<string, string>)

  datatype MaybeDocument =
    | Document(key: DocumentKey, version: SnapshotVersion, data: ObjectValue, hasCommittedMutations: bool)
    | NoDocument(key: DocumentKey, version: SnapshotVersion, hasCommittedMutations: bool)
    | UnknownDocument(key: DocumentKey, version: SnapshotVersion)

  /** A sentinel delete: a NoDocument at the deleted-document version. */
  predicate IsSentinelDelete(d: MaybeDocument) {
    d.NoDocument? && d.version == ForDeletedDoc()
  }

  /**
   * The part of a query the cache consumes: its collection path, whether it
   * is a collection-group query, and its matches predicate.
   */
  datatype Query = Query(path: ResourcePath, collectionGroup: Option<string>, matches: MaybeDocument -> bool)

  predicate IsCollectionGroupQuery(q: Query) {
    q.collectionGroup.Some?
  }
}
