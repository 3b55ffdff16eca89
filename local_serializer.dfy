/**
 * The remote-document part of LocalSerializer: the MaybeDocument variant to
 * and from a persisted row, and snapshot versions to and from the sortable
 * timestamp key and the timestamp struct.
 */
module LocalSerializer {
  import opened Ordering
  import opened Model
  import opened Schema
  import RemoteSerializer

  /** toDbTimestampKey: [seconds, nanoseconds]. */
  function ToDbTimestampKey(v: SnapshotVersion): (k: DbTimestampKey)
    ensures k.0 == v.timestamp.seconds && k.1 == v.timestamp.nanoseconds
  {
    (v.timestamp.seconds, v.timestamp.nanoseconds)
  }

  /** fromDbTimestampKey: the inverse of ToDbTimestampKey. */
  function FromDbTimestampKey(k: DbTimestampKey): (v: SnapshotVersion)
    ensures ToDbTimestampKey(v) == k
  {
    SnapshotVersion(Timestamp(k.0, k.1))
  }

  function ToDbTimestamp(v: SnapshotVersion): (t: DbTimestamp)
    ensures t.seconds == v.timestamp.seconds && t.nanoseconds == v.timestamp.nanoseconds
  {
    DbTimestamp(v.timestamp.seconds, v.timestamp.nanoseconds)
  }

  /** fromDbTimestamp: the inverse of ToDbTimestamp. */
  function FromDbTimestamp(t: DbTimestamp): (v: SnapshotVersion)
    ensures ToDbTimestamp(v) == t
  {
    SnapshotVersion(Timestamp(t.seconds, t.nanoseconds))
  }

  /** Both timestamp representations round-trip every version. */
  lemma TimestampRoundTrips(v: SnapshotVersion)
    ensures FromDbTimestampKey(ToDbTimestampKey(v)) == v
    ensures FromDbTimestamp(ToDbTimestamp(v)) == v
  {
  }

  /** The sortable key orders versions as the versions themselves are ordered. */
  lemma TimestampKeyOrderIsVersionOrder(a: SnapshotVersion, b: SnapshotVersion)
    ensures VersionLess(a, b) <==> TimestampKeyLess(ToDbTimestampKey(a), ToDbTimestampKey(b))
  {
  }

  /**
   * fromDbRemoteDocument: the slots are inspected in the fixed order
   * document, noDocument, unknownDocument; a row with none is corrupt.
   */
  function FromDbRemoteDocument(r: DbRemoteDocument): (d: Result<MaybeDocument>)
    ensures d.Err? <==> !HasPayload(r)
    ensures d.Err? ==> d.error == UnexpectedDbRemoteDocument
    ensures r.document.Some? ==>
      d.Ok? && d.value.Document? && d.value.key.path == r.document.value.name
      && d.value.version.timestamp == r.document.value.updateTime && d.value.data == r.document.value.fields
      && d.value.hasCommittedMutations == r.hasCommittedMutations
    ensures r.document.None? && r.noDocument.Some? ==>
      d.Ok? && d.value.NoDocument? && d.value.key.path == r.noDocument.value.path
      && ToDbTimestamp(d.value.version) == r.noDocument.value.readTime
      && d.value.hasCommittedMutations == r.hasCommittedMutations
    ensures r.document.None? && r.noDocument.None? && r.unknownDocument.Some? ==>
      d.Ok? && d.value.UnknownDocument? && d.value.key.path == r.unknownDocument.value.path
      && ToDbTimestamp(d.value.version) == r.unknownDocument.value.version
  {
    if r.document.Some? then
      Ok(RemoteSerializer.FromDocument(r.document.value, r.hasCommittedMutations))
    else if r.noDocument.Some? then
      var nd := r.noDocument.value;
      Ok(NoDocument(DocumentKey(nd.path), FromDbTimestamp(nd.readTime), r.hasCommittedMutations))
    else if r.unknownDocument.Some? then
      var ud := r.unknownDocument.value;
      Ok(UnknownDocument(DocumentKey(ud.path), FromDbTimestamp(ud.version)))
    else
      Err(UnexpectedDbRemoteDocument)
  }

  /**
   * toDbRemoteDocument: fills exactly the slot of the variant, the sortable
   * read time and the parent path; decoding the row gives the document back.
   */
  function ToDbRemoteDocument(d: MaybeDocument, readTime: SnapshotVersion): (r: DbRemoteDocument)
    ensures ExactlyOnePayload(r)
    ensures r.document.Some? <==> d.Document?
    ensures r.noDocument.Some? <==> d.NoDocument?
    ensures r.unknownDocument.Some? <==> d.UnknownDocument?
    ensures r.readTime == Some(ToDbTimestampKey(readTime))
    ensures r.parentPath == Some(PopLast(d.key.path))
    ensures d.UnknownDocument? ==> r.hasCommittedMutations
    ensures FromDbRemoteDocument(r) == Ok(d)
  {
    var dbReadTime := ToDbTimestampKey(readTime);
    var parentPath := PopLast(d.key.path);
    match d
    case Document(_, _, _, hasCommittedMutations) =>
      DbRemoteDocument(None, None, Some(RemoteSerializer.ToDocument(d)), hasCommittedMutations, Some(dbReadTime), Some(parentPath))
    case NoDocument(key, version, hasCommittedMutations) =>
      DbRemoteDocument(None, Some(DbNoDocument(key.path, ToDbTimestamp(version))), None, hasCommittedMutations, Some(dbReadTime), Some(parentPath))
    case UnknownDocument(key, version) =>
      DbRemoteDocument(Some(DbUnknownDocument(key.path, ToDbTimestamp(version))), None, None, true, Some(dbReadTime), Some(parentPath))
  }
}
