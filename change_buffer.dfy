/**
 * The IndexedDb remote-document change buffer: staged upserts and removals,
 * the sizes recorded when documents were read, and applyChanges, which turns
 * the staged changes into row writes and one byteSize adjustment.
 */
module ChangeBuffer {
  import opened Ordering
  import opened SortedSeqs
  import opened Model
  import opened Schema
  import opened LocalSerializer
  import opened SimpleDb
  import opened Sums
  import opened RemoteDocumentCache

  /**
   * The row applyChanges leaves at a staged key: the upsert encoded at the
   * buffer's read time, a sentinel delete when removals are tracked, or no row.
   */
  function StagedRow(key: DocumentKey, change: Option<MaybeDocument>, readTime: SnapshotVersion, trackRemovals: bool)
    : Option<DbRemoteDocument>
  {
    match change
    case Some(doc) => Some(ToDbRemoteDocument(doc, readTime))
    case None =>
      if trackRemovals then Some(ToDbRemoteDocument(NoDocument(key, ForDeletedDoc(), false), readTime)) else None
  }

  /** An upsert reads back as the staged document, unless it is itself shaped like a sentinel delete. */
  lemma StagedUpsertReadsBack(key: DocumentKey, doc: MaybeDocument, readTime: SnapshotVersion, trackRemovals: bool)
    ensures MaybeDecodeDocument(StagedRow(key, Some(doc), readTime, trackRemovals)) ==
      if IsSentinelDelete(doc) then Ok(None) else Ok(Some(doc))
  {
  }

  /**
   * A removal reads as absent however it is applied, and a tracked removal
   * is a row the change feed returns once the watermark is below the read time.
   */
  lemma StagedRemovalReadsAbsent(key: DocumentKey, readTime: SnapshotVersion, trackRemovals: bool,
                                 records: Records, watermark: SnapshotVersion)
    ensures MaybeDecodeDocument(StagedRow(key, None, readTime, trackRemovals)) == Ok(None)
    ensures StagedRow(key, None, readTime, trackRemovals).Some? <==> trackRemovals
    ensures trackRemovals ==>
      var row := StagedRow(key, None, readTime, trackRemovals).value;
      && WellFormedRow(DbKey(key), row)
      && (InChangeFeed(records[DbKey(key) := row], watermark, DbKey(key)) <==> VersionLess(watermark, readTime))
  {
    if trackRemovals {
      EncodedRowIsWellFormed(NoDocument(key, ForDeletedDoc(), false), readTime);
      TimestampRoundTrips(readTime);
    }
  }

  /** What one staged change adds to byteSize: the new row's size less the size recorded when the key was read. */
  ghost function ChangeDelta(change: Option<MaybeDocument>, previousSize: nat, readTime: SnapshotVersion,
                             jsonLength: SizedPayload -> nat): int
  {
    match change
    case Some(doc) => DbDocumentSize(ToDbRemoteDocument(doc, readTime), jsonLength).value - previousSize
    case None => -(previousSize as int)
  }

  /** ChangeDelta by row key; keys with no staged change or no recorded size contribute nothing. */
  ghost function DeltaOf(changes: map<DocumentKey, Option<MaybeDocument>>, documentSizes: map<DocumentKey, nat>,
                         readTime: SnapshotVersion, jsonLength: SizedPayload -> nat): ResourcePath -> int
  {
    p =>
      var key := DocumentKey(p);
      if key in changes && key in documentSizes then ChangeDelta(changes[key], documentSizes[key], readTime, jsonLength) else 0
  }

  ghost function KeyPaths(keys: set<DocumentKey>): set<ResourcePath> {
    set k | k in keys :: k.path
  }

  /** The sizeDelta applyChanges adds to byteSize: the sum of the staged changes' deltas. */
  ghost function SizeDelta(changes: map<DocumentKey, Option<MaybeDocument>>, documentSizes: map<DocumentKey, nat>,
                           readTime: SnapshotVersion, jsonLength: SizedPayload -> nat): int
  {
    Sum(KeyPaths(changes.Keys), DeltaOf(changes, documentSizes, readTime, jsonLength))
  }

  ghost function LiveSizeOf(records: Records, jsonLength: SizedPayload -> nat): DbRemoteDocumentKey -> int {
    k => LiveSize(records, k, jsonLength)
  }

  /** What byteSize is meant to hold: the sizes of the live rows, sentinel deletes counting nothing. */
  ghost function StoredSize(records: Records, jsonLength: SizedPayload -> nat): int {
    Sum(records.Keys, LiveSizeOf(records, jsonLength))
  }

  lemma KeyPathsAdd(keys: set<DocumentKey>, key: DocumentKey)
    requires key !in keys
    ensures KeyPaths(keys + {key}) == KeyPaths(keys) + {key.path}
    ensures key.path !in KeyPaths(keys)
  {
  }

  /** A sum over some rows equals the sum over any larger set of paths, the extra paths having no row. */
  lemma StoredSizeOver(records: Records, jsonLength: SizedPayload -> nat, paths: set<ResourcePath>)
    requires records.Keys <= paths
    ensures StoredSize(records, jsonLength) == Sum(paths, LiveSizeOf(records, jsonLength))
  {
    var f := LiveSizeOf(records, jsonLength);
    forall p | p in paths - records.Keys
      ensures f(p) == 0
    {
      assert Get(records, p).None?;
    }
    SumZeros(records.Keys, paths - records.Keys, f);
    assert records.Keys + (paths - records.Keys) == paths;
  }

  /**
   * At every staged key, the live size after the write is the live size
   * before it plus the change's delta, given the size recorded at read time.
   */
  lemma StagedLiveSize(before: Records, after: Records, key: DocumentKey, change: Option<MaybeDocument>, previousSize: nat,
                       readTime: SnapshotVersion, trackRemovals: bool, jsonLength: SizedPayload -> nat)
    requires previousSize == LiveSize(before, key.path, jsonLength)
    requires change.Some? ==> !IsSentinelDelete(change.value)
    requires Get(after, key.path) == StagedRow(key, change, readTime, trackRemovals)
    ensures LiveSize(after, key.path, jsonLength) == LiveSize(before, key.path, jsonLength) + ChangeDelta(change, previousSize, readTime, jsonLength)
  {
    match change
    case Some(doc) =>
      StagedUpsertReadsBack(key, doc, readTime, trackRemovals);
    case None =>
      StagedRemovalReadsAbsent(key, readTime, trackRemovals, before, MinVersion);
  }

  /** Every staged key was read, and the size recorded for it is its live size in records. */
  ghost predicate SizesRecorded(records: Records, changes: map<DocumentKey, Option<MaybeDocument>>,
                                documentSizes: map<DocumentKey, nat>, jsonLength: SizedPayload -> nat)
  {
    forall k :: k in changes ==> k in documentSizes && documentSizes[k] == LiveSize(records, k.path, jsonLength)
  }

  /** No staged upsert is shaped like a sentinel delete, so every upsert reads back as live. */
  ghost predicate NoSentinelUpserts(changes: map<DocumentKey, Option<MaybeDocument>>) {
    forall k :: k in changes && changes[k].Some? ==> !IsSentinelDelete(changes[k].value)
  }

  /** Row by row, the live size after applying the changes is the live size before plus the change's delta. */
  lemma LiveSizeMovesByDelta(before: Records, after: Records, changes: map<DocumentKey, Option<MaybeDocument>>,
                             documentSizes: map<DocumentKey, nat>, readTime: SnapshotVersion, trackRemovals: bool,
                             jsonLength: SizedPayload -> nat, paths: set<ResourcePath>)
    requires SizesRecorded(before, changes, documentSizes, jsonLength) && NoSentinelUpserts(changes)
    requires Applied(before, after, changes, changes.Keys, readTime, trackRemovals)
    ensures forall p :: p in paths ==>
      LiveSizeOf(after, jsonLength)(p) == LiveSizeOf(before, jsonLength)(p) + DeltaOf(changes, documentSizes, readTime, jsonLength)(p)
  {
    forall p | p in paths
      ensures LiveSizeOf(after, jsonLength)(p) == LiveSizeOf(before, jsonLength)(p) + DeltaOf(changes, documentSizes, readTime, jsonLength)(p)
    {
      var key := DocumentKey(p);
      if key in changes {
        StagedLiveSize(before, after, key, changes[key], documentSizes[key], readTime, trackRemovals, jsonLength);
      } else {
        assert Get(after, p) == Get(before, p);
      }
    }
  }

  /** The deltas summed over any set of paths holding the staged keys' paths are the sizeDelta. */
  lemma SizeDeltaOver(changes: map<DocumentKey, Option<MaybeDocument>>, documentSizes: map<DocumentKey, nat>,
                      readTime: SnapshotVersion, jsonLength: SizedPayload -> nat, paths: set<ResourcePath>)
    requires KeyPaths(changes.Keys) <= paths
    ensures Sum(paths, DeltaOf(changes, documentSizes, readTime, jsonLength)) == SizeDelta(changes, documentSizes, readTime, jsonLength)
  {
    var touched := KeyPaths(changes.Keys);
    var delta := DeltaOf(changes, documentSizes, readTime, jsonLength);
    forall p | p in paths - touched
      ensures delta(p) == 0
    {
    }
    SumZeros(touched, paths - touched, delta);
    assert touched + (paths - touched) == paths;
  }

  /**
   * The byteSize invariant: when every staged key's recorded size is its live
   * size in the store the changes are applied to, applying them moves the
   * stored size by exactly the sizeDelta applyChanges computes.
   */
  lemma ApplyKeepsStoredSize(before: Records, after: Records, changes: map<DocumentKey, Option<MaybeDocument>>,
                             documentSizes: map<DocumentKey, nat>, readTime: SnapshotVersion, trackRemovals: bool,
                             jsonLength: SizedPayload -> nat)
    requires SizesRecorded(before, changes, documentSizes, jsonLength) && NoSentinelUpserts(changes)
    requires Applied(before, after, changes, changes.Keys, readTime, trackRemovals)
    ensures StoredSize(after, jsonLength) == StoredSize(before, jsonLength) + SizeDelta(changes, documentSizes, readTime, jsonLength)
  {
    var paths := before.Keys + after.Keys + KeyPaths(changes.Keys);
    StoredSizeOver(before, jsonLength, paths);
    StoredSizeOver(after, jsonLength, paths);
    LiveSizeMovesByDelta(before, after, changes, documentSizes, readTime, trackRemovals, jsonLength, paths);
    SumPlus(paths, LiveSizeOf(after, jsonLength), LiveSizeOf(before, jsonLength), DeltaOf(changes, documentSizes, readTime, jsonLength));
    SizeDeltaOver(changes, documentSizes, readTime, jsonLength, paths);
  }

  /** A row write: put the row, or delete the key when there is none. */
  function SetRow(records: Records, p: DbRemoteDocumentKey, row: Option<DbRemoteDocument>): (r: Records)
    ensures Get(r, p) == row
    ensures forall q :: q != p ==> Get(r, q) == Get(records, q)
  {
    if row.Some? then records[p := row.value] else records - {p}
  }

  /** The rows of the keys in done hold their staged rows; every other row is as it was before. */
  ghost predicate Applied(before: Records, after: Records, changes: map<DocumentKey, Option<MaybeDocument>>,
                          done: set<DocumentKey>, readTime: SnapshotVersion, trackRemovals: bool)
  {
    && (forall k :: k in done && k in changes ==> Get(after, k.path) == StagedRow(k, changes[k], readTime, trackRemovals))
    && (forall p :: DocumentKey(p) !in done ==> Get(after, p) == Get(before, p))
  }

  /** Writing one more staged row extends the applied keys by that key. */
  lemma AppliedStep(before: Records, mid: Records, changes: map<DocumentKey, Option<MaybeDocument>>,
                    done: set<DocumentKey>, key: DocumentKey, readTime: SnapshotVersion, trackRemovals: bool)
    requires key in changes && Applied(before, mid, changes, done, readTime, trackRemovals)
    ensures Applied(before, SetRow(mid, key.path, StagedRow(key, changes[key], readTime, trackRemovals)),
                    changes, done + {key}, readTime, trackRemovals)
  {
    var after := SetRow(mid, key.path, StagedRow(key, changes[key], readTime, trackRemovals));
    forall p | DocumentKey(p) !in done + {key}
      ensures Get(after, p) == Get(before, p)
    {
      assert p != key.path;
    }
  }

  class RemoteDocumentChangeBuffer {
    const documentCache: IndexedDbRemoteDocumentCache
    /** Whether removals are written as sentinel deletes the change feed can see. */
    const trackRemovals: bool
    /** The staged changes: a document to upsert, or None for a removal. */
    var changes: map<DocumentKey, Option<MaybeDocument>>
    /** The read time the staged upserts are written at. */
    var readTime: SnapshotVersion
    /** The size of each document as read before the changes, 0 when it had no live row. */
    var documentSizes: map<DocumentKey, nat>

    /** newChangeBuffer: removals are tracked only when the options ask for it. */
    constructor (documentCache: IndexedDbRemoteDocumentCache, options: Option<bool>)
      ensures this.documentCache == documentCache
      ensures trackRemovals <==> options == Some(true)
      ensures changes == map[] && documentSizes == map[] && readTime == MinVersion
    {
      this.documentCache := documentCache;
      trackRemovals := options.Some? && options.value;
      changes := map[];
      readTime := MinVersion;
      documentSizes := map[];
    }

    /** Stages an upsert of the document under its own key, to be written at readTime. */
    method AddEntry(maybeDocument: MaybeDocument, readTime: SnapshotVersion)
      modifies this`changes, this`readTime
      ensures changes == old(changes)[maybeDocument.key := Some(maybeDocument)] && this.readTime == readTime
    {
      changes := changes[maybeDocument.key := Some(maybeDocument)];
      this.readTime := readTime;
    }

    /** Stages a removal of the document at key. */
    method RemoveEntry(key: DocumentKey)
      modifies this`changes
      ensures changes == old(changes)[key := None]
    {
      changes := changes[key := None];
    }

    /**
     * getFromCache: reads the document through getSizedEntry and records its
     * size, 0 when it has no live row.
     */
    method GetFromCache(txn: RemoteDocumentStore, documentKey: DocumentKey) returns (r: Result<Option<MaybeDocument>>)
      modifies this`documentSizes
      ensures r.Err? <==> MaybeDecodeDocument(Get(txn.records, DbKey(documentKey))).Err?
      ensures r.Err? ==> documentSizes == old(documentSizes)
      ensures r.Ok? ==>
        && Ok(r.value) == MaybeDecodeDocument(Get(txn.records, DbKey(documentKey)))
        && documentSizes == old(documentSizes)[documentKey := LiveSize(txn.records, DbKey(documentKey), documentCache.jsonLength)]
    {
      var getResult := documentCache.GetSizedEntry(txn, documentKey);
      if getResult.Err? {
        return Err(getResult.error);
      }
      if getResult.value.None? {
        documentSizes := documentSizes[documentKey := 0];
        r := Ok(None);
      } else {
        documentSizes := documentSizes[documentKey := getResult.value.value.size];
        r := Ok(Some(getResult.value.value.maybeDocument));
      }
    }

    /**
     * getAllFromCache: reads the documents through getSizedEntries and
     * records the size of every requested key.
     */
    method GetAllFromCache(txn: RemoteDocumentStore, documentKeys: seq<DocumentKey>)
      returns (r: Result<map<DocumentKey, Option<MaybeDocument>>>)
      requires txn.Valid() && Sorted(documentKeys, KeyLess)
      modifies this`documentSizes
      ensures r.Err? <==> exists k :: k in documentKeys && MaybeDecodeDocument(Get(txn.records, DbKey(k))).Err?
      ensures r.Err? ==> documentSizes == old(documentSizes)
      ensures r.Ok? ==> forall k :: (k in r.value <==> k in documentKeys)
      ensures r.Ok? ==> forall k :: k in r.value ==> Ok(r.value[k]) == MaybeDecodeDocument(Get(txn.records, DbKey(k)))
      ensures r.Ok? ==> forall k :: k in documentSizes <==> k in old(documentSizes) || k in documentKeys
      ensures r.Ok? ==> forall k :: k in documentSizes ==>
        documentSizes[k] == if k in documentKeys then LiveSize(txn.records, DbKey(k), documentCache.jsonLength) else old(documentSizes)[k]
    {
      var entries := documentCache.GetSizedEntries(txn, documentKeys);
      if entries.Err? {
        return Err(entries.error);
      }
      var sizeMap := entries.value.sizeMap;
      var i := 0;
      while i < |documentKeys|
        invariant i <= |documentKeys|
        invariant forall k :: k in documentSizes <==> k in old(documentSizes) || k in documentKeys[..i]
        invariant forall k :: k in documentSizes ==>
          documentSizes[k] == if k in documentKeys[..i] then sizeMap[k] else old(documentSizes)[k]
      {
        var documentKey := documentKeys[i];
        documentSizes := documentSizes[documentKey := sizeMap[documentKey]];
        assert documentKeys[..i + 1] == documentKeys[..i] + [documentKey];
        i := i + 1;
      }
      assert documentKeys[..i] == documentKeys;
      r := Ok(entries.value.maybeDocuments);
    }

    /**
     * applyChanges: every staged key must have been read and every upsert
     * needs a read time above MIN; each upsert is written at the read time,
     * each removal becomes a sentinel delete or a physical delete, no other
     * row changes, and byteSize moves by the sum of the size deltas. When
     * the recorded sizes were the live sizes and byteSize was the stored
     * size, it still is.
     */
    method ApplyChanges(txn: RemoteDocumentStore) returns (r: Result<()>)
      requires txn.Valid()
      modifies txn
      ensures txn.Valid()
      ensures r.Err? <==>
        || (exists k :: k in changes && k !in documentSizes)
        || (readTime == MinVersion && exists k :: k in changes && changes[k].Some?)
        || old(txn.metadata).None?
      ensures r.Ok? ==> Applied(old(txn.records), txn.records, changes, changes.Keys, readTime, trackRemovals)
      ensures r.Ok? ==> txn.metadata ==
                        Some(DbRemoteDocumentGlobal(old(txn.metadata).value.byteSize + SizeDelta(changes, documentSizes, readTime, documentCache.jsonLength)))
      ensures r.Ok? && SizesRecorded(old(txn.records), changes, documentSizes, documentCache.jsonLength) && NoSentinelUpserts(changes)
              && old(txn.metadata).value.byteSize == StoredSize(old(txn.records), documentCache.jsonLength) ==>
        txn.metadata.value.byteSize == StoredSize(txn.records, documentCache.jsonLength)
    {
      var sizeDelta := WriteChanges(txn, changes, documentSizes, readTime);
      if sizeDelta.Err? {
        return Err(sizeDelta.error);
      }
      r := documentCache.UpdateMetadata(txn, sizeDelta.value);
      if r.Ok? && SizesRecorded(old(txn.records), changes, documentSizes, documentCache.jsonLength) && NoSentinelUpserts(changes) {
        ApplyKeepsStoredSize(old(txn.records), txn.records, changes, documentSizes, readTime, trackRemovals, documentCache.jsonLength);
      }
    }

    /**
     * The per-key part of applyChanges: the checks on each staged key, its
     * write, and the running sizeDelta, which it returns.
     */
    method WriteChanges(txn: RemoteDocumentStore, changes: map<DocumentKey, Option<MaybeDocument>>,
                        documentSizes: map<DocumentKey, nat>, readTime: SnapshotVersion)
      returns (r: Result<int>)
      requires txn.Valid()
      modifies txn
      ensures txn.Valid() && txn.metadata == old(txn.metadata)
      ensures r.Err? <==>
        || (exists k :: k in changes && k !in documentSizes)
        || (readTime == MinVersion && exists k :: k in changes && changes[k].Some?)
      ensures r.Ok? ==> Applied(old(txn.records), txn.records, changes, changes.Keys, readTime, trackRemovals)
      ensures r.Ok? ==> r.value == SizeDelta(changes, documentSizes, readTime, documentCache.jsonLength)
    {
      var jsonLength := documentCache.jsonLength;
      ghost var before := txn.records;
      ghost var delta := DeltaOf(changes, documentSizes, readTime, jsonLength);
      var sizeDelta := 0;
      var remaining := changes.Keys;
      ghost var done: set<DocumentKey> := {};
      while remaining != {}
        invariant txn.Valid() && txn.metadata == old(txn.metadata)
        invariant remaining + done == changes.Keys && remaining !! done
        invariant forall k :: k in done ==> k in documentSizes && (changes[k].Some? ==> readTime != MinVersion)
        invariant Applied(before, txn.records, changes, done, readTime, trackRemovals)
        invariant sizeDelta == Sum(KeyPaths(done), delta)
        decreases remaining
      {
        var key :| key in remaining;
        if key !in documentSizes {
          return Err(DocumentNotRead(key));
        }
        var previousSize := documentSizes[key];
        ghost var mid := txn.records;
        match changes[key] {
          case Some(maybeDocument) =>
            if readTime == MinVersion {
              return Err(ZeroReadTime);
            }
            var doc := ToDbRemoteDocument(maybeDocument, readTime);
            var size := DbDocumentSize(doc, jsonLength).value;
            sizeDelta := sizeDelta + size - previousSize;
            documentCache.AddEntry(txn, key, doc);
          case None =>
            sizeDelta := sizeDelta - previousSize;
            if trackRemovals {
              var deletedDoc := ToDbRemoteDocument(NoDocument(key, ForDeletedDoc(), false), readTime);
              documentCache.AddEntry(txn, key, deletedDoc);
            } else {
              documentCache.RemoveEntry(txn, key);
            }
        }
        assert txn.records == SetRow(mid, key.path, StagedRow(key, changes[key], readTime, trackRemovals));
        AppliedStep(before, mid, changes, done, key, readTime, trackRemovals);
        KeyPathsAdd(done, key);
        SumAdd(KeyPaths(done), key.path, delta);
        remaining := remaining - {key};
        done := done + {key};
      }
      r := Ok(sizeDelta);
    }
  }
}
