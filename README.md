# IndexedDB remote document cache, in Dafny

This project models the Firestore web client's persisted remote-document cache. It covers two pieces:

- `IndexedDbRemoteDocumentCache` and its nested `RemoteDocumentChangeBuffer`;
- the remote-document part of `LocalSerializer`, which converts documents and snapshot versions to and from their stored form.

The IndexedDB object store is modelled by the class `SimpleDb.RemoteDocumentStore`, which stands for one transaction's view of the store. It holds:

- the rows, as a map from document path to `DbRemoteDocument`;
- the primary keys, kept sorted in path order;
- the `readTime` index and the `collectionReadTime` index, each a sorted sequence of (index key, primary key) entries;
- the `remoteDocumentGlobal` metadata row, which carries `byteSize`.

Cursor scans over key ranges are loops over those sorted sequences. A range is opened with `Seek` (inclusive lower bound) or `OpenLowerBound` (exclusive lower bound).

The modules are:

- `Model`: snapshot versions, document keys, the `Document | NoDocument | UnknownDocument` variant, and the query interface the cache consumes. A query consists of a path, a collection-group flag and an abstract `matches` predicate.
- `Schema`: the stored record `DbRemoteDocument`, with three payload slots, `readTime`, `parentPath` and `hasCommittedMutations`. Also the timestamp key and the orders of the two indexes.
- `Ordering`, `SortedSeqs`, `Sums`: lexicographic path order, sorted sequences with cursor helpers, and sums over finite sets (used for the `byteSize` accounting).
- `RemoteSerializer`: a structural stand-in for the proto conversion of a `Document`.
- `LocalSerializer`: `toDbRemoteDocument` and `fromDbRemoteDocument`, plus the timestamp converters.
- `SimpleDb`: the store, with `Put` and `Delete`, which maintain both indexes.
- `RemoteDocumentCache`: point and batch reads, the sorted merge scan `forEachDbEntry`, the query scan in its two modes (prefix and since-read-time), the change feed with its `lastProcessedReadTime` watermark, and the metadata row.
- `ChangeBuffer`: `getFromCache`, `getAllFromCache` and `applyChanges`, together with the `byteSize` invariant they keep.

`SnapshotVersion.forDeletedDoc()` is modelled as version 0, which equals `SnapshotVersion.MIN`. The code's own comments say so: the watermark is "set to 0" at indexeddb_remote_document_cache.ts:356, and sentinel deletes use "a version of 0" at :478-480. snapshot_version.ts itself is not part of this model.

The cache's own failure checks become `Err` results, using the `Model.Error` values. These are the `fail` on a record with no payload (local_serializer.ts:69, indexeddb_remote_document_cache.ts:576) and the asserts on the metadata row (:390), on staged changes (:459-466) and on collection-group queries (:268). The `fail` at local_serializer.ts:117 cannot be reached, because a `MaybeDocument` here has exactly three variants. Two asserts of other classes are not modelled: the `Timestamp` range checks and the even segment count of a `DocumentKey`. Both are listed under "Left out".

Some query and change-feed results are characterised completely only when the store is `WellFormed`, meaning every row is the encoding of a document stored at its own path. Without that condition, the model still proves what holds for any store. Every document a query returns is a match, stored under its own key. Every document the change feed returns is the decoding of a stored row read after the watermark, stored under its own key. The feed succeeds exactly when every such row decodes.

## Model

| member | source | states |
|---|---|---|
| LocalSerializer.FromDbRemoteDocument | packages/firestore/src/local/local_serializer.ts:52-71 | The slots are tried in the order document, noDocument, unknownDocument. The key and version come from the first filled slot, a Document's fields from its slot too, and the row's hasCommittedMutations goes to a Document or NoDocument. A record with no slot filled fails with UnexpectedDbRemoteDocument, and only such a record fails. |
| LocalSerializer.ToDbRemoteDocument | packages/firestore/src/local/local_serializer.ts:74-119 | Fills exactly the slot of the document's variant. Writes readTime as the timestamp key and parentPath as the key path without its last segment. An UnknownDocument is written with hasCommittedMutations true. Decoding the record gives the document back. |
| LocalSerializer.FromDbTimestampKey | packages/firestore/src/local/local_serializer.ts:126-129 | Inverts toDbTimestampKey: encoding the decoded version gives back the key. |
| LocalSerializer.FromDbTimestamp | packages/firestore/src/local/local_serializer.ts:136-142 | Inverts toDbTimestamp: encoding the decoded version gives back the struct. |
| LocalSerializer.TimestampRoundTrips | packages/firestore/src/local/local_serializer.ts:121-142 | For every version, fromDbTimestampKey(toDbTimestampKey(v)) == v and fromDbTimestamp(toDbTimestamp(v)) == v. |
| LocalSerializer.TimestampKeyOrderIsVersionOrder | packages/firestore/src/local/local_serializer.ts:121-124 | The [seconds, nanos] key orders versions exactly as versions are ordered, which is what makes the readTime indexes sortable. |
| RemoteDocumentCache.DbKey | packages/firestore/src/local/indexeddb_remote_document_cache.ts:560-562 | A row key is the document path, and DocumentKey.fromSegments recovers the key from it. |
| RemoteDocumentCache.DbDocumentSize | packages/firestore/src/local/indexeddb_remote_document_cache.ts:567-580 | Measures the first filled slot in the order document, unknownDocument, noDocument. Fails with UnknownRemoteDocumentType exactly when no slot is filled. |
| RemoteDocumentCache.EncodedSizeIgnoresReadTime | packages/firestore/src/local/indexeddb_remote_document_cache.ts:567-580 | Every encoded document has a size, and the size does not depend on the read time it is written at. |
| RemoteDocumentCache.MaybeDecodeDocument | packages/firestore/src/local/indexeddb_remote_document_cache.ts:406-423 | A missing row reads as absent. So does a row that decodes to a NoDocument at the deleted-document version (a sentinel delete). Every other row reads as its decoded variant. A row with no payload fails. |
| RemoteDocumentCache.IndexedDbRemoteDocumentCache.constructor | packages/firestore/src/local/indexeddb_remote_document_cache.ts:57-68 | The watermark starts at MIN. |
| RemoteDocumentCache.IndexedDbRemoteDocumentCache.Start | packages/firestore/src/local/indexeddb_remote_document_cache.ts:78-80 | After start, the watermark is the greatest stored read time: it is at or above every stored read time and equal to one of them. When no row has a read time, it is the deleted-document version. |
| RemoteDocumentCache.IndexedDbRemoteDocumentCache.AddEntry | packages/firestore/src/local/indexeddb_remote_document_cache.ts:88-101 | Writes the row at the document's path and changes no other row. The indexes stay consistent and the metadata is unchanged. |
| RemoteDocumentCache.IndexedDbRemoteDocumentCache.RemoveEntry | packages/firestore/src/local/indexeddb_remote_document_cache.ts:108-116 | Deletes the row at the document's path and changes nothing else. |
| RemoteDocumentCache.IndexedDbRemoteDocumentCache.UpdateMetadata | packages/firestore/src/local/indexeddb_remote_document_cache.ts:123-131 | Adds sizeDelta to byteSize. A missing metadata row fails and leaves the metadata unchanged. |
| RemoteDocumentCache.IndexedDbRemoteDocumentCache.GetSize | packages/firestore/src/local/indexeddb_remote_document_cache.ts:380-393 | Returns byteSize, or fails when the metadata row is missing. |
| RemoteDocumentCache.IndexedDbRemoteDocumentCache.GetEntry | packages/firestore/src/local/indexeddb_remote_document_cache.ts:133-142 | Returns maybeDecodeDocument of the row at the key. |
| RemoteDocumentCache.IndexedDbRemoteDocumentCache.GetSizedEntry | packages/firestore/src/local/indexeddb_remote_document_cache.ts:150-165 | Returns the live document and its dbDocumentSize. Returns absent exactly when maybeDecodeDocument does. |
| RemoteDocumentCache.IndexedDbRemoteDocumentCache.ForEachDbEntry | packages/firestore/src/local/indexeddb_remote_document_cache.ts:214-261 | Invokes the callback exactly once per requested key, in ascending order. Each key comes with its stored row or with none, including when the store or the key set is empty. |
| RemoteDocumentCache.IndexedDbRemoteDocumentCache.VisitKeys | packages/firestore/src/local/indexeddb_remote_document_cache.ts:227-260 | The merge of the sorted key set against the sorted primary keys: first the keys below the current row, then the key equal to it, then the keys left after the cursor ends. It visits the keys in order, each with its row. |
| RemoteDocumentCache.IndexedDbRemoteDocumentCache.GetEntries | packages/firestore/src/local/indexeddb_remote_document_cache.ts:167-180 | Maps exactly the requested keys, each to maybeDecodeDocument of its row. Fails exactly when some requested row has no payload. |
| RemoteDocumentCache.IndexedDbRemoteDocumentCache.GetSizedEntries | packages/firestore/src/local/indexeddb_remote_document_cache.ts:190-212 | The document map and the size map both have exactly the requested keys. Each size is that of the live row, and it is 0 when the document is absent. |
| RemoteDocumentCache.QueryScanVisit | packages/firestore/src/local/indexeddb_remote_document_cache.ts:296-311 | The query-scan callback. It fails exactly when a row of the collection's depth does not decode. It stops exactly at the first such row outside the collection path. Otherwise it adds a Document the query matches, under that Document's own key. |
| RemoteDocumentCache.VisitKeepsSound | packages/firestore/src/local/indexeddb_remote_document_cache.ts:302-311 | The callback keeps every earlier result. It adds only matching Documents, under their own keys, decoded from the row. |
| RemoteDocumentCache.VisitSelects | packages/firestore/src/local/indexeddb_remote_document_cache.ts:296-311 | On a well-formed row the callback never fails. It stops only at a row the query does not select. It skips rows of another depth. |
| RemoteDocumentCache.KeyScanStop | packages/firestore/src/local/indexeddb_remote_document_cache.ts:306-307 | In the prefix scan, once a row lies outside the collection path, every row under that path lies before it, so stopping there loses nothing. |
| RemoteDocumentCache.KeyScanFoldScanned | packages/firestore/src/local/indexeddb_remote_document_cache.ts:279-313 | After the callbacks from the collection path up to the cursor, the results are exactly the selected rows before the cursor, each decoded. |
| RemoteDocumentCache.KeyScanComplete | packages/firestore/src/local/indexeddb_remote_document_cache.ts:279-313 | When the prefix scan ends or stops, its results are sound. On a well-formed store they are exactly the immediate children of the collection that the query matches. |
| RemoteDocumentCache.IndexScanStart | packages/firestore/src/local/indexeddb_remote_document_cache.ts:284-294 | No row the query selects lies at or below the open lower bound (collection, since). |
| RemoteDocumentCache.IndexScanInRange | packages/firestore/src/local/indexeddb_remote_document_cache.ts:284-294 | Every row of the collection met inside the open range was read strictly after since. |
| RemoteDocumentCache.IndexScanStop | packages/firestore/src/local/indexeddb_remote_document_cache.ts:306-307 | In the collectionReadTime scan, once a row lies outside the collection, every selected row lies before it. |
| RemoteDocumentCache.IndexScanFoldScanned | packages/firestore/src/local/indexeddb_remote_document_cache.ts:284-313 | After the callbacks from the lower bound up to the cursor, the results are exactly the selected rows before the cursor, each decoded. |
| RemoteDocumentCache.IndexScanComplete | packages/firestore/src/local/indexeddb_remote_document_cache.ts:284-313 | When the collectionReadTime scan ends or stops, its results are sound. On a well-formed store they are exactly the matching immediate children read after since. |
| RemoteDocumentCache.IndexedDbRemoteDocumentCache.GetDocumentsMatchingQuery | packages/firestore/src/local/indexeddb_remote_document_cache.ts:263-314 | A collection-group query is refused. Every result is a Document under the query path that the query matches, stored under its own key. Any other failure points to a stored row of depth |query.path| + 1 that does not decode. That row may lie outside the collection, because the scan decodes every row of that depth before it tests the prefix. On a well-formed store the call succeeds, and the results are exactly the matching Documents one segment below the query path. When since is not MIN, they are only those read after since. |
| RemoteDocumentCache.IndexedDbRemoteDocumentCache.ScanCollectionByKey | packages/firestore/src/local/indexeddb_remote_document_cache.ts:279-313 | The prefix-mode scan loop, proved against the fold of the callback. Its results are sound, and on a well-formed store complete. It fails only on a row of the collection's depth, at or after the collection path, that does not decode. |
| RemoteDocumentCache.IndexedDbRemoteDocumentCache.ScanCollectionByReadTime | packages/firestore/src/local/indexeddb_remote_document_cache.ts:284-313 | The since-read-time scan loop over the collectionReadTime index. Its results are sound, and on a well-formed store complete. It fails only on a row of the collection's depth whose index entry lies above (collection, since) and which does not decode. |
| RemoteDocumentCache.FeedMonotone | packages/firestore/src/local/indexeddb_remote_document_cache.ts:333-335 | The watermark never falls below the read time the change feed started from. |
| RemoteDocumentCache.FeedWatermarkStored | packages/firestore/src/local/indexeddb_remote_document_cache.ts:333-336 | Where the feed stops, its watermark is since or the read time of a stored row. |
| RemoteDocumentCache.FeedAllDecode | packages/firestore/src/local/indexeddb_remote_document_cache.ts:321-340 | Once the feed has passed every entry above since, each of which decoded, every stored row read after since decodes. |
| RemoteDocumentCache.FeedCorruptRow | packages/firestore/src/local/indexeddb_remote_document_cache.ts:333-334 | A row the feed reaches that does not decode was read after since, so not every such row decodes. |
| RemoteDocumentCache.FeedSound | packages/firestore/src/local/indexeddb_remote_document_cache.ts:333-336 | Each result the feed has collected is the decoding of a stored row read after since. |
| RemoteDocumentCache.FeedEnd | packages/firestore/src/local/indexeddb_remote_document_cache.ts:321-340 | When the feed has passed every entry, the new watermark is at or above the old one and at or above every stored read time. On a well-formed store the results are every row read after the old watermark, sentinel deletes included. |
| RemoteDocumentCache.IndexedDbRemoteDocumentCache.ScanNewRows | packages/firestore/src/local/indexeddb_remote_document_cache.ts:321-340 | The change-feed cursor over the readTime index. It succeeds exactly when every stored row read after since decodes. On success, the cursor ends at the end of the index. On failure, it stops at the first row in index order that does not decode, and every row before it decodes. On any store, each result is the decoding of a row read after since. The returned watermark is the read time of the last entry consumed, or since when none was. That is since or a stored read time, never below since, and on success at or above every stored read time. |
| RemoteDocumentCache.IndexedDbRemoteDocumentCache.GetNewDocumentChanges | packages/firestore/src/local/indexeddb_remote_document_cache.ts:316-341 | The watermark never decreases. The read succeeds exactly when every stored row read after the old watermark decodes. On failure it stops at the first such row in read-time order. Results are keyed by their own key, and each is the decoding of a row read after the old watermark. The new watermark is the read time of the last row consumed, or the old one when none was. On success, no stored read time is above it. On a well-formed store the results are exactly the rows read after the old watermark, sentinel deletes included. |
| RemoteDocumentCache.LatestReadTime | packages/firestore/src/local/indexeddb_remote_document_cache.ts:357-367 | The last entry of the readTime index carries the greatest read time stored. |
| RemoteDocumentCache.IndexedDbRemoteDocumentCache.SynchronizeLastProcessedReadTime | packages/firestore/src/local/indexeddb_remote_document_cache.ts:348-369 | The watermark becomes the greatest stored read time. When no row has a read time, it becomes the deleted-document version. |
| ChangeBuffer.RemoteDocumentChangeBuffer.constructor | packages/firestore/src/local/indexeddb_remote_document_cache.ts:371-378 | Removals are tracked exactly when the options ask for it. A new buffer has no staged changes and no recorded sizes. |
| ChangeBuffer.RemoteDocumentChangeBuffer.GetFromCache | packages/firestore/src/local/indexeddb_remote_document_cache.ts:500-516 | Returns what getSizedEntry reads and records the key's live size, 0 when the key has no live row. Fails, recording nothing, on a corrupt row. |
| ChangeBuffer.RemoteDocumentChangeBuffer.GetAllFromCache | packages/firestore/src/local/indexeddb_remote_document_cache.ts:518-535 | Returns the documents getSizedEntries reads. It records the live size of every requested key and keeps every other recorded size. |
| ChangeBuffer.RemoteDocumentChangeBuffer.WriteChanges | packages/firestore/src/local/indexeddb_remote_document_cache.ts:457-493 | Fails exactly when a staged key has no recorded size, or when an upsert is staged with read time MIN. Otherwise every staged key holds its staged row, no other row changes, and the running sizeDelta equals the sum of the deltas. |
| ChangeBuffer.RemoteDocumentChangeBuffer.ApplyChanges | packages/firestore/src/local/indexeddb_remote_document_cache.ts:450-498 | Fails exactly on the two checks or when the metadata row is missing. Otherwise it writes each upsert and each removal as staged, adds the summed deltas to byteSize, and keeps byteSize equal to the stored size. |
| ChangeBuffer.StagedUpsertReadsBack | packages/firestore/src/local/indexeddb_remote_document_cache.ts:467-474 | An applied upsert reads back as the staged document, unless that document is itself shaped like a sentinel delete. |
| ChangeBuffer.StagedRemovalReadsAbsent | packages/firestore/src/local/indexeddb_remote_document_cache.ts:475-491 | An applied removal reads as absent. A tracked removal is a well-formed row that the change feed returns exactly when the watermark is below the buffer's read time. |
| ChangeBuffer.StagedLiveSize | packages/firestore/src/local/indexeddb_remote_document_cache.ts:466-476 | At a staged key whose change is not an upsert shaped like a sentinel delete, the live size after the write is the live size before it plus that change's delta. |
| ChangeBuffer.ApplyKeepsStoredSize | packages/firestore/src/local/indexeddb_remote_document_cache.ts:450-498 | Suppose every recorded size was the key's live size and no upsert is sentinel-shaped. Then applying the changes moves the sum of live row sizes by exactly the sizeDelta applyChanges computes, so byteSize stays equal to that sum. |

## Left out

- FromDbTimestampKey, FromDbTimestamp: never fail. A `Timestamp` is two unbounded integers. In the source, `new Timestamp(seconds, nanoseconds)` throws on nanoseconds outside [0, 1e9) and on seconds out of range, so a stored key or struct outside those ranges makes local_serializer.ts:126-142 throw. Timestamp validation belongs to timestamp.ts, which is not part of this model.
- The IndexedDB engine is not part of this model. Cursor `skip` and `done`, `IDBKeyRange` and `iterate` are modelled as loops over sorted sequences. `PersistencePromise` chaining is modelled as sequential composition.
- `dbDocumentSize` takes `JSON.stringify(value).length` as a parameter `jsonLength` of the cache. That function is deterministic and otherwise unspecified, and no proof depends on its values.
- The proto conversion of a `Document` (`JsonProtoSerializer.toDocument` and `fromDocument`) is a structural stand-in that round-trips. `toDbRemoteDocument` always converts, ignoring a cached `maybeDoc.proto`.
- `Query.matches` is an abstract predicate. Only the query path and the collection-group flag are concrete.
- Paths are ordered segment by segment with code-point string order. UTF-16 code-unit ordering is not modelled.
- `IndexManager.addToCollectionParentIndex`, called by `addEntry`, is left out because it belongs to another component.
- remote_document_change_buffer.ts, the base class of the change buffer, is not part of this model. Its staging is stood in for by `AddEntry` and `RemoveEntry` on the buffer, and its `readTime` is a field. Its `getEntry`, its single-use `apply` guard and the `changes` reset are left out.
- `getMetadata`, `setMetadata`, `documentGlobalStore` and `remoteDocumentsStore` are folded into the store's `metadata` field and its `PutMetadata` method.
- The rest of `LocalSerializer` is out of scope: mutation batches, targets, resource paths, and the `process.env` mock-persistence assert. The same goes for packages/messaging/src/models/clean-v1-undefined.ts, which is browser IndexedDB cleanup with no logic to state.
- DocumentKey: accepts a path of any length. The source builds keys with `DocumentKey.fromSegments` (indexeddb_remote_document_cache.ts:232, local_serializer.ts:59 and :65), and the `DocumentKey` constructor asserts an even segment count. So a stored path of odd length makes the source throw, while `VisitKeys` and `FromDbRemoteDocument` here treat it as an ordinary key. document_key.ts is not part of this model.
- ApplyChanges: on failure the contract says nothing about the rows already written, because in the source the transaction then aborts.
- ApplyKeepsStoredSize, StagedLiveSize: need the precondition that no staged upsert is a NoDocument at version 0. Such a row would be written and counted by size, but it reads as a sentinel delete, whose live size is 0.
- GetDocumentsMatchingQuery: completeness is proved only for a well-formed store. That includes the prefix mode, which does not use a row's readTime or parentPath. On an arbitrary store the proofs cover soundness, and that every failure points to a corrupt row of the collection's depth. They do not say which corrupt rows the scan reaches before it stops.
- ScanCollectionByKey: only failure is tied to a row. A failure points to a row of the collection's depth, at or after the collection path, that does not decode. Success does not exclude such a row among those the scan reached before it stopped.
- ScanCollectionByReadTime: only failure is tied to a row. A failure points to a row of the collection's depth whose index entry lies above (collection, since) and which does not decode. Success does not exclude such a row among those the scan reached before it stopped.
- GetNewDocumentChanges, ScanNewRows: completeness (every row read after the watermark is returned) is proved only for a well-formed store. Success, failure, the stopping row and the soundness of results are proved for any store.
