/**
 * IndexedDbRemoteDocumentCache: point and batch reads with sentinel-delete
 * filtering, the sorted merge scan, the single-collection query scan, the
 * change feed with its read-time watermark, and the byteSize metadata row.
 */
module RemoteDocumentCache {
  import opened Ordering
  import opened SortedSeqs
  import opened Model
  import opened Schema
  import opened LocalSerializer
  import opened SimpleDb

  /** The value whose JSON length dbDocumentSize measures: the payload slot it picked. */
  datatype SizedPayload =
    | DocumentPayload(document: ProtoDocument)
    | UnknownPayload(unknownDocument: DbUnknownDocument)
    | NoDocumentPayload(noDocument: DbNoDocument)

  datatype DocumentSizeEntry = DocumentSizeEntry(maybeDocument: MaybeDocument, size: nat)

  /** getSizedEntries' result: documents (absent as None) and sizes (absent as 0) by key. */
  datatype DocumentSizeEntries = DocumentSizeEntries(
    maybeDocuments: map<DocumentKey, Option<MaybeDocument>>,
    sizeMap: map<DocumentKey, nat>)

  /** One callback of forEachDbEntry: a requested key and the row stored at it, if any. */
  type Visit = (DocumentKey, Option<DbRemoteDocument>)

  type Records = map<DbRemoteDocumentKey, DbRemoteDocument>

  /** dbKey: the row key of a document is its path; DocumentKey.fromSegments inverts it. */
  function DbKey(key: DocumentKey): (k: DbRemoteDocumentKey)
    ensures DocumentKey(k) == key
  {
    key.path
  }

  /**
   * dbDocumentSize: the JSON length of the first populated slot in the order
   * document, unknownDocument, noDocument; a row with none is corrupt.
   */
  function DbDocumentSize(r: DbRemoteDocument, jsonLength: SizedPayload -> nat): (size: Result<nat>)
    ensures size.Err? <==> !HasPayload(r)
    ensures size.Err? ==> size.error == UnknownRemoteDocumentType
    ensures r.document.Some? ==> size == Ok(jsonLength(DocumentPayload(r.document.value)))
    ensures r.document.None? && r.unknownDocument.Some? ==> size == Ok(jsonLength(UnknownPayload(r.unknownDocument.value)))
    ensures r.document.None? && r.unknownDocument.None? && r.noDocument.Some? ==>
      size == Ok(jsonLength(NoDocumentPayload(r.noDocument.value)))
  {
    if r.document.Some? then Ok(jsonLength(DocumentPayload(r.document.value)))
    else if r.unknownDocument.Some? then Ok(jsonLength(UnknownPayload(r.unknownDocument.value)))
    else if r.noDocument.Some? then Ok(jsonLength(NoDocumentPayload(r.noDocument.value)))
    else Err(UnknownRemoteDocumentType)
  }

  /**
   * The size of an encoded document depends on the document alone, not on the
   * read time it is written at, so a size recorded at one write is the size
   * measured at the next read.
   */
  lemma EncodedSizeIgnoresReadTime(d: MaybeDocument, t1: SnapshotVersion, t2: SnapshotVersion, jsonLength: SizedPayload -> nat)
    ensures DbDocumentSize(ToDbRemoteDocument(d, t1), jsonLength).Ok?
    ensures DbDocumentSize(ToDbRemoteDocument(d, t1), jsonLength) == DbDocumentSize(ToDbRemoteDocument(d, t2), jsonLength)
  {
  }

  /**
   * maybeDecodeDocument: no row and a sentinel delete both read as absent;
   * every other row reads as its decoded variant.
   */
  function MaybeDecodeDocument(r: Option<DbRemoteDocument>): (d: Result<Option<MaybeDocument>>)
    ensures r.None? ==> d == Ok(None)
    ensures r.Some? ==> (d.Err? <==> !HasPayload(r.value))
    ensures r.Some? && HasPayload(r.value) ==>
      && d.Ok?
      && (d.value.None? <==> IsSentinelDelete(FromDbRemoteDocument(r.value).value))
      && (d.value.Some? ==> d.value.value == FromDbRemoteDocument(r.value).value)
  {
    if r.Some? then
      var decoded := FromDbRemoteDocument(r.value);
      if decoded.Err? then Err(decoded.error)
      else if decoded.value.NoDocument? && decoded.value.version == ForDeletedDoc() then Ok(None)
      else Ok(Some(decoded.value))
    else
      Ok(None)
  }

  /** The size the cache reports for a key: that of its live row, 0 when it has none. */
  ghost function LiveSize(records: Records, k: DbRemoteDocumentKey, jsonLength: SizedPayload -> nat): nat {
    var live := MaybeDecodeDocument(Get(records, k));
    if live.Ok? && live.value.Some? then DbDocumentSize(records[k], jsonLength).value else 0
  }

  /** Every row is the encoding of a document stored at its own path. */
  ghost predicate WellFormedRow(k: DbRemoteDocumentKey, r: DbRemoteDocument) {
    && ExactlyOnePayload(r)
    && FromDbRemoteDocument(r).Ok?
    && FromDbRemoteDocument(r).value.key.path == k
    && r.parentPath == Some(PopLast(k))
    && r.readTime.Some?
  }

  ghost predicate WellFormed(records: Records) {
    forall k :: k in records ==> WellFormedRow(k, records[k])
  }

  /** Rows written by toDbRemoteDocument at their document's path are well formed. */
  lemma EncodedRowIsWellFormed(d: MaybeDocument, readTime: SnapshotVersion)
    ensures WellFormedRow(DbKey(d.key), ToDbRemoteDocument(d, readTime))
  {
  }

  /** Rows a query returns: immediate children of the collection, changed after since, matching. */
  ghost predicate InQueryResult(records: Records, q: Query, since: SnapshotVersion, k: DbRemoteDocumentKey) {
    && k in records
    && |k| == |q.path| + 1
    && IsPrefix(q.path, k)
    && (since != MinVersion ==>
          records[k].readTime.Some? && VersionLess(since, FromDbTimestampKey(records[k].readTime.value)))
    && FromDbRemoteDocument(records[k]).Ok?
    && FromDbRemoteDocument(records[k]).value.Document?
    && q.matches(FromDbRemoteDocument(records[k]).value)
  }

  /** Rows the change feed returns: every row, sentinel deletes included, read after the watermark. */
  ghost predicate InChangeFeed(records: Records, watermark: SnapshotVersion, k: DbRemoteDocumentKey) {
    && k in records
    && records[k].readTime.Some?
    && VersionLess(watermark, FromDbTimestampKey(records[k].readTime.value))
    && FromDbRemoteDocument(records[k]).Ok?
  }

  // Path-order steps of the cursor scans, each proved from the strict total order.

  lemma PathTotal(a: ResourcePath, b: ResourcePath)
    requires a != b && !PathLess(b, a)
    ensures PathLess(a, b)
  {
    PathLessIsStrictTotal();
  }

  lemma PathTransitive(a: ResourcePath, b: ResourcePath, c: ResourcePath)
    requires PathLess(a, b) && PathLess(b, c)
    ensures PathLess(a, c)
  {
    PathLessIsStrictTotal();
  }

  lemma PathAbsent(rows: seq<ResourcePath>, j: nat, x: ResourcePath)
    requires Sorted(rows, PathLess) && j <= |rows| && AllBelow(rows, j, x, PathLess)
    requires j < |rows| ==> PathLess(x, rows[j])
    ensures x !in rows
  {
    PathLessIsStrictTotal();
    Absent(rows, j, x, PathLess);
  }

  lemma PathBelowExtend(rows: seq<ResourcePath>, j: nat, x: ResourcePath)
    requires Sorted(rows, PathLess) && j < |rows| && PathLess(rows[j], x)
    ensures AllBelow(rows, j + 1, x, PathLess)
  {
    PathLessIsStrictTotal();
    AllBelowExtend(rows, j, x, PathLess);
  }

  /** A key the cursor has stepped over has no row. */
  lemma RowAbsent(rows: seq<DbRemoteDocumentKey>, records: Records, j: nat, x: ResourcePath)
    requires KeysInOrder(rows, records) && j <= |rows| && AllBelow(rows, j, x, PathLess)
    requires j < |rows| ==> PathLess(x, rows[j])
    ensures Get(records, x) == None
  {
    PathAbsent(rows, j, x);
  }

  /** The first |visits| requested keys were visited in order, each with its stored row. */
  ghost predicate VisitsMatch(visits: seq<Visit>, keys: seq<DocumentKey>, records: Records) {
    && |visits| <= |keys|
    && forall t :: 0 <= t < |visits| ==> visits[t] == (keys[t], Get(records, DbKey(keys[t])))
  }

  lemma VisitsAppend(visits: seq<Visit>, keys: seq<DocumentKey>, records: Records, v: Visit)
    requires VisitsMatch(visits, keys, records) && |visits| < |keys|
    requires v == (keys[|visits|], Get(records, DbKey(keys[|visits|])))
    ensures VisitsMatch(visits + [v], keys, records)
  {
  }

  /** The next requested key is above every row the previous one was above. */
  lemma NextKeyAbove(keys: seq<DocumentKey>, i: nat, rows: seq<ResourcePath>, j: nat)
    requires Sorted(keys, KeyLess) && 0 < i < |keys| && AllBelow(rows, j, keys[i - 1].path, PathLess)
    ensures AllBelow(rows, j, keys[i].path, PathLess)
  {
    PathLessIsStrictTotal();
    assert KeyLess(keys[i - 1], keys[i]);
    AllBelowRaise(rows, j, keys[i - 1].path, keys[i].path, PathLess);
  }

  /** Every answer is a Document under the query's path that the query matches, under its own key. */
  predicate SoundAnswer(results: map<DocumentKey, MaybeDocument>, q: Query) {
    forall k :: k in results ==>
      results[k].Document? && results[k].key == k && IsPrefix(q.path, k.path) && q.matches(results[k])
  }

  /** The answer holds exactly the rows InQueryResult selects, each decoded. */
  ghost predicate CompleteAnswer(results: map<DocumentKey, MaybeDocument>, records: Records, q: Query, since: SnapshotVersion) {
    && (forall k :: k in results <==> InQueryResult(records, q, since, k.path))
    && (forall k :: k in results ==> Ok(results[k]) == FromDbRemoteDocument(records[k.path]))
  }

  /** The prefix scan with its cursor at j has collected exactly the selected rows it has passed. */
  ghost predicate KeyScanned(results: map<DocumentKey, MaybeDocument>, records: Records, q: Query,
                             rows: seq<DbRemoteDocumentKey>, j: nat)
    requires j <= |rows|
  {
    && (forall k {:trigger k in results} :: k in results <==> InQueryResult(records, q, MinVersion, k.path) && BeforeCursor(rows, j, k.path, PathLess))
    && (forall k :: k in results ==> Ok(results[k]) == FromDbRemoteDocument(records[k.path]))
  }

  /** The index scan with its cursor at j has collected exactly the selected rows it has passed. */
  ghost predicate IndexScanned(results: map<DocumentKey, MaybeDocument>, records: Records, q: Query, since: SnapshotVersion,
                               idx: seq<CollectionReadTimeEntry>, j: nat)
    requires j <= |idx|
  {
    && (forall k {:trigger k in results} :: k in results <==>
          && InQueryResult(records, q, since, k.path)
          && CollectionIndexKey(records[k.path]).Some?
          && BeforeCursor(idx, j, CollectionEntryOf(records, k.path), CollectionEntryLess))
    && (forall k :: k in results ==> Ok(results[k]) == FromDbRemoteDocument(records[k.path]))
  }

  /** The entry a row has in the collectionReadTime index. */
  ghost function CollectionEntryOf(records: Records, k: DbRemoteDocumentKey): CollectionReadTimeEntry
    requires k in records && CollectionIndexKey(records[k]).Some?
  {
    (CollectionIndexKey(records[k]).value, k)
  }

  /** The entry a row has in the readTime index. */
  ghost function ReadTimeEntryOf(records: Records, k: DbRemoteDocumentKey): ReadTimeEntry
    requires k in records && records[k].readTime.Some?
  {
    (records[k].readTime.value, k)
  }

  /** An immediate child of a collection has the collection as its parent path. */
  lemma ChildParent(q: ResourcePath, k: ResourcePath)
    requires |k| == |q| + 1
    ensures IsPrefix(q, k) <==> PopLast(k) == q
  {
  }

  /** Moving the prefix-scan cursor past row `j` adds exactly that row to the rows behind it. */
  ghost predicate KeyCursorPasses(rows: seq<DbRemoteDocumentKey>, records: Records, j: nat)
    requires j < |rows|
  {
    forall k :: k in records ==>
      (BeforeCursor(rows, j + 1, k, PathLess) <==> BeforeCursor(rows, j, k, PathLess) || k == rows[j])
  }

  /** Moving the index-scan cursor past entry `j` adds exactly that entry's row to the rows behind it. */
  ghost predicate IndexCursorPasses(idx: seq<CollectionReadTimeEntry>, records: Records, j: nat)
    requires WellFormed(records) && j < |idx|
  {
    forall k :: k in records ==>
      (BeforeCursor(idx, j + 1, CollectionEntryOf(records, k), CollectionEntryLess) <==>
       BeforeCursor(idx, j, CollectionEntryOf(records, k), CollectionEntryLess) || k == idx[j].1)
  }

  lemma KeyScanStep(rows: seq<DbRemoteDocumentKey>, records: Records, j: nat)
    requires KeysInOrder(rows, records) && j < |rows|
    ensures KeyCursorPasses(rows, records, j)
  {
    PathLessIsStrictTotal();
    forall k | k in records
      ensures BeforeCursor(rows, j + 1, k, PathLess) <==> BeforeCursor(rows, j, k, PathLess) || k == rows[j]
    {
      CursorStep(rows, j, k, PathLess);
    }
  }

  /** Every row the prefix scan reaches lies at or above the collection path. */
  lemma KeyScanFromCollection(rows: seq<DbRemoteDocumentKey>, q: ResourcePath, start: nat, j: nat)
    requires Sorted(rows, PathLess) && start == Seek(rows, 0, q, PathLess) && start <= j < |rows|
    ensures !PathLess(rows[j], q)
  {
    PathLessIsStrictTotal();
    if j > start {
      assert PathLess(rows[start], rows[j]);
    }
  }

  /**
   * Rows with a common prefix are contiguous in key order, so the first row
   * at or after the collection path that lies outside the collection is
   * above every row inside it: stopping there loses nothing.
   */
  lemma KeyScanStop(rows: seq<DbRemoteDocumentKey>, records: Records, q: ResourcePath, start: nat, j: nat)
    requires KeysInOrder(rows, records) && start == Seek(rows, 0, q, PathLess)
    requires start <= j < |rows| && !IsPrefix(q, rows[j])
    ensures forall k :: k in records && IsPrefix(q, k) ==> BeforeCursor(rows, j, k, PathLess)
  {
    PathLessIsStrictTotal();
    StringLessIsStrictTotal();
    if j > start {
      assert PathLess(rows[start], rows[j]);
    }
    assert !PathLess(rows[j], q);
    forall k | k in records && IsPrefix(q, k)
      ensures PathLess(k, rows[j])
    {
      if PathLess(rows[j], k) {
        assert !PathLess(k, rows[j]);
        PrefixBlock(q, rows[j], k, StringLess);
      }
    }
  }

  /** Every entry from the opening of an open range on, in index order, is inside the range. */
  lemma CollectionRangeRest(idx: seq<CollectionReadTimeEntry>, bound: (ResourcePath, DbTimestampKey), start: nat, j: nat)
    requires Sorted(idx, CollectionEntryLess) && start <= j < |idx| && CollectionKeyLess(bound, idx[start].0)
    ensures CollectionKeyLess(bound, idx[j].0)
  {
    CollectionKeyLessIsStrictTotal();
    if j > start {
      assert CollectionEntryLess(idx[start], idx[j]);
    }
  }

  lemma IndexScanStep(idx: seq<CollectionReadTimeEntry>, records: Records, j: nat)
    requires CollectionIndexInOrder(idx, records) && WellFormed(records) && j < |idx|
    ensures IndexCursorPasses(idx, records, j)
  {
    CollectionEntryLessIsStrictTotal();
    forall k | k in records
      ensures BeforeCursor(idx, j + 1, CollectionEntryOf(records, k), CollectionEntryLess) <==>
              BeforeCursor(idx, j, CollectionEntryOf(records, k), CollectionEntryLess) || k == idx[j].1
    {
      CursorStep(idx, j, CollectionEntryOf(records, k), CollectionEntryLess);
    }
  }

  /** A row of the collection met inside the range was read after since. */
  lemma IndexScanInRange(idx: seq<CollectionReadTimeEntry>, records: Records, q: Query, since: SnapshotVersion, start: nat, j: nat)
    requires CollectionIndexInOrder(idx, records) && WellFormed(records)
    requires start == OpenLowerBound(idx, (q.path, ToDbTimestampKey(since)), CollectionKeyLess)
    requires start <= j < |idx|
    requires |idx[j].1| == |q.path| + 1 && IsPrefix(q.path, idx[j].1)
    ensures records[idx[j].1].readTime.Some?
    ensures VersionLess(since, FromDbTimestampKey(records[idx[j].1].readTime.value))
  {
    var k := idx[j].1;
    assert idx[j] in idx;
    CollectionRangeRest(idx, (q.path, ToDbTimestampKey(since)), start, j);
    ChildParent(q.path, k);
    PathLessIsStrictTotal();
    TimestampKeyOrderIsVersionOrder(since, FromDbTimestampKey(records[k].readTime.value));
  }

  /**
   * The first row of the right depth met inside the range whose parent is
   * not the collection has a parent above it, so every row the query selects
   * lies before it in the index.
   */
  lemma IndexScanStop(idx: seq<CollectionReadTimeEntry>, records: Records, q: Query, since: SnapshotVersion, start: nat, j: nat)
    requires CollectionIndexInOrder(idx, records) && WellFormed(records) && since != MinVersion
    requires start == OpenLowerBound(idx, (q.path, ToDbTimestampKey(since)), CollectionKeyLess)
    requires start <= j < |idx|
    requires |idx[j].1| == |q.path| + 1 && !IsPrefix(q.path, idx[j].1)
    ensures forall k :: InQueryResult(records, q, since, k) ==>
      BeforeCursor(idx, j, CollectionEntryOf(records, k), CollectionEntryLess)
  {
    assert idx[j] in idx;
    CollectionRangeRest(idx, (q.path, ToDbTimestampKey(since)), start, j);
    ChildParent(q.path, idx[j].1);
    assert PathLess(q.path, idx[j].0.0);
    forall k | InQueryResult(records, q, since, k)
      ensures CollectionEntryLess(CollectionEntryOf(records, k), idx[j])
    {
      ChildParent(q.path, k);
    }
  }

  /**
   * One cursor step over a row of the collection: the results gain the row
   * exactly when it is a matching document.
   */
  lemma KeyScannedStep(results: map<DocumentKey, MaybeDocument>, records: Records, q: Query, rows: seq<DbRemoteDocumentKey>,
                       j: nat, d: MaybeDocument)
    requires j < |rows| && rows[j] in records && WellFormedRow(rows[j], records[rows[j]])
    requires KeyCursorPasses(rows, records, j)
    requires KeyScanned(results, records, q, rows, j)
    requires FromDbRemoteDocument(records[rows[j]]) == Ok(d) && |rows[j]| == |q.path| + 1 && IsPrefix(q.path, d.key.path)
    ensures KeyScanned(if d.Document? && q.matches(d) then results[d.key := d] else results, records, q, rows, j + 1)
  {
    var next := if d.Document? && q.matches(d) then results[d.key := d] else results;
    forall k
      ensures k in next <==> InQueryResult(records, q, MinVersion, k.path) && BeforeCursor(rows, j + 1, k.path, PathLess)
    {
      if k.path in records {
        assert BeforeCursor(rows, j + 1, k.path, PathLess) <==> BeforeCursor(rows, j, k.path, PathLess) || k.path == rows[j];
      }
    }
  }

  /** A corrupt row means the store is not well formed. */
  lemma CorruptRow(records: Records, k: DbRemoteDocumentKey)
    requires k in records && FromDbRemoteDocument(records[k]).Err?
    ensures !WellFormed(records)
  {
  }

  /**
   * One cursor step over an entry for a row of the collection read after
   * since: the results gain the row exactly when it is a matching document.
   */
  lemma IndexScannedStep(results: map<DocumentKey, MaybeDocument>, records: Records, q: Query, since: SnapshotVersion,
                         idx: seq<CollectionReadTimeEntry>, j: nat, d: MaybeDocument)
    requires WellFormed(records) && j < |idx| && idx[j].1 in records
    requires IndexCursorPasses(idx, records, j)
    requires IndexScanned(results, records, q, since, idx, j)
    requires FromDbRemoteDocument(records[idx[j].1]) == Ok(d) && |idx[j].1| == |q.path| + 1 && IsPrefix(q.path, d.key.path)
    requires since != MinVersion ==>
      records[idx[j].1].readTime.Some? && VersionLess(since, FromDbTimestampKey(records[idx[j].1].readTime.value))
    ensures IndexScanned(if d.Document? && q.matches(d) then results[d.key := d] else results, records, q, since, idx, j + 1)
  {
    var next := if d.Document? && q.matches(d) then results[d.key := d] else results;
    forall k
      ensures k in next <==>
        && InQueryResult(records, q, since, k.path)
        && CollectionIndexKey(records[k.path]).Some?
        && BeforeCursor(idx, j + 1, CollectionEntryOf(records, k.path), CollectionEntryLess)
    {
      if k.path in records {
        assert BeforeCursor(idx, j + 1, CollectionEntryOf(records, k.path), CollectionEntryLess) <==>
          BeforeCursor(idx, j, CollectionEntryOf(records, k.path), CollectionEntryLess) || k.path == idx[j].1;
      }
    }
  }

  /** What one callback of a query scan tells the cursor: go on with these results, stop, or fail. */
  datatype ScanStep = Next(results: map<DocumentKey, MaybeDocument>) | Done | Failed(error: Error)

  /**
   * The callback both query scans run on each row the cursor yields: a row
   * of another depth is skipped, a row that does not decode fails the read,
   * the first row outside the collection stops the cursor, and a Document
   * the query matches is added under its own key.
   */
  function QueryScanVisit(q: Query, key: DbRemoteDocumentKey, row: DbRemoteDocument,
                          results: map<DocumentKey, MaybeDocument>): (step: ScanStep)
    ensures step.Failed? <==> |key| == |q.path| + 1 && FromDbRemoteDocument(row).Err?
    ensures step.Done? <==>
      |key| == |q.path| + 1 && FromDbRemoteDocument(row).Ok? && !IsPrefix(q.path, FromDbRemoteDocument(row).value.key.path)
  {
    if |key| != |q.path| + 1 then Next(results)
    else match FromDbRemoteDocument(row)
      case Err(e) => Failed(e)
      case Ok(maybeDoc) =>
        if !IsPrefix(q.path, maybeDoc.key.path) then Done
        else if maybeDoc.Document? && q.matches(maybeDoc) then Next(results[maybeDoc.key := maybeDoc])
        else Next(results)
  }

  /** The callback adds only a matching document, under its own key, and drops nothing. */
  lemma VisitKeepsSound(q: Query, key: DbRemoteDocumentKey, row: DbRemoteDocument, results: map<DocumentKey, MaybeDocument>)
    requires SoundAnswer(results, q) && QueryScanVisit(q, key, row, results).Next?
    ensures SoundAnswer(QueryScanVisit(q, key, row, results).results, q)
    ensures results.Keys <= QueryScanVisit(q, key, row, results).results.Keys
    ensures forall k :: k in QueryScanVisit(q, key, row, results).results && k !in results ==>
      FromDbRemoteDocument(row) == Ok(QueryScanVisit(q, key, row, results).results[k])
  {
  }

  /** On a well-formed row the callback adds the row exactly when the query selects it. */
  lemma VisitSelects(q: Query, records: Records, key: DbRemoteDocumentKey, results: map<DocumentKey, MaybeDocument>)
    requires key in records && WellFormedRow(key, records[key])
    ensures !QueryScanVisit(q, key, records[key], results).Failed?
    ensures QueryScanVisit(q, key, records[key], results).Done? ==> !InQueryResult(records, q, MinVersion, key)
    ensures QueryScanVisit(q, key, records[key], results).Next? && |key| != |q.path| + 1 ==>
      QueryScanVisit(q, key, records[key], results).results == results
  {
  }

  // The prefix scan, over the rows in key order from the collection path on.

  /** What the prefix scan holds once its cursor reaches j: the callback run on every row from start on. */
  ghost function KeyScanFold(rows: seq<DbRemoteDocumentKey>, records: Records, q: Query, start: nat, j: nat)
    : map<DocumentKey, MaybeDocument>
    requires start <= j <= |rows|
    decreases j
  {
    if j == start then map[]
    else
      var prev := KeyScanFold(rows, records, q, start, j - 1);
      var key := rows[j - 1];
      if key in records && QueryScanVisit(q, key, records[key], prev).Next? then QueryScanVisit(q, key, records[key], prev).results
      else prev
  }

  /** The prefix scan's loop state: the cursor is at j and the results are those of the callbacks so far. */
  ghost predicate KeyScanState(rows: seq<DbRemoteDocumentKey>, records: Records, q: Query, start: nat, j: nat,
                               results: map<DocumentKey, MaybeDocument>)
  {
    && KeysInOrder(rows, records)
    && start == Seek(rows, 0, q.path, PathLess)
    && start <= j <= |rows|
    && results == KeyScanFold(rows, records, q, start, j)
  }

  /** The callbacks only ever add matching documents under their own keys. */
  lemma {:induction false} KeyScanFoldSound(rows: seq<DbRemoteDocumentKey>, records: Records, q: Query, start: nat, j: nat)
    requires start <= j <= |rows|
    ensures SoundAnswer(KeyScanFold(rows, records, q, start, j), q)
  {
    if j > start {
      KeyScanFoldSound(rows, records, q, start, j - 1);
      var prev := KeyScanFold(rows, records, q, start, j - 1);
      var key := rows[j - 1];
      if key in records && QueryScanVisit(q, key, records[key], prev).Next? {
        VisitKeepsSound(q, key, records[key], prev);
      }
    }
  }

  /** The prefix scan opens at the collection path: no row inside the collection lies before it. */
  lemma KeyScanStart(rows: seq<DbRemoteDocumentKey>, records: Records, q: Query, start: nat)
    requires KeysInOrder(rows, records) && start == Seek(rows, 0, q.path, PathLess)
    ensures KeyScanned(map[], records, q, rows, start)
  {
    PathLessIsStrictTotal();
    StringLessIsStrictTotal();
    forall k | k in records && IsPrefix(q.path, k)
      ensures !BeforeCursor(rows, start, k, PathLess)
    {
      PrefixNotAbove(q.path, k, StringLess);
      CursorStart(rows, start, k, PathLess);
    }
  }

  /** A row the query does not select leaves the results as they were when the cursor passes it. */
  lemma KeyScanPass(rows: seq<DbRemoteDocumentKey>, records: Records, q: Query, j: nat, results: map<DocumentKey, MaybeDocument>)
    requires WellFormed(records) && j < |rows|
    requires KeyCursorPasses(rows, records, j)
    requires KeyScanned(results, records, q, rows, j) && !InQueryResult(records, q, MinVersion, rows[j])
    ensures KeyScanned(results, records, q, rows, j + 1)
  {
  }

  /** One callback moves the prefix scan's cursor one row on, keeping exactly the selected rows it passed. */
  lemma KeyScanFoldStep(rows: seq<DbRemoteDocumentKey>, records: Records, q: Query, start: nat, j: nat)
    requires KeysInOrder(rows, records) && WellFormed(records) && start < j <= |rows|
    requires KeyScanned(KeyScanFold(rows, records, q, start, j - 1), records, q, rows, j - 1)
    ensures KeyScanned(KeyScanFold(rows, records, q, start, j), records, q, rows, j)
  {
    var key := rows[j - 1];
    assert key in rows;
    var results := KeyScanFold(rows, records, q, start, j - 1);
    VisitSelects(q, records, key, results);
    KeyScanStep(rows, records, j - 1);
    if |key| != |q.path| + 1 || QueryScanVisit(q, key, records[key], results).Done? {
      KeyScanFoldPass(rows, records, q, start, j);
    } else {
      KeyScanFoldKeep(rows, records, q, start, j);
    }
  }

  /** A row the callback skips, or the one it stops at, leaves the results as they were. */
  lemma KeyScanFoldPass(rows: seq<DbRemoteDocumentKey>, records: Records, q: Query, start: nat, j: nat)
    requires WellFormed(records) && start < j <= |rows| && rows[j - 1] in records
    requires KeyCursorPasses(rows, records, j - 1)
    requires KeyScanned(KeyScanFold(rows, records, q, start, j - 1), records, q, rows, j - 1)
    requires var results := KeyScanFold(rows, records, q, start, j - 1);
      |rows[j - 1]| != |q.path| + 1 || QueryScanVisit(q, rows[j - 1], records[rows[j - 1]], results).Done?
    ensures KeyScanned(KeyScanFold(rows, records, q, start, j), records, q, rows, j)
  {
    var results := KeyScanFold(rows, records, q, start, j - 1);
    VisitSelects(q, records, rows[j - 1], results);
    assert KeyScanFold(rows, records, q, start, j) == results;
    KeyScanPass(rows, records, q, j - 1, results);
  }

  /** A row of the collection's depth inside it: the results gain it exactly when it is a matching document. */
  lemma KeyScanFoldKeep(rows: seq<DbRemoteDocumentKey>, records: Records, q: Query, start: nat, j: nat)
    requires WellFormed(records) && start < j <= |rows| && rows[j - 1] in records
    requires KeyCursorPasses(rows, records, j - 1)
    requires KeyScanned(KeyScanFold(rows, records, q, start, j - 1), records, q, rows, j - 1)
    requires var results := KeyScanFold(rows, records, q, start, j - 1);
      |rows[j - 1]| == |q.path| + 1 && !QueryScanVisit(q, rows[j - 1], records[rows[j - 1]], results).Done?
    ensures KeyScanned(KeyScanFold(rows, records, q, start, j), records, q, rows, j)
  {
    var key := rows[j - 1];
    var results := KeyScanFold(rows, records, q, start, j - 1);
    var d := FromDbRemoteDocument(records[key]).value;
    assert KeyScanFold(rows, records, q, start, j) == if d.Document? && q.matches(d) then results[d.key := d] else results;
    KeyScannedStep(results, records, q, rows, j - 1, d);
  }

  /** Under a well-formed store, the callbacks so far have kept exactly the selected rows the cursor passed. */
  lemma {:induction false} KeyScanFoldScanned(rows: seq<DbRemoteDocumentKey>, records: Records, q: Query, start: nat, j: nat)
    requires KeysInOrder(rows, records) && WellFormed(records) && start == Seek(rows, 0, q.path, PathLess) && start <= j <= |rows|
    ensures KeyScanned(KeyScanFold(rows, records, q, start, j), records, q, rows, j)
  {
    if j == start {
      assert KeyScanFold(rows, records, q, start, j) == map[];
      KeyScanStart(rows, records, q, start);
    } else {
      KeyScanFoldScanned(rows, records, q, start, j - 1);
      KeyScanFoldStep(rows, records, q, start, j);
    }
  }

  /**
   * When the cursor runs off the end, or the callback stops it at the first
   * row outside the collection, the prefix scan has its whole answer.
   */
  lemma KeyScanComplete(rows: seq<DbRemoteDocumentKey>, records: Records, q: Query, start: nat, j: nat,
                        results: map<DocumentKey, MaybeDocument>)
    requires KeyScanState(rows, records, q, start, j, results)
    requires j == |rows| || (rows[j] in records && QueryScanVisit(q, rows[j], records[rows[j]], results).Done?)
    ensures SoundAnswer(results, q)
    ensures WellFormed(records) ==> CompleteAnswer(results, records, q, MinVersion)
  {
    KeyScanFoldSound(rows, records, q, start, j);
    if WellFormed(records) {
      KeyScanFoldScanned(rows, records, q, start, j);
      if j < |rows| {
        assert rows[j] in rows;
        KeyScanStop(rows, records, q.path, start, j);
      }
    }
  }

  // The index scan, over the collectionReadTime index above (collection, since).

  /** What the index scan holds once its cursor reaches j: the callback run on every entry's row from start on. */
  ghost function IndexScanFold(idx: seq<CollectionReadTimeEntry>, records: Records, q: Query, start: nat, j: nat)
    : map<DocumentKey, MaybeDocument>
    requires start <= j <= |idx|
    decreases j
  {
    if j == start then map[]
    else
      var prev := IndexScanFold(idx, records, q, start, j - 1);
      var key := idx[j - 1].1;
      if key in records && QueryScanVisit(q, key, records[key], prev).Next? then QueryScanVisit(q, key, records[key], prev).results
      else prev
  }

  /** The index scan's loop state: the cursor is at j and the results are those of the callbacks so far. */
  ghost predicate IndexScanState(idx: seq<CollectionReadTimeEntry>, records: Records, q: Query, since: SnapshotVersion, start: nat, j: nat,
                                 results: map<DocumentKey, MaybeDocument>)
  {
    && CollectionIndexInOrder(idx, records)
    && since != MinVersion
    && start == OpenLowerBound(idx, (q.path, ToDbTimestampKey(since)), CollectionKeyLess)
    && start <= j <= |idx|
    && results == IndexScanFold(idx, records, q, start, j)
  }

  /** The callbacks only ever add matching documents under their own keys. */
  lemma {:induction false} IndexScanFoldSound(idx: seq<CollectionReadTimeEntry>, records: Records, q: Query, start: nat, j: nat)
    requires start <= j <= |idx|
    ensures SoundAnswer(IndexScanFold(idx, records, q, start, j), q)
  {
    if j > start {
      IndexScanFoldSound(idx, records, q, start, j - 1);
      var prev := IndexScanFold(idx, records, q, start, j - 1);
      var key := idx[j - 1].1;
      if key in records && QueryScanVisit(q, key, records[key], prev).Next? {
        VisitKeepsSound(q, key, records[key], prev);
      }
    }
  }

  /** The index scan opens above (collection, since): no row the query selects lies before it. */
  lemma IndexScanStart(idx: seq<CollectionReadTimeEntry>, records: Records, q: Query, since: SnapshotVersion, start: nat)
    requires CollectionIndexInOrder(idx, records) && WellFormed(records) && since != MinVersion
    requires start == OpenLowerBound(idx, (q.path, ToDbTimestampKey(since)), CollectionKeyLess)
    ensures IndexScanned(map[], records, q, since, idx, start)
  {
    CollectionEntryLessIsStrictTotal();
    forall k | InQueryResult(records, q, since, k)
      ensures !BeforeCursor(idx, start, CollectionEntryOf(records, k), CollectionEntryLess)
    {
      var rt := records[k].readTime.value;
      ChildParent(q.path, k);
      TimestampKeyOrderIsVersionOrder(since, FromDbTimestampKey(rt));
      assert CollectionKeyLess((q.path, ToDbTimestampKey(since)), CollectionEntryOf(records, k).0);
      CursorStart(idx, start, CollectionEntryOf(records, k), CollectionEntryLess);
    }
  }

  /** An entry whose row the query does not select leaves the results as they were when the cursor passes it. */
  lemma IndexScanPass(idx: seq<CollectionReadTimeEntry>, records: Records, q: Query, since: SnapshotVersion, j: nat,
                      results: map<DocumentKey, MaybeDocument>)
    requires WellFormed(records) && j < |idx|
    requires IndexCursorPasses(idx, records, j)
    requires IndexScanned(results, records, q, since, idx, j) && !InQueryResult(records, q, MinVersion, idx[j].1)
    ensures IndexScanned(results, records, q, since, idx, j + 1)
  {
  }

  /**
   * What the callback for entry `j - 1` needs to know about the index: the
   * entry's row is stored, passing it moves exactly that row behind the
   * cursor, and a row of the collection's depth inside the collection was
   * read after `since`.
   */
  ghost predicate IndexStepReady(idx: seq<CollectionReadTimeEntry>, records: Records, q: Query, since: SnapshotVersion, start: nat, j: nat)
  {
    && WellFormed(records) && start < j <= |idx| && idx[j - 1].1 in records
    && IndexCursorPasses(idx, records, j - 1)
    && (|idx[j - 1].1| == |q.path| + 1 && IsPrefix(q.path, idx[j - 1].1) ==>
          records[idx[j - 1].1].readTime.Some? && VersionLess(since, FromDbTimestampKey(records[idx[j - 1].1].readTime.value)))
  }

  /** Every entry from the lower bound on is ready for its callback. */
  lemma IndexStepFacts(idx: seq<CollectionReadTimeEntry>, records: Records, q: Query, since: SnapshotVersion, start: nat, j: nat)
    requires CollectionIndexInOrder(idx, records) && WellFormed(records)
    requires start == OpenLowerBound(idx, (q.path, ToDbTimestampKey(since)), CollectionKeyLess) && start < j <= |idx|
    ensures IndexStepReady(idx, records, q, since, start, j)
  {
    assert idx[j - 1] in idx;
    IndexScanStep(idx, records, j - 1);
    assert IndexCursorPasses(idx, records, j - 1);
    if |idx[j - 1].1| == |q.path| + 1 && IsPrefix(q.path, idx[j - 1].1) {
      IndexScanInRange(idx, records, q, since, start, j - 1);
    }
  }

  /** One callback moves the index scan's cursor one entry on, keeping exactly the selected rows it passed. */
  lemma IndexScanFoldStep(idx: seq<CollectionReadTimeEntry>, records: Records, q: Query, since: SnapshotVersion, start: nat, j: nat)
    requires IndexStepReady(idx, records, q, since, start, j)
    requires IndexScanned(IndexScanFold(idx, records, q, start, j - 1), records, q, since, idx, j - 1)
    ensures IndexScanned(IndexScanFold(idx, records, q, start, j), records, q, since, idx, j)
  {
    var key := idx[j - 1].1;
    var results := IndexScanFold(idx, records, q, start, j - 1);
    VisitSelects(q, records, key, results);
    if |key| != |q.path| + 1 || QueryScanVisit(q, key, records[key], results).Done? {
      IndexScanFoldPass(idx, records, q, since, start, j);
    } else {
      IndexScanFoldKeep(idx, records, q, since, start, j);
    }
  }

  /** An entry whose row the callback skips, or the one it stops at, leaves the results as they were. */
  lemma IndexScanFoldPass(idx: seq<CollectionReadTimeEntry>, records: Records, q: Query, since: SnapshotVersion, start: nat, j: nat)
    requires WellFormed(records) && start < j <= |idx| && idx[j - 1].1 in records
    requires IndexCursorPasses(idx, records, j - 1)
    requires IndexScanned(IndexScanFold(idx, records, q, start, j - 1), records, q, since, idx, j - 1)
    requires var results := IndexScanFold(idx, records, q, start, j - 1);
      |idx[j - 1].1| != |q.path| + 1 || QueryScanVisit(q, idx[j - 1].1, records[idx[j - 1].1], results).Done?
    ensures IndexScanned(IndexScanFold(idx, records, q, start, j), records, q, since, idx, j)
  {
    var results := IndexScanFold(idx, records, q, start, j - 1);
    VisitSelects(q, records, idx[j - 1].1, results);
    assert IndexScanFold(idx, records, q, start, j) == results;
    IndexScanPass(idx, records, q, since, j - 1, results);
  }

  /** An entry for a row of the collection's depth inside it: the results gain it exactly when it is a matching document. */
  lemma IndexScanFoldKeep(idx: seq<CollectionReadTimeEntry>, records: Records, q: Query, since: SnapshotVersion, start: nat, j: nat)
    requires WellFormed(records) && start < j <= |idx| && idx[j - 1].1 in records
    requires IndexCursorPasses(idx, records, j - 1)
    requires IndexScanned(IndexScanFold(idx, records, q, start, j - 1), records, q, since, idx, j - 1)
    requires var results := IndexScanFold(idx, records, q, start, j - 1);
      |idx[j - 1].1| == |q.path| + 1 && !QueryScanVisit(q, idx[j - 1].1, records[idx[j - 1].1], results).Done?
    requires records[idx[j - 1].1].readTime.Some?
    requires VersionLess(since, FromDbTimestampKey(records[idx[j - 1].1].readTime.value))
    ensures IndexScanned(IndexScanFold(idx, records, q, start, j), records, q, since, idx, j)
  {
    var key := idx[j - 1].1;
    var results := IndexScanFold(idx, records, q, start, j - 1);
    var d := FromDbRemoteDocument(records[key]).value;
    assert IndexScanFold(idx, records, q, start, j) == if d.Document? && q.matches(d) then results[d.key := d] else results;
    IndexScannedStep(results, records, q, since, idx, j - 1, d);
  }

  /** Before the first callback the index scan holds nothing, which is exactly the selected rows it passed. */
  lemma IndexScanFoldEmpty(idx: seq<CollectionReadTimeEntry>, records: Records, q: Query, since: SnapshotVersion, start: nat)
    requires CollectionIndexInOrder(idx, records) && WellFormed(records) && since != MinVersion
    requires start == OpenLowerBound(idx, (q.path, ToDbTimestampKey(since)), CollectionKeyLess)
    ensures IndexScanned(IndexScanFold(idx, records, q, start, start), records, q, since, idx, start)
  {
    assert IndexScanFold(idx, records, q, start, start) == map[];
    IndexScanStart(idx, records, q, since, start);
  }

  /** Callbacks over entries that are each ready keep exactly the selected rows the cursor passed. */
  lemma {:induction false} IndexScanFoldSteps(idx: seq<CollectionReadTimeEntry>, records: Records, q: Query, since: SnapshotVersion,
                                              start: nat, j: nat)
    requires start <= j <= |idx|
    requires IndexScanned(IndexScanFold(idx, records, q, start, start), records, q, since, idx, start)
    requires forall i :: start < i <= j ==> IndexStepReady(idx, records, q, since, start, i)
    ensures IndexScanned(IndexScanFold(idx, records, q, start, j), records, q, since, idx, j)
  {
    if j > start {
      IndexScanFoldSteps(idx, records, q, since, start, j - 1);
      IndexScanFoldStep(idx, records, q, since, start, j);
    }
  }

  /** Under a well-formed store, the callbacks so far have kept exactly the selected rows the cursor passed. */
  lemma IndexScanFoldScanned(idx: seq<CollectionReadTimeEntry>, records: Records, q: Query, since: SnapshotVersion,
                             start: nat, j: nat)
    requires CollectionIndexInOrder(idx, records) && WellFormed(records) && since != MinVersion
    requires start == OpenLowerBound(idx, (q.path, ToDbTimestampKey(since)), CollectionKeyLess) && start <= j <= |idx|
    ensures IndexScanned(IndexScanFold(idx, records, q, start, j), records, q, since, idx, j)
  {
    IndexScanFoldEmpty(idx, records, q, since, start);
    forall i | start < i <= j
      ensures IndexStepReady(idx, records, q, since, start, i)
    {
      IndexStepFacts(idx, records, q, since, start, i);
    }
    IndexScanFoldSteps(idx, records, q, since, start, j);
  }

  /**
   * When the cursor runs off the end of the index, or the callback stops it
   * at the first row outside the collection, the index scan has its whole
   * answer.
   */
  lemma IndexScanComplete(idx: seq<CollectionReadTimeEntry>, records: Records, q: Query, since: SnapshotVersion, start: nat, j: nat,
                          results: map<DocumentKey, MaybeDocument>)
    requires IndexScanState(idx, records, q, since, start, j, results)
    requires j == |idx| || (idx[j].1 in records && QueryScanVisit(q, idx[j].1, records[idx[j].1], results).Done?)
    ensures SoundAnswer(results, q)
    ensures WellFormed(records) ==> CompleteAnswer(results, records, q, since)
  {
    IndexScanFoldSound(idx, records, q, start, j);
    if WellFormed(records) {
      IndexScanFoldScanned(idx, records, q, since, start, j);
      if j < |idx| {
        assert idx[j] in idx;
        IndexScanStop(idx, records, q, since, start, j);
      }
    }
  }

  /** The change feed's answer: every row read after the watermark, sentinel deletes included, decoded. */
  ghost predicate ChangeFeedAnswer(results: map<DocumentKey, MaybeDocument>, records: Records, watermark: SnapshotVersion) {
    && (forall k :: k in results <==> InChangeFeed(records, watermark, k.path))
    && (forall k :: k in results ==> Ok(results[k]) == FromDbRemoteDocument(records[k.path]))
  }

  /** The change feed with its cursor at j has collected exactly the rows after the watermark it has passed. */
  ghost predicate FeedScanned(results: map<DocumentKey, MaybeDocument>, records: Records, since: SnapshotVersion,
                              idx: seq<ReadTimeEntry>, j: nat)
    requires j <= |idx|
  {
    && (forall k {:trigger k in results} :: k in results <==>
          && InChangeFeed(records, since, k.path)
          && BeforeCursor(idx, j, ReadTimeEntryOf(records, k.path), ReadTimeEntryLess))
    && (forall k :: k in results ==> Ok(results[k]) == FromDbRemoteDocument(records[k.path]))
  }

  /** Every entry from start up to the cursor at j names a stored row that decodes. */
  ghost predicate FeedPassedDecode(idx: seq<ReadTimeEntry>, records: Records, start: nat, j: nat)
    requires j <= |idx|
  {
    forall t :: start <= t < j ==> idx[t].1 in records && FromDbRemoteDocument(records[idx[t].1]).Ok?
  }

  /** Each result is the decoding of a row the feed passed between start and the cursor at j. */
  ghost predicate FeedResultsPassed(results: map<DocumentKey, MaybeDocument>, idx: seq<ReadTimeEntry>, records: Records,
                                    start: nat, j: nat)
    requires j <= |idx|
  {
    forall k :: k in results ==>
      exists t :: start <= t < j && idx[t].1 in records && FromDbRemoteDocument(records[idx[t].1]) == Ok(results[k])
  }

  /** Consuming a row that decodes to d keeps every result the decoding of a row passed. */
  lemma FeedResultsStep(results: map<DocumentKey, MaybeDocument>, idx: seq<ReadTimeEntry>, records: Records,
                        start: nat, j: nat, d: MaybeDocument)
    requires start <= j < |idx| && idx[j].1 in records && FromDbRemoteDocument(records[idx[j].1]) == Ok(d)
    requires FeedResultsPassed(results, idx, records, start, j)
    ensures FeedResultsPassed(results[d.key := d], idx, records, start, j + 1)
  {
    var next := results[d.key := d];
    forall k | k in next
      ensures exists t :: start <= t < j + 1 && idx[t].1 in records && FromDbRemoteDocument(records[idx[t].1]) == Ok(next[k])
    {
      if k != d.key {
        var t :| start <= t < j && idx[t].1 in records && FromDbRemoteDocument(records[idx[t].1]) == Ok(results[k]);
        assert start <= t < j + 1 && FromDbRemoteDocument(records[idx[t].1]) == Ok(next[k]);
      }
    }
  }

  /**
   * The change feed's loop state: the cursor at j opened above since, every
   * row passed decodes and each result is the decoding of one of them, the
   * watermark is the read time of the last entry passed (since before the
   * first), and under a well-formed store the results are the rows passed.
   */
  ghost predicate FeedState(txn: RemoteDocumentStore, since: SnapshotVersion, start: nat, j: nat,
                            results: map<DocumentKey, MaybeDocument>, watermark: SnapshotVersion)
    reads txn
  {
    && txn.ReadTimeIndexValid()
    && start == OpenLowerBound(txn.readTimeIndex, ToDbTimestampKey(since), TimestampKeyLess)
    && start <= j <= |txn.readTimeIndex|
    && (forall k :: k in results ==> results[k].key == k)
    && FeedPassedDecode(txn.readTimeIndex, txn.records, start, j)
    && FeedResultsPassed(results, txn.readTimeIndex, txn.records, start, j)
    && watermark == (if j == start then since else FromDbTimestampKey(txn.readTimeIndex[j - 1].0))
    && (WellFormed(txn.records) ==> FeedScanned(results, txn.records, since, txn.readTimeIndex, j))
  }

  /** Every entry from the opening of an open range on, in index order, is inside the range. */
  lemma ReadTimeRangeRest(idx: seq<ReadTimeEntry>, bound: DbTimestampKey, start: nat, j: nat)
    requires Sorted(idx, ReadTimeEntryLess) && start <= j < |idx| && TimestampKeyLess(bound, idx[start].0)
    ensures TimestampKeyLess(bound, idx[j].0)
  {
    TimestampKeyLessIsStrictTotal();
    PathLessIsStrictTotal();
    if j > start {
      assert ReadTimeEntryLess(idx[start], idx[j]);
    }
  }

  /** The change feed opens above the watermark: no row read after it lies before the cursor. */
  lemma FeedStart(txn: RemoteDocumentStore, since: SnapshotVersion, start: nat)
    requires txn.ReadTimeIndexValid() && start == OpenLowerBound(txn.readTimeIndex, ToDbTimestampKey(since), TimestampKeyLess)
    ensures FeedState(txn, since, start, start, map[], since)
  {
    if WellFormed(txn.records) {
      ReadTimeEntryLessIsStrictTotal();
      var idx := txn.readTimeIndex;
      forall k | InChangeFeed(txn.records, since, k)
        ensures !BeforeCursor(idx, start, ReadTimeEntryOf(txn.records, k), ReadTimeEntryLess)
      {
        TimestampKeyOrderIsVersionOrder(since, FromDbTimestampKey(txn.records[k].readTime.value));
        CursorStart(idx, start, ReadTimeEntryOf(txn.records, k), ReadTimeEntryLess);
      }
    }
  }

  /** One cursor step of the change feed over a decodable row read after the watermark. */
  lemma FeedScannedStep(results: map<DocumentKey, MaybeDocument>, records: Records, since: SnapshotVersion,
                        idx: seq<ReadTimeEntry>, j: nat, d: MaybeDocument)
    requires WellFormed(records) && j < |idx| && idx[j].1 in records && records[idx[j].1].readTime == Some(idx[j].0)
    requires forall k :: k in records && records[k].readTime.Some? ==>
      (BeforeCursor(idx, j + 1, ReadTimeEntryOf(records, k), ReadTimeEntryLess) <==>
       BeforeCursor(idx, j, ReadTimeEntryOf(records, k), ReadTimeEntryLess) || k == idx[j].1)
    requires FeedScanned(results, records, since, idx, j)
    requires FromDbRemoteDocument(records[idx[j].1]) == Ok(d) && VersionLess(since, FromDbTimestampKey(idx[j].0))
    ensures FeedScanned(results[d.key := d], records, since, idx, j + 1)
  {
    var next := results[d.key := d];
    forall k
      ensures k in next <==>
        InChangeFeed(records, since, k.path) && BeforeCursor(idx, j + 1, ReadTimeEntryOf(records, k.path), ReadTimeEntryLess)
    {
      if k.path in records && records[k.path].readTime.Some? {
        assert BeforeCursor(idx, j + 1, ReadTimeEntryOf(records, k.path), ReadTimeEntryLess) <==>
          BeforeCursor(idx, j, ReadTimeEntryOf(records, k.path), ReadTimeEntryLess) || k.path == idx[j].1;
      }
    }
  }

  /** The cursor steps over the entry at j of the readTime index. */
  lemma FeedCursorStep(txn: RemoteDocumentStore, j: nat)
    requires txn.ReadTimeIndexValid() && j < |txn.readTimeIndex|
    ensures forall k :: k in txn.records && txn.records[k].readTime.Some? ==>
      (BeforeCursor(txn.readTimeIndex, j + 1, ReadTimeEntryOf(txn.records, k), ReadTimeEntryLess) <==>
       BeforeCursor(txn.readTimeIndex, j, ReadTimeEntryOf(txn.records, k), ReadTimeEntryLess) || k == txn.readTimeIndex[j].1)
  {
    ReadTimeEntryLessIsStrictTotal();
    var idx := txn.readTimeIndex;
    forall k | k in txn.records && txn.records[k].readTime.Some?
      ensures BeforeCursor(idx, j + 1, ReadTimeEntryOf(txn.records, k), ReadTimeEntryLess) <==>
              BeforeCursor(idx, j, ReadTimeEntryOf(txn.records, k), ReadTimeEntryLess) || k == idx[j].1
    {
      CursorStep(idx, j, ReadTimeEntryOf(txn.records, k), ReadTimeEntryLess);
    }
  }

  /**
   * Consuming a decodable row moves the watermark to its read time and adds
   * the row under its decoded key.
   */
  lemma FeedStep(txn: RemoteDocumentStore, since: SnapshotVersion, start: nat, j: nat,
                 results: map<DocumentKey, MaybeDocument>, watermark: SnapshotVersion, d: MaybeDocument)
    requires FeedState(txn, since, start, j, results, watermark) && j < |txn.readTimeIndex|
    requires txn.readTimeIndex[j].1 in txn.records
    requires FromDbRemoteDocument(txn.records[txn.readTimeIndex[j].1]) == Ok(d)
    ensures FeedState(txn, since, start, j + 1, results[d.key := d], FromDbTimestampKey(txn.readTimeIndex[j].0))
  {
    var idx := txn.readTimeIndex;
    assert idx[j] in idx;
    FeedResultsStep(results, idx, txn.records, start, j, d);
    if WellFormed(txn.records) {
      ReadTimeRangeRest(idx, ToDbTimestampKey(since), start, j);
      TimestampKeyOrderIsVersionOrder(since, FromDbTimestampKey(idx[j].0));
      FeedCursorStep(txn, j);
      FeedScannedStep(results, txn.records, since, idx, j, d);
    }
  }

  /** Every row with a read time has its entry in the readTime index. */
  lemma ReadTimeIndexed(txn: RemoteDocumentStore, k: DbRemoteDocumentKey)
    requires txn.ReadTimeIndexValid() && k in txn.records && txn.records[k].readTime.Some?
    ensures ReadTimeEntryOf(txn.records, k) in txn.readTimeIndex
  {
  }

  /** In an index sorted by read time, the last entry carries the greatest read time. */
  lemma LastEntryIsLatest(idx: seq<ReadTimeEntry>, t: nat)
    requires Sorted(idx, ReadTimeEntryLess) && t < |idx|
    ensures !TimestampKeyLess(idx[|idx| - 1].0, idx[t].0)
  {
    TimestampKeyLessIsStrictTotal();
    PathLessIsStrictTotal();
    if t < |idx| - 1 {
      assert ReadTimeEntryLess(idx[t], idx[|idx| - 1]);
    }
  }

  /** Every row's read time is at or below the read time of the index's last entry. */
  lemma LatestReadTime(txn: RemoteDocumentStore)
    requires txn.ReadTimeIndexValid() && |txn.readTimeIndex| > 0
    ensures forall k :: k in txn.records && txn.records[k].readTime.Some? ==>
      !TimestampKeyLess(txn.readTimeIndex[|txn.readTimeIndex| - 1].0, txn.records[k].readTime.value)
  {
    var idx := txn.readTimeIndex;
    forall k | k in txn.records && txn.records[k].readTime.Some?
      ensures !TimestampKeyLess(idx[|idx| - 1].0, txn.records[k].readTime.value)
    {
      var e := (txn.records[k].readTime.value, k);
      assert e in idx;
      var t :| 0 <= t < |idx| && idx[t] == e;
      LastEntryIsLatest(idx, t);
    }
  }

  /** The watermark never falls below where the change feed started. */
  lemma FeedMonotone(txn: RemoteDocumentStore, since: SnapshotVersion, start: nat, j: nat,
                     results: map<DocumentKey, MaybeDocument>, watermark: SnapshotVersion)
    requires FeedState(txn, since, start, j, results, watermark)
    ensures !VersionLess(watermark, since)
  {
    if j > start {
      ReadTimeRangeRest(txn.readTimeIndex, ToDbTimestampKey(since), start, j - 1);
      TimestampKeyLessIsStrictTotal();
      TimestampKeyOrderIsVersionOrder(since, watermark);
      TimestampKeyOrderIsVersionOrder(watermark, since);
    }
  }

  /**
   * When the change feed has passed every entry, its results are the rows
   * read after the old watermark, and the new watermark is the greatest read
   * time stored, never below the old one.
   */
  lemma FeedEnd(txn: RemoteDocumentStore, since: SnapshotVersion, start: nat,
                results: map<DocumentKey, MaybeDocument>, watermark: SnapshotVersion)
    requires FeedState(txn, since, start, |txn.readTimeIndex|, results, watermark)
    ensures WellFormed(txn.records) ==> ChangeFeedAnswer(results, txn.records, since)
    ensures forall k :: k in txn.records && txn.records[k].readTime.Some? ==>
      !TimestampKeyLess(ToDbTimestampKey(watermark), txn.records[k].readTime.value)
    ensures !VersionLess(watermark, since)
  {
    var idx := txn.readTimeIndex;
    FeedMonotone(txn, since, start, |idx|, results, watermark);
    if start < |idx| {
      LatestReadTime(txn);
    } else {
      forall k | k in txn.records && txn.records[k].readTime.Some?
        ensures !TimestampKeyLess(ToDbTimestampKey(since), txn.records[k].readTime.value)
      {
        var e := (txn.records[k].readTime.value, k);
        assert e in idx;
      }
    }
  }

  /**
   * Where the change feed's cursor came to rest: at the end of the index when
   * it succeeded, at the first row in index order that does not decode when it
   * failed; every row before it decodes. The watermark is the read time of the
   * last entry consumed, or since when none was.
   */
  ghost predicate FeedStopped(idx: seq<ReadTimeEntry>, records: Records, since: SnapshotVersion, j: nat,
                              watermark: SnapshotVersion, ok: bool)
  {
    var start := OpenLowerBound(idx, ToDbTimestampKey(since), TimestampKeyLess);
    && start <= j <= |idx|
    && watermark == (if j == start then since else FromDbTimestampKey(idx[j - 1].0))
    && (ok <==> j == |idx|)
    && FeedPassedDecode(idx, records, start, j)
    && (!ok ==> idx[j].1 in records && FromDbRemoteDocument(records[idx[j].1]).Err?)
  }

  /** Every stored row read after the watermark decodes. */
  ghost predicate FeedDecodes(records: Records, since: SnapshotVersion) {
    forall k :: k in records && records[k].readTime.Some? && VersionLess(since, FromDbTimestampKey(records[k].readTime.value)) ==>
      FromDbRemoteDocument(records[k]).Ok?
  }

  /** Once the feed has passed every entry, each decoding, every row read after since decodes. */
  lemma FeedAllDecode(txn: RemoteDocumentStore, since: SnapshotVersion, start: nat)
    requires txn.ReadTimeIndexValid() && start == OpenLowerBound(txn.readTimeIndex, ToDbTimestampKey(since), TimestampKeyLess)
    requires FeedPassedDecode(txn.readTimeIndex, txn.records, start, |txn.readTimeIndex|)
    ensures FeedDecodes(txn.records, since)
  {
    var idx := txn.readTimeIndex;
    forall k | k in txn.records && txn.records[k].readTime.Some? && VersionLess(since, FromDbTimestampKey(txn.records[k].readTime.value))
      ensures FromDbRemoteDocument(txn.records[k]).Ok?
    {
      var e := (txn.records[k].readTime.value, k);
      assert e in idx;
      var t :| 0 <= t < |idx| && idx[t] == e;
      TimestampKeyOrderIsVersionOrder(since, FromDbTimestampKey(e.0));
      assert start <= t;
    }
  }

  /** A row the feed reaches that does not decode was read after since. */
  lemma FeedCorruptRow(txn: RemoteDocumentStore, since: SnapshotVersion, start: nat, j: nat)
    requires txn.ReadTimeIndexValid() && start == OpenLowerBound(txn.readTimeIndex, ToDbTimestampKey(since), TimestampKeyLess)
    requires start <= j < |txn.readTimeIndex| && txn.readTimeIndex[j].1 in txn.records
    requires FromDbRemoteDocument(txn.records[txn.readTimeIndex[j].1]).Err?
    ensures !FeedDecodes(txn.records, since)
  {
    var idx := txn.readTimeIndex;
    assert idx[j] in idx;
    ReadTimeRangeRest(idx, ToDbTimestampKey(since), start, j);
    TimestampKeyOrderIsVersionOrder(since, FromDbTimestampKey(idx[j].0));
  }

  /** Each result of the feed is the decoding of a stored row read after since. */
  lemma FeedSound(txn: RemoteDocumentStore, since: SnapshotVersion, start: nat, j: nat,
                  results: map<DocumentKey, MaybeDocument>, watermark: SnapshotVersion)
    requires FeedState(txn, since, start, j, results, watermark)
    ensures forall k :: k in results ==>
      exists key :: InChangeFeed(txn.records, since, key) && FromDbRemoteDocument(txn.records[key]) == Ok(results[k])
  {
    var idx := txn.readTimeIndex;
    forall k | k in results
      ensures exists key :: InChangeFeed(txn.records, since, key) && FromDbRemoteDocument(txn.records[key]) == Ok(results[k])
    {
      var t :| start <= t < j && idx[t].1 in txn.records && FromDbRemoteDocument(txn.records[idx[t].1]) == Ok(results[k]);
      assert idx[t] in idx;
      ReadTimeRangeRest(idx, ToDbTimestampKey(since), start, t);
      TimestampKeyOrderIsVersionOrder(since, FromDbTimestampKey(idx[t].0));
      assert InChangeFeed(txn.records, since, idx[t].1);
    }
  }

  /**
   * Where the change feed stops, at the end of the index or at a row that
   * does not decode, its watermark is since or the read time of a stored row.
   */
  lemma FeedWatermarkStored(txn: RemoteDocumentStore, since: SnapshotVersion, start: nat, j: nat,
                            results: map<DocumentKey, MaybeDocument>, watermark: SnapshotVersion, ok: bool)
    requires FeedState(txn, since, start, j, results, watermark)
    requires ok <==> j == |txn.readTimeIndex|
    requires !ok ==> txn.readTimeIndex[j].1 in txn.records && FromDbRemoteDocument(txn.records[txn.readTimeIndex[j].1]).Err?
    ensures FeedStopped(txn.readTimeIndex, txn.records, since, j, watermark, ok)
    ensures watermark == since || exists k :: k in txn.records && txn.records[k].readTime == Some(ToDbTimestampKey(watermark))
  {
    var idx := txn.readTimeIndex;
    if watermark != since {
      assert idx[j - 1] in idx;
      assert txn.records[idx[j - 1].1].readTime == Some(ToDbTimestampKey(watermark));
    }
  }

  class IndexedDbRemoteDocumentCache {
    /** The read time of the last row consumed by the change feed. */
    var lastProcessedReadTime: SnapshotVersion
    /** The length of JSON.stringify of a payload: deterministic, otherwise unspecified. */
    const jsonLength: SizedPayload -> nat

    constructor (jsonLength: SizedPayload -> nat)
      ensures lastProcessedReadTime == MinVersion && this.jsonLength == jsonLength
    {
      lastProcessedReadTime := MinVersion;
      this.jsonLength := jsonLength;
    }

    /** addEntry: writes the row at the document's path. */
    method AddEntry(txn: RemoteDocumentStore, key: DocumentKey, doc: DbRemoteDocument)
      requires txn.Valid()
      modifies txn
      ensures txn.Valid()
      ensures txn.records == old(txn.records)[DbKey(key) := doc] && txn.metadata == old(txn.metadata)
    {
      txn.Put(DbKey(key), doc);
    }

    /** removeEntry: deletes the row at the document's path. */
    method RemoveEntry(txn: RemoteDocumentStore, key: DocumentKey)
      requires txn.Valid()
      modifies txn
      ensures txn.Valid()
      ensures txn.records == old(txn.records) - {DbKey(key)} && txn.metadata == old(txn.metadata)
    {
      txn.Delete(DbKey(key));
    }

    /** updateMetadata: byteSize += sizeDelta; the metadata row must exist. */
    method UpdateMetadata(txn: RemoteDocumentStore, sizeDelta: int) returns (r: Result<()>)
      modifies txn`metadata
      ensures old(txn.metadata).None? ==> r == Err(MissingMetadata) && txn.metadata == old(txn.metadata)
      ensures old(txn.metadata).Some? ==>
        r.Ok? && txn.metadata == Some(DbRemoteDocumentGlobal(old(txn.metadata).value.byteSize + sizeDelta))
    {
      if txn.metadata.None? {
        return Err(MissingMetadata);
      }
      var metadata := txn.metadata.value;
      metadata := metadata.(byteSize := metadata.byteSize + sizeDelta);
      txn.PutMetadata(metadata);
      r := Ok(());
    }

    /** getSize: the byteSize counter; the metadata row must exist. */
    method GetSize(txn: RemoteDocumentStore) returns (r: Result<int>)
      ensures txn.metadata.None? ==> r == Err(MissingMetadata)
      ensures txn.metadata.Some? ==> r == Ok(txn.metadata.value.byteSize)
    {
      if txn.metadata.None? {
        return Err(MissingMetadata);
      }
      r := Ok(txn.metadata.value.byteSize);
    }

    /** getEntry: the live document at the key, absent for no row and for a sentinel delete. */
    method GetEntry(txn: RemoteDocumentStore, key: DocumentKey) returns (r: Result<Option<MaybeDocument>>)
      ensures r == MaybeDecodeDocument(Get(txn.records, DbKey(key)))
    {
      var dbRemoteDoc := Get(txn.records, DbKey(key));
      r := MaybeDecodeDocument(dbRemoteDoc);
    }

    /** getSizedEntry: the live document with its size, or absent. */
    method GetSizedEntry(txn: RemoteDocumentStore, key: DocumentKey) returns (r: Result<Option<DocumentSizeEntry>>)
      ensures r.Err? <==> MaybeDecodeDocument(Get(txn.records, DbKey(key))).Err?
      ensures r.Ok? ==>
        && (r.value.None? <==> MaybeDecodeDocument(Get(txn.records, DbKey(key))).value.None?)
        && (r.value.Some? ==>
              && Some(r.value.value.maybeDocument) == MaybeDecodeDocument(Get(txn.records, DbKey(key))).value
              && r.value.value.size == LiveSize(txn.records, DbKey(key), jsonLength))
    {
      var dbRemoteDoc := Get(txn.records, DbKey(key));
      var doc := MaybeDecodeDocument(dbRemoteDoc);
      if doc.Err? {
        return Err(doc.error);
      }
      if doc.value.Some? {
        var size := DbDocumentSize(dbRemoteDoc.value, jsonLength).value;
        r := Ok(Some(DocumentSizeEntry(doc.value.value, size)));
      } else {
        r := Ok(None);
      }
    }

    /**
     * forEachDbEntry: one sorted pass of a cursor over the primary keys in
     * [first key, last key], skipping ahead to each requested key, visits the
     * requested keys in order, each with its stored row or none. The
     * callbacks are returned as the sequence of their arguments.
     */
    method ForEachDbEntry(txn: RemoteDocumentStore, documentKeys: seq<DocumentKey>) returns (visits: seq<Visit>)
      requires txn.Valid() && Sorted(documentKeys, KeyLess)
      ensures |visits| == |documentKeys|
      ensures forall i :: 0 <= i < |visits| ==> visits[i] == (documentKeys[i], Get(txn.records, DbKey(documentKeys[i])))
    {
      var records, rows := txn.records, txn.primaryKeys;
      visits := VisitKeys(rows, records, documentKeys);
    }

    /** The merge scan over the store's key order and the requested keys. */
    method VisitKeys(rows: seq<DbRemoteDocumentKey>, records: Records, documentKeys: seq<DocumentKey>) returns (visits: seq<Visit>)
      requires KeysInOrder(rows, records) && Sorted(documentKeys, KeyLess)
      ensures |visits| == |documentKeys| && VisitsMatch(visits, documentKeys, records)
    {
      visits := [];
      if |documentKeys| == 0 {
        return;
      }
      var first := documentKeys[0].path;
      var last := documentKeys[|documentKeys| - 1].path;
      var i := 0;
      // The cursor opens at the first row of the range [first, last].
      var j := Seek(rows, 0, first, PathLess);
      while j < |rows| && !PathLess(last, rows[j]) && i < |documentKeys|
        invariant i <= |documentKeys| && j <= |rows|
        invariant |visits| == i
        invariant VisitsMatch(visits, documentKeys, records)
        invariant i < |documentKeys| ==> AllBelow(rows, j, documentKeys[i].path, PathLess)
        decreases |rows| - j
      {
        var row := rows[j];
        i, visits := VisitKeysBelowRow(rows, records, documentKeys, i, j, visits);
        if i < |documentKeys| && documentKeys[i].path == row {
          // The requested key is stored.
          assert row in records;
          VisitsAppend(visits, documentKeys, records, (documentKeys[i], Some(records[row])));
          visits := visits + [(documentKeys[i], Some(records[row]))];
          i := i + 1;
          if i < |documentKeys| {
            assert KeyLess(documentKeys[i - 1], documentKeys[i]);
          }
        } else if i < |documentKeys| {
          PathTotal(row, documentKeys[i].path);
        }
        if i < |documentKeys| {
          PathBelowExtend(rows, j, documentKeys[i].path);
          // Skip to the next requested key.
          j := Seek(rows, j + 1, documentKeys[i].path, PathLess);
        } else {
          break;
        }
      }
      visits := VisitKeysBeyondRange(rows, records, documentKeys, i, j, visits);
    }

    /** The requested keys below the cursor's row have no row: each is visited with none. */
    method VisitKeysBelowRow(rows: seq<DbRemoteDocumentKey>, records: Records, documentKeys: seq<DocumentKey>, i0: nat, j: nat,
                             visits0: seq<Visit>)
      returns (i: nat, visits: seq<Visit>)
      requires KeysInOrder(rows, records) && Sorted(documentKeys, KeyLess) && j < |rows|
      requires i0 <= |documentKeys| && |visits0| == i0 && VisitsMatch(visits0, documentKeys, records)
      requires i0 < |documentKeys| ==> AllBelow(rows, j, documentKeys[i0].path, PathLess)
      ensures i0 <= i <= |documentKeys| && |visits| == i && VisitsMatch(visits, documentKeys, records)
      ensures i < |documentKeys| ==>
        AllBelow(rows, j, documentKeys[i].path, PathLess) && !PathLess(documentKeys[i].path, rows[j])
    {
      i, visits := i0, visits0;
      while i < |documentKeys| && PathLess(documentKeys[i].path, rows[j])
        invariant i0 <= i <= |documentKeys|
        invariant |visits| == i
        invariant VisitsMatch(visits, documentKeys, records)
        invariant i < |documentKeys| ==> AllBelow(rows, j, documentKeys[i].path, PathLess)
      {
        RowAbsent(rows, records, j, documentKeys[i].path);
        VisitsAppend(visits, documentKeys, records, (documentKeys[i], None));
        visits := visits + [(documentKeys[i], None)];
        i := i + 1;
        if i < |documentKeys| {
          NextKeyAbove(documentKeys, i, rows, j);
        }
      }
    }

    /** Once the cursor has left the range, the remaining requested keys have no row. */
    method VisitKeysBeyondRange(rows: seq<DbRemoteDocumentKey>, records: Records, documentKeys: seq<DocumentKey>, i0: nat, j: nat,
                                visits0: seq<Visit>)
      returns (visits: seq<Visit>)
      requires KeysInOrder(rows, records) && Sorted(documentKeys, KeyLess) && j <= |rows|
      requires i0 <= |documentKeys| && |visits0| == i0 && VisitsMatch(visits0, documentKeys, records)
      requires i0 < |documentKeys| ==> AllBelow(rows, j, documentKeys[i0].path, PathLess)
      requires i0 < |documentKeys| && j < |rows| ==> PathLess(documentKeys[|documentKeys| - 1].path, rows[j])
      ensures |visits| == |documentKeys| && VisitsMatch(visits, documentKeys, records)
    {
      var i := i0;
      visits := visits0;
      while i < |documentKeys|
        invariant i0 <= i <= |documentKeys|
        invariant |visits| == i
        invariant VisitsMatch(visits, documentKeys, records)
        invariant i < |documentKeys| ==> AllBelow(rows, j, documentKeys[i].path, PathLess)
      {
        if j < |rows| && i < |documentKeys| - 1 {
          assert KeyLess(documentKeys[i], documentKeys[|documentKeys| - 1]);
          PathTransitive(documentKeys[i].path, documentKeys[|documentKeys| - 1].path, rows[j]);
        }
        RowAbsent(rows, records, j, documentKeys[i].path);
        VisitsAppend(visits, documentKeys, records, (documentKeys[i], None));
        visits := visits + [(documentKeys[i], None)];
        i := i + 1;
        if i < |documentKeys| {
          NextKeyAbove(documentKeys, i, rows, j);
        }
      }
    }

    /**
     * getEntries: every requested key maps to its live document, or to None
     * when it has no row or a sentinel delete; a corrupt row fails the read.
     */
    method GetEntries(txn: RemoteDocumentStore, documentKeys: seq<DocumentKey>)
      returns (r: Result<map<DocumentKey, Option<MaybeDocument>>>)
      requires txn.Valid() && Sorted(documentKeys, KeyLess)
      ensures r.Err? <==> exists k :: k in documentKeys && MaybeDecodeDocument(Get(txn.records, DbKey(k))).Err?
      ensures r.Ok? ==> forall k :: k in r.value <==> k in documentKeys
      ensures r.Ok? ==> forall k :: k in r.value ==> Ok(r.value[k]) == MaybeDecodeDocument(Get(txn.records, DbKey(k)))
    {
      var visits := ForEachDbEntry(txn, documentKeys);
      var results := map[];
      var t := 0;
      while t < |visits|
        invariant t <= |visits|
        invariant forall k :: k in results <==> k in documentKeys[..t]
        invariant forall k :: k in results ==> Ok(results[k]) == MaybeDecodeDocument(Get(txn.records, DbKey(k)))
        invariant forall s :: 0 <= s < t ==> MaybeDecodeDocument(Get(txn.records, DbKey(documentKeys[s]))).Ok?
      {
        var (key, dbRemoteDoc) := visits[t];
        var doc := MaybeDecodeDocument(dbRemoteDoc);
        if doc.Err? {
          return Err(doc.error);
        }
        results := results[key := doc.value];
        assert documentKeys[..t + 1] == documentKeys[..t] + [key];
        t := t + 1;
      }
      assert documentKeys[..t] == documentKeys;
      r := Ok(results);
    }

    /**
     * getSizedEntries: as getEntries, and every requested key also maps to
     * the size of its live row, 0 when it has none.
     */
    method GetSizedEntries(txn: RemoteDocumentStore, documentKeys: seq<DocumentKey>) returns (r: Result<DocumentSizeEntries>)
      requires txn.Valid() && Sorted(documentKeys, KeyLess)
      ensures r.Err? <==> exists k :: k in documentKeys && MaybeDecodeDocument(Get(txn.records, DbKey(k))).Err?
      ensures r.Ok? ==> forall k :: (k in r.value.maybeDocuments <==> k in documentKeys) && (k in r.value.sizeMap <==> k in documentKeys)
      ensures r.Ok? ==> forall k :: k in r.value.maybeDocuments ==>
        && Ok(r.value.maybeDocuments[k]) == MaybeDecodeDocument(Get(txn.records, DbKey(k)))
        && r.value.sizeMap[k] == LiveSize(txn.records, DbKey(k), jsonLength)
        && (r.value.maybeDocuments[k].None? ==> r.value.sizeMap[k] == 0)
    {
      var visits := ForEachDbEntry(txn, documentKeys);
      var results := map[];
      var sizeMap := map[];
      var t := 0;
      while t < |visits|
        invariant t <= |visits|
        invariant forall k :: (k in results <==> k in documentKeys[..t]) && (k in sizeMap <==> k in documentKeys[..t])
        invariant forall k :: k in results ==>
          && Ok(results[k]) == MaybeDecodeDocument(Get(txn.records, DbKey(k)))
          && sizeMap[k] == LiveSize(txn.records, DbKey(k), jsonLength)
          && (results[k].None? ==> sizeMap[k] == 0)
        invariant forall s :: 0 <= s < t ==> MaybeDecodeDocument(Get(txn.records, DbKey(documentKeys[s]))).Ok?
      {
        var (key, dbRemoteDoc) := visits[t];
        var doc := MaybeDecodeDocument(dbRemoteDoc);
        if doc.Err? {
          return Err(doc.error);
        }
        if doc.value.Some? {
          results := results[key := doc.value];
          sizeMap := sizeMap[key := DbDocumentSize(dbRemoteDoc.value, jsonLength).value];
        } else {
          results := results[key := None];
          sizeMap := sizeMap[key := 0];
        }
        assert documentKeys[..t + 1] == documentKeys[..t] + [key];
        t := t + 1;
      }
      assert documentKeys[..t] == documentKeys;
      r := Ok(DocumentSizeEntries(results, sizeMap));
    }

    /**
     * getDocumentsMatchingQuery: the Documents directly inside the query's
     * collection that the query matches; with a since read time other than
     * MIN, only those read after it. Collection-group queries are refused.
     */
    method GetDocumentsMatchingQuery(txn: RemoteDocumentStore, query: Query, sinceReadTime: SnapshotVersion)
      returns (r: Result<map<DocumentKey, MaybeDocument>>)
      requires txn.Valid()
      ensures IsCollectionGroupQuery(query) ==> r == Err(CollectionGroupQuery)
      ensures r.Ok? ==> SoundAnswer(r.value, query)
      ensures r.Err? && !IsCollectionGroupQuery(query) ==>
        exists k :: k in txn.records && |k| == |query.path| + 1 && FromDbRemoteDocument(txn.records[k]).Err?
      ensures !IsCollectionGroupQuery(query) && WellFormed(txn.records) ==>
        r.Ok? && CompleteAnswer(r.value, txn.records, query, sinceReadTime)
    {
      if IsCollectionGroupQuery(query) {
        return Err(CollectionGroupQuery);
      }
      if sinceReadTime == MinVersion {
        r := ScanCollectionByKey(txn.primaryKeys, txn.records, query);
      } else {
        r := ScanCollectionByReadTime(txn.collectionReadTimeIndex, txn.records, query, sinceReadTime);
      }
    }

    /**
     * The prefix scan: rows in key order from the collection path on; rows of
     * another depth are skipped, and the first row outside the collection
     * ends the scan.
     */
    method ScanCollectionByKey(rows: seq<DbRemoteDocumentKey>, records: Records, query: Query)
      returns (r: Result<map<DocumentKey, MaybeDocument>>)
      requires KeysInOrder(rows, records)
      ensures r.Ok? ==> SoundAnswer(r.value, query)
      ensures r.Err? ==>
        exists k :: k in records && |k| == |query.path| + 1 && FromDbRemoteDocument(records[k]).Err? && !PathLess(k, query.path)
      ensures WellFormed(records) ==> r.Ok? && CompleteAnswer(r.value, records, query, MinVersion)
    {
      var results: map<DocumentKey, MaybeDocument> := map[];
      var start := Seek(rows, 0, query.path, PathLess);
      var j := start;
      while j < |rows|
        invariant KeyScanState(rows, records, query, start, j, results)
      {
        var key := rows[j];
        assert key in records by { assert key in rows; }
        match QueryScanVisit(query, key, records[key], results)
        case Failed(error) =>
          CorruptRow(records, key);
          KeyScanFromCollection(rows, query.path, start, j);
          return Err(error);
        case Done =>
          KeyScanComplete(rows, records, query, start, j, results);
          return Ok(results);
        case Next(kept) =>
          results := kept;
          j := j + 1;
      }
      KeyScanComplete(rows, records, query, start, j, results);
      r := Ok(results);
    }

    /**
     * The index scan: collectionReadTime entries above (collection, since) in
     * index order; rows of another depth are skipped, and the first row
     * outside the collection ends the scan.
     */
    method ScanCollectionByReadTime(idx: seq<CollectionReadTimeEntry>, records: Records, query: Query, sinceReadTime: SnapshotVersion)
      returns (r: Result<map<DocumentKey, MaybeDocument>>)
      requires CollectionIndexInOrder(idx, records) && sinceReadTime != MinVersion
      ensures r.Ok? ==> SoundAnswer(r.value, query)
      ensures r.Err? ==>
        exists k :: && k in records && |k| == |query.path| + 1 && FromDbRemoteDocument(records[k]).Err?
                    && CollectionIndexKey(records[k]).Some?
                    && CollectionKeyLess((query.path, ToDbTimestampKey(sinceReadTime)), CollectionIndexKey(records[k]).value)
      ensures WellFormed(records) ==> r.Ok? && CompleteAnswer(r.value, records, query, sinceReadTime)
    {
      var results: map<DocumentKey, MaybeDocument> := map[];
      var start := OpenLowerBound(idx, (query.path, ToDbTimestampKey(sinceReadTime)), CollectionKeyLess);
      var j := start;
      while j < |idx|
        invariant IndexScanState(idx, records, query, sinceReadTime, start, j, results)
      {
        var key := idx[j].1;
        assert key in records by { assert idx[j] in idx; }
        match QueryScanVisit(query, key, records[key], results)
        case Failed(error) =>
          CorruptRow(records, key);
          CollectionRangeRest(idx, (query.path, ToDbTimestampKey(sinceReadTime)), start, j);
          return Err(error);
        case Done =>
          IndexScanComplete(idx, records, query, sinceReadTime, start, j, results);
          return Ok(results);
        case Next(kept) =>
          results := kept;
          j := j + 1;
      }
      IndexScanComplete(idx, records, query, sinceReadTime, start, j, results);
      r := Ok(results);
    }

    /**
     * getNewDocumentChanges: every row read after the watermark, in read-time
     * order and with sentinel deletes kept; each row consumed moves the
     * watermark to its read time. A corrupt row fails the read and leaves the
     * watermark at the last row consumed before it.
     */
    method GetNewDocumentChanges(txn: RemoteDocumentStore) returns (r: Result<map<DocumentKey, MaybeDocument>>)
      requires txn.Valid()
      modifies this`lastProcessedReadTime
      ensures !VersionLess(lastProcessedReadTime, old(lastProcessedReadTime))
      ensures r.Ok? ==> forall k :: k in r.value ==> r.value[k].key == k
      ensures r.Ok? ==> forall k :: k in txn.records && txn.records[k].readTime.Some? ==>
        !TimestampKeyLess(ToDbTimestampKey(lastProcessedReadTime), txn.records[k].readTime.value)
      ensures WellFormed(txn.records) ==> r.Ok? && ChangeFeedAnswer(r.value, txn.records, old(lastProcessedReadTime))
      ensures r.Ok? <==> FeedDecodes(txn.records, old(lastProcessedReadTime))
      ensures r.Ok? ==> forall k :: k in r.value ==> exists key ::
        InChangeFeed(txn.records, old(lastProcessedReadTime), key) && FromDbRemoteDocument(txn.records[key]) == Ok(r.value[k])
      ensures exists j :: FeedStopped(txn.readTimeIndex, txn.records, old(lastProcessedReadTime), j, lastProcessedReadTime, r.Ok?)
      ensures lastProcessedReadTime == old(lastProcessedReadTime) ||
        exists k :: k in txn.records && txn.records[k].readTime == Some(ToDbTimestampKey(lastProcessedReadTime))
    {
      r, lastProcessedReadTime := ScanNewRows(txn, lastProcessedReadTime);
    }

    /** The change feed's cursor over the readTime index, returning the results and the watermark it reached. */
    method ScanNewRows(txn: RemoteDocumentStore, since: SnapshotVersion)
      returns (r: Result<map<DocumentKey, MaybeDocument>>, watermark: SnapshotVersion)
      requires txn.ReadTimeIndexValid()
      ensures !VersionLess(watermark, since)
      ensures r.Ok? ==> forall k :: k in r.value ==> r.value[k].key == k
      ensures r.Ok? ==> forall k :: k in txn.records && txn.records[k].readTime.Some? ==>
        !TimestampKeyLess(ToDbTimestampKey(watermark), txn.records[k].readTime.value)
      ensures WellFormed(txn.records) ==> r.Ok? && ChangeFeedAnswer(r.value, txn.records, since)
      ensures r.Ok? <==> FeedDecodes(txn.records, since)
      ensures r.Ok? ==> forall k :: k in r.value ==>
        exists key :: InChangeFeed(txn.records, since, key) && FromDbRemoteDocument(txn.records[key]) == Ok(r.value[k])
      ensures exists j :: FeedStopped(txn.readTimeIndex, txn.records, since, j, watermark, r.Ok?)
      ensures watermark == since || exists k :: k in txn.records && txn.records[k].readTime == Some(ToDbTimestampKey(watermark))
    {
      var results: map<DocumentKey, MaybeDocument> := map[];
      var start := OpenLowerBound(txn.readTimeIndex, ToDbTimestampKey(since), TimestampKeyLess);
      FeedStart(txn, since, start);
      watermark := since;
      var j := start;
      while j < |txn.readTimeIndex|
        invariant FeedState(txn, since, start, j, results, watermark)
      {
        var key := txn.readTimeIndex[j].1;
        assert key in txn.records by { assert txn.readTimeIndex[j] in txn.readTimeIndex; }
        var decoded := FromDbRemoteDocument(txn.records[key]);
        if decoded.Err? {
          CorruptRow(txn.records, key);
          FeedCorruptRow(txn, since, start, j);
          FeedMonotone(txn, since, start, j, results, watermark);
          FeedWatermarkStored(txn, since, start, j, results, watermark, false);
          return Err(decoded.error), watermark;
        }
        FeedStep(txn, since, start, j, results, watermark, decoded.value);
        results := results[decoded.value.key := decoded.value];
        watermark := FromDbTimestampKey(txn.readTimeIndex[j].0);
        j := j + 1;
      }
      FeedEnd(txn, since, start, results, watermark);
      FeedAllDecode(txn, since, start);
      FeedSound(txn, since, start, j, results, watermark);
      FeedWatermarkStored(txn, since, start, j, results, watermark, true);
      r := Ok(results);
    }

    /** start: the change feed begins after every row already stored. */
    method Start(txn: RemoteDocumentStore)
      requires txn.Valid()
      modifies this`lastProcessedReadTime
      ensures forall k :: k in txn.records && txn.records[k].readTime.Some? ==>
        !TimestampKeyLess(ToDbTimestampKey(lastProcessedReadTime), txn.records[k].readTime.value)
      ensures (forall k :: k in txn.records ==> txn.records[k].readTime.None?) ==> lastProcessedReadTime == ForDeletedDoc()
      ensures (exists k :: k in txn.records && txn.records[k].readTime.Some?) ==>
        exists k :: k in txn.records && txn.records[k].readTime == Some(ToDbTimestampKey(lastProcessedReadTime))
    {
      SynchronizeLastProcessedReadTime(txn);
    }

    /**
     * synchronizeLastProcessedReadTime (run by start): the watermark becomes
     * the greatest read time stored, or the deleted-document version when no
     * row has a read time.
     */
    method SynchronizeLastProcessedReadTime(txn: RemoteDocumentStore)
      requires txn.Valid()
      modifies this`lastProcessedReadTime
      ensures forall k :: k in txn.records && txn.records[k].readTime.Some? ==>
        !TimestampKeyLess(ToDbTimestampKey(lastProcessedReadTime), txn.records[k].readTime.value)
      ensures (forall k :: k in txn.records ==> txn.records[k].readTime.None?) ==> lastProcessedReadTime == ForDeletedDoc()
      ensures lastProcessedReadTime == ForDeletedDoc() ||
        exists k :: k in txn.records && txn.records[k].readTime == Some(ToDbTimestampKey(lastProcessedReadTime))
      ensures (exists k :: k in txn.records && txn.records[k].readTime.Some?) ==>
        exists k :: k in txn.records && txn.records[k].readTime == Some(ToDbTimestampKey(lastProcessedReadTime))
    {
      lastProcessedReadTime := ForDeletedDoc();
      var idx := txn.readTimeIndex;
      if |idx| > 0 {
        var key := idx[|idx| - 1].1;
        assert idx[|idx| - 1] in idx;
        LatestReadTime(txn);
        var row := txn.records[key];
        if row.readTime.Some? {
          lastProcessedReadTime := FromDbTimestampKey(row.readTime.value);
        }
      } else {
        forall k | k in txn.records
          ensures txn.records[k].readTime.None?
        {
          if txn.records[k].readTime.Some? {
            ReadTimeIndexed(txn, k);
            assert false;
          }
        }
      }
    }
  }
}
