/**
 * The ordered transactional store the cache runs on, as seen from one
 * transaction: the remoteDocuments object store (rows by primary key, kept in
 * key order), its readTime and collectionReadTime indexes (kept in index-key
 * order, ties by primary key, as IndexedDB keeps them), and the single
 * remoteDocumentGlobal metadata row. The engine itself is not part of the
 * core; this class states what the core relies on.
 */
module SimpleDb {
  import opened Ordering
  import opened SortedSeqs
  import opened Model
  import opened Schema

  function Get<K, V>(m: map<K, V>, k: K): Option<V> {
    if k in m then Some(m[k]) else None
  }

  /** idx holds exactly one (index key, primary key) entry per row that has an index key. */
  ghost predicate IndexOf<K(!new)>(idx: seq<(K, DbRemoteDocumentKey)>, records: map<DbRemoteDocumentKey, DbRemoteDocument>,
                                   indexKey: DbRemoteDocument -> Option<K>) {
    forall e :: e in idx <==> e.1 in records && indexKey(records[e.1]) == Some(e.0)
  }

  /** The index after a put of value at key. */
  function IndexPut<K(==,!new)>(idx: seq<(K, DbRemoteDocumentKey)>, records: map<DbRemoteDocumentKey, DbRemoteDocument>,
                               indexKey: DbRemoteDocument -> Option<K>, less: ((K, DbRemoteDocumentKey), (K, DbRemoteDocumentKey)) -> bool,
                               key: DbRemoteDocumentKey, value: DbRemoteDocument): (r: seq<(K, DbRemoteDocumentKey)>)
    requires StrictTotalOrder(less) && Sorted(idx, less) && IndexOf(idx, records, indexKey)
    ensures Sorted(r, less) && IndexOf(r, records[key := value], indexKey)
  {
    var cleared := IndexDelete(idx, records, indexKey, less, key);
    assert forall e :: e in cleared ==> e.1 != key;
    if indexKey(value).Some? then Insert(cleared, (indexKey(value).value, key), less) else cleared
  }

  /** The index after a delete of key. */
  function IndexDelete<K(==,!new)>(idx: seq<(K, DbRemoteDocumentKey)>, records: map<DbRemoteDocumentKey, DbRemoteDocument>,
                                  indexKey: DbRemoteDocument -> Option<K>, less: ((K, DbRemoteDocumentKey), (K, DbRemoteDocumentKey)) -> bool,
                                  key: DbRemoteDocumentKey): (r: seq<(K, DbRemoteDocumentKey)>)
    requires Sorted(idx, less) && IndexOf(idx, records, indexKey)
    ensures Sorted(r, less) && IndexOf(r, records - {key}, indexKey)
  {
    if key in records && indexKey(records[key]).Some? then
      Remove(idx, (indexKey(records[key]).value, key), less)
    else
      idx
  }

  /** The primary keys in key order, one per row. */
  ghost predicate KeysInOrder(primaryKeys: seq<DbRemoteDocumentKey>, records: map<DbRemoteDocumentKey, DbRemoteDocument>) {
    && Sorted(primaryKeys, PathLess)
    && (forall k :: k in primaryKeys <==> k in records)
  }

  /** The readTime index in index order, one entry per row with a read time. */
  ghost predicate ReadTimeIndexInOrder(idx: seq<ReadTimeEntry>, records: map<DbRemoteDocumentKey, DbRemoteDocument>) {
    Sorted(idx, ReadTimeEntryLess) && IndexOf(idx, records, ReadTimeIndexKey)
  }

  /** The collectionReadTime index in index order, one entry per row with a parent path and a read time. */
  ghost predicate CollectionIndexInOrder(idx: seq<CollectionReadTimeEntry>, records: map<DbRemoteDocumentKey, DbRemoteDocument>) {
    Sorted(idx, CollectionEntryLess) && IndexOf(idx, records, CollectionIndexKey)
  }

  class RemoteDocumentStore {
    var records: map<DbRemoteDocumentKey, DbRemoteDocument>
    var primaryKeys: seq<DbRemoteDocumentKey>
    var readTimeIndex: seq<ReadTimeEntry>
    var collectionReadTimeIndex: seq<CollectionReadTimeEntry>
    var metadata: Option<DbRemoteDocumentGlobal>

    /** The primary keys list the rows in key order. */
    ghost predicate KeyOrderValid()
      reads this
    {
      KeysInOrder(primaryKeys, records)
    }

    /** The readTime index holds one entry per row with a read time, in index order. */
    ghost predicate ReadTimeIndexValid()
      reads this
    {
      ReadTimeIndexInOrder(readTimeIndex, records)
    }

    /** The collectionReadTime index holds one entry per row with a parent path and a read time, in index order. */
    ghost predicate CollectionIndexValid()
      reads this
    {
      CollectionIndexInOrder(collectionReadTimeIndex, records)
    }

    /** The store keeps its key order and both indexes in step with its rows. */
    ghost predicate Valid()
      reads this
    {
      KeyOrderValid() && ReadTimeIndexValid() && CollectionIndexValid()
    }

    /** A freshly created database: no rows, byteSize 0. */
    constructor ()
      ensures Valid()
      ensures records == map[] && metadata == Some(DbRemoteDocumentGlobal(0))
    {
      records := map[];
      primaryKeys := [];
      readTimeIndex := [];
      collectionReadTimeIndex := [];
      metadata := Some(DbRemoteDocumentGlobal(0));
    }

    /** Writes a row, replacing any row at the same key. */
    method Put(key: DbRemoteDocumentKey, value: DbRemoteDocument)
      requires Valid()
      modifies this
      ensures Valid()
      ensures records == old(records)[key := value]
      ensures metadata == old(metadata)
    {
      PathLessIsStrictTotal();
      ReadTimeEntryLessIsStrictTotal();
      CollectionEntryLessIsStrictTotal();
      if key !in records {
        primaryKeys := Insert(primaryKeys, key, PathLess);
      }
      readTimeIndex := IndexPut(readTimeIndex, records, ReadTimeIndexKey, ReadTimeEntryLess, key, value);
      collectionReadTimeIndex := IndexPut(collectionReadTimeIndex, records, CollectionIndexKey, CollectionEntryLess, key, value);
      records := records[key := value];
    }

    /** Deletes the row at key; deleting an absent key changes nothing. */
    method Delete(key: DbRemoteDocumentKey)
      requires Valid()
      modifies this
      ensures Valid()
      ensures records == old(records) - {key}
      ensures metadata == old(metadata)
    {
      primaryKeys := Remove(primaryKeys, key, PathLess);
      readTimeIndex := IndexDelete(readTimeIndex, records, ReadTimeIndexKey, ReadTimeEntryLess, key);
      collectionReadTimeIndex := IndexDelete(collectionReadTimeIndex, records, CollectionIndexKey, CollectionEntryLess, key);
      records := records - {key};
    }

    /** Writes the metadata row. */
    method PutMetadata(m: DbRemoteDocumentGlobal)
      modifies this`metadata
      ensures metadata == Some(m)
    {
      metadata := Some(m);
    }
  }
}
