/**
 * Stand-in for the wire-format conversions of the remote serializer
 * (toDocument / fromDocument). The real conversions belong to the network
 * layer; here a Document's key, version and fields map one-to-one onto the
 * wire document's name, updateTime and fields.
 */
module RemoteSerializer {
  import opened Model
  import opened Schema

  /** fromDocument: a wire document decodes to a Document. */
  function FromDocument(proto: ProtoDocument, hasCommittedMutations: bool): (d: MaybeDocument)
    ensures d.Document? && d.key.path == proto.name && d.hasCommittedMutations == hasCommittedMutations
    ensures d.version.timestamp == proto.updateTime && d.data == proto.fields
  {
    Document(DocumentKey(proto.name), SnapshotVersion(proto.updateTime), proto.fields, hasCommittedMutations)
  }

  /** toDocument: the inverse of FromDocument. */
  function ToDocument(d: MaybeDocument): (proto: ProtoDocument)
    requires d.Document?
    ensures FromDocument(proto, d.hasCommittedMutations) == d
  {
    ProtoDocument(d.key.path, d.data, d.version.timestamp)
  }
}
