/**
 * The records a to-many relationship points at, as far as the relationship
 * sees them: an identity compared by equality, the external identifier it
 * reports, and whether it is a new record the server has not yet persisted.
 */
module Records {
  import opened Optional

  /** The external identifier of a record: its type, its server id if any, and its local id. */
  datatype ResourceIdentifier = ResourceIdentifier(modelName: string, id: Option<string>, lid: string)

  /**
   * A reference to the record data of one record. Two references are the same
   * record exactly when they are equal; `isNew` is fixed for the lifetime of
   * the reference.
   */
  datatype RecordRef = RecordRef(identifier: ResourceIdentifier, isNew: bool)

  /** The identifiers of a list of records, position by position (`map(getResourceIdentifier)`). */
  function Identifiers(s: seq<RecordRef>): (ids: seq<ResourceIdentifier>)
    ensures |ids| == |s|
    ensures forall i :: 0 <= i < |s| ==> ids[i] == s[i].identifier
  {
    seq(|s|, i requires 0 <= i < |s| => s[i].identifier)
  }

  /** The records a resolver yields for a list of identifiers, position by position. */
  function ResolveEach(ids: seq<ResourceIdentifier>, resolve: ResourceIdentifier -> RecordRef): (s: seq<RecordRef>)
    ensures |s| == |ids|
    ensures forall i :: 0 <= i < |ids| ==> s[i] == resolve(ids[i])
  {
    seq(|ids|, i requires 0 <= i < |ids| => resolve(ids[i]))
  }

  /**
   * Resolving the identifiers of a list of records gives the list back,
   * whenever the resolver maps each of those records' identifiers to the record.
   */
  lemma ResolveIdentifiers(s: seq<RecordRef>, resolve: ResourceIdentifier -> RecordRef)
    requires forall i :: 0 <= i < |s| ==> resolve(s[i].identifier) == s[i]
    ensures ResolveEach(Identifiers(s), resolve) == s
  {
  }
}
