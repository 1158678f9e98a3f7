/**
 * The Akka.Persistence values the stores exchange with the framework: persistent representations,
 * snapshot metadata and selection criteria, and the GUIDs that identify stored rows.
 * Payloads are opaque; the JSON text they are stored as is not modelled.
 */
module Persistence {
  import opened SequenceKey

  /** An event or snapshot object, known by its runtime type name and an opaque content. */
  datatype Payload = Payload(typeName: string, content: string)

  /** `IPersistentRepresentation` as written by the journal. */
  datatype PersistentRepr = PersistentRepr(persistenceId: string, sequenceNr: Int64, payload: Payload)

  /** `Persistent` as handed to the replay callback: the event and its stored deletion flag. */
  datatype Persistent = Persistent(payload: Payload, sequenceNr: Int64, persistenceId: string, isDeleted: bool)

  /** `DateTime.MaxValue.Ticks`. */
  const MAX_TICKS: int := 3155378975999999999

  /** A `DateTime`, as its tick count. */
  type Ticks = t: int | 0 <= t <= MAX_TICKS

  datatype SnapshotMetadata = SnapshotMetadata(persistenceId: string, sequenceNr: Int64, timestamp: Ticks)

  datatype SnapshotSelectionCriteria = SnapshotSelectionCriteria(maxSequenceNr: Int64, maxTimeStamp: Ticks)

  datatype SelectedSnapshot = SelectedSnapshot(metadata: SnapshotMetadata, snapshot: Payload)

  /**
   * `GuidUtility.Create(namespace, name)`, a name-based GUID, kept symbolic: equal names give equal
   * GUIDs. `Guid.NewGuid()` values come from outside and are told apart by a number.
   */
  datatype Guid = NameGuid(namespace: string, name: string) | RandomGuid(draw: nat)

  /** `GuidUtility.IsoOidNamespace`. */
  const ISO_OID_NAMESPACE: string := "6ba7b812-9dad-11d1-80b4-00c04fd430c8"
}
