/**
 * The table-storage snapshot store: snapshot `sequenceNr` of stream `pid` is the row of partition
 * `pid` keyed by `ToRowKey(sequenceNr)`, holding the metadata and the snapshot together. Load looks
 * at the newest row up to the requested sequence number and at nothing older; save inserts and
 * swallows its failures; delete-by-criteria removes by row key alone, whatever the timestamps.
 */
module TableSnapshots {
  import opened Wrappers
  import opened SequenceKey
  import opened Sorting
  import opened TableStore
  import opened SequenceRange
  import opened Settings
  import opened Persistence

  /** The `Snapshot` table entity, with the partition and row keys it is stored under. */
  datatype SnapshotRow = SnapshotRow(
    partitionKey: string,
    rowKey: string,
    id: Guid,
    aggregateId: string,
    typeName: string,
    sequenceNr: Int64,
    snapshotState: SelectedSnapshot)

  type SnapshotTable = map<Key, SnapshotRow>

  /** `typeof(Snapshot).Name`, recorded in every row. */
  const SNAPSHOT_TYPE_NAME: string := "Snapshot"

  /** Where snapshot `sequenceNr` of stream `pid` is stored. */
  function SnapshotKey(pid: string, sequenceNr: Int64): Key {
    Key(pid, ToRowKey(sequenceNr))
  }

  function KeyOf(s: SnapshotRow): Key {
    Key(s.partitionKey, s.rowKey)
  }

  /**
   * The row `SaveAsync` builds from the metadata, the snapshot and a fresh `Guid.NewGuid()`:
   * partition = persistence id, row = `ToRowKey(sequenceNr)`, state = the selected snapshot.
   */
  function NewSnapshot(id: Guid, metadata: SnapshotMetadata, snapshot: Payload): (s: SnapshotRow)
    ensures KeyOf(s) == SnapshotKey(metadata.persistenceId, metadata.sequenceNr)
    ensures s.sequenceNr == metadata.sequenceNr && s.snapshotState.metadata == metadata
    ensures s.snapshotState == SelectedSnapshot(metadata, snapshot)
  {
    SnapshotRow(metadata.persistenceId, ToRowKey(metadata.sequenceNr), id, metadata.persistenceId,
                SNAPSHOT_TYPE_NAME, metadata.sequenceNr, SelectedSnapshot(metadata, snapshot))
  }

  /**
   * Every row sits under the key its own metadata gives, with a sequence number in [0, 10^10):
   * the rows `SaveAsync` writes for such numbers.
   */
  ghost predicate WellFormed(t: SnapshotTable) {
    forall k :: k in t ==>
      && k == KeyOf(t[k])
      && k == SnapshotKey(t[k].snapshotState.metadata.persistenceId, t[k].sequenceNr)
      && t[k].snapshotState.metadata.sequenceNr == t[k].sequenceNr
      && 0 <= t[k].sequenceNr < KEY_CAPACITY
  }

  /** A row of `pid` that the query `RowKey le ToRowKey(maxSequenceNr)` returns. */
  predicate Candidate(t: SnapshotTable, k: Key, pid: string, maxSequenceNr: Int64) {
    k in t && Selected(k, pid, UpToRange(maxSequenceNr))
  }

  lemma CandidateNumeric(t: SnapshotTable, k: Key, pid: string, maxSequenceNr: Int64)
    requires WellFormed(t) && k in t && 0 <= maxSequenceNr < KEY_CAPACITY
    ensures Candidate(t, k, pid, maxSequenceNr) <==> k.partition == pid && t[k].sequenceNr <= maxSequenceNr
  {
    SelectedByNumber(k, pid, t[k].sequenceNr, maxSequenceNr, maxSequenceNr);
  }

  // ---------------------------------------------------------------------------------------------
  // LoadAsync

  function RowSequenceNr(r: (Key, SnapshotRow)): int {
    r.1.sequenceNr
  }

  /** The candidates by descending sequence number: the first is a candidate none other exceeds. */
  lemma NewestFirst(t: SnapshotTable, pid: string, maxSequenceNr: Int64, results: seq<(Key, SnapshotRow)>)
    requires results == SortDescending(Query(t, pid, UpToRange(maxSequenceNr)), RowSequenceNr)
    ensures |results| > 0 ==>
              && Candidate(t, results[0].0, pid, maxSequenceNr) && results[0].1 == t[results[0].0]
              && forall k' :: Candidate(t, k', pid, maxSequenceNr) ==> t[k'].sequenceNr <= results[0].1.sequenceNr
    ensures |results| == 0 ==> forall k :: !Candidate(t, k, pid, maxSequenceNr)
  {
    var q := Query(t, pid, UpToRange(maxSequenceNr));
    SortedCandidates(t, pid, UpToRange(maxSequenceNr), q, results);
  }

  /** A descending ordering of rows that are exactly the table's selected rows. */
  lemma SortedCandidates(t: SnapshotTable, pid: string, range: RowRange, q: seq<(Key, SnapshotRow)>, results: seq<(Key, SnapshotRow)>)
    requires forall i :: 0 <= i < |q| ==> q[i].0 in t && q[i].1 == t[q[i].0] && Selected(q[i].0, pid, range)
    requires forall k :: k in t && Selected(k, pid, range) ==> (k, t[k]) in q
    requires Descending(results, RowSequenceNr) && multiset(results) == multiset(q)
    ensures forall k :: k in t && Selected(k, pid, range) ==> (k, t[k]) in results
    ensures |results| > 0 ==>
              && results[0].0 in t && Selected(results[0].0, pid, range) && results[0].1 == t[results[0].0]
              && forall k' :: k' in t && Selected(k', pid, range) ==> t[k'].sequenceNr <= results[0].1.sequenceNr
    ensures |results| == 0 ==> forall k :: k in t ==> !Selected(k, pid, range)
  {
    forall k | k in t && Selected(k, pid, range) ensures (k, t[k]) in results {
      assert (k, t[k]) in multiset(q);
    }
    if |results| > 0 {
      assert results[0] in multiset(q);
      forall k' | k' in t && Selected(k', pid, range) ensures t[k'].sequenceNr <= results[0].1.sequenceNr {
        var j :| 0 <= j < |results| && results[j] == (k', t[k']);
      }
    }
  }

  /**
   * The selection of `LoadAsync`: the first of the candidates ordered by descending sequence
   * number, if its timestamp is within `maxTimeStamp`; otherwise nothing.
   */
  function Pick(t: SnapshotTable, pid: string, criteria: SnapshotSelectionCriteria): (r: Option<SelectedSnapshot>)
    ensures r.Some? ==> r.value.metadata.timestamp <= criteria.maxTimeStamp
    ensures r.Some? ==>
              exists k :: Candidate(t, k, pid, criteria.maxSequenceNr) && t[k].snapshotState == r.value &&
                forall k' :: Candidate(t, k', pid, criteria.maxSequenceNr) ==> t[k'].sequenceNr <= t[k].sequenceNr
    ensures (forall k :: !Candidate(t, k, pid, criteria.maxSequenceNr)) ==> r.None?
  {
    var results := SortDescending(Query(t, pid, UpToRange(criteria.maxSequenceNr)), RowSequenceNr);
    NewestFirst(t, pid, criteria.maxSequenceNr, results);
    if |results| > 0 then
      var snapshot := results[0].1.snapshotState;
      if snapshot.metadata.timestamp > criteria.maxTimeStamp then None else Some(snapshot)
    else None
  }

  /**
   * Only the newest candidate is looked at: when it is too new, the answer is nothing, however
   * many older candidates would satisfy the timestamp bound.
   */
  lemma PickNewest(t: SnapshotTable, pid: string, criteria: SnapshotSelectionCriteria, k: Key)
    requires Candidate(t, k, pid, criteria.maxSequenceNr)
    requires forall k' :: Candidate(t, k', pid, criteria.maxSequenceNr) && k' != k ==> t[k'].sequenceNr < t[k].sequenceNr
    ensures Pick(t, pid, criteria) ==
              if t[k].snapshotState.metadata.timestamp <= criteria.maxTimeStamp then Some(t[k].snapshotState) else None
  {
    var results := SortDescending(Query(t, pid, UpToRange(criteria.maxSequenceNr)), RowSequenceNr);
    NewestFirst(t, pid, criteria.maxSequenceNr, results);
    assert results[0].0 == k;
  }


  /**
   * On well-formed rows: the stream's snapshot with the greatest sequence number up to
   * `maxSequenceNr` is returned if it is not newer than `maxTimeStamp`, and nothing otherwise.
   */
  lemma PickNumeric(t: SnapshotTable, pid: string, criteria: SnapshotSelectionCriteria, k: Key)
    requires WellFormed(t) && 0 <= criteria.maxSequenceNr < KEY_CAPACITY
    requires k in t && k.partition == pid && t[k].sequenceNr <= criteria.maxSequenceNr
    requires forall k' :: k' in t && k'.partition == pid && t[k'].sequenceNr <= criteria.maxSequenceNr ==>
               t[k'].sequenceNr <= t[k].sequenceNr
    ensures Pick(t, pid, criteria) ==
              if t[k].snapshotState.metadata.timestamp <= criteria.maxTimeStamp then Some(t[k].snapshotState) else None
  {
    NewestCandidate(t, pid, criteria.maxSequenceNr, k);
    PickNewest(t, pid, criteria, k);
  }

  /** On well-formed rows, the stream's greatest sequence number up to the bound is the newest candidate. */
  lemma NewestCandidate(t: SnapshotTable, pid: string, maxSequenceNr: Int64, k: Key)
    requires WellFormed(t) && 0 <= maxSequenceNr < KEY_CAPACITY
    requires k in t && k.partition == pid && t[k].sequenceNr <= maxSequenceNr
    requires forall k' :: k' in t && k'.partition == pid && t[k'].sequenceNr <= maxSequenceNr ==>
               t[k'].sequenceNr <= t[k].sequenceNr
    ensures Candidate(t, k, pid, maxSequenceNr)
    ensures forall k' :: Candidate(t, k', pid, maxSequenceNr) && k' != k ==> t[k'].sequenceNr < t[k].sequenceNr
  {
    CandidateNumeric(t, k, pid, maxSequenceNr);
    forall k' | Candidate(t, k', pid, maxSequenceNr) && k' != k
      ensures t[k'].sequenceNr < t[k].sequenceNr
    {
      CandidateNumeric(t, k', pid, maxSequenceNr);
    }
  }

  /** On well-formed rows: nothing is returned when the stream has no snapshot up to `maxSequenceNr`. */
  lemma PickNothing(t: SnapshotTable, pid: string, criteria: SnapshotSelectionCriteria)
    requires WellFormed(t) && 0 <= criteria.maxSequenceNr < KEY_CAPACITY
    requires forall k :: k in t && k.partition == pid ==> criteria.maxSequenceNr < t[k].sequenceNr
    ensures Pick(t, pid, criteria) == None
  {
    forall k | k in t {
      CandidateNumeric(t, k, pid, criteria.maxSequenceNr);
    }
  }

  /** On well-formed rows, a returned snapshot belongs to the stream and is within both bounds. */
  lemma PickWithinBounds(t: SnapshotTable, pid: string, criteria: SnapshotSelectionCriteria)
    requires WellFormed(t) && 0 <= criteria.maxSequenceNr < KEY_CAPACITY
    requires Pick(t, pid, criteria).Some?
    ensures Pick(t, pid, criteria).value.metadata.persistenceId == pid
    ensures Pick(t, pid, criteria).value.metadata.sequenceNr <= criteria.maxSequenceNr
    ensures Pick(t, pid, criteria).value.metadata.timestamp <= criteria.maxTimeStamp
  {
    var k :| Candidate(t, k, pid, criteria.maxSequenceNr) && t[k].snapshotState == Pick(t, pid, criteria).value;
    CandidateNumeric(t, k, pid, criteria.maxSequenceNr);
    assert SnapshotKey(t[k].snapshotState.metadata.persistenceId, t[k].sequenceNr).partition == pid;
  }

  // ---------------------------------------------------------------------------------------------
  // SaveAsync

  /** `TableOperation.Insert`: the row is added under its key, or the insert conflicts. */
  function Insert(t: SnapshotTable, row: SnapshotRow): (r: Result<SnapshotTable>)
    ensures r.Ok? <==> KeyOf(row) !in t
    ensures r.Err? ==> r.error == StorageConflict
  {
    if KeyOf(row) in t then Err(StorageConflict) else Ok(t[KeyOf(row) := row])
  }

  /** The table after `SaveAsync`: a routing error or a failed insert is logged and swallowed. */
  function Saved(t: SnapshotTable, id: Guid, metadata: SnapshotMetadata, snapshot: Payload, accounts: nat): SnapshotTable {
    if ShardIndex(metadata.persistenceId, accounts).Err? then t
    else
      match Insert(t, NewSnapshot(id, metadata, snapshot))
      case Err(_) => t
      case Ok(t') => t'
  }

  /**
   * A save adds its row when the key is free and otherwise changes nothing: an earlier snapshot
   * under the same sequence number wins. Existing rows are never touched.
   */
  lemma SaveEffect(t: SnapshotTable, id: Guid, metadata: SnapshotMetadata, snapshot: Payload, accounts: nat)
    ensures forall k :: k in t ==> k in Saved(t, id, metadata, snapshot, accounts) && Saved(t, id, metadata, snapshot, accounts)[k] == t[k]
    ensures ShardIndex(metadata.persistenceId, accounts).Ok? && SnapshotKey(metadata.persistenceId, metadata.sequenceNr) !in t ==>
              Saved(t, id, metadata, snapshot, accounts) == t[SnapshotKey(metadata.persistenceId, metadata.sequenceNr) := NewSnapshot(id, metadata, snapshot)]
    ensures ShardIndex(metadata.persistenceId, accounts).Err? || SnapshotKey(metadata.persistenceId, metadata.sequenceNr) in t ==>
              Saved(t, id, metadata, snapshot, accounts) == t
  {
  }

  lemma SaveKeepsWellFormed(t: SnapshotTable, id: Guid, metadata: SnapshotMetadata, snapshot: Payload, accounts: nat)
    requires WellFormed(t) && 0 <= metadata.sequenceNr < KEY_CAPACITY
    ensures WellFormed(Saved(t, id, metadata, snapshot, accounts))
  {
  }

  /**
   * A saved snapshot newer than every other candidate, and within the criteria, is what the next
   * load returns.
   */
  lemma SaveThenLoad(t: SnapshotTable, id: Guid, metadata: SnapshotMetadata, snapshot: Payload, accounts: nat, criteria: SnapshotSelectionCriteria)
    requires WellFormed(t) && ShardIndex(metadata.persistenceId, accounts).Ok?
    requires SnapshotKey(metadata.persistenceId, metadata.sequenceNr) !in t
    requires 0 <= metadata.sequenceNr <= criteria.maxSequenceNr < KEY_CAPACITY
    requires metadata.timestamp <= criteria.maxTimeStamp
    requires forall k :: k in t && k.partition == metadata.persistenceId && t[k].sequenceNr <= criteria.maxSequenceNr ==>
               t[k].sequenceNr < metadata.sequenceNr
    ensures Pick(Saved(t, id, metadata, snapshot, accounts), metadata.persistenceId, criteria) == Some(SelectedSnapshot(metadata, snapshot))
  {
    var key := SnapshotKey(metadata.persistenceId, metadata.sequenceNr);
    var t' := Saved(t, id, metadata, snapshot, accounts);
    assert t' == t[key := NewSnapshot(id, metadata, snapshot)];
    SaveKeepsWellFormed(t, id, metadata, snapshot, accounts);
    PickNumeric(t', metadata.persistenceId, criteria, key);
  }

  // ---------------------------------------------------------------------------------------------
  // DeleteAsync(metadata)

  /**
   * The table after `DeleteAsync(metadata)`: the row retrieved at the metadata's key is deleted;
   * a missing row (deleting `null` fails) and a routing error are logged and swallowed.
   */
  function DeletedOne(t: SnapshotTable, metadata: SnapshotMetadata, accounts: nat): SnapshotTable {
    if ShardIndex(metadata.persistenceId, accounts).Err? then t
    else
      var key := SnapshotKey(metadata.persistenceId, metadata.sequenceNr);
      if key in t then t - {key} else t
  }

  /** Exactly the row at the metadata's key goes; every other row stays as it was. */
  lemma DeleteOneEffect(t: SnapshotTable, metadata: SnapshotMetadata, accounts: nat)
    requires ShardIndex(metadata.persistenceId, accounts).Ok?
    ensures SnapshotKey(metadata.persistenceId, metadata.sequenceNr) !in DeletedOne(t, metadata, accounts)
    ensures forall k :: k in t && k != SnapshotKey(metadata.persistenceId, metadata.sequenceNr) ==>
              k in DeletedOne(t, metadata, accounts) && DeletedOne(t, metadata, accounts)[k] == t[k]
    ensures DeletedOne(t, metadata, accounts).Keys <= t.Keys
  {
  }

  /** Deleting what was just saved under a free key gives back the table as it was. */
  lemma SaveThenDelete(t: SnapshotTable, id: Guid, metadata: SnapshotMetadata, snapshot: Payload, accounts: nat)
    requires SnapshotKey(metadata.persistenceId, metadata.sequenceNr) !in t
    ensures DeletedOne(Saved(t, id, metadata, snapshot, accounts), metadata, accounts) == t
  {
    var key := SnapshotKey(metadata.persistenceId, metadata.sequenceNr);
    if ShardIndex(metadata.persistenceId, accounts).Ok? {
      assert Saved(t, id, metadata, snapshot, accounts) - {key} == t;
    }
  }

  /** On well-formed rows, a load never returns the snapshot just deleted. */
  lemma DeleteOneThenLoad(t: SnapshotTable, metadata: SnapshotMetadata, accounts: nat, criteria: SnapshotSelectionCriteria)
    requires WellFormed(t) && ShardIndex(metadata.persistenceId, accounts).Ok?
    requires 0 <= metadata.sequenceNr < KEY_CAPACITY
    ensures Pick(DeletedOne(t, metadata, accounts), metadata.persistenceId, criteria).Some? ==>
              Pick(DeletedOne(t, metadata, accounts), metadata.persistenceId, criteria).value.metadata.sequenceNr != metadata.sequenceNr
  {
    var t' := DeletedOne(t, metadata, accounts);
    var pid := metadata.persistenceId;
    if Pick(t', pid, criteria).Some? {
      var k :| Candidate(t', k, pid, criteria.maxSequenceNr) && t'[k].snapshotState == Pick(t', pid, criteria).value;
      assert k == SnapshotKey(t'[k].snapshotState.metadata.persistenceId, t'[k].sequenceNr);
      assert k == SnapshotKey(pid, t'[k].sequenceNr);
    }
  }

  // ---------------------------------------------------------------------------------------------
  // DeleteAsync(persistenceId, criteria)

  /** Every row of `pid` in `range` removed, every other row as it was. */
  function RemoveRange(t: SnapshotTable, pid: string, range: RowRange): (t': SnapshotTable)
    ensures t'.Keys <= t.Keys
  {
    map k | k in t && !Selected(k, pid, range) :: t[k]
  }

  /**
   * The table after a successful `DeleteAsync(pid, criteria)`: the stream's rows up to
   * `ToRowKey(maxSequenceNr)` are gone, whatever their timestamps.
   */
  function DeletedUpTo(t: SnapshotTable, pid: string, criteria: SnapshotSelectionCriteria): (t': SnapshotTable)
    ensures t'.Keys <= t.Keys
  {
    RemoveRange(t, pid, UpToRange(criteria.maxSequenceNr))
  }

  /**
   * On well-formed rows: a row survives exactly when it belongs to another stream or lies above
   * `maxSequenceNr`; the timestamp bound plays no part.
   */
  lemma DeleteUpToNumeric(t: SnapshotTable, pid: string, criteria: SnapshotSelectionCriteria)
    requires WellFormed(t) && 0 <= criteria.maxSequenceNr < KEY_CAPACITY
    ensures forall k :: k in DeletedUpTo(t, pid, criteria) <==>
              k in t && (k.partition != pid || criteria.maxSequenceNr < t[k].sequenceNr)
    ensures forall k :: k in DeletedUpTo(t, pid, criteria) ==> DeletedUpTo(t, pid, criteria)[k] == t[k]
    ensures WellFormed(DeletedUpTo(t, pid, criteria))
  {
    forall k | k in t {
      CandidateNumeric(t, k, pid, criteria.maxSequenceNr);
    }
  }

  /** After deleting by criteria, a load with the same sequence-number bound finds nothing. */
  lemma DeleteUpToThenLoad(t: SnapshotTable, pid: string, criteria: SnapshotSelectionCriteria, maxTimeStamp: Ticks)
    ensures Pick(DeletedUpTo(t, pid, criteria), pid, criteria.(maxTimeStamp := maxTimeStamp)) == None
  {
    var t' := DeletedUpTo(t, pid, criteria);
    assert forall k :: !Candidate(t', k, pid, criteria.maxSequenceNr);
  }

  /**
   * The loop of `DeleteAsync(pid, criteria)` that fills the batch: one `Delete` per query result.
   */
  method DeletionBatch(results: seq<(Key, SnapshotRow)>) returns (batch: set<Key>)
    ensures forall k :: k in batch <==> exists i :: 0 <= i < |results| && results[i].0 == k
  {
    batch := {};
    var i := 0;
    while i < |results|
      invariant 0 <= i <= |results|
      invariant forall k :: k in batch <==> exists j :: 0 <= j < i && results[j].0 == k
    {
      batch := batch + {results[i].0};
      i := i + 1;
    }
  }

  /** Deleting the keys of (a permutation of) the query results removes exactly the queried range. */
  lemma BatchRemovesRange(t: SnapshotTable, pid: string, range: RowRange, results: seq<(Key, SnapshotRow)>, batch: set<Key>)
    requires multiset(results) == multiset(Query(t, pid, range))
    requires forall k :: k in batch <==> exists i :: 0 <= i < |results| && results[i].0 == k
    ensures t - batch == RemoveRange(t, pid, range)
  {
    var q := Query(t, pid, range);
    forall k | k in t
      ensures k in batch <==> Selected(k, pid, range)
    {
      if k in batch {
        var i :| 0 <= i < |results| && results[i].0 == k;
        assert results[i] in multiset(q);
      }
      if Selected(k, pid, range) {
        assert (k, t[k]) in multiset(results);
      }
    }
  }

  /** The table snapshot store: the snapshot table and the router that picks each stream's account. */
  class TableStorageSnapshotStore {
    var rows: SnapshotTable
    const settings: AzureStorageSettings

    ghost predicate Valid()
      reads this, settings
    {
      settings.Valid()
    }

    constructor (settings: AzureStorageSettings)
      requires settings.Valid()
      ensures Valid() && this.settings == settings && rows == map[]
    {
      this.settings := settings;
      rows := map[];
    }

    /** `LoadAsync`: the routing error, rethrown, or the selection; the table is only read. */
    function LoadSnapshot(pid: string, criteria: SnapshotSelectionCriteria): (r: Result<Option<SelectedSnapshot>>)
      requires Valid()
      reads this, settings
      ensures r.Err? <==> ShardIndex(pid, |settings.connectionStrings|).Err?
      ensures r.Err? ==> r.error == ShardIndex(pid, |settings.connectionStrings|).error
      ensures r.Ok? ==> r.value == Pick(rows, pid, criteria)
    {
      settings.RoutingByShardIndex(pid);
      match settings.GetTableClient(pid)
      case Err(e) => Err(e)
      case Ok(_) => Ok(Pick(rows, pid, criteria))
    }

    /** `SaveAsync`, with `id` the value `Guid.NewGuid()` drew; failures are swallowed. */
    method SaveSnapshot(metadata: SnapshotMetadata, snapshot: Payload, id: Guid)
      requires Valid()
      modifies this
      ensures Valid()
      ensures rows == Saved(old(rows), id, metadata, snapshot, |settings.connectionStrings|)
    {
      var snapData := NewSnapshot(id, metadata, snapshot);
      settings.RoutingByShardIndex(metadata.persistenceId);
      var client := settings.GetTableClient(metadata.persistenceId);
      if client.Err? {
        return;
      }
      var inserted := Insert(rows, snapData);
      if inserted.Ok? {
        rows := inserted.value;
      }
    }

    /** `DeleteAsync(metadata)`: retrieve the row at the metadata's key and delete it; failures are swallowed. */
    method DeleteSnapshot(metadata: SnapshotMetadata)
      requires Valid()
      modifies this
      ensures Valid()
      ensures rows == DeletedOne(old(rows), metadata, |settings.connectionStrings|)
    {
      settings.RoutingByShardIndex(metadata.persistenceId);
      var client := settings.GetTableClient(metadata.persistenceId);
      if client.Err? {
        return;
      }
      var key := SnapshotKey(metadata.persistenceId, metadata.sequenceNr);
      if key in rows {
        rows := rows - {key};
      }
    }

    /**
     * `DeleteAsync(pid, criteria)`: the query results, newest first, deleted in one batch; a
     * routing error is rethrown.
     */
    method DeleteSnapshots(pid: string, criteria: SnapshotSelectionCriteria) returns (failure: Option<Exception>)
      requires Valid()
      modifies this
      ensures Valid()
      ensures ShardIndex(pid, |settings.connectionStrings|).Err? ==>
                failure == Some(ShardIndex(pid, |settings.connectionStrings|).error) && rows == old(rows)
      ensures ShardIndex(pid, |settings.connectionStrings|).Ok? ==>
                failure == None && rows == DeletedUpTo(old(rows), pid, criteria)
    {
      settings.RoutingByShardIndex(pid);
      var client := settings.GetTableClient(pid);
      if client.Err? {
        return Some(client.error);
      }
      var t := rows;
      var range := UpToRange(criteria.maxSequenceNr);
      var results := SortDescending(Query(t, pid, range), RowSequenceNr);
      var batch := {};
      if |results| > 0 {
        batch := DeletionBatch(results);
      }
      BatchRemovesRange(t, pid, range, results, batch);
      rows := t - batch;
      return None;
    }
  }
}
