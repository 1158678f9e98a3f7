# Akka.Persistence.Azure storage core, in Dafny

This project models the storage core of the Akka.Persistence Azure plugin and proves properties
of it:

- **The table-storage journal** (`TableStorageJournal`) and its four operations:
  - read the highest sequence number;
  - replay a range;
  - write batches;
  - delete up to a sequence number, softly or permanently.
- **The table-storage snapshot store** (`TableStorageSnapshotStore`).
- **The blob-storage snapshot store** (`BlobStorageSnapshotStore`).
- **The settings that route each persistence id to a storage account** (`AzureStorageSettings`).
  Each connection string is registered under its index in upper-case hex ("0" … "F", "10", …).
  A stream goes to the account registered under the id's first character, or to account "0"
  when no key matches.

A table is modelled as a value: a `map` from (partition key, row key) to entity. A query over
one partition and a row-key range returns the selected entities in ascending ordinal row-key
order. A blob container is a `map` from blob name to blob, and a prefix listing returns the
names in ascending order. Each store is a `class` whose table or container field its methods
reassign. Every method is proved equal to a specification function of the old state. The
properties the stores promise are lemmas about those functions.

Sequence numbers are C# `long`s. Row keys are `version.ToString().PadLeft(10, '0')`, so the
numeric order and the key order agree only for sequence numbers in [0, 10^10). Lemmas that
translate key ranges into number ranges are stated for that domain, and
`SequenceKey.RowKeyOrderBreaksAtCapacity` shows where the agreement ends.

Modules and files:

| file | module | models |
|---|---|---|
| `wrappers.dfy` | `Wrappers` | `Option`, `Result`, the exceptions the core throws |
| `ordinal.dfy` | `Ordinal` | ordinal string order, sorted key sets |
| `sorting.dfy` | `Sorting` | LINQ `OrderBy` / `OrderByDescending` |
| `table_store.dfy` | `TableStore` | table keys, row ranges, `ExecuteQuery` |
| `sequence_key.dfy` | `SequenceKey` | `ToRowKey`, `long.ToString`, `long.Parse`, 64-bit wrap-around |
| `sequence_range.dfy` | `SequenceRange` | the row-key filters of the three stores |
| `persistence.dfy` | `Persistence` | Akka.Persistence messages, metadata, criteria |
| `settings.dfy` | `Settings` | `AzureStorageSettings` and the three store settings |
| `journal.dfy` | `Journal` | `TableStorageJournal` |
| `table_snapshots.dfy` | `TableSnapshots` | `TableStorageSnapshotStore` |
| `blob_snapshots.dfy` | `BlobSnapshots` | `BlobStorageSnapshotStore` |

## Model

Paths in the source column are under `src/Akka.Persistence.Azure/`; the prefix is written out in full in each row.

| member | source | states |
|---|---|---|
| Settings.HexKey | src/Akka.Persistence.Azure/Settings.cs:20-23 | The key `i.ToString("X1")` has one character exactly when i < 16, and that character reads back as i in hex. |
| Settings.HexKeyInjective | src/Akka.Persistence.Azure/Settings.cs:20-23 | Distinct indexes get distinct keys, so `Dictionary.Add` never throws on a duplicate. |
| Settings.RegistryDomain | src/Akka.Persistence.Azure/Settings.cs:17-24 | The registry's keys are exactly the hex keys of the connection-string indexes. |
| Settings.RegistryLookup | src/Akka.Persistence.Azure/Settings.cs:17-24 | Key `HexKey(i)` maps to the account of connection string i. |
| Settings.RegistryExtend | src/Akka.Persistence.Azure/Settings.cs:20-23 | One loop step adds the new index's key, and that key was not yet present. |
| Settings.RegistrySize | src/Akka.Persistence.Azure/Settings.cs:17-24 | The registry holds exactly as many accounts as there are connection strings. |
| Settings.ValuesInOrder | src/Akka.Persistence.Azure/Settings.cs:45-48 | The values listed by index are the registry's entries for keys 0 … n-1. |
| Settings.ShardIndex | src/Akka.Persistence.Azure/Settings.cs:26-38 | The account index chosen for an id is below the account count and below 16. It fails exactly for an empty id or no accounts. |
| Settings.AzureStorageSettings.constructor | src/Akka.Persistence.Azure/Settings.cs:17-24 | The loop registers every connection string under its hex key. |
| Settings.AzureStorageSettings.GetAccount | src/Akka.Persistence.Azure/Settings.cs:26-33 | A registered key gives its account. An unknown key falls back to account "0", which throws KeyNotFoundException when there are no accounts. |
| Settings.AzureStorageSettings.AccountFor | src/Akka.Persistence.Azure/Settings.cs:37-42 | Definition: `GetAccount(id.Substring(0, 1))`, and ArgumentOutOfRangeException for an empty id. `RoutingByShardIndex` and `RoutingFailures` state what it picks. |
| Settings.AzureStorageSettings.GetTableClient | src/Akka.Persistence.Azure/Settings.cs:35-38 | A table client on the account chosen for the id's first character, or that routing's error. |
| Settings.AzureStorageSettings.GetBlobClient | src/Akka.Persistence.Azure/Settings.cs:40-43 | A blob client on the account chosen for the id's first character, or that routing's error. |
| Settings.AzureStorageSettings.GetStorageAccounts | src/Akka.Persistence.Azure/Settings.cs:45-48 | Every configured account, one per connection string, in index order. |
| Settings.AzureStorageSettings.RoutingByShardIndex | src/Akka.Persistence.Azure/Settings.cs:26-43 | Routing succeeds or fails exactly as `ShardIndex` does, and picks the account at that index. The table and blob clients share the account. |
| Settings.AzureStorageSettings.RoutingByFirstCharacter | src/Akka.Persistence.Azure/Settings.cs:35-43 | Two ids with the same first character go to the same account. |
| Settings.AzureStorageSettings.RoutingNeverPicksBeyondSixteen | src/Akka.Persistence.Azure/Settings.cs:20-37 | Accounts from index 16 on have two-character keys that a one-character prefix never matches. |
| Settings.AzureStorageSettings.RoutingLowerCaseFallsBack | src/Akka.Persistence.Azure/Settings.cs:26-37 | An id starting with 'a'…'f' does not match an upper-case hex key, so it falls back to account "0". |
| Settings.AzureStorageSettings.RoutingFailures | src/Akka.Persistence.Azure/Settings.cs:26-43 | An empty id throws ArgumentOutOfRangeException from `Substring`. With no accounts, any other id throws KeyNotFoundException. |
| Settings.StoreSettings.constructor | src/Akka.Persistence.Azure/Settings.cs:64-70 | The table or container name and the connection strings are taken from the section, with routing over those strings. |
| Settings.StoreSettings.GetClient | src/Akka.Persistence.Azure/Settings.cs:72-75 | The store's client for an id: a blob client for the blob store, else a table client, on the routed account. |
| Settings.CreateStoreSettings | src/Akka.Persistence.Azure/Settings.cs:92-98 | Fails with ArgumentNullException("config") exactly when the section is missing; otherwise builds the settings, named after the container for the blob store and after the table for the table stores. |
| Ordinal.LessTransitive | src/Akka.Persistence.Azure/TableStorageJournal.cs:46-47 | Ordinal row-key comparison is transitive. |
| Ordinal.LessTotal | src/Akka.Persistence.Azure/TableStorageJournal.cs:46-47 | Any two distinct row keys compare one way or the other. |
| Ordinal.LessAsymmetric | src/Akka.Persistence.Azure/TableStorageJournal.cs:46-47 | The ordinal order is a strict order. |
| Ordinal.LessAtFirstDifference | src/Akka.Persistence.Azure/TableStorageJournal.cs:46-47 | Two strings compare by their first differing character. |
| Ordinal.LessCommonPrefix | src/Akka.Persistence.Azure/TableStorageJournal.cs:46-47 | A shared prefix does not change the comparison. |
| Ordinal.MinExists | src/Akka.Persistence.Azure/TableStorageJournal.cs:49 | A nonempty set of row keys has an ordinal minimum. |
| Ordinal.MinUnique | src/Akka.Persistence.Azure/TableStorageJournal.cs:49 | That minimum is unique. |
| Ordinal.SortedKeys | src/Akka.Persistence.Azure/TableStorageJournal.cs:49 | A set of row keys listed in strictly ascending order: the same keys, each once. |
| Sorting.SortAscending | src/Akka.Persistence.Azure/TableStorageJournal.cs:115 | `OrderBy(SequenceNr)` is an ascending permutation of its input, and stable: the elements sharing a key keep their input order. |
| Sorting.SortDescending | src/Akka.Persistence.Azure/TableStorageJournal.cs:156 | `OrderByDescending(SequenceNr)` is a descending permutation of its input, and stable: the elements sharing a key keep their input order. |
| Sorting.InsertAscendingStable | src/Akka.Persistence.Azure/TableStorageJournal.cs:115 | Inserting into an ascending sequence puts the new element ahead of those sharing its key and keeps their order. |
| Sorting.InsertDescendingStable | src/Akka.Persistence.Azure/TableStorageJournal.cs:156 | Inserting into a descending sequence puts the new element ahead of those sharing its key and keeps their order. |
| TableStore.Query | src/Akka.Persistence.Azure/TableStorageJournal.cs:41-49 | Each entity the filter selects appears once, with its stored value, in ascending row-key order, and nothing else appears. |
| TableStore.QueryKeysDistinct | src/Akka.Persistence.Azure/TableStorageJournal.cs:49 | No entity is returned twice by a query. |
| SequenceKey.NatToDecimal | src/Akka.Persistence.Azure/TableStorageJournal.cs:217 | `ToString` of a non-negative number: decimal digits with no leading zero, as many as the number's magnitude needs. |
| SequenceKey.PadLeft | src/Akka.Persistence.Azure/TableStorageJournal.cs:217 | `PadLeft(width, c)` leaves strings of that width or longer unchanged and prefixes shorter ones with c up to the width. |
| SequenceKey.ToRowKey | src/Akka.Persistence.Azure/TableStorageJournal.cs:215-218 | A row key is at least ten characters long. |
| SequenceKey.RowKeyShape | src/Akka.Persistence.Azure/TableStorageJournal.cs:215-218 | A number in [0, 10^10) has a key of exactly ten digits, and any non-negative number's key is all digits. |
| SequenceKey.RowKeyIsFixedDigits | src/Akka.Persistence.Azure/TableStorageJournal.cs:215-218 | Below 10^10 the key is the ten-digit zero-padded decimal. |
| SequenceKey.FixedDigitsOrder | src/Akka.Persistence.Azure/TableStorageJournal.cs:215-218 | Fixed-width decimals compare ordinally as their numbers do. |
| SequenceKey.RowKeyOrder | src/Akka.Persistence.Azure/TableStorageJournal.cs:215-218 | Below 10^10, a smaller sequence number has an ordinally smaller key. |
| SequenceKey.RowKeyOrderIff | src/Akka.Persistence.Azure/TableStorageJournal.cs:215-218 | Below 10^10, key order and number order agree in both directions, strict and non-strict. |
| SequenceKey.RowKeyOrderBreaksAtCapacity | src/Akka.Persistence.Azure/TableStorageJournal.cs:215-218 | The key of 10^10 sorts before the key of 10^10-1, so range queries past ten digits are not numeric. |
| SequenceKey.RowKeyOfNegative | src/Akka.Persistence.Azure/TableStorageJournal.cs:215-218 | A negative number's key starts with '-', or with '0' padding when its magnitude is below 10^8. |
| SequenceKey.RowKeyOfLarge | src/Akka.Persistence.Azure/TableStorageJournal.cs:215-218 | From 10^10 on, the key is the unpadded decimal, which starts with a nonzero digit. |
| SequenceKey.Wrap64 | src/Akka.Persistence.Azure/TableStorageJournal.cs:70 | `long` subtraction: the same as the integer result when it is in range, and equal to it modulo 2^64 otherwise. |
| SequenceKey.TrimWhite | src/Akka.Persistence.Azure/BlobStorageSnapshotStore.cs:158 | The white space `long.Parse` skips at both ends: the result is no longer than the input. `TrimLongToString` shows that a formatted number is left alone. |
| SequenceKey.LongToString | src/Akka.Persistence.Azure/BlobStorageSnapshotStore.cs:76 | `long.ToString()`: a non-empty text. `LongToStringRoundTrip` shows it parses back to the value. |
| SequenceKey.ParseLong | src/Akka.Persistence.Azure/BlobStorageSnapshotStore.cs:158 | `long.Parse` fails only with FormatException or OverflowException. |
| SequenceKey.DigitsValueOfDecimal | src/Akka.Persistence.Azure/TableStorageJournal.cs:217 | The decimal digits of a number read back as that number. |
| SequenceKey.DigitsValueLeadingZeros | src/Akka.Persistence.Azure/TableStorageJournal.cs:217 | Zero padding does not change the value the digits denote. |
| SequenceKey.ParseDigits | src/Akka.Persistence.Azure/BlobStorageSnapshotStore.cs:158 | `long.Parse` of a digit string in range is its decimal value. |
| SequenceKey.RowKeyValue | src/Akka.Persistence.Azure/TableStorageJournal.cs:215-218 | A non-negative number's key is a digit string denoting that number. |
| SequenceKey.RowKeyRoundTrip | src/Akka.Persistence.Azure/BlobStorageSnapshotStore.cs:156-164 | `long.Parse(ToVersionKey(v)) == v` for every non-negative v. |
| SequenceKey.RowKeyInjective | src/Akka.Persistence.Azure/TableStorageJournal.cs:215-218 | Distinct non-negative sequence numbers get distinct row keys. |
| SequenceKey.LongToStringRoundTrip | src/Akka.Persistence.Azure/BlobStorageSnapshotStore.cs:76 | The timestamp written with `Ticks.ToString()` parses back to the same ticks. |
| SequenceKey.TrimLongToString | src/Akka.Persistence.Azure/BlobStorageSnapshotStore.cs:76 | `ToString` of a long has no surrounding white space. |
| SequenceRange.SelectedByNumber | src/Akka.Persistence.Azure/TableStorageJournal.cs:74-85 | Below 10^10, the row-key filters `ge ToRowKey(from)`, `le ToRowKey(to)` and both together select exactly the sequence numbers in the numeric range. |
| Journal.NewEvent | src/Akka.Persistence.Azure/TableStorageJournal.cs:197-208 | The event is stored under (aggregate id, `ToRowKey(version)`) and its id is the name-based GUID of stream + version. It replays as the message it was made from, not deleted. |
| Journal.SelectedNumeric | src/Akka.Persistence.Azure/TableStorageJournal.cs:41-48 | On well-formed rows the journal's key filters select by sequence number. |
| Journal.MaxSequenceNr | src/Akka.Persistence.Azure/TableStorageJournal.cs:53 | `Max(SequenceNr)` is at least every result's number and is one of them. |
| Journal.Highest | src/Akka.Persistence.Azure/TableStorageJournal.cs:41-56 | The highest number among the stream's rows with key ≥ `ToRowKey(from)`, attained by one of them, or 0 when there are none. |
| Journal.MaxOfSelected | src/Akka.Persistence.Azure/TableStorageJournal.cs:49-56 | Over exactly the selected rows, `Any()` is false only when nothing is selected, and `Max` is the maximum of the selected rows. |
| Journal.HighestNumeric | src/Akka.Persistence.Azure/TableStorageJournal.cs:35-63 | On well-formed rows: the highest sequence number of the stream at or above `from`, or 0 if there is none. |
| Journal.VisibleAppend | src/Akka.Persistence.Azure/TableStorageJournal.cs:89-98 | The replay filter distributes over concatenation. |
| Journal.VisibleMembers | src/Akka.Persistence.Azure/TableStorageJournal.cs:89-98 | A message is replayed exactly when it comes from a result that is not permanently deleted. |
| Journal.VisibleAscending | src/Akka.Persistence.Azure/TableStorageJournal.cs:89-98 | The filter keeps ascending sequence numbers ascending. |
| Journal.Visible | src/Akka.Persistence.Azure/TableStorageJournal.cs:89-98 | The rows the loop hands to the callback, skipping permanently deleted ones: never more rows than the query returned. `VisibleMembers` and `VisibleAscending` state which rows and in what order. |
| Journal.Take | src/Akka.Persistence.Azure/TableStorageJournal.cs:95-96 | Stopping when `count == max` hands out exactly the first `max` messages when there are more, and everything when there are not. |
| Journal.VisibleOfSelected | src/Akka.Persistence.Azure/TableStorageJournal.cs:87-98 | Over exactly the selected rows, the replayed messages are the selected rows not permanently deleted. |
| Journal.ReplayedRowsExact | src/Akka.Persistence.Azure/TableStorageJournal.cs:74-98 | The replayed messages are exactly the stream's rows in the key range that are not permanently deleted. |
| Journal.ReplayedRowsAscending | src/Akka.Persistence.Azure/TableStorageJournal.cs:87-98 | On well-formed rows, replay runs in strictly ascending sequence-number order. |
| Journal.ReplayedRowsNumeric | src/Akka.Persistence.Azure/TableStorageJournal.cs:74-98 | On well-formed rows, replay hands out the stream's rows numbered from `from` to `to` that are not permanently deleted, in ascending order. |
| Journal.ReplayGuardBlocks | src/Akka.Persistence.Azure/TableStorageJournal.cs:69-70 | With `max ≤ 0`, or an inverted range whose difference does not wrap, nothing is replayed, whatever the routing. |
| Journal.WrappedRangeIsEmpty | src/Akka.Persistence.Azure/TableStorageJournal.cs:70-85 | When `to - from` wraps past the guard, the key range is inverted and the query returns nothing. |
| Journal.ReplayNothingBelowFrom | src/Akka.Persistence.Azure/TableStorageJournal.cs:69-98 | A replay with `to < from` never hands out a message. |
| Journal.Replay | src/Akka.Persistence.Azure/TableStorageJournal.cs:65-106 | Definition of what `ReplayMessagesAsync` hands out or throws. `ReplayGuardBlocks`, `ReplayNothingBelowFrom` and `ReplayBounds` state its properties. |
| Journal.ReplayBounds | src/Akka.Persistence.Azure/TableStorageJournal.cs:89-98 | A replay hands out the first `max` visible rows of the range when there are more, and all of them when there are at most `max`. |
| Journal.MarkRange | src/Akka.Persistence.Azure/TableStorageJournal.cs:159-166 | Flagging keeps every key of the table. |
| Journal.MarkDeleted | src/Akka.Persistence.Azure/TableStorageJournal.cs:162-163 | Definition: sets `IsDeleted` and copies the permanent flag. `MarkRange` and `TombstoneNumeric` state its effect on the table. |
| Journal.Tombstone | src/Akka.Persistence.Azure/TableStorageJournal.cs:142-167 | Deletion removes no row. |
| Journal.TombstoneNumeric | src/Akka.Persistence.Azure/TableStorageJournal.cs:148-166 | On well-formed rows, exactly the stream's rows numbered up to `to` are flagged `IsDeleted` with `IsPermanentDelete = isPermanent`. Every other row is unchanged and well-formedness is kept. |
| Journal.HighestIgnoresTombstones | src/Akka.Persistence.Azure/TableStorageJournal.cs:35-63 | Deleting never changes the highest sequence number, because flagged rows stay. |
| Journal.ReplayAfterPermanentDelete | src/Akka.Persistence.Azure/TableStorageJournal.cs:91 | After a permanent delete up to d, replay hands out only the stream's rows above d that were not already hidden. |
| Journal.SoftDeleteResurrects | src/Akka.Persistence.Azure/TableStorageJournal.cs:162-163 | A later soft delete overwrites `IsPermanentDelete` with false, so rows a permanent delete had hidden are replayed again, flagged deleted. |
| Journal.StreamIds | src/Akka.Persistence.Azure/TableStorageJournal.cs:111 | The `GroupBy` keys: each persistence id of the messages, once. |
| Journal.MessagesOf | src/Akka.Persistence.Azure/TableStorageJournal.cs:111 | A group holds exactly the messages with its persistence id. |
| Journal.Ordered | src/Akka.Persistence.Azure/TableStorageJournal.cs:115 | A group ordered by ascending sequence number, with the same members. |
| Journal.Events | src/Akka.Persistence.Azure/TableStorageJournal.cs:117-121 | One `Event` per representation, in order. |
| Journal.EventsMembers | src/Akka.Persistence.Azure/TableStorageJournal.cs:117-121 | The events are exactly the `Event`s of the group's messages. |
| Journal.BatchOf | src/Akka.Persistence.Azure/TableStorageJournal.cs:113-130 | A stream's batch carries its events in ascending sequence-number order. |
| Journal.BatchOfMembers | src/Akka.Persistence.Azure/TableStorageJournal.cs:113-130 | The batch holds exactly the events of the stream's messages. |
| Journal.Batches | src/Akka.Persistence.Azure/TableStorageJournal.cs:111-130 | One batch per stream, in `GroupBy` order. |
| Journal.PutFresh | src/Akka.Persistence.Azure/TableStorageJournal.cs:126-132 | Inserting events under free, distinct keys adds exactly those keys and keeps every old row. |
| Journal.InsertBatch | src/Akka.Persistence.Azure/TableStorageJournal.cs:126-132 | A batch insert succeeds exactly when all its keys are free and distinct, and then adds every event under its key and keeps the old rows. Otherwise it fails with a conflict. |
| Journal.CommitBatches | src/Akka.Persistence.Azure/TableStorageJournal.cs:111-139 | Definition of the write loop: the batches are committed in order, and the first failure ends the write. `CommitPrefix` and `CommitStores` state its effect. |
| Journal.CommitPrefix | src/Akka.Persistence.Azure/TableStorageJournal.cs:111-139 | A write leaves the table with the first j batches committed. j is the number of batches exactly when nothing was thrown. Otherwise batch j failed on routing or on its insert, and the batches before it stay. |
| Journal.CommitStores | src/Akka.Persistence.Azure/TableStorageJournal.cs:111-139 | A successful write keeps every old row and stores every event of every batch under its key, and adds nothing else. |
| Journal.CommitStoresEvent | src/Akka.Persistence.Azure/TableStorageJournal.cs:127-132 | One event of a successful write is stored under its key. |
| Journal.WriteStoresMessage | src/Akka.Persistence.Azure/TableStorageJournal.cs:108-140 | After a successful write, each message's event is stored at (persistence id, `ToRowKey(seq)`). |
| Journal.WriteStoresMessages | src/Akka.Persistence.Azure/TableStorageJournal.cs:108-140 | After a successful write, every message is stored, old rows are unchanged, and every row is old or written. |
| Journal.WriteThenReplay | src/Akka.Persistence.Azure/TableStorageJournal.cs:108-140 | After a successful write, a replay whose range covers a written message hands that message back, not deleted. |
| Journal.PutWellFormed | src/Akka.Persistence.Azure/TableStorageJournal.cs:197-208 | Storing well-formed events keeps the table well formed. |
| Journal.WriteKeepsWellFormed | src/Akka.Persistence.Azure/TableStorageJournal.cs:108-140 | Writing messages numbered below 10^10 keeps every row at the key its own id and number give. |
| Journal.CommitKeepsWellFormed | src/Akka.Persistence.Azure/TableStorageJournal.cs:126-132 | Committing batches of well-formed events keeps the table well formed. |
| Journal.EventIdPerStream | src/Akka.Persistence.Azure/TableStorageJournal.cs:119 | Within one stream, distinct sequence numbers get distinct event ids. |
| Journal.EventIdCollision | src/Akka.Persistence.Azure/TableStorageJournal.cs:119 | Across streams, event ids can collide: "a1" + 2 and "a" + 12 concatenate to the same name, though their keys differ. |
| Journal.BatchOfQuery | src/Akka.Persistence.Azure/TableStorageJournal.cs:156-165 | The replace batch built from the sorted results holds exactly the selected rows, each flagged. |
| Journal.TombstoneByBatch | src/Akka.Persistence.Azure/TableStorageJournal.cs:159-166 | Executing that batch over the table yields the table with the range flagged. |
| Journal.TombstoneOfNothing | src/Akka.Persistence.Azure/TableStorageJournal.cs:157 | With no results, skipping the batch leaves the table as the flagging would. |
| Journal.ReplayResults | src/Akka.Persistence.Azure/TableStorageJournal.cs:89-98 | The loop hands out the first `max` results that are not permanently deleted, as `Persistent`s. |
| Journal.TombstoneRows | src/Akka.Persistence.Azure/TableStorageJournal.cs:148-166 | Query, order newest first, flag each row and execute the batch: the table becomes `Tombstone`. |
| Journal.TombstoneBatch | src/Akka.Persistence.Azure/TableStorageJournal.cs:159-165 | The replace batch holds every result, each flagged, and nothing else. |
| Journal.TableStorageJournal.constructor | src/Akka.Persistence.Azure/TableStorageJournal.cs:27-33 | An empty journal table routed by the given settings. |
| Journal.TableStorageJournal.ReadHighestSequenceNr | src/Akka.Persistence.Azure/TableStorageJournal.cs:35-63 | The routing error, rethrown, or `Highest` of the stream from `from`. |
| Journal.TableStorageJournal.ReplayMessages | src/Akka.Persistence.Azure/TableStorageJournal.cs:65-106 | The messages handed to the callback are `Replay` of the current table. |
| Journal.TableStorageJournal.WriteMessages | src/Akka.Persistence.Azure/TableStorageJournal.cs:108-140 | The new table and the rethrown exception are the outcome of committing the stream batches in order. |
| Journal.TableStorageJournal.DeleteMessagesTo | src/Akka.Persistence.Azure/TableStorageJournal.cs:142-175 | The routing error, rethrown, leaves the table unchanged. Otherwise the stream's rows up to `to` are flagged. |
| TableSnapshots.NewSnapshot | src/Akka.Persistence.Azure/TableStorageSnapshotStore.cs:147-158 | The row is keyed by (persistence id, `ToRowKey(sequenceNr)`) and holds the selected snapshot. |
| TableSnapshots.CandidateNumeric | src/Akka.Persistence.Azure/TableStorageSnapshotStore.cs:39-46 | On well-formed rows, the key filter `le ToRowKey(max)` selects the stream's snapshots numbered up to max. |
| TableSnapshots.NewestFirst | src/Akka.Persistence.Azure/TableStorageSnapshotStore.cs:47-51 | After `OrderByDescending`, `First()` is a candidate with the greatest sequence number. With no results, there is no candidate. |
| TableSnapshots.SortedCandidates | src/Akka.Persistence.Azure/TableStorageSnapshotStore.cs:47-51 | A descending permutation of exactly the selected rows starts at the newest selected row. |
| TableSnapshots.Pick | src/Akka.Persistence.Azure/TableStorageSnapshotStore.cs:39-58 | The result is the newest candidate's snapshot, within `maxTimeStamp`. There is no result when nothing is a candidate. |
| TableSnapshots.PickNewest | src/Akka.Persistence.Azure/TableStorageSnapshotStore.cs:47-58 | The newest candidate is returned exactly when its timestamp is within the bound. An older snapshot is never returned instead. |
| TableSnapshots.PickNumeric | src/Akka.Persistence.Azure/TableStorageSnapshotStore.cs:34-59 | On well-formed rows, load looks only at the stream's snapshot with the highest number up to `maxSequenceNr`. |
| TableSnapshots.PickNothing | src/Akka.Persistence.Azure/TableStorageSnapshotStore.cs:48-58 | With no snapshot of the stream up to `maxSequenceNr`, load returns null. |
| TableSnapshots.PickWithinBounds | src/Akka.Persistence.Azure/TableStorageSnapshotStore.cs:34-59 | A loaded snapshot belongs to the stream and is within both bounds. |
| TableSnapshots.Insert | src/Akka.Persistence.Azure/TableStorageSnapshotStore.cs:68-69 | `TableOperation.Insert` succeeds exactly when the key is free, and otherwise conflicts. |
| TableSnapshots.Saved | src/Akka.Persistence.Azure/TableStorageSnapshotStore.cs:61-75 | Definition of `SaveAsync`: inserts the row. A conflicting row or a routing failure leaves the table as it was, because the exception is swallowed. `SaveEffect` and `SaveThenLoad` state its effect. |
| TableSnapshots.DeletedOne | src/Akka.Persistence.Azure/TableStorageSnapshotStore.cs:80-95 | Definition of `DeleteAsync(metadata)`: removes the row when it exists. A missing row or a routing failure leaves the table as it was, because the exception is swallowed. `DeleteOneEffect` and `DeleteOneThenLoad` state its effect. |
| TableSnapshots.SaveEffect | src/Akka.Persistence.Azure/TableStorageSnapshotStore.cs:61-75 | Save keeps every row and adds the new one when routing works and the key is free. Otherwise the error is swallowed and nothing changes. |
| TableSnapshots.SaveKeepsWellFormed | src/Akka.Persistence.Azure/TableStorageSnapshotStore.cs:61-75 | Saving a snapshot numbered below 10^10 keeps the table well formed. |
| TableSnapshots.SaveThenLoad | src/Akka.Persistence.Azure/TableStorageSnapshotStore.cs:34-75 | A saved snapshot newer than the stream's others within the bounds is what the next load returns. |
| TableSnapshots.DeleteOneEffect | src/Akka.Persistence.Azure/TableStorageSnapshotStore.cs:80-95 | Exactly the row at the metadata's key is removed, and the others stay. |
| TableSnapshots.SaveThenDelete | src/Akka.Persistence.Azure/TableStorageSnapshotStore.cs:61-95 | Deleting what was just saved under a free key restores the table. |
| TableSnapshots.DeleteOneThenLoad | src/Akka.Persistence.Azure/TableStorageSnapshotStore.cs:34-95 | A load after deleting a snapshot never returns that snapshot. |
| TableSnapshots.RemoveRange | src/Akka.Persistence.Azure/TableStorageSnapshotStore.cs:114-119 | Removing a range never adds keys. |
| TableSnapshots.DeletedUpTo | src/Akka.Persistence.Azure/TableStorageSnapshotStore.cs:97-127 | Delete by criteria never adds keys. |
| TableSnapshots.DeleteUpToNumeric | src/Akka.Persistence.Azure/TableStorageSnapshotStore.cs:97-127 | On well-formed rows, exactly the stream's snapshots numbered up to `maxSequenceNr` are removed, whatever their timestamps. The rest are unchanged. |
| TableSnapshots.DeleteUpToThenLoad | src/Akka.Persistence.Azure/TableStorageSnapshotStore.cs:34-127 | After deleting by criteria, a load with the same sequence bound returns null. |
| TableSnapshots.DeletionBatch | src/Akka.Persistence.Azure/TableStorageSnapshotStore.cs:114-118 | The delete batch holds exactly the keys of the results. |
| TableSnapshots.BatchRemovesRange | src/Akka.Persistence.Azure/TableStorageSnapshotStore.cs:111-119 | Deleting the keys of the sorted results removes exactly the queried range. |
| TableSnapshots.TableStorageSnapshotStore.constructor | src/Akka.Persistence.Azure/TableStorageSnapshotStore.cs:26-32 | An empty snapshot table routed by the given settings. |
| TableSnapshots.TableStorageSnapshotStore.LoadSnapshot | src/Akka.Persistence.Azure/TableStorageSnapshotStore.cs:34-59 | The routing error or `Pick` of the current table. |
| TableSnapshots.TableStorageSnapshotStore.SaveSnapshot | src/Akka.Persistence.Azure/TableStorageSnapshotStore.cs:61-75 | The table becomes `Saved`, with failures swallowed. |
| TableSnapshots.TableStorageSnapshotStore.DeleteSnapshot | src/Akka.Persistence.Azure/TableStorageSnapshotStore.cs:80-95 | The table becomes `DeletedOne`, with failures swallowed. |
| TableSnapshots.TableStorageSnapshotStore.DeleteSnapshots | src/Akka.Persistence.Azure/TableStorageSnapshotStore.cs:97-127 | The routing error, rethrown, leaves the table unchanged. Otherwise the table becomes `DeletedUpTo`. |
| BlobSnapshots.RemoveAll | src/Akka.Persistence.Azure/BlobStorageSnapshotStore.cs:158 | `Replace(".json", "")` never lengthens the name. |
| BlobSnapshots.AfterFirstDot | src/Akka.Persistence.Azure/BlobStorageSnapshotStore.cs:158 | Group 1 of `[\.](.*)` is no longer than the input; `AfterFirstDotSuffix` and `AfterFirstDotOf` say which text it is. |
| BlobSnapshots.AfterFirstDotSuffix | src/Akka.Persistence.Azure/BlobStorageSnapshotStore.cs:158 | Group 1 of `[\.](.*)` is a suffix of the input. |
| BlobSnapshots.ParseVersion | src/Akka.Persistence.Azure/BlobStorageSnapshotStore.cs:156-159 | Definition of `SnapshotVersionHelper.Parse`. `VersionRoundTrip`, `JsonIdParses` and `DottedIdFailsToParse` state which names it reads back. |
| BlobSnapshots.BlobName | src/Akka.Persistence.Azure/BlobStorageSnapshotStore.cs:71 | Definition of the blob name. `VersionRoundTrip` and `BlobNamePrefix` state what it encodes. |
| BlobSnapshots.RemoveAllAfterDotFree | src/Akka.Persistence.Azure/BlobStorageSnapshotStore.cs:158 | A dot-free prefix passes through the replacement unchanged. |
| BlobSnapshots.RemoveAllDigitsJson | src/Akka.Persistence.Azure/BlobStorageSnapshotStore.cs:158 | Replacement strips the ".json" after a digit key. |
| BlobSnapshots.AfterFirstDotOf | src/Akka.Persistence.Azure/BlobStorageSnapshotStore.cs:158 | The regex group is everything after the first dot. |
| BlobSnapshots.ParseLongRejectsDot | src/Akka.Persistence.Azure/BlobStorageSnapshotStore.cs:158 | `long.Parse` of text containing a dot throws FormatException. |
| BlobSnapshots.NameParsesAsKey | src/Akka.Persistence.Azure/BlobStorageSnapshotStore.cs:156-159 | For a dot-free id, the name parses as its digit key. |
| BlobSnapshots.VersionRoundTrip | src/Akka.Persistence.Azure/BlobStorageSnapshotStore.cs:71 | For a dot-free id and a non-negative number, `Parse` of the saved blob's name gives back the number. |
| BlobSnapshots.SecondDotFails | src/Akka.Persistence.Azure/BlobStorageSnapshotStore.cs:158 | A second dot in what remains after the first makes `Parse` throw FormatException. |
| BlobSnapshots.DottedNameFails | src/Akka.Persistence.Azure/BlobStorageSnapshotStore.cs:158 | For an id `a + "." + b` with dot-free parts, where `b` does not start with "json", the blob name of any digit key is rejected by `Parse` with FormatException. `JsonNameParsesAsKey` covers the exception, an id ending in ".json". |
| BlobSnapshots.DottedIdFailsToParse | src/Akka.Persistence.Azure/BlobStorageSnapshotStore.cs:71 | A snapshot saved for an id with a dot (not followed by "json") gets a name `Parse` rejects. |
| BlobSnapshots.JsonNameParsesAsKey | src/Akka.Persistence.Azure/BlobStorageSnapshotStore.cs:158 | Every ".json" is removed, so an id ending in ".json" still parses. |
| BlobSnapshots.JsonIdParses | src/Akka.Persistence.Azure/BlobStorageSnapshotStore.cs:71 | A snapshot of an id ending in ".json" reads back its number. |
| BlobSnapshots.BlobNamePrefix | src/Akka.Persistence.Azure/BlobStorageSnapshotStore.cs:94-98 | For dot-free ids, one blob name is a prefix of another only when they are the same snapshot's name. |
| BlobSnapshots.Listing | src/Akka.Persistence.Azure/BlobStorageSnapshotStore.cs:35-39 | `ListBlobs(prefix)` lists exactly the names starting with the prefix, in ascending order. |
| BlobSnapshots.ParseListing | src/Akka.Persistence.Azure/BlobStorageSnapshotStore.cs:41 | Reading every listed name's version succeeds exactly when each name parses. Otherwise a name's own parse error is thrown. |
| BlobSnapshots.ParsedEntries | src/Akka.Persistence.Azure/BlobStorageSnapshotStore.cs:35-41 | The parsed entries are exactly the listed blobs with their versions. |
| BlobSnapshots.TimestampOf | src/Akka.Persistence.Azure/BlobStorageSnapshotStore.cs:48-49 | Definition of `long.Parse(Metadata["SnapshotTimestamp"])`, with KeyNotFoundException when the entry is missing. `SavedBlobReadsBack` shows a saved blob reads back its timestamp. |
| BlobSnapshots.Scan | src/Akka.Persistence.Azure/BlobStorageSnapshotStore.cs:46-60 | Definition of the `foreach` of `LoadAsync`. `ScanFindsNewest` and `ScanIsFirst` state its answer. |
| BlobSnapshots.ScanFindsNewest | src/Akka.Persistence.Azure/BlobStorageSnapshotStore.cs:46-60 | Over candidates by descending version, the loop returns the greatest-version candidate within both bounds, or null when none is. |
| BlobSnapshots.SortedListing | src/Akka.Persistence.Azure/BlobStorageSnapshotStore.cs:35-43 | On readable blobs the sorted listing parses, is descending, and holds exactly the listed blobs. |
| BlobSnapshots.ScanSelects | src/Akka.Persistence.Azure/BlobStorageSnapshotStore.cs:46-60 | The loop's answer, stated on the container: the newest listed blob within both bounds, or null. |
| BlobSnapshots.LoadSelects | src/Akka.Persistence.Azure/BlobStorageSnapshotStore.cs:33-63 | When routing works and every listed blob is readable, load returns the newest listed blob within both bounds, or null when none is. |
| BlobSnapshots.LoadRejectsUnreadableName | src/Akka.Persistence.Azure/BlobStorageSnapshotStore.cs:41-43 | One listed name that does not parse makes load throw. |
| BlobSnapshots.Load | src/Akka.Persistence.Azure/BlobStorageSnapshotStore.cs:33-63 | Definition of what `LoadAsync` returns or throws. `LoadSelects`, `LoadPrefersFirstListed` and `LoadRejectsUnreadableName` state its properties. |
| BlobSnapshots.FirstEligible | src/Akka.Persistence.Azure/BlobStorageSnapshotStore.cs:46-50 | The position of the first candidate within both bounds: every earlier one is outside them. |
| BlobSnapshots.ScanIsFirst | src/Akka.Persistence.Azure/BlobStorageSnapshotStore.cs:46-60 | With readable timestamps, the loop returns the first candidate within both bounds, or null when there is none. |
| BlobSnapshots.FilterFirstEligible | src/Akka.Persistence.Azure/BlobStorageSnapshotStore.cs:41 | The first candidate within both bounds among those of one version is the first such candidate of that version in the whole sequence. |
| BlobSnapshots.NewestComesFirst | src/Akka.Persistence.Azure/BlobStorageSnapshotStore.cs:41-50 | In descending version order, the first candidate within both bounds has the greatest version among them. |
| BlobSnapshots.ScanPrefersFirst | src/Akka.Persistence.Azure/BlobStorageSnapshotStore.cs:41-58 | Because `OrderByDescending` is stable, among eligible candidates of the greatest version the loop returns the one listed first. |
| BlobSnapshots.NewestEntry | src/Akka.Persistence.Azure/BlobStorageSnapshotStore.cs:39-41 | The condition `Newest` on a listed blob, restated on its position in the parsed listing. |
| BlobSnapshots.LoadPrefersFirstListed | src/Akka.Persistence.Azure/BlobStorageSnapshotStore.cs:33-63 | When routing works and every listed blob is readable, load returns the greatest-version blob within both bounds. Of two blobs with that version, it returns the one first in ordinal name order. |
| BlobSnapshots.ScanResults | src/Akka.Persistence.Azure/BlobStorageSnapshotStore.cs:46-60 | The `foreach` loop computes `Scan`. |
| BlobSnapshots.SavedBlobReadsBack | src/Akka.Persistence.Azure/BlobStorageSnapshotStore.cs:71-77 | The uploaded blob's timestamp reads back as the snapshot's ticks and its version key is the number's key. A dot-free id's name parses to the number. |
| BlobSnapshots.Saved | src/Akka.Persistence.Azure/BlobStorageSnapshotStore.cs:65-85 | Definition of `SaveAsync`: the blob under its name, replacing any earlier one. A routing failure leaves the container as it was, because the exception is swallowed. `SavedBlobReadsBack`, `SavedBlobListed` and `SaveThenLoad` state its effect. |
| BlobSnapshots.SavedBlobListed | src/Akka.Persistence.Azure/BlobStorageSnapshotStore.cs:65-85 | A saved blob is listed under every prefix of its id, keeps the listing readable, passes both bounds, parses to its number and holds the snapshot. |
| BlobSnapshots.SaveThenLoad | src/Akka.Persistence.Azure/BlobStorageSnapshotStore.cs:33-85 | A saved snapshot newer than the other listed blobs within the bounds is what the next load returns. |
| BlobSnapshots.OtherBlobOlder | src/Akka.Persistence.Azure/BlobStorageSnapshotStore.cs:65-85 | After a save, every other listed blob within the bounds has a smaller version. |
| BlobSnapshots.LoadCrossesStreams | src/Akka.Persistence.Azure/BlobStorageSnapshotStore.cs:35-39 | Listing by the bare id prefix returns stream "ab"'s snapshot to a load for stream "a". |
| BlobSnapshots.DeletedOne | src/Akka.Persistence.Azure/BlobStorageSnapshotStore.cs:90-112 | Definition of `DeleteAsync(metadata)`: every blob whose name starts with the snapshot's blob name is removed. `DeleteOneExact` and `SaveThenDelete` state its effect. |
| BlobSnapshots.DeleteOneExact | src/Akka.Persistence.Azure/BlobStorageSnapshotStore.cs:90-112 | On blobs named by the store, deleting by metadata removes exactly that snapshot's blob. |
| BlobSnapshots.OnlyPrefixRemoved | src/Akka.Persistence.Azure/BlobStorageSnapshotStore.cs:94-106 | When only the exact name carries the prefix, the prefix delete removes that one blob. |
| BlobSnapshots.SaveKeepsWellNamed | src/Akka.Persistence.Azure/BlobStorageSnapshotStore.cs:65-85 | Saving a dot-free, non-negative snapshot keeps every blob named for its own snapshot. |
| BlobSnapshots.SaveThenDelete | src/Akka.Persistence.Azure/BlobStorageSnapshotStore.cs:65-112 | Deleting right after saving leaves what deleting alone would. |
| BlobSnapshots.Doomed | src/Akka.Persistence.Azure/BlobStorageSnapshotStore.cs:139-150 | Definition of what `TryDeleteAsync` yields before a bad timestamp throws. `DoomedExact` and `TryDelete` state which names it holds. |
| BlobSnapshots.DoomedExact | src/Akka.Persistence.Azure/BlobStorageSnapshotStore.cs:139-150 | With readable timestamps nothing is thrown, and exactly the candidates within both bounds are deleted. |
| BlobSnapshots.DoomedStopsAt | src/Akka.Persistence.Azure/BlobStorageSnapshotStore.cs:139-150 | When the first candidate within the sequence bound with an unreadable timestamp is at position i, the iteration throws that error, and the deletes yielded before it are exactly the eligible candidates ahead of i. |
| BlobSnapshots.TryDelete | src/Akka.Persistence.Azure/BlobStorageSnapshotStore.cs:139-150 | The iterator yields the deletes of `Doomed`, in order, and stops with its exception. |
| BlobSnapshots.DoomedSelects | src/Akka.Persistence.Azure/BlobStorageSnapshotStore.cs:124-129 | Over the sorted listing, exactly the listed blobs within both bounds are deleted. |
| BlobSnapshots.DeleteUpTo | src/Akka.Persistence.Azure/BlobStorageSnapshotStore.cs:114-137 | Definition of `DeleteAsync(pid, criteria)`: the container afterwards, and the exception rethrown. `DeleteUpToSelects` and `DeleteUpToThenLoad` state its effect. |
| BlobSnapshots.DeleteUpToSelects | src/Akka.Persistence.Azure/BlobStorageSnapshotStore.cs:114-137 | With readable blobs, delete by criteria removes exactly the listed blobs within both bounds and keeps the rest unchanged. |
| BlobSnapshots.DeleteUpToThenLoad | src/Akka.Persistence.Azure/BlobStorageSnapshotStore.cs:33-137 | After deleting by criteria, a load with the same criteria returns null. |
| BlobSnapshots.BlobStorageSnapshotStore.constructor | src/Akka.Persistence.Azure/BlobStorageSnapshotStore.cs:25-31 | An empty container routed by the given settings. |
| BlobSnapshots.BlobStorageSnapshotStore.LoadSnapshot | src/Akka.Persistence.Azure/BlobStorageSnapshotStore.cs:33-63 | The result is `Load` of the current container. |
| BlobSnapshots.BlobStorageSnapshotStore.SaveSnapshot | src/Akka.Persistence.Azure/BlobStorageSnapshotStore.cs:65-85 | The container becomes `Saved`, with failures swallowed. |
| BlobSnapshots.BlobStorageSnapshotStore.DeleteSnapshot | src/Akka.Persistence.Azure/BlobStorageSnapshotStore.cs:90-112 | The container becomes `DeletedOne`, with failures swallowed. |
| BlobSnapshots.BlobStorageSnapshotStore.DeleteSnapshots | src/Akka.Persistence.Azure/BlobStorageSnapshotStore.cs:114-137 | The container and the rethrown exception are `DeleteUpTo` of the old container. |

## Left out

- Transient storage failures (timeouts, throttling, lost connections) are not modelled. The only failures modelled are routing errors, key conflicts, and name or metadata that does not parse.
- Asynchrony is left out: `async`/`await`, `Task.WhenAll`, and the order in which individual blob deletes run. Deletes are modelled as one step.
- JSON serialization is left out: payloads and snapshots are opaque values, and serialize/deserialize is the identity.
- Reading HOCON configuration is left out: a section is given as its table or container name and connection strings. Only the null check on a missing section is modelled.
- `CloudStorageAccount.Parse` is left out: an account is identified by its connection string, and malformed strings are not rejected.
- Logging is left out.
- The `Cast<CloudBlockBlob>()` of a listing is left out: every listed blob is a block blob.
- Table and container names are left out: each store is one map, shared by every account the router can pick.
- `AzureStorageInitializer.cs` and `TableStorageExtension.cs` (table and container creation, plugin wiring) are not part of this model.
- `GuidUtility.Create` is kept symbolic: a name-based GUID is the pair (namespace, name). Two names give the same GUID exactly when the names are equal, and hash collisions are not modelled.
- `Guid.NewGuid()` and the clock are parameters of the operations that use them.
- Timestamps in snapshot metadata and the criteria's time bound are `Ticks`, an integer in [0, `DateTime.MaxValue.Ticks`]. The `SnapshotTimestamp` text read back from blob metadata is parsed as any `long`, as `long.Parse` does, so a blob written by another writer may carry a timestamp outside that range.
- Journal.HighestNumeric: stated only for well-formed tables and a `from` in [0, 10^10), where key order is number order. `Journal.Highest` gives the general key-range form.
- Journal.ReplayedRowsNumeric: stated only for well-formed tables and bounds in [0, 10^10). `Journal.ReplayedRowsExact` gives the general key-range form.
- Journal.TombstoneNumeric: stated only for well-formed tables and a `to` in [0, 10^10).
- TableSnapshots.PickNumeric: stated only for well-formed tables and a `maxSequenceNr` in [0, 10^10). `TableSnapshots.Pick` gives the general key-range form.
- TableSnapshots.DeleteUpToNumeric: stated only for well-formed tables and a `maxSequenceNr` in [0, 10^10).
- BlobSnapshots.LoadSelects: stated only when every listed blob has a parsable name and timestamp. `BlobSnapshots.LoadRejectsUnreadableName` covers a bad name, and `BlobSnapshots.Scan` gives the exception thrown for a bad timestamp.
- BlobSnapshots.DeleteUpToSelects: stated only for readable listings. With an unreadable timestamp, the deletes issued before it stay done: `BlobSnapshots.DoomedStopsAt` states which they are, and `BlobSnapshots.TryDelete` that the loop issues them.
- SequenceKey.ParseLong: models `long.Parse` under the invariant culture. It does not accept the trailing `'\0'` characters .NET allows, nor a culture-specific sign string. Version keys and tick strings are unsigned ASCII digits, so no modelled path depends on either.
- The `ToRowKey(int)` and `ToRowKey(long)` overloads, and `ToVersionKey`, are one function: `SequenceKey.ToRowKey`. An `int` converts to `long` without change.
