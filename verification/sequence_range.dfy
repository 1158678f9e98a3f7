/**
 * The row-key filters the stores put on a partition, `RowKey ge ToRowKey(from)` and
 * `RowKey le ToRowKey(to)`, and what they mean for sequence numbers in [0, 10^10).
 */
module SequenceRange {
  import opened Wrappers
  import opened SequenceKey
  import opened TableStore

  /** `RowKey ge ToRowKey(from)`. */
  function FromRange(from: Int64): RowRange {
    RowRange(Some(ToRowKey(from)), None)
  }

  /** `RowKey ge ToRowKey(from) and RowKey le ToRowKey(to)`. */
  function BetweenRange(from: Int64, to: Int64): RowRange {
    RowRange(Some(ToRowKey(from)), Some(ToRowKey(to)))
  }

  /** `RowKey le ToRowKey(to)`. */
  function UpToRange(to: Int64): RowRange {
    RowRange(None, Some(ToRowKey(to)))
  }

  /** For a row stored under the key of `sequenceNr`, the row-key filters are numeric filters. */
  lemma SelectedByNumber(k: Key, pid: string, sequenceNr: Int64, from: Int64, to: Int64)
    requires k.row == ToRowKey(sequenceNr)
    requires 0 <= sequenceNr < KEY_CAPACITY && 0 <= from < KEY_CAPACITY && 0 <= to < KEY_CAPACITY
    ensures Selected(k, pid, FromRange(from)) <==> k.partition == pid && from <= sequenceNr
    ensures Selected(k, pid, UpToRange(to)) <==> k.partition == pid && sequenceNr <= to
    ensures Selected(k, pid, BetweenRange(from, to)) <==> k.partition == pid && from <= sequenceNr <= to
  {
    RowKeyOrderIff(from, sequenceNr);
    RowKeyOrderIff(sequenceNr, to);
  }
}
