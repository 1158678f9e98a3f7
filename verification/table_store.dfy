/**
 * The storage service's table, seen as a value: a map from (partition key, row key) to an entity.
 * A query selects one partition and a row-key range and returns the matching entities in
 * ascending ordinal row-key order, the order the service returns within a partition.
 */
module TableStore {
  import opened Wrappers
  import opened Ordinal

  datatype Key = Key(partition: string, row: string)

  /** Optional inclusive bounds on the row key (`RowKey ge lo`, `RowKey le hi`). */
  datatype RowRange = RowRange(lo: Option<string>, hi: Option<string>)

  predicate InRange(rowKey: string, range: RowRange) {
    && (range.lo.Some? ==> LessEq(range.lo.value, rowKey))
    && (range.hi.Some? ==> LessEq(rowKey, range.hi.value))
  }

  /** The filter `PartitionKey eq pk and <range>` of a table query. */
  predicate Selected(k: Key, pk: string, range: RowRange) {
    k.partition == pk && InRange(k.row, range)
  }

  function SelectedRowKeys<V>(t: map<Key, V>, pk: string, range: RowRange): set<string> {
    set k | k in t && Selected(k, pk, range) :: k.row
  }

  /** `ExecuteQuery`: every selected entity exactly once, in ascending row-key order. */
  function Query<V>(t: map<Key, V>, pk: string, range: RowRange): (q: seq<(Key, V)>)
    ensures forall i :: 0 <= i < |q| ==> q[i].0 in t && q[i].1 == t[q[i].0] && Selected(q[i].0, pk, range)
    ensures forall k :: k in t && Selected(k, pk, range) ==> (k, t[k]) in q
    ensures forall i, j :: 0 <= i < j < |q| ==> Less(q[i].0.row, q[j].0.row)
    ensures forall i :: 0 <= i < |q| ==> q[i].0.partition == pk
  {
    var rows := SortedKeys(SelectedRowKeys(t, pk, range));
    RowsSelected(t, pk, range, rows);
    var q := seq(|rows|, i requires 0 <= i < |rows| => (Key(pk, rows[i]), t[Key(pk, rows[i])]));
    EntriesOfRows(t, pk, range, rows, q);
    q
  }

  lemma RowsSelected<V>(t: map<Key, V>, pk: string, range: RowRange, rows: seq<string>)
    requires forall r :: r in rows <==> r in SelectedRowKeys(t, pk, range)
    ensures forall r :: r in rows ==> Key(pk, r) in t && InRange(r, range)
  {
    forall r | r in rows ensures Key(pk, r) in t && InRange(r, range) {
      var k :| k in t && Selected(k, pk, range) && k.row == r;
      assert k == Key(pk, r);
    }
  }

  /** The entries of the selected row keys, in their order, are the query's answer. */
  lemma EntriesOfRows<V>(t: map<Key, V>, pk: string, range: RowRange, rows: seq<string>, q: seq<(Key, V)>)
    requires StrictlyAscending(rows) && forall r :: r in rows <==> r in SelectedRowKeys(t, pk, range)
    requires |q| == |rows| && forall i :: 0 <= i < |rows| ==> Key(pk, rows[i]) in t && q[i] == (Key(pk, rows[i]), t[Key(pk, rows[i])])
    ensures forall i :: 0 <= i < |q| ==> q[i].0 in t && q[i].1 == t[q[i].0] && Selected(q[i].0, pk, range)
    ensures forall k :: k in t && Selected(k, pk, range) ==> (k, t[k]) in q
    ensures forall i, j :: 0 <= i < j < |q| ==> Less(q[i].0.row, q[j].0.row)
    ensures forall i :: 0 <= i < |q| ==> q[i].0.partition == pk
  {
    RowsSelected(t, pk, range, rows);
    forall i | 0 <= i < |q| ensures Selected(q[i].0, pk, range) {
      assert rows[i] in rows;
    }
    forall k | k in t && Selected(k, pk, range) ensures (k, t[k]) in q {
      assert k.row in rows;
      var i :| 0 <= i < |rows| && rows[i] == k.row;
      assert q[i] == (k, t[k]);
    }
  }

  /** Keys selected by a query are distinct, because the row keys are strictly ascending. */
  lemma QueryKeysDistinct<V>(t: map<Key, V>, pk: string, range: RowRange, i: nat, j: nat)
    requires i < j < |Query(t, pk, range)|
    ensures Query(t, pk, range)[i].0 != Query(t, pk, range)[j].0
  {
    var q := Query(t, pk, range);
    LessAsymmetric(q[i].0.row, q[j].0.row);
  }
}
