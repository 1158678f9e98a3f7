/**
 * The table-storage journal: events of stream `pid` are rows of partition `pid` keyed by
 * `ToRowKey(SequenceNr)`; writes insert one batch per stream, replay reads a row-key range,
 * and delete-to marks rows as deleted (softly or permanently) instead of removing them.
 */
module Journal {
  import opened Wrappers
  import opened Ordinal
  import opened SequenceKey
  import opened Sorting
  import opened TableStore
  import opened SequenceRange
  import opened Settings
  import opened Persistence

  /** The `Event` table entity, with the partition and row keys it is stored under. */
  datatype EventRow = EventRow(
    partitionKey: string,
    rowKey: string,
    id: Guid,
    aggregateId: string,
    typeName: string,
    sequenceNr: Int64,
    eventState: Payload,
    isDeleted: bool,
    isPermanentDelete: bool)

  type EventTable = map<Key, EventRow>

  /** Where the event `seq` of stream `pid` is stored. */
  function EventKey(pid: string, sequenceNr: Int64): Key {
    Key(pid, ToRowKey(sequenceNr))
  }

  function KeyOf(e: EventRow): Key {
    Key(e.partitionKey, e.rowKey)
  }

  /** `GuidUtility.Create(IsoOidNamespace, string.Concat(stream, seq))`. */
  function EventId(stream: string, sequenceNr: Int64): Guid {
    NameGuid(ISO_OID_NAMESPACE, stream + LongToString(sequenceNr))
  }

  /**
   * `new Event(id, aggId, type, version, payload)` for message `m` of group `stream`: partition =
   * aggregate id, row = `ToRowKey(version)`, not deleted, payload type recorded.
   */
  function NewEvent(stream: string, m: PersistentRepr): (e: EventRow)
    ensures KeyOf(e) == EventKey(m.persistenceId, m.sequenceNr)
    ensures e.id == EventId(stream, m.sequenceNr) && e.aggregateId == m.persistenceId
    ensures ToPersistent(e) == Persistent(m.payload, m.sequenceNr, m.persistenceId, false)
    ensures !e.isPermanentDelete
  {
    var id := EventId(stream, m.sequenceNr);
    EventRow(m.persistenceId, ToRowKey(m.sequenceNr), id, m.persistenceId, m.payload.typeName, m.sequenceNr, m.payload, false, false)
  }

  /** Every row sits under the key its own aggregate id and sequence number give, below 10^10. */
  ghost predicate WellFormed(t: EventTable) {
    forall k :: k in t ==> k == KeyOf(t[k]) == EventKey(t[k].aggregateId, t[k].sequenceNr) && 0 <= t[k].sequenceNr < KEY_CAPACITY
  }

  /** On well-formed rows and numbers in [0, 10^10), the row-key filters are numeric filters. */
  lemma SelectedNumeric(t: EventTable, k: Key, pid: string, from: Int64, to: Int64)
    requires WellFormed(t) && k in t
    requires 0 <= from < KEY_CAPACITY && 0 <= to < KEY_CAPACITY
    ensures Selected(k, pid, FromRange(from)) <==> k.partition == pid && from <= t[k].sequenceNr
    ensures Selected(k, pid, UpToRange(to)) <==> k.partition == pid && t[k].sequenceNr <= to
    ensures Selected(k, pid, BetweenRange(from, to)) <==> k.partition == pid && from <= t[k].sequenceNr <= to
  {
    SelectedByNumber(k, pid, t[k].sequenceNr, from, to);
  }

  // ---------------------------------------------------------------------------------------------
  // ReadHighestSequenceNrAsync

  function MaxSequenceNr(q: seq<(Key, EventRow)>): (m: Int64)
    requires q != []
    ensures forall i :: 0 <= i < |q| ==> q[i].1.sequenceNr <= m
    ensures exists i :: 0 <= i < |q| && q[i].1.sequenceNr == m
  {
    if |q| == 1 then q[0].1.sequenceNr
    else
      var m := MaxSequenceNr(q[1..]);
      assert forall i :: 1 <= i < |q| ==> q[i] == q[1..][i - 1];
      if q[0].1.sequenceNr >= m then q[0].1.sequenceNr else m
  }

  /**
   * The answer of `ReadHighestSequenceNrAsync`: the greatest sequence number among the stream's
   * rows with row key at least `ToRowKey(from)`, deleted or not, and 0 when there is none.
   */
  function Highest(t: EventTable, pid: string, from: Int64): (h: Int64)
    ensures forall k :: k in t && Selected(k, pid, FromRange(from)) ==> t[k].sequenceNr <= h
    ensures (exists k :: k in t && Selected(k, pid, FromRange(from))) ==>
              exists k :: k in t && Selected(k, pid, FromRange(from)) && t[k].sequenceNr == h
    ensures (forall k :: k in t ==> !Selected(k, pid, FromRange(from))) ==> h == 0
  {
    var q := Query(t, pid, FromRange(from));
    MaxOfSelected(t, pid, FromRange(from), q);
    if q == [] then 0 else MaxSequenceNr(q)
  }

  /** Over rows that are exactly the table's selected rows, their maximum is the selected rows' maximum. */
  lemma {:induction false} MaxOfSelected(t: EventTable, pid: string, range: RowRange, q: seq<(Key, EventRow)>)
    requires forall i :: 0 <= i < |q| ==> q[i].0 in t && q[i].1 == t[q[i].0] && Selected(q[i].0, pid, range)
    requires forall k :: k in t && Selected(k, pid, range) ==> (k, t[k]) in q
    ensures q == [] <==> forall k :: k in t ==> !Selected(k, pid, range)
    ensures q != [] ==> forall k :: k in t && Selected(k, pid, range) ==> t[k].sequenceNr <= MaxSequenceNr(q)
    ensures q != [] ==> exists k :: k in t && Selected(k, pid, range) && t[k].sequenceNr == MaxSequenceNr(q)
  {
    if q != [] {
      var h := MaxSequenceNr(q);
      forall k | k in t && Selected(k, pid, range) ensures t[k].sequenceNr <= h {
        var i :| 0 <= i < |q| && q[i] == (k, t[k]);
      }
      var i :| 0 <= i < |q| && q[i].1.sequenceNr == h;
      assert q[i].0 in t && Selected(q[i].0, pid, range) && t[q[i].0].sequenceNr == h;
    }
  }

  /** The same on well-formed rows, numerically: the largest sequence number `>= from`, else 0. */
  lemma HighestNumeric(t: EventTable, pid: string, from: Int64)
    requires WellFormed(t) && 0 <= from < KEY_CAPACITY
    ensures forall k :: k in t && k.partition == pid && from <= t[k].sequenceNr ==> t[k].sequenceNr <= Highest(t, pid, from)
    ensures (exists k :: k in t && k.partition == pid && from <= t[k].sequenceNr) ==>
              exists k :: k in t && k.partition == pid && from <= t[k].sequenceNr && t[k].sequenceNr == Highest(t, pid, from)
    ensures (forall k :: k in t && k.partition == pid ==> t[k].sequenceNr < from) ==> Highest(t, pid, from) == 0
  {
    forall k | k in t {
      SelectedNumeric(t, k, pid, from, from);
    }
  }

  // ---------------------------------------------------------------------------------------------
  // ReplayMessagesAsync

  function ToPersistent(e: EventRow): Persistent {
    Persistent(e.eventState, e.sequenceNr, e.aggregateId, e.isDeleted)
  }

  /** The rows the replay loop hands to the callback, in order: those not permanently deleted. */
  function Visible(q: seq<(Key, EventRow)>): (r: seq<Persistent>)
    ensures |r| <= |q|
  {
    if q == [] then []
    else
      var last := q[|q| - 1].1;
      Visible(q[..|q| - 1]) + if last.isPermanentDelete then [] else [ToPersistent(last)]
  }

  lemma {:induction false} VisibleAppend(a: seq<(Key, EventRow)>, b: seq<(Key, EventRow)>)
    ensures Visible(a + b) == Visible(a) + Visible(b)
    decreases |b|
  {
    if b != [] {
      var n := |b| - 1;
      assert (a + b)[..|a + b| - 1] == a + b[..n];
      VisibleAppend(a, b[..n]);
    } else {
      assert a + b == a;
    }
  }

  /** What `Visible` yields, element by element. */
  lemma {:induction false} VisibleMembers(q: seq<(Key, EventRow)>, p: Persistent)
    ensures p in Visible(q) <==> exists i :: 0 <= i < |q| && !q[i].1.isPermanentDelete && p == ToPersistent(q[i].1)
  {
    if q != [] {
      var n := |q| - 1;
      var last := if q[n].1.isPermanentDelete then [] else [ToPersistent(q[n].1)];
      assert Visible(q) == Visible(q[..n]) + last;
      assert p in Visible(q) <==> p in Visible(q[..n]) || p in last;
      VisibleMembers(q[..n], p);
      if exists i :: 0 <= i < |q| && !q[i].1.isPermanentDelete && p == ToPersistent(q[i].1) {
        var i :| 0 <= i < |q| && !q[i].1.isPermanentDelete && p == ToPersistent(q[i].1);
        if i < n {
          assert q[..n][i] == q[i];
        }
      }
      if p in Visible(q[..n]) {
        var i :| 0 <= i < n && !q[..n][i].1.isPermanentDelete && p == ToPersistent(q[..n][i].1);
        assert q[i] == q[..n][i];
      }
    }
  }

  /** Visible rows keep the order of the rows they come from. */
  lemma {:induction false} VisibleAscending(q: seq<(Key, EventRow)>)
    requires forall i, j :: 0 <= i < j < |q| ==> q[i].1.sequenceNr < q[j].1.sequenceNr
    ensures forall i, j :: 0 <= i < j < |Visible(q)| ==> Visible(q)[i].sequenceNr < Visible(q)[j].sequenceNr
  {
    if q != [] {
      var n := |q| - 1;
      var v := Visible(q[..n]);
      VisibleAscending(q[..n]);
      forall i | 0 <= i < |v| ensures v[i].sequenceNr < q[n].1.sequenceNr {
        VisibleMembers(q[..n], v[i]);
      }
    }
  }

  /** `count == max` stops the loop: at most the first `max` visible rows. */
  function Take<T>(s: seq<T>, max: int): (r: seq<T>)
    requires max > 0
    ensures |r| <= max && r <= s
    ensures |s| <= max ==> r == s
    ensures |s| > max ==> r == s[..max]
  {
    if |s| <= max then s else s[..max]
  }

  /** The replay guard `max > 0 && (to - from) >= 0`, with the subtraction wrapping as a `long`. */
  predicate ReplayGuard(from: Int64, to: Int64, max: Int64) {
    max > 0 && Wrap64(to - from) >= 0
  }

  /** The rows of the stream in the queried row-key range that replay would hand out. */
  function ReplayedRows(t: EventTable, pid: string, from: Int64, to: Int64): seq<Persistent> {
    Visible(Query(t, pid, BetweenRange(from, to)))
  }

  /**
   * What `ReplayMessagesAsync` hands to the callback, in order, with `accounts` connection strings
   * configured: nothing when the guard fails (the stream is not even routed), the routing error
   * when the stream cannot be routed, else the first `max` rows not permanently deleted.
   */
  function Replay(t: EventTable, pid: string, from: Int64, to: Int64, max: Int64, accounts: nat): Result<seq<Persistent>> {
    if !ReplayGuard(from, to, max) then Ok([])
    else match ShardIndex(pid, accounts)
      case Err(e) => Err(e)
      case Ok(_) => Ok(Take(ReplayedRows(t, pid, from, to), max))
  }

  /** Over rows that are exactly the table's selected rows, the visible ones are the selected rows not permanently deleted. */
  lemma {:induction false} VisibleOfSelected(t: EventTable, pid: string, range: RowRange, q: seq<(Key, EventRow)>, p: Persistent)
    requires forall i :: 0 <= i < |q| ==> q[i].0 in t && q[i].1 == t[q[i].0] && Selected(q[i].0, pid, range)
    requires forall k :: k in t && Selected(k, pid, range) ==> (k, t[k]) in q
    ensures p in Visible(q) <==> exists k :: k in t && Selected(k, pid, range) && !t[k].isPermanentDelete && p == ToPersistent(t[k])
  {
    VisibleMembers(q, p);
    if p in Visible(q) {
      var i :| 0 <= i < |q| && !q[i].1.isPermanentDelete && p == ToPersistent(q[i].1);
      var k := q[i].0;
      assert k in t && Selected(k, pid, range) && !t[k].isPermanentDelete && p == ToPersistent(t[k]);
    }
    if exists k :: k in t && Selected(k, pid, range) && !t[k].isPermanentDelete && p == ToPersistent(t[k]) {
      var k :| k in t && Selected(k, pid, range) && !t[k].isPermanentDelete && p == ToPersistent(t[k]);
      var i :| 0 <= i < |q| && q[i] == (k, t[k]);
      assert !q[i].1.isPermanentDelete && p == ToPersistent(q[i].1);
    }
  }

  /** Exactly the rows of `pid` in the key range that are not permanently deleted are replayed. */
  lemma ReplayedRowsExact(t: EventTable, pid: string, from: Int64, to: Int64, p: Persistent)
    ensures p in ReplayedRows(t, pid, from, to) <==>
              exists k :: k in t && Selected(k, pid, BetweenRange(from, to)) && !t[k].isPermanentDelete && p == ToPersistent(t[k])
  {
    VisibleOfSelected(t, pid, BetweenRange(from, to), Query(t, pid, BetweenRange(from, to)), p);
  }

  /** On well-formed rows replay runs in ascending order of sequence number. */
  lemma ReplayedRowsAscending(t: EventTable, pid: string, from: Int64, to: Int64)
    requires WellFormed(t)
    ensures forall i, j :: 0 <= i < j < |ReplayedRows(t, pid, from, to)| ==>
              ReplayedRows(t, pid, from, to)[i].sequenceNr < ReplayedRows(t, pid, from, to)[j].sequenceNr
  {
    var q := Query(t, pid, BetweenRange(from, to));
    forall i, j | 0 <= i < j < |q| ensures q[i].1.sequenceNr < q[j].1.sequenceNr {
      RowKeyOrderIff(q[i].1.sequenceNr, q[j].1.sequenceNr);
    }
    VisibleAscending(q);
  }

  /** On well-formed rows the key range is the numeric range, and replay runs in ascending order. */
  lemma ReplayedRowsNumeric(t: EventTable, pid: string, from: Int64, to: Int64, p: Persistent)
    requires WellFormed(t) && 0 <= from < KEY_CAPACITY && 0 <= to < KEY_CAPACITY
    ensures p in ReplayedRows(t, pid, from, to) <==>
              exists k :: k in t && k.partition == pid && from <= t[k].sequenceNr <= to && !t[k].isPermanentDelete && p == ToPersistent(t[k])
    ensures forall i, j :: 0 <= i < j < |ReplayedRows(t, pid, from, to)| ==>
              ReplayedRows(t, pid, from, to)[i].sequenceNr < ReplayedRows(t, pid, from, to)[j].sequenceNr
  {
    ReplayedRowsExact(t, pid, from, to, p);
    forall k | k in t {
      SelectedNumeric(t, k, pid, from, to);
    }
    ReplayedRowsAscending(t, pid, from, to);
  }

  /** With `max <= 0`, or `to < from` without wrap-around, nothing is replayed and nothing fails. */
  lemma ReplayGuardBlocks(t: EventTable, pid: string, from: Int64, to: Int64, max: Int64, accounts: nat)
    requires max <= 0 || (to < from && to - from >= INT64_MIN)
    ensures Replay(t, pid, from, to, max, accounts) == Ok([])
  {
  }

  /**
   * When `to - from` overflows the guard lets `to < from` through, yet the key range is empty:
   * `ToRowKey(to)` then starts with '-' or a padding '0' and `ToRowKey(from)` with a larger digit.
   */
  lemma WrappedRangeIsEmpty(t: EventTable, pid: string, from: Int64, to: Int64)
    requires to < from && Wrap64(to - from) >= 0
    ensures Query(t, pid, BetweenRange(from, to)) == []
  {
    var lo, hi := ToRowKey(from), ToRowKey(to);
    assert to - from < INT64_MIN;
    assert 0 < from && to < 0;
    RowKeyOfNegative(to);
    assert IsDigit(lo[0]);
    if hi[0] == '0' {
      assert Pow10(8) == 100_000_000;
      RowKeyOfLarge(from);
    }
    LessAtFirstDifference(hi, lo, 0);
    var q := Query(t, pid, BetweenRange(from, to));
    if q != [] {
      var r := q[0].0.row;
      assert LessEq(lo, r) && LessEq(r, hi);
      if lo != r && r != hi {
        LessTransitive(lo, r, hi);
      }
      LessAsymmetric(hi, lo);
      assert false;
    }
  }

  /** Replay never hands out anything when `to < from`, even when the guard wraps around. */
  lemma ReplayNothingBelowFrom(t: EventTable, pid: string, from: Int64, to: Int64, max: Int64, accounts: nat)
    requires to < from
    ensures Replay(t, pid, from, to, max, accounts).Ok? ==> Replay(t, pid, from, to, max, accounts).value == []
  {
    if ReplayGuard(from, to, max) {
      WrappedRangeIsEmpty(t, pid, from, to);
    }
  }

  /** What a successful replay hands out: the first `max` replayable rows, or all of them when fewer. */
  lemma ReplayBounds(t: EventTable, pid: string, from: Int64, to: Int64, max: Int64, accounts: nat)
    requires Replay(t, pid, from, to, max, accounts).Ok?
    ensures |Replay(t, pid, from, to, max, accounts).value| <= if max > 0 then max else 0
    ensures Replay(t, pid, from, to, max, accounts).value <= ReplayedRows(t, pid, from, to)
    ensures ReplayGuard(from, to, max) && |ReplayedRows(t, pid, from, to)| <= max ==>
              Replay(t, pid, from, to, max, accounts).value == ReplayedRows(t, pid, from, to)
    ensures ReplayGuard(from, to, max) && |ReplayedRows(t, pid, from, to)| > max ==>
              Replay(t, pid, from, to, max, accounts).value == ReplayedRows(t, pid, from, to)[..max]
  {
  }

  // ---------------------------------------------------------------------------------------------
  // DeleteMessagesToAsync

  /** `IsDeleted = true; IsPermanentDelete = isPermanent` on one entity. */
  function MarkDeleted(e: EventRow, permanent: bool): EventRow {
    e.(isDeleted := true, isPermanentDelete := permanent)
  }

  /** Every row of `pid` in `range` flagged, every other row as it was. */
  function MarkRange(t: EventTable, pid: string, range: RowRange, permanent: bool): (t': EventTable)
    ensures t'.Keys == t.Keys
  {
    map k | k in t :: if Selected(k, pid, range) then MarkDeleted(t[k], permanent) else t[k]
  }

  /** The table after `DeleteMessagesToAsync(pid, to, permanent)` has replaced its batch. */
  function Tombstone(t: EventTable, pid: string, to: Int64, permanent: bool): (t': EventTable)
    ensures t'.Keys == t.Keys
  {
    MarkRange(t, pid, UpToRange(to), permanent)
  }

  /** On well-formed rows: exactly the stream's rows up to `to` are flagged; none is removed. */
  lemma TombstoneNumeric(t: EventTable, pid: string, to: Int64, permanent: bool)
    requires WellFormed(t) && 0 <= to < KEY_CAPACITY
    ensures Tombstone(t, pid, to, permanent).Keys == t.Keys
    ensures forall k :: k in t && k.partition == pid && t[k].sequenceNr <= to ==>
              Tombstone(t, pid, to, permanent)[k] == t[k].(isDeleted := true, isPermanentDelete := permanent)
    ensures forall k :: k in t && (k.partition != pid || to < t[k].sequenceNr) ==> Tombstone(t, pid, to, permanent)[k] == t[k]
    ensures WellFormed(Tombstone(t, pid, to, permanent))
  {
    forall k | k in t {
      SelectedNumeric(t, k, pid, to, to);
    }
  }

  /** Flags do not move rows, so the highest sequence number is unaffected by deletion. */
  lemma HighestIgnoresTombstones(t: EventTable, pid: string, to: Int64, permanent: bool, pid': string, from: Int64)
    ensures Highest(Tombstone(t, pid, to, permanent), pid', from) == Highest(t, pid', from)
  {
    var t' := Tombstone(t, pid, to, permanent);
    var h, h' := Highest(t, pid', from), Highest(t', pid', from);
    assert forall k :: k in t ==> t'[k].sequenceNr == t[k].sequenceNr;
    if exists k :: k in t && Selected(k, pid', FromRange(from)) {
      var k :| k in t && Selected(k, pid', FromRange(from)) && t[k].sequenceNr == h;
      var k' :| k' in t' && Selected(k', pid', FromRange(from)) && t'[k'].sequenceNr == h';
      assert h <= h' && h' <= h;
    }
  }

  /** A permanent delete hides the stream's rows up to `d` from every later replay. */
  lemma ReplayAfterPermanentDelete(t: EventTable, pid: string, d: Int64, from: Int64, to: Int64, p: Persistent)
    requires WellFormed(t) && 0 <= d < KEY_CAPACITY && 0 <= from < KEY_CAPACITY && 0 <= to < KEY_CAPACITY
    ensures p in ReplayedRows(Tombstone(t, pid, d, true), pid, from, to) <==>
              exists k :: k in t && k.partition == pid && from <= t[k].sequenceNr <= to && d < t[k].sequenceNr
                          && !t[k].isPermanentDelete && p == ToPersistent(t[k])
  {
    var t' := Tombstone(t, pid, d, true);
    TombstoneNumeric(t, pid, d, true);
    ReplayedRowsNumeric(t', pid, from, to, p);
  }

  /**
   * A later soft delete overwrites `IsPermanentDelete`: rows a permanent delete had hidden are
   * handed to replay again, flagged as deleted.
   */
  lemma SoftDeleteResurrects(t: EventTable, pid: string, d: Int64, from: Int64, to: Int64, k: Key)
    requires WellFormed(t) && 0 <= d < KEY_CAPACITY && 0 <= from < KEY_CAPACITY && 0 <= to < KEY_CAPACITY
    requires k in t && k.partition == pid && from <= t[k].sequenceNr <= to && t[k].sequenceNr <= d
    ensures Tombstone(t, pid, d, true)[k].isPermanentDelete
    ensures ToPersistent(t[k]).(isDeleted := true) in ReplayedRows(Tombstone(Tombstone(t, pid, d, true), pid, d, false), pid, from, to)
  {
    var t1 := Tombstone(t, pid, d, true);
    TombstoneNumeric(t, pid, d, true);
    var t2 := Tombstone(t1, pid, d, false);
    TombstoneNumeric(t1, pid, d, false);
    ReplayedRowsNumeric(t2, pid, from, to, ToPersistent(t2[k]));
  }

  // ---------------------------------------------------------------------------------------------
  // WriteMessagesAsync

  function SequenceNrOf(m: PersistentRepr): int {
    m.sequenceNr
  }

  function EventSequenceNr(e: EventRow): int {
    e.sequenceNr
  }

  /** The keys of `messages.GroupBy(x => x.PersistenceId)`: distinct ids, in order of first appearance. */
  function StreamIds(messages: seq<PersistentRepr>): (ids: seq<string>)
    ensures forall i, j :: 0 <= i < j < |ids| ==> ids[i] != ids[j]
    ensures forall p :: p in ids <==> exists m :: m in messages && m.persistenceId == p
  {
    if messages == [] then []
    else
      var n := |messages| - 1;
      var ids := StreamIds(messages[..n]);
      assert messages == messages[..n] + [messages[n]];
      if messages[n].persistenceId in ids then ids else ids + [messages[n].persistenceId]
  }

  /** One group of `GroupBy`: the messages of `pid`, in their original order. */
  function MessagesOf(messages: seq<PersistentRepr>, pid: string): (g: seq<PersistentRepr>)
    ensures forall m :: m in g <==> m in messages && m.persistenceId == pid
  {
    if messages == [] then []
    else
      assert messages == [messages[0]] + messages[1..];
      (if messages[0].persistenceId == pid then [messages[0]] else []) + MessagesOf(messages[1..], pid)
  }

  /** The batch of one stream: its events ordered by `SequenceNr` (`OrderBy`, stable). */
  datatype Batch = Batch(stream: string, events: seq<EventRow>)

  /** `grouping.OrderBy(x => x.SequenceNr)`: the group's messages, ascending by sequence number. */
  function Ordered(messages: seq<PersistentRepr>, stream: string): (r: seq<PersistentRepr>)
    ensures Ascending(r, SequenceNrOf)
    ensures forall m :: m in r <==> m in messages && m.persistenceId == stream
  {
    var group := MessagesOf(messages, stream);
    var r := SortAscending(group, SequenceNrOf);
    assert forall m :: m in r <==> m in multiset(group);
    r
  }

  /** `representations.Select(x => new Event(...))`. */
  function Events(stream: string, ms: seq<PersistentRepr>): (r: seq<EventRow>)
    ensures |r| == |ms|
    ensures forall i :: 0 <= i < |ms| ==> r[i] == NewEvent(stream, ms[i])
  {
    seq(|ms|, i requires 0 <= i < |ms| => NewEvent(stream, ms[i]))
  }

  lemma EventsMembers(stream: string, ms: seq<PersistentRepr>, e: EventRow)
    ensures e in Events(stream, ms) <==> exists m :: m in ms && e == NewEvent(stream, m)
  {
    var r := Events(stream, ms);
    if exists m :: m in ms && e == NewEvent(stream, m) {
      var m :| m in ms && e == NewEvent(stream, m);
      var i :| 0 <= i < |ms| && ms[i] == m;
      assert r[i] == e;
    }
  }

  function BatchOf(messages: seq<PersistentRepr>, stream: string): (b: Batch)
    ensures b.stream == stream
    ensures Ascending(b.events, EventSequenceNr)
  {
    var ordered := Ordered(messages, stream);
    var events := Events(stream, ordered);
    assert forall i :: 0 <= i < |events| ==> EventSequenceNr(events[i]) == SequenceNrOf(ordered[i]);
    Batch(stream, events)
  }

  /** A stream's batch holds exactly the events of that stream's messages. */
  lemma BatchOfMembers(messages: seq<PersistentRepr>, stream: string, e: EventRow)
    ensures e in BatchOf(messages, stream).events <==>
              exists m :: m in messages && m.persistenceId == stream && e == NewEvent(stream, m)
  {
    EventsMembers(stream, Ordered(messages, stream), e);
  }

  /** One batch per stream, streams in `GroupBy` order. */
  function Batches(messages: seq<PersistentRepr>): (bs: seq<Batch>)
    ensures |bs| == |StreamIds(messages)|
    ensures forall i :: 0 <= i < |bs| ==> bs[i] == BatchOf(messages, StreamIds(messages)[i])
  {
    var ids := StreamIds(messages);
    seq(|ids|, i requires 0 <= i < |ids| => BatchOf(messages, ids[i]))
  }

  /** No two events of the batch share a key. */
  predicate KeysDistinct(events: seq<EventRow>) {
    forall i, j :: 0 <= i < j < |events| ==> KeyOf(events[i]) != KeyOf(events[j])
  }

  /** Every key of the batch is new to the table and occurs once in the batch. */
  predicate Fresh(t: EventTable, events: seq<EventRow>) {
    (forall i :: 0 <= i < |events| ==> KeyOf(events[i]) !in t) && KeysDistinct(events)
  }

  function EventKeys(events: seq<EventRow>): set<Key> {
    set e | e in events :: KeyOf(e)
  }

  /** The events stored one after another under their keys, a later one replacing an earlier. */
  function Put(t: EventTable, events: seq<EventRow>): EventTable {
    if events == [] then t
    else
      var n := |events| - 1;
      Put(t, events[..n])[KeyOf(events[n]) := events[n]]
  }

  /** Putting fresh events adds exactly their keys, stores each event and keeps every old row. */
  lemma FreshInit(t: EventTable, events: seq<EventRow>)
    requires events != [] && Fresh(t, events)
    ensures Fresh(t, events[..|events| - 1])
    ensures KeyOf(events[|events| - 1]) !in t
    ensures KeyOf(events[|events| - 1]) !in EventKeys(events[..|events| - 1])
  {
    var n := |events| - 1;
    var init := events[..n];
    assert forall i :: 0 <= i < n ==> init[i] == events[i];
  }

  lemma EventKeysSnoc(init: seq<EventRow>, last: EventRow)
    ensures EventKeys(init + [last]) == EventKeys(init) + {KeyOf(last)}
  {
    assert forall e :: e in init + [last] <==> e in init || e == last;
  }

  lemma {:induction false} PutFresh(t: EventTable, events: seq<EventRow>)
    requires Fresh(t, events)
    ensures Put(t, events).Keys == t.Keys + EventKeys(events)
    ensures forall k :: k in t ==> Put(t, events)[k] == t[k]
    ensures forall e :: e in events ==> Put(t, events)[KeyOf(e)] == e
  {
    if events != [] {
      var n := |events| - 1;
      var init, last := events[..n], events[n];
      FreshInit(t, events);
      PutFresh(t, init);
      var p := Put(t, init);
      assert Put(t, events) == p[KeyOf(last) := last];
      assert events == init + [last];
      EventKeysSnoc(init, last);
      forall e | e in events ensures Put(t, events)[KeyOf(e)] == e {
        if e != last {
          assert e in init;
          assert KeyOf(e) in p;
        }
      }
    }
  }

  /**
   * `ExecuteBatchAsync` of one `Insert` per event: all or nothing, and it fails when a key is
   * already in the table or occurs twice in the batch.
   */
  function InsertBatch(t: EventTable, events: seq<EventRow>): (r: Result<EventTable>)
    ensures r.Ok? <==> Fresh(t, events)
    ensures r.Err? ==> r.error == StorageConflict && !Fresh(t, events)
    ensures r.Ok? ==> r.value.Keys == t.Keys + EventKeys(events)
    ensures r.Ok? ==> forall k :: k in t ==> r.value[k] == t[k]
    ensures r.Ok? ==> forall e :: e in events ==> r.value[KeyOf(e)] == e
  {
    if Fresh(t, events) then
      PutFresh(t, events);
      Ok(Put(t, events))
    else Err(StorageConflict)
  }

  /** The result of the write loop: the table, and the exception rethrown, if any. */
  datatype WriteOutcome = WriteOutcome(table: EventTable, failure: Option<Exception>)

  /**
   * The batches committed one after another: a stream that cannot be routed, or a batch that
   * fails, ends the write with that error; the batches before it stay committed.
   */
  function CommitBatches(t: EventTable, batches: seq<Batch>, accounts: nat): WriteOutcome
    decreases |batches|
  {
    if batches == [] then WriteOutcome(t, None)
    else match ShardIndex(batches[0].stream, accounts)
      case Err(e) => WriteOutcome(t, Some(e))
      case Ok(_) =>
        match InsertBatch(t, batches[0].events)
        case Err(e) => WriteOutcome(t, Some(e))
        case Ok(t') => CommitBatches(t', batches[1..], accounts)
  }

  /** The table with the batches' events put in one batch after another, conflicts ignored. */
  function Applied(t: EventTable, batches: seq<Batch>): EventTable
    decreases |batches|
  {
    if batches == [] then t else Applied(Put(t, batches[0].events), batches[1..])
  }

  /**
   * Streams are committed one after another: the outcome is the table with the first `j` batches
   * put in, for some `j`; the write succeeds when `j` is the number of batches, and otherwise
   * batch `j` is the one that failed (its stream could not be routed, or its insert conflicted).
   */
  lemma {:induction false} CommitPrefix(t: EventTable, batches: seq<Batch>, accounts: nat)
    ensures exists j :: 0 <= j <= |batches| && CommitBatches(t, batches, accounts).table == Applied(t, batches[..j])
              && (CommitBatches(t, batches, accounts).failure.None? <==> j == |batches|)
              && (j < |batches| ==> FailsAt(Applied(t, batches[..j]), batches[j], accounts, CommitBatches(t, batches, accounts).failure))
    decreases |batches|
  {
    if batches == [] {
      assert batches[..0] == [];
    } else {
      assert batches[..0] == [];
      var b := batches[0];
      if ShardIndex(b.stream, accounts).Ok? && InsertBatch(t, b.events).Ok? {
        var t' := InsertBatch(t, b.events).value;
        CommitPrefix(t', batches[1..], accounts);
        var j :| 0 <= j <= |batches[1..]| && CommitBatches(t', batches[1..], accounts).table == Applied(t', batches[1..][..j])
                 && (CommitBatches(t', batches[1..], accounts).failure.None? <==> j == |batches[1..]|)
                 && (j < |batches[1..]| ==> FailsAt(Applied(t', batches[1..][..j]), batches[1..][j], accounts, CommitBatches(t', batches[1..], accounts).failure));
        assert batches[..j + 1][1..] == batches[1..][..j];
        assert Applied(t, batches[..j + 1]) == Applied(t', batches[1..][..j]);
      }
    }
  }

  /** Batch `b` fails on `t` with exception `failure`: routing first, then the insert. */
  predicate FailsAt(t: EventTable, b: Batch, accounts: nat, failure: Option<Exception>) {
    match ShardIndex(b.stream, accounts)
    case Err(e) => failure == Some(e)
    case Ok(_) => InsertBatch(t, b.events).Err? && failure == Some(StorageConflict)
  }

  /** A write that succeeds keeps every old row and stores every event of every batch under its key. */
  lemma {:induction false} CommitStores(t: EventTable, batches: seq<Batch>, accounts: nat)
    requires CommitBatches(t, batches, accounts).failure.None?
    ensures forall k :: k in t ==> k in CommitBatches(t, batches, accounts).table && CommitBatches(t, batches, accounts).table[k] == t[k]
    ensures forall i, e :: 0 <= i < |batches| && e in batches[i].events ==>
              KeyOf(e) in CommitBatches(t, batches, accounts).table && CommitBatches(t, batches, accounts).table[KeyOf(e)] == e
    ensures forall k :: k in CommitBatches(t, batches, accounts).table ==>
              k in t || exists i :: 0 <= i < |batches| && k in EventKeys(batches[i].events)
    decreases |batches|
  {
    if batches != [] {
      var b := batches[0];
      var t' := InsertBatch(t, b.events).value;
      var o := CommitBatches(t, batches, accounts);
      CommitStores(t', batches[1..], accounts);
      assert o == CommitBatches(t', batches[1..], accounts);
      forall i, e | 0 <= i < |batches| && e in batches[i].events ensures KeyOf(e) in o.table && o.table[KeyOf(e)] == e {
        if i > 0 {
          assert batches[1..][i - 1] == batches[i];
        }
      }
      forall k | k in o.table ensures k in t || exists i :: 0 <= i < |batches| && k in EventKeys(batches[i].events) {
        if k !in t {
          if k !in t' {
            var i :| 0 <= i < |batches[1..]| && k in EventKeys(batches[1..][i].events);
            assert batches[1..][i] == batches[i + 1];
          } else {
            assert k in EventKeys(batches[0].events);
          }
        }
      }
    }
  }

  /** One event of a successful write's batches, stored under its key. */
  lemma {:induction false} CommitStoresEvent(t: EventTable, batches: seq<Batch>, accounts: nat, i: nat, e: EventRow)
    requires CommitBatches(t, batches, accounts).failure.None?
    requires i < |batches| && e in batches[i].events
    ensures KeyOf(e) in CommitBatches(t, batches, accounts).table && CommitBatches(t, batches, accounts).table[KeyOf(e)] == e
  {
    CommitStores(t, batches, accounts);
  }

  /** A successful write stores message `m` of group `m.persistenceId` under its key. */
  lemma WriteStoresMessage(t: EventTable, messages: seq<PersistentRepr>, accounts: nat, m: PersistentRepr)
    requires CommitBatches(t, Batches(messages), accounts).failure.None?
    requires m in messages
    ensures EventKey(m.persistenceId, m.sequenceNr) in CommitBatches(t, Batches(messages), accounts).table
    ensures CommitBatches(t, Batches(messages), accounts).table[EventKey(m.persistenceId, m.sequenceNr)] == NewEvent(m.persistenceId, m)
  {
    var bs := Batches(messages);
    var ids := StreamIds(messages);
    var e := NewEvent(m.persistenceId, m);
    assert m.persistenceId in ids;
    var i :| 0 <= i < |ids| && ids[i] == m.persistenceId;
    BatchOfMembers(messages, ids[i], e);
    CommitStoresEvent(t, bs, accounts, i, e);
  }

  /**
   * `WriteMessagesAsync`, when it succeeds: every message is stored in partition = its
   * persistence id under row key `ToRowKey(SequenceNr)`, as the event built from it; the rows
   * that were there stay, and nothing else is added.
   */
  lemma WriteStoresMessages(t: EventTable, messages: seq<PersistentRepr>, accounts: nat)
    requires CommitBatches(t, Batches(messages), accounts).failure.None?
    ensures forall m :: m in messages ==>
              EventKey(m.persistenceId, m.sequenceNr) in CommitBatches(t, Batches(messages), accounts).table &&
              CommitBatches(t, Batches(messages), accounts).table[EventKey(m.persistenceId, m.sequenceNr)] == NewEvent(m.persistenceId, m)
    ensures forall k :: k in t ==>
              k in CommitBatches(t, Batches(messages), accounts).table && CommitBatches(t, Batches(messages), accounts).table[k] == t[k]
    ensures forall k :: k in CommitBatches(t, Batches(messages), accounts).table ==>
              k in t || exists m :: m in messages && k == EventKey(m.persistenceId, m.sequenceNr)
  {
    var bs := Batches(messages);
    var o := CommitBatches(t, bs, accounts);
    forall m | m in messages
      ensures EventKey(m.persistenceId, m.sequenceNr) in o.table && o.table[EventKey(m.persistenceId, m.sequenceNr)] == NewEvent(m.persistenceId, m)
    {
      WriteStoresMessage(t, messages, accounts, m);
    }
    CommitStores(t, bs, accounts);
    forall k | k in o.table && k !in t ensures exists m :: m in messages && k == EventKey(m.persistenceId, m.sequenceNr) {
      var i :| 0 <= i < |bs| && k in EventKeys(bs[i].events);
      var e :| e in bs[i].events && k == KeyOf(e);
      BatchOfMembers(messages, StreamIds(messages)[i], e);
    }
  }

  /** After a successful write, a replay whose range covers a written message hands that message back, not deleted. */
  lemma WriteThenReplay(t: EventTable, messages: seq<PersistentRepr>, accounts: nat, m: PersistentRepr, from: Int64, to: Int64)
    requires CommitBatches(t, Batches(messages), accounts).failure.None?
    requires m in messages && 0 <= from <= m.sequenceNr <= to < KEY_CAPACITY
    ensures Persistent(m.payload, m.sequenceNr, m.persistenceId, false) in
              ReplayedRows(CommitBatches(t, Batches(messages), accounts).table, m.persistenceId, from, to)
  {
    var t' := CommitBatches(t, Batches(messages), accounts).table;
    var k := EventKey(m.persistenceId, m.sequenceNr);
    WriteStoresMessage(t, messages, accounts, m);
    SelectedByNumber(k, m.persistenceId, m.sequenceNr, from, to);
    ReplayedRowsExact(t', m.persistenceId, from, to, ToPersistent(t'[k]));
  }

  /** Every event of the batch is well formed when its sequence number is below 10^10. */
  predicate EventsWellFormed(events: seq<EventRow>) {
    forall e :: e in events ==> KeyOf(e) == EventKey(e.aggregateId, e.sequenceNr) && 0 <= e.sequenceNr < KEY_CAPACITY
  }

  lemma {:induction false} PutWellFormed(t: EventTable, events: seq<EventRow>)
    requires WellFormed(t) && EventsWellFormed(events)
    ensures WellFormed(Put(t, events))
  {
    if events != [] {
      var n := |events| - 1;
      assert forall e :: e in events[..n] ==> e in events;
      PutWellFormed(t, events[..n]);
    }
  }

  /** Writing messages numbered in [0, 10^10) keeps the table well formed, whether or not it fails. */
  lemma WriteKeepsWellFormed(t: EventTable, messages: seq<PersistentRepr>, accounts: nat)
    requires WellFormed(t)
    requires forall m :: m in messages ==> 0 <= m.sequenceNr < KEY_CAPACITY
    ensures WellFormed(CommitBatches(t, Batches(messages), accounts).table)
  {
    var bs := Batches(messages);
    forall i | 0 <= i < |bs| ensures EventsWellFormed(bs[i].events) {
      forall e | e in bs[i].events ensures KeyOf(e) == EventKey(e.aggregateId, e.sequenceNr) && 0 <= e.sequenceNr < KEY_CAPACITY {
        BatchOfMembers(messages, StreamIds(messages)[i], e);
      }
    }
    CommitKeepsWellFormed(t, bs, accounts);
  }

  lemma {:induction false} CommitKeepsWellFormed(t: EventTable, batches: seq<Batch>, accounts: nat)
    requires WellFormed(t)
    requires forall i :: 0 <= i < |batches| ==> EventsWellFormed(batches[i].events)
    ensures WellFormed(CommitBatches(t, batches, accounts).table)
    decreases |batches|
  {
    if batches != [] && ShardIndex(batches[0].stream, accounts).Ok? && InsertBatch(t, batches[0].events).Ok? {
      PutWellFormed(t, batches[0].events);
      assert forall i :: 0 <= i < |batches[1..]| ==> batches[1..][i] == batches[i + 1];
      CommitKeepsWellFormed(InsertBatch(t, batches[0].events).value, batches[1..], accounts);
    }
  }

  /** Within one stream, the event id determines the sequence number. */
  lemma EventIdPerStream(stream: string, a: Int64, b: Int64)
    requires EventId(stream, a) == EventId(stream, b)
    ensures a == b
  {
    assert (stream + LongToString(a))[|stream|..] == LongToString(a);
    assert (stream + LongToString(b))[|stream|..] == LongToString(b);
    LongToStringRoundTrip(a);
    LongToStringRoundTrip(b);
  }

  /** Across streams the name is a bare concatenation: event 2 of "a1" and event 12 of "a" share an id. */
  lemma EventIdCollision()
    ensures EventId("a1", 2) == EventId("a", 12)
    ensures EventKey("a1", 2) != EventKey("a", 12)
  {
    assert NatToDecimal(12) == NatToDecimal(1) + [DigitChar(2)];
    assert "a1" + LongToString(2) == "a" + LongToString(12);
  }

  /** A batch filled from the query results holds exactly the selected rows, flagged. */
  lemma BatchOfQuery(t: EventTable, pid: string, range: RowRange, permanent: bool, results: seq<(Key, EventRow)>, batch: EventTable)
    requires multiset(results) == multiset(Query(t, pid, range))
    requires forall j :: 0 <= j < |results| ==> results[j].0 in batch
    requires forall k :: k in batch ==> exists j :: 0 <= j < |results| && results[j].0 == k && batch[k] == MarkDeleted(results[j].1, permanent)
    ensures forall k :: k in batch ==> k in t && Selected(k, pid, range) && batch[k] == MarkDeleted(t[k], permanent)
    ensures forall k :: k in t && Selected(k, pid, range) ==> k in batch
  {
    var query := Query(t, pid, range);
    forall k | k in batch ensures k in t && Selected(k, pid, range) && batch[k] == MarkDeleted(t[k], permanent) {
      var j :| 0 <= j < |results| && results[j].0 == k && batch[k] == MarkDeleted(results[j].1, permanent);
      assert results[j] in multiset(query);
    }
    forall k | k in t && Selected(k, pid, range) ensures k in batch {
      assert (k, t[k]) in multiset(results);
      var j :| 0 <= j < |results| && results[j] == (k, t[k]);
    }
  }

  /** Putting in the flagged copies of exactly the selected rows flags exactly them. */
  lemma TombstoneByBatch(t: EventTable, pid: string, range: RowRange, permanent: bool, batch: EventTable)
    requires forall k :: k in batch ==> k in t && Selected(k, pid, range) && batch[k] == MarkDeleted(t[k], permanent)
    requires forall k :: k in t && Selected(k, pid, range) ==> k in batch
    ensures t + batch == MarkRange(t, pid, range, permanent)
  {
    var t' := MarkRange(t, pid, range, permanent);
    assert (t + batch).Keys == t'.Keys;
    forall k | k in t ensures (t + batch)[k] == t'[k] {
    }
  }

  /** With no queried row, nothing is flagged. */
  lemma TombstoneOfNothing(t: EventTable, pid: string, range: RowRange, permanent: bool)
    requires Query(t, pid, range) == []
    ensures t == MarkRange(t, pid, range, permanent)
  {
  }

  /**
   * The loop of `ReplayMessagesAsync` over the query results: a callback for every row not
   * permanently deleted, counted, returning as soon as `count == max`.
   */
  method ReplayResults(results: seq<(Key, EventRow)>, max: Int64) returns (replayed: seq<Persistent>)
    requires max > 0
    ensures replayed == Take(Visible(results), max)
  {
    var count := 0;
    replayed := [];
    var i := 0;
    while i < |results|
      invariant 0 <= i <= |results|
      invariant replayed == Visible(results[..i])
      invariant count == |replayed| < max
    {
      var event := results[i].1;
      assert results[..i + 1] == results[..i] + [results[i]];
      VisibleAppend(results[..i], [results[i]]);
      if !event.isPermanentDelete {
        replayed := replayed + [ToPersistent(event)];
        count := count + 1;
        if count == max {
          assert results == results[..i + 1] + results[i + 1..];
          VisibleAppend(results[..i + 1], results[i + 1..]);
          return;
        }
      }
      i := i + 1;
    }
    assert results[..i] == results;
  }

  /**
   * The body of `DeleteMessagesToAsync` on the stream's table: query up to `ToRowKey(to)`, order
   * newest first and, when anything was found, merge the batch of flagged copies.
   */
  method TombstoneRows(t: EventTable, pid: string, to: Int64, isPermanent: bool) returns (t': EventTable)
    ensures t' == Tombstone(t, pid, to, isPermanent)
  {
    var query := Query(t, pid, UpToRange(to));
    var results := SortDescending(query, RowSequenceNr);
    if |results| > 0 {
      var batch := TombstoneBatch(results, isPermanent);
      BatchOfQuery(t, pid, UpToRange(to), isPermanent, results, batch);
      TombstoneByBatch(t, pid, UpToRange(to), isPermanent, batch);
      t' := t + batch;
    } else {
      TombstoneOfNothing(t, pid, UpToRange(to), isPermanent);
      t' := t;
    }
  }

  /**
   * The loop of `DeleteMessagesToAsync` that fills the batch: one `Replace` per result, with the
   * entity flagged `IsDeleted` and `IsPermanentDelete = isPermanent`.
   */
  method TombstoneBatch(results: seq<(Key, EventRow)>, isPermanent: bool) returns (batch: EventTable)
    ensures forall j :: 0 <= j < |results| ==> results[j].0 in batch
    ensures forall k :: k in batch ==> exists j :: 0 <= j < |results| && results[j].0 == k && batch[k] == MarkDeleted(results[j].1, isPermanent)
  {
    batch := map[];
    var i := 0;
    while i < |results|
      invariant 0 <= i <= |results|
      invariant forall j :: 0 <= j < i ==> results[j].0 in batch
      invariant forall k :: k in batch ==> exists j :: 0 <= j < i && results[j].0 == k && batch[k] == MarkDeleted(results[j].1, isPermanent)
    {
      var entry := results[i];
      batch := batch[entry.0 := MarkDeleted(entry.1, isPermanent)];
      i := i + 1;
    }
  }

  function RowSequenceNr(r: (Key, EventRow)): int {
    r.1.sequenceNr
  }

  /** The journal: the event table and the router that picks each stream's account. */
  class TableStorageJournal {
    var rows: EventTable
    const settings: AzureStorageSettings

    ghost predicate Valid()
      reads this, settings
    {
      settings.Valid()
    }

    constructor (settings: AzureStorageSettings)
      requires settings.Valid()
      ensures Valid() && this.settings == settings && rows == map[]
    {
      this.settings := settings;
      rows := map[];
    }

    /** `ReadHighestSequenceNrAsync`: the routing error, rethrown, or the highest sequence number. */
    function ReadHighestSequenceNr(pid: string, from: Int64): (r: Result<Int64>)
      requires Valid()
      reads this, settings
      ensures r.Err? <==> ShardIndex(pid, |settings.connectionStrings|).Err?
      ensures r.Err? ==> r.error == ShardIndex(pid, |settings.connectionStrings|).error
      ensures r.Ok? ==> r.value == Highest(rows, pid, from)
    {
      settings.RoutingByShardIndex(pid);
      match settings.GetTableClient(pid)
      case Err(e) => Err(e)
      case Ok(_) => Ok(Highest(rows, pid, from))
    }

    /** `ReplayMessagesAsync`: the messages handed to `replayCallback`, in order. */
    method ReplayMessages(pid: string, from: Int64, to: Int64, max: Int64) returns (r: Result<seq<Persistent>>)
      requires Valid()
      ensures r == Replay(rows, pid, from, to, max, |settings.connectionStrings|)
    {
      if max > 0 && Wrap64(to - from) >= 0 {
        settings.RoutingByShardIndex(pid);
        var client := settings.GetTableClient(pid);
        if client.Err? {
          return Err(client.error);
        }
        var results := Query(rows, pid, BetweenRange(from, to));
        var replayed := ReplayResults(results, max);
        return Ok(replayed);
      }
      return Ok([]);
    }

    /**
     * `WriteMessagesAsync`: one batch per stream in `GroupBy` order; a routing error or a failed
     * batch is rethrown and ends the loop, leaving earlier batches committed.
     */
    method WriteMessages(messages: seq<PersistentRepr>) returns (failure: Option<Exception>)
      requires Valid()
      modifies this
      ensures Valid()
      ensures WriteOutcome(rows, failure) == CommitBatches(old(rows), Batches(messages), |settings.connectionStrings|)
    {
      var batches := Batches(messages);
      ghost var accounts := |settings.connectionStrings|;
      var i := 0;
      while i < |batches|
        invariant 0 <= i <= |batches|
        invariant CommitBatches(rows, batches[i..], accounts) == CommitBatches(old(rows), batches, accounts)
      {
        var batch := batches[i];
        assert batches[i..][1..] == batches[i + 1..];
        settings.RoutingByShardIndex(batch.stream);
        var client := settings.GetTableClient(batch.stream);
        if client.Err? {
          return Some(client.error);
        }
        var inserted := InsertBatch(rows, batch.events);
        if inserted.Err? {
          return Some(inserted.error);
        }
        rows := inserted.value;
        i := i + 1;
      }
      return None;
    }

    /**
     * `DeleteMessagesToAsync`: the stream's rows up to `ToRowKey(to)`, newest first, are replaced
     * in one batch by copies flagged `IsDeleted` and `IsPermanentDelete = isPermanent`.
     */
    method DeleteMessagesTo(pid: string, to: Int64, isPermanent: bool) returns (failure: Option<Exception>)
      requires Valid()
      modifies this
      ensures Valid()
      ensures ShardIndex(pid, |settings.connectionStrings|).Err? ==>
                failure == Some(ShardIndex(pid, |settings.connectionStrings|).error) && rows == old(rows)
      ensures ShardIndex(pid, |settings.connectionStrings|).Ok? ==>
                failure == None && rows == Tombstone(old(rows), pid, to, isPermanent)
    {
      settings.RoutingByShardIndex(pid);
      var client := settings.GetTableClient(pid);
      if client.Err? {
        return Some(client.error);
      }
      rows := TombstoneRows(rows, pid, to, isPermanent);
      return None;
    }
  }
}
