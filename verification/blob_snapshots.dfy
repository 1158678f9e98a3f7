/**
 * The blob-storage snapshot store: snapshot `sequenceNr` of stream `pid` is the blob named
 * `pid + "." + ToVersionKey(sequenceNr) + ".json"`, with the timestamp and the version key in its
 * metadata. Load and delete-by-criteria list the blobs whose names start with `pid`, read the
 * sequence number back from each name, and test both bounds of the criteria.
 */
module BlobSnapshots {
  import opened Wrappers
  import opened Ordinal
  import opened SequenceKey
  import opened Sorting
  import opened Settings
  import opened Persistence

  /** A block blob: its metadata dictionary and the snapshot its body holds. */
  datatype Blob = Blob(metadata: map<string, string>, body: SelectedSnapshot)

  /** The container, by blob name. */
  type Container = map<string, Blob>

  const JSON_SUFFIX: string := ".json"
  const TIMESTAMP_KEY: string := "SnapshotTimestamp"
  const VERSION_KEY: string := "Version"

  predicate NoDot(s: string) {
    forall i :: 0 <= i < |s| ==> s[i] != '.'
  }

  /** The name `SaveAsync` gives snapshot `sequenceNr` of stream `pid` (`ToVersionKey` is `ToRowKey`). */
  function BlobName(pid: string, sequenceNr: Int64): string {
    pid + "." + ToRowKey(sequenceNr) + JSON_SUFFIX
  }

  // ---------------------------------------------------------------------------------------------
  // SnapshotVersionHelper.Parse

  /** `String.Replace(pattern, "")`: every occurrence, scanning left to right, removed. */
  function RemoveAll(s: string, pattern: string): (r: string)
    requires pattern != []
    ensures |r| <= |s|
    decreases |s|
  {
    if |s| < |pattern| then s
    else if s[..|pattern|] == pattern then RemoveAll(s[|pattern|..], pattern)
    else [s[0]] + RemoveAll(s[1..], pattern)
  }

  /** Group 1 of `[\.](.*)` in single-line mode: all text after the first '.', or "" with no match. */
  function AfterFirstDot(s: string): (r: string)
    ensures |r| <= |s|
  {
    if s == [] then []
    else if s[0] == '.' then s[1..]
    else AfterFirstDot(s[1..])
  }

  /** What follows the first '.' is a suffix of the input. */
  lemma {:induction false} AfterFirstDotSuffix(s: string)
    ensures AfterFirstDot(s) == s[|s| - |AfterFirstDot(s)|..]
  {
    if s != [] && s[0] != '.' {
      AfterFirstDotSuffix(s[1..]);
    }
  }

  /** `SnapshotVersionHelper.Parse(name)`: `long.Parse` of what follows the first '.' once ".json" is gone. */
  function ParseVersion(name: string): Result<Int64> {
    ParseLong(AfterFirstDot(RemoveAll(name, JSON_SUFFIX)))
  }

  lemma {:induction false} RemoveAllAfterDotFree(a: string, s: string)
    requires NoDot(a)
    ensures RemoveAll(a + s, JSON_SUFFIX) == a + RemoveAll(s, JSON_SUFFIX)
    decreases |a|
  {
    if a == [] {
      assert a + s == s;
    } else {
      var x := a + s;
      if |x| < |JSON_SUFFIX| {
        assert RemoveAll(s, JSON_SUFFIX) == s;
      } else {
        assert x[..|JSON_SUFFIX|][0] == a[0] != JSON_SUFFIX[0];
        assert x[1..] == a[1..] + s;
        RemoveAllAfterDotFree(a[1..], s);
        assert RemoveAll(x, JSON_SUFFIX) == [a[0]] + (a[1..] + RemoveAll(s, JSON_SUFFIX));
        assert a == [a[0]] + a[1..];
      }
    }
  }

  /** ".json" after a run of digits: only the suffix goes. */
  lemma RemoveAllDigitsJson(key: string)
    requires AllDigits(key)
    ensures RemoveAll(key + JSON_SUFFIX, JSON_SUFFIX) == key
  {
    RemoveAllAfterDotFree(key, JSON_SUFFIX);
    assert JSON_SUFFIX[..|JSON_SUFFIX|] == JSON_SUFFIX;
    assert RemoveAll(JSON_SUFFIX, JSON_SUFFIX) == RemoveAll([], JSON_SUFFIX);
  }

  /** A '.' followed by a digit run and ".json": the '.' and the digits stay. */
  lemma RemoveAllDotKey(key: string)
    requires key != [] && AllDigits(key)
    ensures RemoveAll("." + key + JSON_SUFFIX, JSON_SUFFIX) == "." + key
  {
    var x := "." + key + JSON_SUFFIX;
    assert x[1] == key[0] != JSON_SUFFIX[1];
    assert x[1..] == key + JSON_SUFFIX;
    RemoveAllDigitsJson(key);
  }

  lemma {:induction false} AfterFirstDotOf(a: string, s: string)
    requires NoDot(a)
    ensures AfterFirstDot(a + "." + s) == s
    decreases |a|
  {
    if a == [] {
      assert a + "." + s == ['.'] + s;
    } else {
      assert (a + "." + s)[1..] == a[1..] + "." + s;
      AfterFirstDotOf(a[1..], s);
    }
  }

  lemma {:induction false} TrimKeepsDot(s: string)
    requires '.' in s
    ensures '.' in TrimWhite(s)
    decreases |s|
  {
    if IsWhite(s[0]) {
      assert s == [s[0]] + s[1..];
      TrimKeepsDot(s[1..]);
    } else if IsWhite(s[|s| - 1]) {
      assert s == s[..|s| - 1] + [s[|s| - 1]];
      TrimKeepsDot(s[..|s| - 1]);
    }
  }

  /** `long.Parse` refuses any text holding a '.'. */
  lemma ParseLongRejectsDot(s: string)
    requires '.' in s
    ensures ParseLong(s) == Err(FormatException)
  {
    TrimKeepsDot(s);
    var t := TrimWhite(s);
    var i :| 0 <= i < |t| && t[i] == '.';
    if t[0] == '-' || t[0] == '+' {
      assert t[1..][i - 1] == '.';
    }
  }

  /** Behind a dot-free id, the name's text after the first '.' is the version key. */
  lemma NameParsesAsKey(pid: string, key: string)
    requires NoDot(pid) && key != [] && AllDigits(key)
    ensures ParseVersion(pid + "." + key + JSON_SUFFIX) == ParseLong(key)
  {
    var name := pid + "." + key + JSON_SUFFIX;
    assert name == pid + ("." + key + JSON_SUFFIX);
    RemoveAllAfterDotFree(pid, "." + key + JSON_SUFFIX);
    RemoveAllDotKey(key);
    assert RemoveAll(name, JSON_SUFFIX) == pid + "." + key;
    AfterFirstDotOf(pid, key);
    assert AfterFirstDot(RemoveAll(name, JSON_SUFFIX)) == key;
  }

  /** The sequence number is read back from the name of every non-negative snapshot of a dot-free id. */
  lemma VersionRoundTrip(pid: string, n: Int64)
    requires NoDot(pid) && 0 <= n
    ensures ParseVersion(BlobName(pid, n)) == Ok(n)
  {
    RowKeyShape(n);
    NameParsesAsKey(pid, ToRowKey(n));
    RowKeyRoundTrip(n);
  }

  /** A '.' and a dot-free text, when they do not start ".json", stay in front of what follows. */
  lemma RemoveAllDotHead(t: string)
    requires |t| >= |JSON_SUFFIX| && t[0] == '.' && t[..|JSON_SUFFIX|] != JSON_SUFFIX
    ensures RemoveAll(t, JSON_SUFFIX) == ['.'] + RemoveAll(t[1..], JSON_SUFFIX)
  {
  }

  lemma RemoveAllDotThen(y: string, b: string, tail: string)
    requires |y| >= |JSON_SUFFIX| && y[0] == '.' && y[..|JSON_SUFFIX|] != JSON_SUFFIX
    requires y[1..] == b + tail && NoDot(b)
    ensures RemoveAll(y, JSON_SUFFIX) == ['.'] + (b + RemoveAll(tail, JSON_SUFFIX))
  {
    RemoveAllDotHead(y);
    RemoveAllAfterDotFree(b, tail);
  }

  /** A '.', a dot-free text not starting with "json", then a '.': the head is not the suffix. */
  lemma DotHeadNotSuffix(y: string, b: string, tail: string)
    requires y == "." + b + tail && NoDot(b) && tail != [] && tail[0] == '.'
    requires !(|b| >= 4 && b[..4] == "json")
    ensures |y| >= |JSON_SUFFIX| ==> y[..|JSON_SUFFIX|] != JSON_SUFFIX
  {
    if |b| >= 4 {
      assert y[1..5] == b[..4];
    } else {
      assert y[1 + |b|] == '.';
    }
  }

  /** A '.', a dot-free text not starting with "json", a '.' and a digit run: only the suffix goes. */
  lemma RemoveAllDottedTail(y: string, b: string, tail: string, key: string)
    requires NoDot(b) && key != [] && AllDigits(key)
    requires !(|b| >= 4 && b[..4] == "json")
    requires tail == "." + key + JSON_SUFFIX && y == "." + b + tail
    ensures RemoveAll(y, JSON_SUFFIX) == ['.'] + (b + ("." + key))
  {
    DotHeadNotSuffix(y, b, tail);
    assert y[1..] == b + tail;
    RemoveAllDotThen(y, b, tail);
    RemoveAllDotKey(key);
  }

  /** Behind an id with one '.' not followed by "json", the text after the first '.' keeps a '.'. */
  lemma DottedNameStripped(name: string, a: string, b: string, key: string, y: string, tail: string)
    requires NoDot(a) && NoDot(b) && key != [] && AllDigits(key)
    requires !(|b| >= 4 && b[..4] == "json")
    requires tail == "." + key + JSON_SUFFIX && y == "." + b + tail && name == a + y
    ensures RemoveAll(name, JSON_SUFFIX) == a + (['.'] + (b + ("." + key)))
  {
    RemoveAllAfterDotFree(a, y);
    RemoveAllDottedTail(y, b, tail, key);
  }

  /** A name whose text after the first '.', once ".json" is gone, holds another '.' does not parse. */
  lemma SecondDotFails(name: string, a: string, rest: string)
    requires NoDot(a) && RemoveAll(name, JSON_SUFFIX) == a + "." + rest && '.' in rest
    ensures ParseVersion(name) == Err(FormatException)
  {
    AfterFirstDotOf(a, rest);
    ParseLongRejectsDot(rest);
  }

  lemma DottedNameFails(a: string, b: string, key: string)
    requires NoDot(a) && NoDot(b) && key != [] && AllDigits(key)
    requires !(|b| >= 4 && b[..4] == "json")
    ensures ParseVersion(a + "." + b + "." + key + JSON_SUFFIX) == Err(FormatException)
  {
    var name := a + "." + b + "." + key + JSON_SUFFIX;
    var tail := "." + key + JSON_SUFFIX;
    var y := "." + b + tail;
    assert name == a + y;
    DottedNameStripped(name, a, b, key, y, tail);
    var rest := b + "." + key;
    assert a + (['.'] + (b + ("." + key))) == a + "." + rest;
    assert rest[|b|] == '.';
    SecondDotFails(name, a, rest);
  }


  /**
   * An id with one '.' (not followed by "json") makes the name unreadable: the text after the
   * first '.' still holds the separator in front of the version key.
   */
  lemma DottedIdFailsToParse(a: string, b: string, n: Int64)
    requires NoDot(a) && NoDot(b) && 0 <= n
    requires !(|b| >= 4 && b[..4] == "json")
    ensures ParseVersion(BlobName(a + "." + b, n)) == Err(FormatException)
  {
    RowKeyShape(n);
    DottedNameFails(a, b, ToRowKey(n));
  }

  /** Behind an id `a + ".json"`, the id's ".json" goes with the suffix. */
  lemma JsonNameParsesAsKey(a: string, key: string)
    requires NoDot(a) && key != [] && AllDigits(key)
    ensures ParseVersion(a + JSON_SUFFIX + "." + key + JSON_SUFFIX) == ParseLong(key)
  {
    var name := a + JSON_SUFFIX + "." + key + JSON_SUFFIX;
    var y := JSON_SUFFIX + "." + key + JSON_SUFFIX;
    assert name == a + y;
    RemoveAllAfterDotFree(a, y);
    assert y[..5] == JSON_SUFFIX && y[5..] == "." + key + JSON_SUFFIX;
    RemoveAllDotKey(key);
    assert RemoveAll(y, JSON_SUFFIX) == "." + key;
    assert RemoveAll(name, JSON_SUFFIX) == a + "." + key;
    AfterFirstDotOf(a, key);
    assert AfterFirstDot(RemoveAll(name, JSON_SUFFIX)) == key;
  }

  /** An id `a + ".json"` reads as stream `a`'s: its own ".json" is removed with the suffix. */
  lemma JsonIdParses(a: string, n: Int64)
    requires NoDot(a) && 0 <= n
    ensures ParseVersion(BlobName(a + JSON_SUFFIX, n)) == Ok(n)
  {
    RowKeyShape(n);
    JsonNameParsesAsKey(a, ToRowKey(n));
    RowKeyRoundTrip(n);
  }

  /** Names of dot-free ids with digit keys extend one another only when they are equal. */
  lemma NamePrefix(pid: string, key: string, pid': string, key': string)
    requires NoDot(pid) && NoDot(pid') && AllDigits(key) && AllDigits(key')
    requires pid + "." + key + JSON_SUFFIX <= pid' + "." + key' + JSON_SUFFIX
    ensures pid == pid' && key == key'
  {
    var x, y := pid + "." + key + JSON_SUFFIX, pid' + "." + key' + JSON_SUFFIX;
    assert forall i :: 0 <= i < |x| ==> x[i] == y[i];
    assert x[|pid|] == '.' && y[|pid'|] == '.';
    assert |pid| == |pid'|;
    assert pid == x[..|pid|] == y[..|pid|] == pid';
    var p := |pid| + 1;
    assert x[p + |key|] == '.' && y[p + |key'|] == '.';
    assert |key| == |key'|;
    assert key == x[p..p + |key|] == y[p..p + |key|] == key';
  }

  /** Names given to non-negative snapshots of dot-free ids do not extend one another. */
  lemma BlobNamePrefix(pid: string, n: Int64, pid': string, n': Int64)
    requires NoDot(pid) && NoDot(pid') && 0 <= n && 0 <= n'
    requires BlobName(pid, n) <= BlobName(pid', n')
    ensures pid == pid' && n == n'
  {
    RowKeyShape(n);
    RowKeyShape(n');
    NamePrefix(pid, ToRowKey(n), pid', ToRowKey(n'));
    RowKeyInjective(n, n');
  }

  // ---------------------------------------------------------------------------------------------
  // Listing, sort keys and metadata

  /** `ListBlobs(prefix, useFlatBlobListing: true)`: the names starting with `prefix`, in ordinal order. */
  function Listing(c: Container, prefix: string): (names: seq<string>)
    ensures forall n :: n in names <==> n in c && prefix <= n
    ensures StrictlyAscending(names)
  {
    SortedKeys(set n | n in c && prefix <= n)
  }

  /** A listed blob with the sequence number its name parses to. */
  datatype Listed = Listed(name: string, blob: Blob, version: Int64)

  function VersionOf(l: Listed): int {
    l.version
  }

  /**
   * The keys `OrderByDescending(t => Parse(t.Name))` computes, in listing order; the first name
   * that does not parse throws.
   */
  function ParseListing(c: Container, names: seq<string>): (r: Result<seq<Listed>>)
    requires forall n :: n in names ==> n in c
    ensures r.Ok? <==> forall i :: 0 <= i < |names| ==> ParseVersion(names[i]).Ok?
    ensures r.Ok? ==> |r.value| == |names|
    ensures r.Ok? ==> forall i :: 0 <= i < |names| ==> r.value[i] == Listed(names[i], c[names[i]], ParseVersion(names[i]).value)
    ensures r.Err? ==> exists i :: 0 <= i < |names| && ParseVersion(names[i]) == Err(r.error)
  {
    if names == [] then Ok([])
    else
      match ParseVersion(names[0])
      case Err(e) => Err(e)
      case Ok(v) =>
        match ParseListing(c, names[1..])
        case Err(e) =>
          var i :| 0 <= i < |names[1..]| && ParseVersion(names[1..][i]) == Err(e);
          assert ParseVersion(names[i + 1]) == Err(e);
          Err(e)
        case Ok(rest) =>
          assert forall i :: 1 <= i < |names| ==> names[i] == names[1..][i - 1];
          Ok([Listed(names[0], c[names[0]], v)] + rest)
  }

  /** On a successful parse, the entries are exactly the listed blobs with their parsed versions. */
  lemma ParsedEntries(c: Container, prefix: string, entries: seq<Listed>)
    requires ParseListing(c, Listing(c, prefix)) == Ok(entries)
    ensures forall l: Listed :: l in entries <==>
              l.name in c && prefix <= l.name && ParseVersion(l.name).Ok? && l == Listed(l.name, c[l.name], ParseVersion(l.name).value)
  {
    var names := Listing(c, prefix);
    forall l: Listed | l.name in c && prefix <= l.name && ParseVersion(l.name).Ok? && l == Listed(l.name, c[l.name], ParseVersion(l.name).value)
      ensures l in entries
    {
      var i :| 0 <= i < |names| && names[i] == l.name;
      assert entries[i] == l;
    }
  }

  /** `long.Parse(blob.Metadata["SnapshotTimestamp"])`. */
  function TimestampOf(b: Blob): Result<Int64> {
    if TIMESTAMP_KEY in b.metadata then ParseLong(b.metadata[TIMESTAMP_KEY]) else Err(KeyNotFoundException)
  }

  /** The test of `LoadAsync` and `TryDeleteAsync`: both bounds of the criteria hold. */
  predicate Eligible(l: Listed, criteria: SnapshotSelectionCriteria) {
    && l.version <= criteria.maxSequenceNr
    && TimestampOf(l.blob).Ok? && TimestampOf(l.blob).value <= criteria.maxTimeStamp
  }

  /** The same test on a blob of the container, its version read from its name. */
  predicate Within(c: Container, n: string, criteria: SnapshotSelectionCriteria)
    requires n in c
  {
    && ParseVersion(n).Ok? && ParseVersion(n).value <= criteria.maxSequenceNr
    && TimestampOf(c[n]).Ok? && TimestampOf(c[n]).value <= criteria.maxTimeStamp
  }

  /** Every blob listed under `prefix` has a readable name and a readable timestamp. */
  predicate Readable(c: Container, prefix: string) {
    forall n :: n in c && prefix <= n ==> ParseVersion(n).Ok? && TimestampOf(c[n]).Ok?
  }

  /** A sequence of entries every one of which has a readable timestamp. */
  predicate TimestampsReadable(results: seq<Listed>) {
    forall l :: l in results ==> TimestampOf(l.blob).Ok?
  }

  // ---------------------------------------------------------------------------------------------
  // LoadAsync

  /**
   * The `foreach` of `LoadAsync` over the candidates: the first within both bounds. The timestamp
   * is read only for a candidate within the sequence bound, and a failed read is thrown.
   */
  function Scan(results: seq<Listed>, criteria: SnapshotSelectionCriteria): Result<Option<SelectedSnapshot>> {
    if results == [] then Ok(None)
    else if results[0].version <= criteria.maxSequenceNr then
      match TimestampOf(results[0].blob)
      case Err(e) => Err(e)
      case Ok(ts) => if ts <= criteria.maxTimeStamp then Ok(Some(results[0].blob.body)) else Scan(results[1..], criteria)
    else Scan(results[1..], criteria)
  }

  /**
   * Over candidates by descending version, the scan returns the body of the candidate with the
   * greatest version within both bounds, skipping newer ones, and nothing when there is none.
   */
  lemma {:induction false} ScanFindsNewest(results: seq<Listed>, criteria: SnapshotSelectionCriteria)
    requires Descending(results, VersionOf) && TimestampsReadable(results)
    ensures Scan(results, criteria).Ok?
    ensures Scan(results, criteria).value.Some? ==>
              exists l :: l in results && Eligible(l, criteria) && l.blob.body == Scan(results, criteria).value.value &&
                forall l' :: l' in results && Eligible(l', criteria) ==> l'.version <= l.version
    ensures Scan(results, criteria).value.None? <==> forall l :: l in results ==> !Eligible(l, criteria)
  {
    ScanIsFirst(results, criteria);
    var i := FirstEligible(results, criteria);
    if i < |results| {
      forall l | l in results && Eligible(l, criteria) ensures l.version <= results[i].version {
        var p :| 0 <= p < |results| && results[p] == l;
        assert VersionOf(results[p]) <= VersionOf(results[i]);
      }
    } else {
      forall l | l in results ensures !Eligible(l, criteria) {
        var p :| 0 <= p < |results| && results[p] == l;
      }
    }
  }

  /**
   * When every blob listed under `prefix` is readable, the listing parses, and its entries ordered
   * by descending version are exactly the listed blobs with their parsed versions.
   */
  lemma SortedListing(c: Container, prefix: string)
    requires Readable(c, prefix) && |Listing(c, prefix)| > 0
    ensures ParseListing(c, Listing(c, prefix)).Ok?
    ensures var sorted := SortDescending(ParseListing(c, Listing(c, prefix)).value, VersionOf);
            && Descending(sorted, VersionOf) && TimestampsReadable(sorted)
            && (forall l: Listed :: l in sorted ==> l.name in c && prefix <= l.name && l == Listed(l.name, c[l.name], ParseVersion(l.name).value))
            && (forall n :: n in c && prefix <= n ==> Listed(n, c[n], ParseVersion(n).value) in sorted)
  {
    var names := Listing(c, prefix);
    var entries := ParseListing(c, names).value;
    ParsedEntries(c, prefix, entries);
    var sorted := SortDescending(entries, VersionOf);
    SortedEntries(c, prefix, entries, sorted);
  }

  lemma SortedEntries(c: Container, prefix: string, entries: seq<Listed>, sorted: seq<Listed>)
    requires Readable(c, prefix) && multiset(sorted) == multiset(entries)
    requires forall l: Listed :: l in entries <==>
               l.name in c && prefix <= l.name && ParseVersion(l.name).Ok? && l == Listed(l.name, c[l.name], ParseVersion(l.name).value)
    ensures TimestampsReadable(sorted)
    ensures forall l: Listed :: l in sorted ==> l.name in c && prefix <= l.name && l == Listed(l.name, c[l.name], ParseVersion(l.name).value)
    ensures forall n :: n in c && prefix <= n ==> Listed(n, c[n], ParseVersion(n).value) in sorted
  {
    assert forall l :: l in sorted <==> l in entries by {
      forall l ensures l in sorted <==> l in entries {
        assert l in sorted <==> l in multiset(sorted);
      }
    }
  }

  /** What `LoadAsync` returns, or the exception it throws. */
  function Load(c: Container, pid: string, criteria: SnapshotSelectionCriteria, accounts: nat): Result<Option<SelectedSnapshot>> {
    if ShardIndex(pid, accounts).Err? then Err(ShardIndex(pid, accounts).error)
    else
      var names := Listing(c, pid);
      if |names| == 0 then Ok(None)
      else
        match ParseListing(c, names)
        case Err(e) => Err(e)
        case Ok(entries) => Scan(SortDescending(entries, VersionOf), criteria)
  }

  /** The scan over entries that are exactly the blobs listed under `pid`, stated on the container. */
  lemma ScanSelects(c: Container, pid: string, criteria: SnapshotSelectionCriteria, sorted: seq<Listed>)
    requires Readable(c, pid) && Descending(sorted, VersionOf) && TimestampsReadable(sorted)
    requires forall l: Listed :: l in sorted ==> l.name in c && pid <= l.name && l == Listed(l.name, c[l.name], ParseVersion(l.name).value)
    requires forall n :: n in c && pid <= n ==> Listed(n, c[n], ParseVersion(n).value) in sorted
    ensures Scan(sorted, criteria).Ok?
    ensures Scan(sorted, criteria).value.Some? ==>
              exists n :: n in c && pid <= n && Within(c, n, criteria) && c[n].body == Scan(sorted, criteria).value.value &&
                forall n' :: n' in c && pid <= n' && Within(c, n', criteria) ==> ParseVersion(n').value <= ParseVersion(n).value
    ensures Scan(sorted, criteria).value.None? <==> forall n :: n in c && pid <= n ==> !Within(c, n, criteria)
  {
    ScanFindsNewest(sorted, criteria);
    var r := Scan(sorted, criteria).value;
    if r.Some? {
      var l :| l in sorted && Eligible(l, criteria) && l.blob.body == r.value &&
               forall l' :: l' in sorted && Eligible(l', criteria) ==> l'.version <= l.version;
      assert Within(c, l.name, criteria);
      forall n' | n' in c && pid <= n' && Within(c, n', criteria)
        ensures ParseVersion(n').value <= ParseVersion(l.name).value
      {
        assert Listed(n', c[n'], ParseVersion(n').value) in sorted;
      }
    } else {
      forall n | n in c && pid <= n ensures !Within(c, n, criteria) {
        assert Listed(n, c[n], ParseVersion(n).value) in sorted;
      }
    }
  }

  /**
   * When every blob listed under `pid` is readable, load returns the body of the listed blob with
   * the greatest version within both bounds, and nothing exactly when no listed blob is within them.
   */
  lemma LoadSelects(c: Container, pid: string, criteria: SnapshotSelectionCriteria, accounts: nat)
    requires ShardIndex(pid, accounts).Ok? && Readable(c, pid)
    ensures Load(c, pid, criteria, accounts).Ok?
    ensures Load(c, pid, criteria, accounts).value.Some? ==>
              exists n :: n in c && pid <= n && Within(c, n, criteria) && c[n].body == Load(c, pid, criteria, accounts).value.value &&
                forall n' :: n' in c && pid <= n' && Within(c, n', criteria) ==> ParseVersion(n').value <= ParseVersion(n).value
    ensures Load(c, pid, criteria, accounts).value.None? <==> forall n :: n in c && pid <= n ==> !Within(c, n, criteria)
  {
    var names := Listing(c, pid);
    if |names| > 0 {
      SortedListing(c, pid);
      var sorted := SortDescending(ParseListing(c, names).value, VersionOf);
      ScanSelects(c, pid, criteria, sorted);
      assert Load(c, pid, criteria, accounts) == Scan(sorted, criteria);
    } else {
      assert forall n :: n in c ==> !(pid <= n);
    }
  }

  /** A listed name that does not parse makes load throw, however the criteria read. */
  lemma LoadRejectsUnreadableName(c: Container, pid: string, criteria: SnapshotSelectionCriteria, accounts: nat, n: string)
    requires ShardIndex(pid, accounts).Ok?
    requires n in c && pid <= n && ParseVersion(n).Err?
    ensures Load(c, pid, criteria, accounts).Err?
  {
    var names := Listing(c, pid);
    var i :| 0 <= i < |names| && names[i] == n;
  }

  /** The position of the first entry within both bounds, or the length when there is none. */
  function FirstEligible(results: seq<Listed>, criteria: SnapshotSelectionCriteria): (i: nat)
    ensures i <= |results|
    ensures i < |results| ==> Eligible(results[i], criteria)
    ensures forall j :: 0 <= j < i ==> !Eligible(results[j], criteria)
  {
    if results == [] then 0
    else if Eligible(results[0], criteria) then 0
    else 1 + FirstEligible(results[1..], criteria)
  }

  /** With every timestamp readable, the scan returns the first entry within both bounds. */
  lemma {:induction false} ScanIsFirst(results: seq<Listed>, criteria: SnapshotSelectionCriteria)
    requires TimestampsReadable(results)
    ensures var i := FirstEligible(results, criteria);
            Scan(results, criteria) == if i < |results| then Ok(Some(results[i].blob.body)) else Ok(None)
  {
    if results != [] {
      assert TimestampOf(results[0].blob).Ok?;
      if !Eligible(results[0], criteria) {
        assert TimestampsReadable(results[1..]);
        ScanIsFirst(results[1..], criteria);
      }
    }
  }

  /**
   * The first entry within both bounds among those of version `v` is the first entry of version
   * `v` within both bounds of the whole sequence.
   */
  lemma {:induction false} FilterFirstEligible(results: seq<Listed>, criteria: SnapshotSelectionCriteria, v: int, j: nat)
    requires j < |results| && Eligible(results[j], criteria) && results[j].version == v
    requires forall k :: 0 <= k < j ==> !(Eligible(results[k], criteria) && results[k].version == v)
    ensures var f := Filter(results, VersionOf, v);
            FirstEligible(f, criteria) < |f| && f[FirstEligible(f, criteria)] == results[j]
  {
    var f := Filter(results, VersionOf, v);
    var tail := results[1..];
    assert results == [results[0]] + tail;
    FilterCons(results[0], tail, VersionOf, v);
    if j > 0 {
      forall k | 0 <= k < j - 1 ensures !(Eligible(tail[k], criteria) && tail[k].version == v) {
        assert tail[k] == results[k + 1];
      }
      FilterFirstEligible(tail, criteria, v, j - 1);
      var ft := Filter(tail, VersionOf, v);
      if VersionOf(results[0]) == v {
        assert f == [results[0]] + ft;
        assert !Eligible(f[0], criteria) && f[1..] == ft;
        assert FirstEligible(f, criteria) == 1 + FirstEligible(ft, criteria);
      } else {
        assert f == ft;
      }
    }
  }

  /**
   * Ties between equal versions go to the entry that came first: when entry `j` is within both
   * bounds and every other entry within them has a smaller version, or the same version and a
   * later position, the scan over the entries sorted by descending version returns entry `j`.
   */
  lemma ScanPrefersFirst(entries: seq<Listed>, criteria: SnapshotSelectionCriteria, j: nat)
    requires TimestampsReadable(entries)
    requires j < |entries| && Eligible(entries[j], criteria)
    requires forall k :: 0 <= k < |entries| && Eligible(entries[k], criteria) ==>
               entries[k].version < entries[j].version || (entries[k].version == entries[j].version && j <= k)
    ensures Scan(SortDescending(entries, VersionOf), criteria) == Ok(Some(entries[j].blob.body))
  {
    var sorted := SortDescending(entries, VersionOf);
    var v := entries[j].version;
    SameEntries(entries, sorted);
    ScanIsFirst(sorted, criteria);
    NewestComesFirst(entries, sorted, criteria, j);
    FilterFirstEligible(sorted, criteria, v, FirstEligible(sorted, criteria));
    FilterFirstEligible(entries, criteria, v, j);
  }

  lemma SameEntries(entries: seq<Listed>, sorted: seq<Listed>)
    requires multiset(sorted) == multiset(entries)
    ensures forall l :: l in sorted <==> l in entries
  {
    forall l ensures l in sorted <==> l in entries {
      assert l in sorted <==> l in multiset(sorted);
    }
  }

  /** In descending version order, the first entry within both bounds has the greatest version among them. */
  lemma NewestComesFirst(entries: seq<Listed>, sorted: seq<Listed>, criteria: SnapshotSelectionCriteria, j: nat)
    requires Descending(sorted, VersionOf) && forall l :: l in sorted <==> l in entries
    requires j < |entries| && Eligible(entries[j], criteria)
    requires forall k :: 0 <= k < |entries| && Eligible(entries[k], criteria) ==> entries[k].version <= entries[j].version
    ensures FirstEligible(sorted, criteria) < |sorted|
    ensures sorted[FirstEligible(sorted, criteria)].version == entries[j].version
  {
    assert entries[j] in sorted;
    var p :| 0 <= p < |sorted| && sorted[p] == entries[j];
    var i := FirstEligible(sorted, criteria);
    assert i <= p;
    assert VersionOf(sorted[i]) >= VersionOf(sorted[p]);
    assert sorted[i] in entries;
    var k :| 0 <= k < |entries| && entries[k] == sorted[i];
  }

  /**
   * The blob `n` is within both bounds, and every other listed blob within them has a smaller
   * version, or the same version and a name not before `n` in ordinal order.
   */
  predicate Newest(c: Container, pid: string, criteria: SnapshotSelectionCriteria, n: string) {
    && n in c && pid <= n && Within(c, n, criteria)
    && forall n' :: n' in c && pid <= n' && Within(c, n', criteria) ==>
         ParseVersion(n').value < ParseVersion(n).value || (ParseVersion(n').value == ParseVersion(n).value && LessEq(n, n'))
  }

  /**
   * When every blob listed under `pid` is readable, load returns the newest blob within both
   * bounds, and of two with the same version the one listed first.
   */
  lemma LoadPrefersFirstListed(c: Container, pid: string, criteria: SnapshotSelectionCriteria, accounts: nat, n: string)
    requires ShardIndex(pid, accounts).Ok? && Readable(c, pid) && Newest(c, pid, criteria, n)
    ensures Load(c, pid, criteria, accounts) == Ok(Some(c[n].body))
  {
    var names := Listing(c, pid);
    var j :| 0 <= j < |names| && names[j] == n;
    SortedListing(c, pid);
    var entries := ParseListing(c, names).value;
    NewestEntry(c, pid, criteria, n, entries, j);
    ScanPrefersFirst(entries, criteria, j);
    assert Load(c, pid, criteria, accounts) == Scan(SortDescending(entries, VersionOf), criteria);
  }

  /** `Newest` stated on the parsed listing: entry `j` wins on version, then on position. */
  lemma NewestEntry(c: Container, pid: string, criteria: SnapshotSelectionCriteria, n: string, entries: seq<Listed>, j: nat)
    requires Readable(c, pid) && Newest(c, pid, criteria, n)
    requires ParseListing(c, Listing(c, pid)) == Ok(entries)
    requires j < |Listing(c, pid)| && Listing(c, pid)[j] == n
    ensures TimestampsReadable(entries)
    ensures j < |entries| && Eligible(entries[j], criteria)
    ensures forall k :: 0 <= k < |entries| && Eligible(entries[k], criteria) ==>
              entries[k].version < entries[j].version || (entries[k].version == entries[j].version && j <= k)
  {
    var names := Listing(c, pid);
    forall l | l in entries ensures TimestampOf(l.blob).Ok? {
      var k :| 0 <= k < |entries| && entries[k] == l;
      ListedEntry(c, pid, entries, k);
    }
    ListedEntry(c, pid, entries, j);
    forall k | 0 <= k < |entries| && Eligible(entries[k], criteria)
      ensures entries[k].version < entries[j].version || (entries[k].version == entries[j].version && j <= k)
    {
      ListedEntry(c, pid, entries, k);
      assert Within(c, names[k], criteria);
      if entries[k].version == entries[j].version && k < j {
        LessAsymmetric(names[k], names[j]);
      }
    }
  }

  /** Entry `k` of the parsed listing is the `k`-th listed blob with its version. */
  lemma ListedEntry(c: Container, pid: string, entries: seq<Listed>, k: nat)
    requires ParseListing(c, Listing(c, pid)) == Ok(entries) && k < |entries|
    ensures var n := Listing(c, pid)[k];
            && n in c && pid <= n && ParseVersion(n).Ok?
            && entries[k] == Listed(n, c[n], ParseVersion(n).value)
  {
    assert Listing(c, pid)[k] in Listing(c, pid);
  }

  /** The loop of `LoadAsync` over the ordered candidates, with its early return. */
  method ScanResults(results: seq<Listed>, criteria: SnapshotSelectionCriteria) returns (r: Result<Option<SelectedSnapshot>>)
    ensures r == Scan(results, criteria)
  {
    var i := 0;
    while i < |results|
      invariant 0 <= i <= |results|
      invariant Scan(results[i..], criteria) == Scan(results, criteria)
    {
      var clob := results[i];
      assert results[i..][1..] == results[i + 1..];
      if clob.version <= criteria.maxSequenceNr {
        var ts := TimestampOf(clob.blob);
        if ts.Err? {
          return Err(ts.error);
        }
        if ts.value <= criteria.maxTimeStamp {
          return Ok(Some(clob.blob.body));
        }
      }
      i := i + 1;
    }
    return Ok(None);
  }

  // ---------------------------------------------------------------------------------------------
  // SaveAsync

  /** The blob `SaveAsync` uploads: metadata `SnapshotTimestamp` and `Version`, the selected snapshot as body. */
  function NewBlob(metadata: SnapshotMetadata, snapshot: Payload): Blob {
    Blob(map[TIMESTAMP_KEY := LongToString(metadata.timestamp), VERSION_KEY := ToRowKey(metadata.sequenceNr)],
         SelectedSnapshot(metadata, snapshot))
  }

  /** The container after `SaveAsync`: the upload replaces any blob of the same name; errors are swallowed. */
  function Saved(c: Container, metadata: SnapshotMetadata, snapshot: Payload, accounts: nat): Container {
    if ShardIndex(metadata.persistenceId, accounts).Err? then c
    else c[BlobName(metadata.persistenceId, metadata.sequenceNr) := NewBlob(metadata, snapshot)]
  }

  /**
   * The stored metadata reads back: the timestamp parses to the snapshot's ticks, the version
   * key is the sequence number's key, and for a dot-free id the name parses to the sequence number.
   */
  lemma SavedBlobReadsBack(metadata: SnapshotMetadata, snapshot: Payload)
    ensures TimestampOf(NewBlob(metadata, snapshot)) == Ok(metadata.timestamp)
    ensures NewBlob(metadata, snapshot).metadata[VERSION_KEY] == ToRowKey(metadata.sequenceNr)
    ensures NoDot(metadata.persistenceId) && 0 <= metadata.sequenceNr ==>
              ParseVersion(BlobName(metadata.persistenceId, metadata.sequenceNr)) == Ok(metadata.sequenceNr)
  {
    LongToStringRoundTrip(metadata.timestamp);
    if NoDot(metadata.persistenceId) && 0 <= metadata.sequenceNr {
      VersionRoundTrip(metadata.persistenceId, metadata.sequenceNr);
    }
  }

  /** The saved blob is listed under every prefix of its id, is readable, and is within the criteria. */
  lemma SavedBlobListed(c: Container, metadata: SnapshotMetadata, snapshot: Payload, accounts: nat, pid: string, criteria: SnapshotSelectionCriteria)
    requires ShardIndex(metadata.persistenceId, accounts).Ok?
    requires pid <= metadata.persistenceId && NoDot(metadata.persistenceId)
    requires 0 <= metadata.sequenceNr <= criteria.maxSequenceNr && metadata.timestamp <= criteria.maxTimeStamp
    requires Readable(c, pid)
    ensures var name := BlobName(metadata.persistenceId, metadata.sequenceNr);
            var c' := Saved(c, metadata, snapshot, accounts);
            && name in c' && pid <= name && Readable(c', pid) && Within(c', name, criteria)
            && ParseVersion(name) == Ok(metadata.sequenceNr) && c'[name].body == SelectedSnapshot(metadata, snapshot)
  {
    var name := BlobName(metadata.persistenceId, metadata.sequenceNr);
    SavedBlobReadsBack(metadata, snapshot);
    assert name[..|metadata.persistenceId|] == metadata.persistenceId;
  }

  /**
   * A saved snapshot within the criteria, newer than every other blob within them that is listed
   * under `pid`, is what the next load for `pid` returns, for its own stream and for every stream
   * whose id `pid` is a prefix of: the listing does not stop at the id.
   */
  lemma SaveThenLoad(c: Container, metadata: SnapshotMetadata, snapshot: Payload, accounts: nat, pid: string, criteria: SnapshotSelectionCriteria)
    requires ShardIndex(metadata.persistenceId, accounts).Ok? && ShardIndex(pid, accounts).Ok?
    requires pid <= metadata.persistenceId && NoDot(metadata.persistenceId)
    requires 0 <= metadata.sequenceNr <= criteria.maxSequenceNr && metadata.timestamp <= criteria.maxTimeStamp
    requires Readable(c, pid)
    requires forall n :: n in c && pid <= n && Within(c, n, criteria) && n != BlobName(metadata.persistenceId, metadata.sequenceNr) ==>
               ParseVersion(n).value < metadata.sequenceNr
    ensures Load(Saved(c, metadata, snapshot, accounts), pid, criteria, accounts) == Ok(Some(SelectedSnapshot(metadata, snapshot)))
  {
    var name := BlobName(metadata.persistenceId, metadata.sequenceNr);
    var c' := Saved(c, metadata, snapshot, accounts);
    SavedBlobListed(c, metadata, snapshot, accounts, pid, criteria);
    LoadSelects(c', pid, criteria, accounts);
    var r := Load(c', pid, criteria, accounts);
    assert r.value.Some?;
    var n :| n in c' && pid <= n && Within(c', n, criteria) && c'[n].body == r.value.value &&
               forall n' :: n' in c' && pid <= n' && Within(c', n', criteria) ==> ParseVersion(n').value <= ParseVersion(n).value;
    if n != name {
      OtherBlobOlder(c, metadata, snapshot, accounts, pid, criteria, n);
      assert false;
    }
  }

  /** Under the premise of `SaveThenLoad`, every other blob within the criteria after the save is older. */
  lemma OtherBlobOlder(c: Container, metadata: SnapshotMetadata, snapshot: Payload, accounts: nat, pid: string, criteria: SnapshotSelectionCriteria, n: string)
    requires forall n :: n in c && pid <= n && Within(c, n, criteria) && n != BlobName(metadata.persistenceId, metadata.sequenceNr) ==>
               ParseVersion(n).value < metadata.sequenceNr
    requires n in Saved(c, metadata, snapshot, accounts) && pid <= n && n != BlobName(metadata.persistenceId, metadata.sequenceNr)
    requires Within(Saved(c, metadata, snapshot, accounts), n, criteria)
    ensures ParseVersion(n).value < metadata.sequenceNr
  {
    assert n in c && Saved(c, metadata, snapshot, accounts)[n] == c[n];
  }

  /** A stream `"ab"` snapshot is the answer of a load for stream `"a"`. */
  lemma LoadCrossesStreams(snapshot: Payload)
    ensures Load(Saved(map[], SnapshotMetadata("ab", 1, 0), snapshot, 1), "a", SnapshotSelectionCriteria(1, 0), 1)
              == Ok(Some(SelectedSnapshot(SnapshotMetadata("ab", 1, 0), snapshot)))
  {
    assert NoDot("ab");
    SaveThenLoad(map[], SnapshotMetadata("ab", 1, 0), snapshot, 1, "a", SnapshotSelectionCriteria(1, 0));
  }

  // ---------------------------------------------------------------------------------------------
  // DeleteAsync(metadata)

  /**
   * The container after `DeleteAsync(metadata)`: every blob whose name starts with the snapshot's
   * blob name is deleted; errors are swallowed.
   */
  function DeletedOne(c: Container, metadata: SnapshotMetadata, accounts: nat): Container {
    if ShardIndex(metadata.persistenceId, accounts).Err? then c
    else
      var prefix := BlobName(metadata.persistenceId, metadata.sequenceNr);
      map n | n in c && !(prefix <= n) :: c[n]
  }

  /** Every blob is named by the store for its own snapshot, of a dot-free id and a non-negative number. */
  ghost predicate WellNamed(c: Container) {
    forall n :: n in c ==>
      && NoDot(c[n].body.metadata.persistenceId) && 0 <= c[n].body.metadata.sequenceNr
      && n == BlobName(c[n].body.metadata.persistenceId, c[n].body.metadata.sequenceNr)
  }

  /** On well-named blobs, deleting by metadata removes exactly the snapshot's own blob. */
  lemma DeleteOneExact(c: Container, metadata: SnapshotMetadata, accounts: nat)
    requires WellNamed(c) && ShardIndex(metadata.persistenceId, accounts).Ok?
    requires NoDot(metadata.persistenceId) && 0 <= metadata.sequenceNr
    ensures DeletedOne(c, metadata, accounts) == c - {BlobName(metadata.persistenceId, metadata.sequenceNr)}
  {
    var prefix := BlobName(metadata.persistenceId, metadata.sequenceNr);
    forall n | n in c && prefix <= n ensures n == prefix {
      var m := c[n].body.metadata;
      BlobNamePrefix(metadata.persistenceId, metadata.sequenceNr, m.persistenceId, m.sequenceNr);
    }
    OnlyPrefixRemoved(c, prefix);
  }

  /** When no other name starts with `prefix`, removing every name that starts with it removes just `prefix`. */
  lemma OnlyPrefixRemoved(c: Container, prefix: string)
    requires forall n :: n in c && prefix <= n ==> n == prefix
    ensures (map n | n in c && !(prefix <= n) :: c[n]) == c - {prefix}
  {
  }

  lemma SaveKeepsWellNamed(c: Container, metadata: SnapshotMetadata, snapshot: Payload, accounts: nat)
    requires WellNamed(c) && NoDot(metadata.persistenceId) && 0 <= metadata.sequenceNr
    ensures WellNamed(Saved(c, metadata, snapshot, accounts))
  {
  }

  /** Deleting the snapshot just saved leaves what deleting it before the save would have left. */
  lemma SaveThenDelete(c: Container, metadata: SnapshotMetadata, snapshot: Payload, accounts: nat)
    ensures DeletedOne(Saved(c, metadata, snapshot, accounts), metadata, accounts) == DeletedOne(c, metadata, accounts)
  {
    var name := BlobName(metadata.persistenceId, metadata.sequenceNr);
    assert name <= name;
  }

  // ---------------------------------------------------------------------------------------------
  // DeleteAsync(persistenceId, criteria) and TryDeleteAsync

  /** The deletes `TryDeleteAsync` issues, in order, and the exception that ended it, if any. */
  datatype Deletion = Deletion(names: seq<string>, failure: Option<Exception>)

  /**
   * The iteration of `TryDeleteAsync`: one delete per candidate within both bounds; a timestamp
   * that cannot be read ends it with an exception, after the deletes already issued.
   */
  function Doomed(results: seq<Listed>, criteria: SnapshotSelectionCriteria): Deletion {
    if results == [] then Deletion([], None)
    else if results[0].version <= criteria.maxSequenceNr then
      match TimestampOf(results[0].blob)
      case Err(e) => Deletion([], Some(e))
      case Ok(ts) =>
        var rest := Doomed(results[1..], criteria);
        if ts <= criteria.maxTimeStamp then Deletion([results[0].name] + rest.names, rest.failure) else rest
    else Doomed(results[1..], criteria)
  }

  /** With readable timestamps nothing is thrown, and exactly the candidates within both bounds are deleted. */
  /**
   * When the first candidate within the sequence bound whose timestamp cannot be read is at `i`,
   * the iteration throws that error, and the deletes issued before it are exactly the eligible
   * candidates ahead of `i`.
   */
  lemma {:induction false} DoomedStopsAt(results: seq<Listed>, criteria: SnapshotSelectionCriteria, i: nat)
    requires i < |results| && results[i].version <= criteria.maxSequenceNr && TimestampOf(results[i].blob).Err?
    requires forall j :: 0 <= j < i && results[j].version <= criteria.maxSequenceNr ==> TimestampOf(results[j].blob).Ok?
    ensures Doomed(results, criteria).failure == Some(TimestampOf(results[i].blob).error)
    ensures forall n :: n in Doomed(results, criteria).names <==>
              exists j :: 0 <= j < i && results[j].name == n && Eligible(results[j], criteria)
  {
    if i > 0 {
      var tail := results[1..];
      forall j | 0 <= j < i - 1 && tail[j].version <= criteria.maxSequenceNr ensures TimestampOf(tail[j].blob).Ok? {
        assert tail[j] == results[j + 1];
      }
      DoomedStopsAt(tail, criteria, i - 1);
      var d := Doomed(results, criteria);
      forall n | n in d.names ensures exists j :: 0 <= j < i && results[j].name == n && Eligible(results[j], criteria) {
        if n !in Doomed(tail, criteria).names {
          assert results[0].name == n && Eligible(results[0], criteria);
        } else {
          var j :| 0 <= j < i - 1 && tail[j].name == n && Eligible(tail[j], criteria);
          assert results[j + 1] == tail[j];
        }
      }
      forall j | 0 <= j < i && Eligible(results[j], criteria) ensures results[j].name in d.names {
        if j > 0 {
          assert tail[j - 1] == results[j];
        }
      }
    }
  }

  lemma {:induction false} DoomedExact(results: seq<Listed>, criteria: SnapshotSelectionCriteria)
    requires TimestampsReadable(results)
    ensures Doomed(results, criteria).failure == None
    ensures forall n :: n in Doomed(results, criteria).names <==> exists l :: l in results && l.name == n && Eligible(l, criteria)
  {
    if results != [] {
      assert results == [results[0]] + results[1..];
      DoomedExact(results[1..], criteria);
    }
  }

  /** The loop of `TryDeleteAsync`: the deletes it yields, and the exception that stops it. */
  method TryDelete(results: seq<Listed>, criteria: SnapshotSelectionCriteria) returns (names: seq<string>, failure: Option<Exception>)
    ensures Deletion(names, failure) == Doomed(results, criteria)
  {
    names := [];
    var i := 0;
    while i < |results|
      invariant 0 <= i <= |results|
      invariant names + Doomed(results[i..], criteria).names == Doomed(results, criteria).names
      invariant Doomed(results[i..], criteria).failure == Doomed(results, criteria).failure
    {
      var clob := results[i];
      assert results[i..][1..] == results[i + 1..];
      if clob.version <= criteria.maxSequenceNr {
        var ts := TimestampOf(clob.blob);
        if ts.Err? {
          return names, Some(ts.error);
        }
        if ts.value <= criteria.maxTimeStamp {
          names := names + [clob.name];
        }
      }
      i := i + 1;
    }
    return names, None;
  }

  /** The container after `DeleteAsync(pid, criteria)` and the exception it rethrows, if any. */
  datatype Outcome = Outcome(container: Container, failure: Option<Exception>)

  function DeleteUpTo(c: Container, pid: string, criteria: SnapshotSelectionCriteria, accounts: nat): Outcome {
    if ShardIndex(pid, accounts).Err? then Outcome(c, Some(ShardIndex(pid, accounts).error))
    else
      var names := Listing(c, pid);
      if |names| == 0 then Outcome(c, None)
      else
        match ParseListing(c, names)
        case Err(e) => Outcome(c, Some(e))
        case Ok(entries) =>
          var d := Doomed(SortDescending(entries, VersionOf), criteria);
          Outcome(map n | n in c && n !in d.names :: c[n], d.failure)
  }

  /** The deletes issued over entries that are exactly the blobs listed under `pid`, stated on the container. */
  lemma DoomedSelects(c: Container, pid: string, criteria: SnapshotSelectionCriteria, sorted: seq<Listed>)
    requires Readable(c, pid) && TimestampsReadable(sorted)
    requires forall l: Listed :: l in sorted ==> l.name in c && pid <= l.name && l == Listed(l.name, c[l.name], ParseVersion(l.name).value)
    requires forall n :: n in c && pid <= n ==> Listed(n, c[n], ParseVersion(n).value) in sorted
    ensures Doomed(sorted, criteria).failure == None
    ensures forall n :: n in c ==> (n in Doomed(sorted, criteria).names <==> pid <= n && Within(c, n, criteria))
  {
    DoomedExact(sorted, criteria);
    var d := Doomed(sorted, criteria);
    forall n | n in c
      ensures n in d.names <==> pid <= n && Within(c, n, criteria)
    {
      if pid <= n {
        assert Listed(n, c[n], ParseVersion(n).value) in sorted;
      }
    }
  }

  /**
   * When every blob listed under `pid` is readable, delete-by-criteria throws nothing and removes
   * exactly the listed blobs within both bounds; every other blob stays as it was.
   */
  lemma DeleteUpToSelects(c: Container, pid: string, criteria: SnapshotSelectionCriteria, accounts: nat)
    requires ShardIndex(pid, accounts).Ok? && Readable(c, pid)
    ensures DeleteUpTo(c, pid, criteria, accounts).failure == None
    ensures forall n :: n in DeleteUpTo(c, pid, criteria, accounts).container <==> n in c && !(pid <= n && Within(c, n, criteria))
    ensures forall n :: n in DeleteUpTo(c, pid, criteria, accounts).container ==> DeleteUpTo(c, pid, criteria, accounts).container[n] == c[n]
  {
    var names := Listing(c, pid);
    if |names| > 0 {
      SortedListing(c, pid);
      var sorted := SortDescending(ParseListing(c, names).value, VersionOf);
      DoomedSelects(c, pid, criteria, sorted);
      var d := Doomed(sorted, criteria);
      assert DeleteUpTo(c, pid, criteria, accounts) == Outcome(map n | n in c && n !in d.names :: c[n], None);
    } else {
      assert forall n :: n in c ==> !(pid <= n);
    }
  }

  /** After a delete-by-criteria of readable blobs, a load with the same criteria finds nothing. */
  lemma DeleteUpToThenLoad(c: Container, pid: string, criteria: SnapshotSelectionCriteria, accounts: nat)
    requires ShardIndex(pid, accounts).Ok? && Readable(c, pid)
    ensures Load(DeleteUpTo(c, pid, criteria, accounts).container, pid, criteria, accounts) == Ok(None)
  {
    var c' := DeleteUpTo(c, pid, criteria, accounts).container;
    DeleteUpToSelects(c, pid, criteria, accounts);
    assert Readable(c', pid);
    LoadSelects(c', pid, criteria, accounts);
  }

  /** The blob snapshot store: the container and the router that picks each stream's account. */
  class BlobStorageSnapshotStore {
    var blobs: Container
    const settings: AzureStorageSettings

    ghost predicate Valid()
      reads this, settings
    {
      settings.Valid()
    }

    constructor (settings: AzureStorageSettings)
      requires settings.Valid()
      ensures Valid() && this.settings == settings && blobs == map[]
    {
      this.settings := settings;
      blobs := map[];
    }

    /** `LoadAsync`: list under `pid`, order by parsed version, newest first, and scan. */
    method LoadSnapshot(pid: string, criteria: SnapshotSelectionCriteria) returns (r: Result<Option<SelectedSnapshot>>)
      requires Valid()
      ensures r == Load(blobs, pid, criteria, |settings.connectionStrings|)
    {
      settings.RoutingByShardIndex(pid);
      var client := settings.GetBlobClient(pid);
      if client.Err? {
        return Err(client.error);
      }
      var names := Listing(blobs, pid);
      if |names| == 0 {
        return Ok(None);
      }
      var entries := ParseListing(blobs, names);
      if entries.Err? {
        return Err(entries.error);
      }
      var results := SortDescending(entries.value, VersionOf);
      r := ScanResults(results, criteria);
    }

    /** `SaveAsync`: upload under the snapshot's name with its two metadata entries; errors are swallowed. */
    method SaveSnapshot(metadata: SnapshotMetadata, snapshot: Payload)
      requires Valid()
      modifies this
      ensures Valid()
      ensures blobs == Saved(old(blobs), metadata, snapshot, |settings.connectionStrings|)
    {
      settings.RoutingByShardIndex(metadata.persistenceId);
      var client := settings.GetBlobClient(metadata.persistenceId);
      if client.Err? {
        return;
      }
      var name := BlobName(metadata.persistenceId, metadata.sequenceNr);
      var meta: map<string, string> := map[];
      meta := meta[TIMESTAMP_KEY := LongToString(metadata.timestamp)];
      meta := meta[VERSION_KEY := ToRowKey(metadata.sequenceNr)];
      blobs := blobs[name := Blob(meta, SelectedSnapshot(metadata, snapshot))];
    }

    /** `DeleteAsync(metadata)`: delete every blob listed under the snapshot's name; errors are swallowed. */
    method DeleteSnapshot(metadata: SnapshotMetadata)
      requires Valid()
      modifies this
      ensures Valid()
      ensures blobs == DeletedOne(old(blobs), metadata, |settings.connectionStrings|)
    {
      settings.RoutingByShardIndex(metadata.persistenceId);
      var client := settings.GetBlobClient(metadata.persistenceId);
      if client.Err? {
        return;
      }
      var listed := Listing(blobs, BlobName(metadata.persistenceId, metadata.sequenceNr));
      blobs := map n | n in blobs && n !in listed :: blobs[n];
    }

    /**
     * `DeleteAsync(pid, criteria)`: list under `pid`, order by parsed version, newest first, and
     * delete what `TryDeleteAsync` yields; exceptions are rethrown.
     */
    method DeleteSnapshots(pid: string, criteria: SnapshotSelectionCriteria) returns (failure: Option<Exception>)
      requires Valid()
      modifies this
      ensures Valid()
      ensures Outcome(blobs, failure) == DeleteUpTo(old(blobs), pid, criteria, |settings.connectionStrings|)
    {
      settings.RoutingByShardIndex(pid);
      var client := settings.GetBlobClient(pid);
      if client.Err? {
        return Some(client.error);
      }
      var names := Listing(blobs, pid);
      if |names| == 0 {
        return None;
      }
      var entries := ParseListing(blobs, names);
      if entries.Err? {
        return Some(entries.error);
      }
      var results := SortDescending(entries.value, VersionOf);
      var doomed;
      doomed, failure := TryDelete(results, criteria);
      blobs := map n | n in blobs && n !in doomed :: blobs[n];
    }
  }
}
