/**
 * Shard router: the i-th configured connection string is registered under `i.ToString("X1")`
 * (upper-case hexadecimal), and a stream is served by the account registered under the first
 * character of its id, or by the account under "0" when no account has that key.
 * Also the three settings classes that read a configuration section and refuse a missing one.
 */
module Settings {
  import opened Wrappers

  /** A storage account, known by the connection string it was parsed from. */
  datatype Account = Account(connectionString: string)

  /** The client handed to a store: a table client or a blob client bound to one account. */
  datatype Client = TableClient(account: Account) | BlobClient(account: Account)

  function HexDigit(d: nat): (c: char)
    requires d < 16
  {
    if d < 10 then (48 + d) as char else (55 + d) as char
  }

  /** The value of an upper-case hexadecimal digit character, if it is one. */
  function HexValue(c: char): Option<nat> {
    if '0' <= c <= '9' then Some(c as int - 48)
    else if 'A' <= c <= 'F' then Some(c as int - 55)
    else None
  }

  /** `i.ToString("X1")`: upper-case hexadecimal, no leading zeros, at least one digit. */
  function HexKey(i: nat): (k: string)
    ensures |k| >= 1
    ensures |k| == 1 <==> i < 16
    ensures i < 16 ==> HexValue(k[0]) == Some(i)
  {
    if i < 16 then [HexDigit(i)] else HexKey(i / 16) + [HexDigit(i % 16)]
  }

  lemma {:induction false} HexKeyInjective(i: nat, j: nat)
    requires HexKey(i) == HexKey(j)
    ensures i == j
  {
    if i >= 16 && j >= 16 {
      var ki, kj := HexKey(i), HexKey(j);
      assert ki[..|ki| - 1] == HexKey(i / 16) && kj[..|kj| - 1] == HexKey(j / 16);
      HexKeyInjective(i / 16, j / 16);
      assert HexDigit(i % 16) == ki[|ki| - 1] == kj[|kj| - 1] == HexDigit(j % 16);
    }
  }

  /** The key -> account dictionary the constructor builds: connection string i under `HexKey(i)`. */
  function Registry(connectionStrings: seq<string>): map<string, Account> {
    if connectionStrings == [] then map[]
    else
      var n := |connectionStrings| - 1;
      Registry(connectionStrings[..n])[HexKey(n) := Account(connectionStrings[n])]
  }

  lemma {:induction false} RegistryDomain(cs: seq<string>, k: string)
    ensures k in Registry(cs) <==> exists i :: 0 <= i < |cs| && k == HexKey(i)
  {
    if cs != [] {
      var n := |cs| - 1;
      assert Registry(cs) == Registry(cs[..n])[HexKey(n) := Account(cs[n])];
      RegistryDomain(cs[..n], k);
      if k in Registry(cs) {
        if k == HexKey(n) {
          assert 0 <= n < |cs| && k == HexKey(n);
        } else {
          assert k in Registry(cs[..n]);
          var i :| 0 <= i < |cs[..n]| && k == HexKey(i);
          assert 0 <= i < |cs| && k == HexKey(i);
        }
      }
      if exists i :: 0 <= i < |cs| && k == HexKey(i) {
        var i :| 0 <= i < |cs| && k == HexKey(i);
        RegistryLookup(cs, i);
      }
    }
  }

  lemma {:induction false} RegistryLookup(cs: seq<string>, i: nat)
    requires i < |cs|
    ensures HexKey(i) in Registry(cs) && Registry(cs)[HexKey(i)] == Account(cs[i])
  {
    var n := |cs| - 1;
    if i < n {
      if HexKey(i) == HexKey(n) {
        HexKeyInjective(i, n);
      }
      assert cs[..n][i] == cs[i];
      RegistryLookup(cs[..n], i);
    }
  }

  lemma RegistryExtend(cs: seq<string>, i: nat)
    requires i < |cs|
    ensures HexKey(i) !in Registry(cs[..i])
    ensures Registry(cs[..i + 1]) == Registry(cs[..i])[HexKey(i) := Account(cs[i])]
  {
    assert cs[..i + 1][..i] == cs[..i];
    RegistryDomain(cs[..i], HexKey(i));
    if HexKey(i) in Registry(cs[..i]) {
      var j :| 0 <= j < i && HexKey(i) == HexKey(j);
      HexKeyInjective(i, j);
    }
  }

  lemma {:induction false} RegistrySize(cs: seq<string>)
    ensures |Registry(cs)| == |cs|
  {
    if cs != [] {
      var n := |cs| - 1;
      assert cs[..n + 1] == cs;
      RegistryExtend(cs, n);
      RegistrySize(cs[..n]);
    }
  }

  /** Every index is registered under its key, and nothing else is registered. */
  lemma RegistryFacts(cs: seq<string>)
    ensures forall i :: 0 <= i < |cs| ==> HexKey(i) in Registry(cs) && Registry(cs)[HexKey(i)] == Account(cs[i])
    ensures forall k :: k in Registry(cs) ==> exists i :: 0 <= i < |cs| && k == HexKey(i)
  {
    forall i | 0 <= i < |cs|
      ensures HexKey(i) in Registry(cs) && Registry(cs)[HexKey(i)] == Account(cs[i])
    {
      RegistryLookup(cs, i);
    }
    forall k | k in Registry(cs) ensures exists i :: 0 <= i < |cs| && k == HexKey(i) {
      RegistryDomain(cs, k);
    }
  }

  /** The accounts stored under keys `HexKey(0)` .. `HexKey(n - 1)`, in index order. */
  function ValuesInOrder(m: map<string, Account>, n: nat): (r: seq<Account>)
    requires forall i :: 0 <= i < n ==> HexKey(i) in m
    ensures |r| == n
    ensures forall i :: 0 <= i < n ==> r[i] == m[HexKey(i)]
  {
    if n == 0 then [] else ValuesInOrder(m, n - 1) + [m[HexKey(n - 1)]]
  }

  /**
   * Which connection string serves a stream, by arithmetic instead of by dictionary lookup:
   * an empty id fails (`Substring(0, 1)`), an upper-case hex first character below the number of
   * accounts picks that index, anything else picks index 0, which fails when there is no account.
   */
  function ShardIndex(id: string, count: nat): (r: Result<nat>)
    ensures r.Ok? ==> r.value < count && r.value < 16
    ensures r.Err? <==> id == [] || count == 0
  {
    if id == [] then Err(ArgumentOutOfRangeException)
    else match HexValue(id[0])
      case Some(v) =>
        if v < count then Ok(v)
        else if count > 0 then Ok(0) else Err(KeyNotFoundException)
      case None => if count > 0 then Ok(0) else Err(KeyNotFoundException)
  }

  class AzureStorageSettings {
    var storageAccounts: map<string, Account>
    ghost var connectionStrings: seq<string>

    ghost predicate Valid()
      reads this
    {
      storageAccounts == Registry(connectionStrings)
    }

    /** Registers connection string i under `HexKey(i)`, one `Dictionary.Add` per index. */
    constructor (connectionStrings: seq<string>)
      ensures Valid() && this.connectionStrings == connectionStrings
    {
      this.connectionStrings := connectionStrings;
      storageAccounts := map[];
      new;
      assert connectionStrings[..0] == [];
      var i := 0;
      while i < |connectionStrings|
        invariant 0 <= i <= |connectionStrings|
        invariant this.connectionStrings == connectionStrings
        invariant storageAccounts == Registry(connectionStrings[..i])
      {
        var key := HexKey(i);
        RegistryExtend(connectionStrings, i);
        // `Dictionary.Add` throws on a key already present; distinct indexes have distinct keys
        assert key !in storageAccounts;
        storageAccounts := storageAccounts[key := Account(connectionStrings[i])];
        i := i + 1;
      }
      assert connectionStrings[..i] == connectionStrings;
    }

    /** The account registered under `key`, else the one under "0". */
    function GetAccount(key: string): (r: Result<Account>)
      requires Valid()
      reads this
      ensures r.Err? <==> |connectionStrings| == 0
      ensures r.Err? ==> r.error == KeyNotFoundException
      ensures forall i :: 0 <= i < |connectionStrings| && key == HexKey(i) ==> r == Ok(Account(connectionStrings[i]))
      ensures (forall i :: 0 <= i < |connectionStrings| ==> key != HexKey(i)) && |connectionStrings| > 0 ==>
                r == Ok(Account(connectionStrings[0]))
    {
      RegistryFacts(connectionStrings);
      if key in storageAccounts then Ok(storageAccounts[key])
      else if "0" in storageAccounts then Ok(storageAccounts["0"])
      else
        assert |connectionStrings| > 0 ==> HexKey(0) == "0";
        Err(KeyNotFoundException)
    }

    /** The account serving stream `id`: looked up by the id's first character. */
    function AccountFor(id: string): (r: Result<Account>)
      requires Valid()
      reads this
    {
      if id == [] then Err(ArgumentOutOfRangeException) else GetAccount(id[..1])
    }

    function GetTableClient(id: string): (r: Result<Client>)
      requires Valid()
      reads this
      ensures r.Ok? ==> r.value.TableClient?
      ensures r.Err? <==> AccountFor(id).Err?
      ensures r.Ok? ==> r.value.account == AccountFor(id).value
    {
      match AccountFor(id)
      case Ok(a) => Ok(TableClient(a))
      case Err(e) => Err(e)
    }

    function GetBlobClient(id: string): (r: Result<Client>)
      requires Valid()
      reads this
      ensures r.Ok? ==> r.value.BlobClient?
      ensures r.Err? <==> AccountFor(id).Err?
      ensures r.Ok? ==> r.value.account == AccountFor(id).value
    {
      match AccountFor(id)
      case Ok(a) => Ok(BlobClient(a))
      case Err(e) => Err(e)
    }

    /** `_storageAccounts.Values`: one account per configured connection string. */
    function GetStorageAccounts(): (r: seq<Account>)
      requires Valid()
      reads this
      ensures |r| == |connectionStrings|
      ensures forall i :: 0 <= i < |r| ==> r[i] == Account(connectionStrings[i])
    {
      RegistrySize(connectionStrings);
      RegistryFacts(connectionStrings);
      ValuesInOrder(storageAccounts, |storageAccounts|)
    }

    /** The dictionary lookup agrees with the arithmetic `ShardIndex`, for tables and blobs alike. */
    lemma RoutingByShardIndex(id: string)
      requires Valid()
      ensures AccountFor(id).Err? <==> ShardIndex(id, |connectionStrings|).Err?
      ensures AccountFor(id).Err? ==> AccountFor(id).error == ShardIndex(id, |connectionStrings|).error
      ensures AccountFor(id).Ok? ==>
                AccountFor(id).value == Account(connectionStrings[ShardIndex(id, |connectionStrings|).value])
      ensures GetTableClient(id).Ok? <==> GetBlobClient(id).Ok?
      ensures GetTableClient(id).Ok? ==> GetTableClient(id).value.account == GetBlobClient(id).value.account
    {
      if id != [] {
        var key, n := id[..1], |connectionStrings|;
        if HexValue(id[0]).Some? && HexValue(id[0]).value < n {
          assert key == HexKey(HexValue(id[0]).value);
        } else {
          forall i | 0 <= i < n ensures key != HexKey(i) {
            if i < 16 {
              assert HexValue(HexKey(i)[0]) == Some(i);
            }
          }
        }
      }
    }

    /** Only the first character of the id matters. */
    lemma RoutingByFirstCharacter(id1: string, id2: string)
      requires Valid()
      requires id1 != [] && id2 != [] && id1[0] == id2[0]
      ensures AccountFor(id1) == AccountFor(id2)
    {
      assert id1[..1] == id2[..1];
    }

    /** An account at index 16 or beyond has a two-character key and is never chosen. */
    lemma RoutingNeverPicksBeyondSixteen(id: string, i: nat)
      requires Valid()
      requires 16 <= i < |connectionStrings|
      requires AccountFor(id).Ok?
      ensures AccountFor(id).value == Account(connectionStrings[ShardIndex(id, |connectionStrings|).value])
      ensures ShardIndex(id, |connectionStrings|).value != i
    {
      RoutingByShardIndex(id);
    }

    /** A lower-case hex letter matches no key and falls back to account "0". */
    lemma RoutingLowerCaseFallsBack(id: string)
      requires Valid()
      requires id != [] && 'a' <= id[0] <= 'f' && |connectionStrings| > 0
      ensures AccountFor(id) == Ok(Account(connectionStrings[0]))
    {
      RoutingByShardIndex(id);
    }

    /** With no connection string every lookup fails, and so does every empty id. */
    lemma RoutingFailures(id: string)
      requires Valid()
      ensures AccountFor(id).Err? <==> id == [] || |connectionStrings| == 0
      ensures id == [] ==> AccountFor(id) == Err(ArgumentOutOfRangeException)
      ensures id != [] && |connectionStrings| == 0 ==> AccountFor(id) == Err(KeyNotFoundException)
    {
      RoutingByShardIndex(id);
    }
  }

  /** The part of a configuration section the settings classes read. */
  datatype ConfigSection = ConfigSection(tableName: string, containerName: string, connectionStrings: seq<string>)

  /** `JournalSettings`, `TableSnapshotStoreSettings` and `BlobSnapshotStoreSettings`. */
  datatype StoreKind = JournalTable | SnapshotTable | SnapshotContainer

  class StoreSettings {
    const kind: StoreKind
    /** `TableName`, or `ContainerName` for the blob store. */
    const name: string
    const connectionStrings: seq<string>
    const storage: AzureStorageSettings

    constructor (kind: StoreKind, config: ConfigSection)
      ensures this.kind == kind && fresh(storage)
      ensures name == (if kind == SnapshotContainer then config.containerName else config.tableName)
      ensures connectionStrings == config.connectionStrings
      ensures storage.Valid() && storage.connectionStrings == config.connectionStrings
    {
      this.kind := kind;
      name := if kind == SnapshotContainer then config.containerName else config.tableName;
      connectionStrings := config.connectionStrings;
      storage := new AzureStorageSettings(config.connectionStrings);
    }

    /** `GetClient` of the two table settings, `GetBlobClient` of the blob settings. */
    function GetClient(id: string): (r: Result<Client>)
      requires storage.Valid()
      reads this, storage
      ensures r.Err? <==> storage.AccountFor(id).Err?
      ensures r.Ok? ==> r.value.account == storage.AccountFor(id).value
      ensures r.Ok? ==> (r.value.BlobClient? <==> kind == SnapshotContainer)
    {
      if kind == SnapshotContainer then storage.GetBlobClient(id) else storage.GetTableClient(id)
    }
  }

  /** A settings constructor: a missing configuration section is an `ArgumentNullException`. */
  method CreateStoreSettings(kind: StoreKind, config: Option<ConfigSection>) returns (r: Result<StoreSettings>)
    ensures r.Err? <==> config.None?
    ensures r.Err? ==> r.error == ArgumentNullException("config")
    ensures r.Ok? ==> fresh(r.value) && fresh(r.value.storage) && r.value.kind == kind
    ensures r.Ok? ==> r.value.storage.Valid() && r.value.storage.connectionStrings == config.value.connectionStrings
    ensures r.Ok? ==> r.value.name == (if kind == SnapshotContainer then config.value.containerName else config.value.tableName)
  {
    if config.None? {
      return Err(ArgumentNullException("config"));
    }
    var s := new StoreSettings(kind, config.value);
    return Ok(s);
  }
}
