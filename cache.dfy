/**
 * The cache engine `PostgresCache`: a key-value store over one database
 * table with a unique text `key` column and a `bytea` `value` column.
 * The table is modelled by its rows, a map from key to stored bytes, so the
 * table's UNIQUE constraint (at most one row per key) holds by construction.
 */
module Cache {
  import opened Wrappers
  import opened Values
  import opened Codec
  import opened CacheKeys
  import opened Statements

  const DefaultTableName: string := "application_cache"

  /**
   * The first constructor argument: a `postgres://` URL, or an options hash.
   * Host, port, user, password and database only reach the connection and
   * are not modelled; of the hash only `:table_name` is.
   */
  datatype Connection =
    | DatabaseUrl(url: string)
    | ConnectionOptions(tableName: Option<string>)

  /** The second constructor argument; only its `:table_name` is read. */
  datatype Options = Options(tableName: Option<string>)

  /**
   * The table a cache uses, as `establish_connection` picks it: with a URL
   * from the second argument, with an options hash from the hash; either
   * way "application_cache" when no `:table_name` is given there.
   */
  function TableName(connection: Connection, options: Options): (name: string)
    ensures connection.DatabaseUrl? ==>
      name == if options.tableName.Some? then options.tableName.value else DefaultTableName
    ensures connection.ConnectionOptions? ==>
      name == if connection.tableName.Some? then connection.tableName.value else DefaultTableName
  {
    var given := match connection
      case DatabaseUrl(_) => options.tableName
      case ConnectionOptions(t) => t;
    if given.Some? then given.value else DefaultTableName
  }

  /** With an options hash the second constructor argument plays no part in the table name. */
  lemma TableNameIgnoresOptionsWithHash(connection: Connection, options: Options, other: Options)
    requires connection.ConnectionOptions?
    ensures TableName(connection, options) == TableName(connection, other)
  {
  }

  type Rows = map<string, Bytes>

  /** The database the cache connects to: the contents of each existing table, by name. */
  type Catalog = map<string, Rows>

  datatype Error =
    | DuplicateTable     // CREATE TABLE on a table that exists
    | UndecodableValue   // a stored value that `bytea_unmarshal` cannot load

  /** The rows `SELECT value ... WHERE key = $1` returns. */
  function SelectByKey(rows: Rows, key: string): (result: seq<Bytes>)
    ensures |result| <= 1
    ensures |result| == 1 <==> key in rows
    ensures key in rows ==> result[0] == rows[key]
  {
    if key in rows then [rows[key]] else []
  }

  /**
   * What `read` makes of the read statement's result: `nil` unless exactly
   * one row came back, otherwise the unmarshaled value.
   */
  function ReadRow(rows: Rows, key: string): (r: Result<Value, Error>)
    ensures key !in rows ==> r == Success(Nil)
    ensures key in rows && Decode(rows[key]).Some? ==> r == Success(Decode(rows[key]).value)
    ensures key in rows && Decode(rows[key]).None? ==> r == Failure(UndecodableValue)
  {
    var result := SelectByKey(rows, key);
    if |result| != 1 then Success(Nil)
    else
      match Decode(result[0])
      case Some(v) => Success(v)
      case None => Failure(UndecodableValue)
  }

  /** A read after an upsert of `v` under the same key gives `v`. */
  lemma ReadAfterUpsert(rows: Rows, key: string, v: Value)
    ensures ReadRow(rows[key := Encode(v)], key) == Success(v)
  {
    DecodeEncode(v);
  }

  /** After two upserts under one key a read gives the second value. */
  lemma ReadAfterOverwrite(rows: Rows, key: string, v1: Value, v2: Value)
    ensures ReadRow(rows[key := Encode(v1)][key := Encode(v2)], key) == Success(v2)
  {
    ReadAfterUpsert(rows[key := Encode(v1)], key, v2);
  }

  /** A stored `nil` reads exactly like a key with no row. */
  lemma StoredNilReadsAsAbsent(rows: Rows, key: string)
    ensures ReadRow(rows[key := Encode(Nil)], key) == ReadRow(rows - {key}, key) == Success(Nil)
  {
    DecodeEncode(Nil);
  }

  /** A live cache instance: the table it works on and its prepared statements. */
  class PostgresCache {
    var tableName: string
    var tableExists: bool
    var table: Rows
    var statementIdentifier: string
    var readStatementName: string
    var writeStatementName: string
    var existsStatementName: string
    var deleteStatementName: string
    var clearStatementName: string

    ghost predicate StatementsPrepared()
      reads this
    {
      && readStatementName == StatementName(statementIdentifier, ReadStatement)
      && writeStatementName == StatementName(statementIdentifier, WriteStatement)
      && existsStatementName == StatementName(statementIdentifier, ExistsStatement)
      && deleteStatementName == StatementName(statementIdentifier, DeleteStatement)
      && clearStatementName == StatementName(statementIdentifier, ClearStatement)
    }

    /** The state every constructed cache is in: its table exists and its statements are prepared. */
    ghost predicate Valid()
      reads this
    {
      tableExists && StatementsPrepared()
    }

    /**
     * Connects, creates the table unless one of that name exists, and
     * prepares the statements. `catalog` is the database as found;
     * `identifier` stands for the random hex string the statement names carry.
     */
    constructor (connection: Connection, options: Options, catalog: Catalog, identifier: string)
      ensures Valid()
      ensures tableName == TableName(connection, options)
      ensures statementIdentifier == identifier
      ensures tableName in catalog ==> table == catalog[tableName]
      ensures tableName !in catalog ==> table == map[]
    {
      var name := TableName(connection, options);
      tableName := name;
      tableExists := name in catalog;
      table := if name in catalog then catalog[name] else map[];
      new;
      var found := CacheTableExists();
      if !found {
        var _ := CreateCacheTable();
      }
      PrepareStatements(identifier);
    }

    /** `cache_table_exists?`. */
    method CacheTableExists() returns (b: bool)
      ensures b == tableExists
    {
      b := tableExists;
    }

    /** `create_cache_table`: a new, empty table; fails if the table is already there. */
    method CreateCacheTable() returns (r: Result<bool, Error>)
      modifies this`tableExists, this`table
      ensures tableExists
      ensures old(tableExists) ==> r == Failure(DuplicateTable) && table == old(table)
      ensures !old(tableExists) ==> r == Success(true) && table == map[]
    {
      if tableExists {
        r := Failure(DuplicateTable);
      } else {
        tableExists, table := true, map[];
        r := Success(true);
      }
    }

    /** `prepare_statements`: names the five statements after the instance identifier. */
    method PrepareStatements(identifier: string)
      modifies this`statementIdentifier, this`readStatementName, this`writeStatementName,
        this`existsStatementName, this`deleteStatementName, this`clearStatementName
      ensures statementIdentifier == identifier && StatementsPrepared()
    {
      statementIdentifier := identifier;
      readStatementName := StatementName(identifier, ReadStatement);
      writeStatementName := StatementName(identifier, WriteStatement);
      existsStatementName := StatementName(identifier, ExistsStatement);
      deleteStatementName := StatementName(identifier, DeleteStatement);
      clearStatementName := StatementName(identifier, ClearStatement);
    }

    /** `write`: an upsert of the encoded value under the normalized key. */
    method Write(key: Key, value: Value) returns (ok: bool)
      requires Valid()
      modifies this`table
      ensures Valid()
      ensures ok
      ensures table == old(table)[ObjectToCacheKey(key) := Encode(value)]
      ensures ReadRow(table, ObjectToCacheKey(key)) == Success(value)
    {
      var k := ObjectToCacheKey(key);
      ReadAfterUpsert(table, k, value);
      table := table[k := Encode(value)];
      ok := true;
    }

    /** `read`: the stored value, `nil` when the key has no row. */
    method Read(key: Key) returns (r: Result<Value, Error>)
      requires Valid()
      ensures r == ReadRow(table, ObjectToCacheKey(key))
    {
      var result := SelectByKey(table, ObjectToCacheKey(key));
      if |result| != 1 {
        return Success(Nil);
      }
      match Decode(result[0])
      case Some(v) => r := Success(v);
      case None => r := Failure(UndecodableValue);
    }

    /** `delete`: true exactly when a row for the key was removed. */
    method Delete(key: Key) returns (existed: bool)
      requires Valid()
      modifies this`table
      ensures Valid()
      ensures existed == (ObjectToCacheKey(key) in old(table))
      ensures table == old(table) - {ObjectToCacheKey(key)}
    {
      var k := ObjectToCacheKey(key);
      var affected := |SelectByKey(table, k)|;
      table := table - {k};
      existed := affected == 1;
    }

    /** `exists?`: whether the key has a row. */
    method Exists(key: Key) returns (b: bool)
      requires Valid()
      ensures b == (ObjectToCacheKey(key) in table)
    {
      b := |SelectByKey(table, ObjectToCacheKey(key))| == 1;
    }

    /** `clear`: truncates the table. */
    method Clear() returns (ok: bool)
      requires Valid()
      modifies this`table
      ensures Valid()
      ensures ok && table == map[]
      ensures forall k: Key :: ObjectToCacheKey(k) !in table
    {
      table := map[];
      ok := true;
    }

    /**
     * `fetch`: the stored value when it is truthy; otherwise the value the
     * block yields, written under the key, or `nil` without a block.
     * `block` is the value the block would yield; `yielded` tells whether
     * it was called.
     */
    method Fetch(key: Key, block: Option<Value>) returns (r: Result<Value, Error>, ghost yielded: bool)
      requires Valid()
      modifies this`table
      ensures Valid()
      ensures var before := ReadRow(old(table), ObjectToCacheKey(key));
        (before.Failure? || Truthy(before.value)) ==> r == before && !yielded && table == old(table)
      ensures var before := ReadRow(old(table), ObjectToCacheKey(key));
        before.Success? && !Truthy(before.value) && block.Some? ==>
          && r == Success(block.value) && yielded
          && table == old(table)[ObjectToCacheKey(key) := Encode(block.value)]
          && ReadRow(table, ObjectToCacheKey(key)) == r
      ensures var before := ReadRow(old(table), ObjectToCacheKey(key));
        before.Success? && !Truthy(before.value) && block.None? ==>
          r == Success(Nil) && !yielded && table == old(table)
    {
      var value := Read(key);
      if value.Failure? || Truthy(value.value) {
        return value, false;
      } else if block.Some? {
        var _ := Write(key, block.value);
        return Success(block.value), true;
      } else {
        return Success(Nil), false;
      }
    }
  }

  /**
   * A session on a fresh database: write a value, read it back, delete it,
   * then read and probe the key again.
   */
  method WriteReadDeleteSession(identifier: string, value: Value)
    returns (readBack: Result<Value, Error>, deleted: bool, readAfter: Result<Value, Error>, existsAfter: bool)
    ensures readBack == Success(value)
    ensures deleted
    ensures readAfter == Success(Nil)
    ensures !existsAfter
  {
    var cache := new PostgresCache(ConnectionOptions(None), Options(None), map[], identifier);
    var key := StringKey("user:1");
    var _ := cache.Write(key, value);
    readBack := cache.Read(key);
    deleted := cache.Delete(key);
    readAfter := cache.Read(key);
    existsAfter := cache.Exists(key);
  }
}
