# postgres-cache in Dafny

A model of `PostgresCache`, the engine of the postgres-cache Ruby gem,
with proofs about it. The engine is a key-value cache kept in one PostgreSQL
table that has a unique text `key` column and a nullable `bytea` `value`
column. It offers `write` (an upsert), `read`, `delete`, `exists?`, `clear`
(a `TRUNCATE`) and the read-through `fetch`. Before storing a key, it
normalizes the key object into text by ActiveSupport's rules. It serializes
values with `Marshal` and then bytea escaping.

Files, one module each:

- `wrappers.dfy`: `Option` and `Result`.
- `values.dfy`: the Ruby values the cache stores (`nil`, `false`, `true`,
  integers, strings, arrays), and Ruby truthiness.
- `marshal.dfy`: a self-describing binary serialization standing in for
  `Marshal.dump`/`Marshal.load`, with a proof that loading what was dumped
  returns the value.
- `bytea.dfy`: PostgreSQL's `bytea` hex format, as produced by
  `escape_bytea` and read by `unescape_bytea`, with its round trip.
- `codec.dfy`: `bytea_marshal`/`bytea_unmarshal` as the composition of the
  two layers above, and `Decode(Encode(v)) == Some(v)`.
- `cache_key.dfy`: `object_to_cache_key`, checked against a separate
  "first rule that applies" definition. It also says what array keys do and
  do not distinguish.
- `statements.dfy`: the five prepared-statement names and their uniqueness.
- `cache.dfy`: the class `PostgresCache`. Its state is the table, as a
  `map<string, Bytes>`, plus a "table exists" flag, the table name and the
  statement names. Each method has the effect its SQL statement has on the
  rows.

Modelling choices:

- The table is a map, so the `UNIQUE` constraint on `key` (at most one row
  per key) holds by construction.
- `SelectByKey` gives the statement's result set, with at most one row.
  `read`, `delete` and `exists?` test that result for exactly one row,
  just as the code tests `ntuples` or `cmd_tuples` with `eql?(1)`.
- The table holds what `bytea_marshal` sends, meaning the escaped text.
  PostgreSQL's text input and output of `bytea` is treated as the identity,
  since the server returns the hex form that was sent.
- The constructor receives the database as it finds it (`Catalog`: each
  existing table's rows, by name), so the existence check is by table name.
  It also receives the random statement identifier as a parameter.
- `read` of data that cannot be decoded makes Ruby raise. The model returns
  `Failure(UndecodableValue)` instead, and `fetch` passes that failure on.
- The block given to `fetch` is modelled as the value it would yield, or
  `None` when no block is given. A ghost out-parameter tells whether the
  block was called.

Three consequences of the code are worth stating, because a reader might
expect otherwise:

- Array keys and string keys can collide. `Array#to_param` joins the
  normalized elements with `/`, so `["a", "b"]` and `"a/b"` give one key
  (`CompositeAndStringKeysCollide`), and so do `[]` and `[""]`
  (`EmptyArrayCollidesWithEmptyElement`). What does hold is
  `ArrayKeysCollideOnlyOnEqualElements`: two non-empty arrays whose elements
  normalize to text without `/` collide only when their elements normalize
  to the same texts.
- `read` returns `nil` both for a stored `nil` and for a missing row
  (`StoredNilReadsAsAbsent`). So `fetch` recomputes and overwrites a stored
  `nil` or `false` (`Fetch`).
- `initialize` does not rescue a duplicate-table error. Creating a table
  that exists fails (`CreateCacheTable` returns `Failure(DuplicateTable)`),
  and the constructor creates the table only when the existence check
  reports it missing.

## Model

| member | source | states |
|---|---|---|
| `Cache.PostgresCache.constructor` | lib/postgres-cache/cache.rb:9-13 | afterwards the table exists and the statements are prepared; an existing table of the configured name keeps all its rows; otherwise the new table is empty |
| `Cache.TableName` | lib/postgres-cache/cache.rb:24-46 | with a URL the table name is the second argument's `:table_name`, with an options hash the hash's own; `application_cache` when that is not given |
| `Cache.TableNameIgnoresOptionsWithHash` | lib/postgres-cache/cache.rb:36-37 | with an options hash the second argument does not affect the table name |
| `Cache.PostgresCache.CacheTableExists` | lib/postgres-cache/cache.rb:51-53 | true exactly when the table exists |
| `Cache.PostgresCache.CreateCacheTable` | lib/postgres-cache/cache.rb:56-64 | on a missing table: an empty table now exists, result `true`; on an existing table: fails with a duplicate-table error and leaves the rows unchanged |
| `Cache.PostgresCache.PrepareStatements` | lib/postgres-cache/cache.rb:148-156 | records the identifier and gives each of the five statements its name |
| `Statements.StatementName` | lib/postgres-cache/cache.rb:152-156 | a name is the fixed prefix, then the identifier, then the operation's suffix |
| `Statements.StatementNameInjective` | lib/postgres-cache/cache.rb:150-156 | two statement names are equal exactly when identifier and operation are both equal: one instance's five names are distinct, and instances with different identifiers share no name |
| `Cache.SelectByKey` | lib/postgres-cache/cache.rb:158-162 | the read statement returns at most one row, and returns one exactly when the key has a row, holding that row's value |
| `Cache.ReadRow` | lib/postgres-cache/cache.rb:79-84 | a key without a row reads as `nil`; a decodable row reads as its decoded value; an undecodable row is an error |
| `Cache.PostgresCache.Read` | lib/postgres-cache/cache.rb:79-84 | the result is what `ReadRow` gives for the normalized key on the current table; nothing changes |
| `Cache.PostgresCache.Write` | lib/postgres-cache/cache.rb:70-76 | the table afterwards is the old table with the normalized key mapped to the encoded value (one row; earlier value replaced; other keys unchanged); a read afterwards gives the value; the result is `true` |
| `Cache.ReadAfterUpsert` | lib/postgres-cache/cache.rb:164-169 | after the upsert of `v` under a key, reading that key gives `v`, including `nil` and `false` |
| `Cache.ReadAfterOverwrite` | lib/postgres-cache/cache.rb:164-169 | after two upserts under one key, reading gives the second value |
| `Cache.StoredNilReadsAsAbsent` | lib/postgres-cache/cache.rb:80-83 | a stored `nil` reads exactly like a missing row: both give `nil` |
| `Cache.PostgresCache.Delete` | lib/postgres-cache/cache.rb:88-90 | `true` exactly when the normalized key had a row; afterwards that key is absent and all other rows are unchanged (a missing key: `false`, table unchanged) |
| `Cache.PostgresCache.Exists` | lib/postgres-cache/cache.rb:93-95 | `true` exactly when the normalized key has a row; nothing changes |
| `Cache.PostgresCache.Clear` | lib/postgres-cache/cache.rb:99-102 | the table is empty afterwards, so no key exists; the result is `true` |
| `Cache.PostgresCache.Fetch` | lib/postgres-cache/cache.rb:110-120 | a truthy read result (or a read error) is returned without calling the block and without change; otherwise, with a block, its value is returned and upserted, and a later read gives that value; without a block, `nil` is returned and nothing changes |
| `Cache.WriteReadDeleteSession` | lib/postgres-cache/cache.rb:70-95 | on a fresh database: a write is read back, the delete reports `true`, and afterwards the key reads as `nil` and does not exist |
| `CacheKeys.ArrayToParam` | lib/postgres-cache/cache.rb:140 | an array's parameter form: its string elements joined with "/", empty for no elements |
| `CacheKeys.ObjectToCacheKey` | lib/postgres-cache/cache.rb:134-146 | the normalized key is the result of the first applicable rule of a separately written list, in the order String, `cache_key`, Array, `to_param`, `to_s` |
| `CacheKeys.ArrayKeyNormalizesElements` | lib/postgres-cache/cache.rb:139-140 | an array without `cache_key` normalizes to the parameter form of its normalized elements |
| `CacheKeys.SplitArrayToParam` | lib/postgres-cache/cache.rb:140 | splitting at "/" recovers the parts of a non-empty list of parts that contain no "/" |
| `CacheKeys.ArrayKeysCollideOnlyOnEqualElements` | lib/postgres-cache/cache.rb:139-140 | two non-empty array keys whose elements normalize to text without "/" normalize to the same key exactly when their elements do |
| `CacheKeys.CompositeAndStringKeysCollide` | lib/postgres-cache/cache.rb:135-140 | the array key `["a", "b"]` and the string key `"a/b"` normalize to the same key |
| `CacheKeys.EmptyArrayCollidesWithEmptyElement` | lib/postgres-cache/cache.rb:139-140 | `[]` and `[""]` both normalize to the empty key |
| `Marshal.Dump` | lib/postgres-cache/cache.rb:129 | a dump starts with the version header 4, 8, and loading it gives the value back |
| `Marshal.Load` | lib/postgres-cache/cache.rb:125 | loading succeeds only on data whose header has major version 4 and minor version at most 8 |
| `Marshal.LoadDump` | lib/postgres-cache/cache.rb:125-129 | loading what was dumped gives back the value |
| `Marshal.DumpInjective` | lib/postgres-cache/cache.rb:129 | distinct values have distinct dumps |
| `Bytea.Escape` | lib/postgres-cache/cache.rb:129 | the escaped form is `\x` followed, for each byte in order, by the hex digit of its high nibble and then of its low nibble; unescaping it gives the bytes back |
| `Bytea.Unescape` | lib/postgres-cache/cache.rb:125 | unescaping succeeds exactly on `\x` followed by an even number of hex digits (either case), and each pair of digits gives one byte, high nibble first |
| `Bytea.UnescapeEscape` | lib/postgres-cache/cache.rb:125-129 | unescaping what was escaped gives back the bytes |
| `Codec.Encode` | lib/postgres-cache/cache.rb:128-130 | the text sent for a value unescapes to the value's dump |
| `Codec.Decode` | lib/postgres-cache/cache.rb:124-126 | decoding the encoding of any value gives that value |
| `Values.Truthy` | lib/postgres-cache/cache.rb:111 | `true`, every integer (0 included), every string and every array is truthy; `nil` and `false` are not |
| `Codec.DecodeEncode` | lib/postgres-cache/cache.rb:124-130 | `bytea_unmarshal(bytea_marshal(v)) == v` for every value, `nil` and `false` included |
| `Codec.EncodeInjective` | lib/postgres-cache/cache.rb:128-130 | distinct values are stored as distinct byte strings |

## Left out

- Connection setup: `PG::Connection.new`, URL parsing, host, port, user, password, database, `sslmode` and the `DATABASE_URL` comment (lib/postgres-cache/cache.rb:16-48). This is network I/O. Only the choice of table name is modelled.
- SQL text, `squish`, the table name's interpolation, and the `exec`, `prepare` and `exec_prepared` calls. The model gives each statement's effect on the rows, not its text.
- `SecureRandom.hex(8)` (lib/postgres-cache/cache.rb:150) is random. The identifier is a constructor parameter, and the name lemmas hold for any identifier.
- `Marshal`'s real wire format and PostgreSQL's escape-format `bytea`. Like Ruby, `Marshal.Load` ignores bytes after the value. `Marshal.Dump`/`Load` is a stand-in that has the round trip the cache relies on. `Unescape` reads only the hex format, which is the one `Escape` produces.
- Values that `Marshal` cannot dump (procs, IO objects), and the error `write` raises for them. The model's values are all dumpable. Hashes and other Ruby objects are not among the modelled values.
- `cache_key`, `to_param` and `to_s` of arbitrary objects other than arrays. Their results are payloads of the key object.
- CacheKeys.ObjectToCacheKey: does not model a key that normalizes to `nil`. With ActiveSupport loaded, `nil.to_param` is `nil`, so `object_to_cache_key(nil)` is `nil` (lib/postgres-cache/cache.rb:141-142), and it is sent as SQL NULL. The source then behaves as follows: `write` raises a NOT NULL violation (lib/postgres-cache/cache.rb:59, 71); `read` returns `nil`; `exists?` and `delete` return false; a `nil` element of an array key adds an empty part. In the model every key payload is a string.
- Cache.PostgresCache.constructor: does not model PostgreSQL's folding of unquoted identifiers, so it succeeds on input where the source raises. `CREATE UNLOGGED TABLE #{@table_name}` (lib/postgres-cache/cache.rb:58) stores an unquoted name in lower case (and cut to 63 bytes), while `relname = '#{@table_name}'` (lib/postgres-cache/cache.rb:52) compares the name as given. With `table_name: "AppCache"` and the table already created by an earlier instance, the source's existence check reports it missing, and `initialize` raises `PG::DuplicateTable` (lib/postgres-cache/cache.rb:11). The model creates and looks up the table under one name, so it keeps the existing rows.
- The existence check's query of `pg_class` (lib/postgres-cache/cache.rb:52) matches any relation of that name in any schema, and a second match makes it report "missing". The model treats it as "this table exists".
- The block of `fetch` running arbitrary code, including raising or using the cache itself. It is modelled as the value it yields.
- Errors raised by the database (lost connection, a table dropped by someone else) and concurrency between processes sharing the table: fetch stampedes, last-write-wins, `clear` racing writes, and the table-creation race. The model is sequential.
- `connection` (lib/postgres-cache/cache.rb:16-18) returns the connection object, which is not modelled.
- lib/postgres-cache/rack_cache.rb and lib/postgres-cache/rails_cache.rb only delegate to the engine. lib/postgres-cache/rack_cache.rb:17 calls `key_exists?`, which `PostgresCache` does not define, so `exist?` there would raise `NoMethodError`. lib/postgres-cache/version.rb and lib/postgres-cache.rb hold only a version constant and `require`s.
