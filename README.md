# MongoMapper adapter of elasticsearch-model, in Dafny

This project models the MongoMapper adapter of `elasticsearch-model`. The
adapter does two jobs.

- **Records.** It fetches the records matched by a search and returns them
  in the search's ranking order. An explicit `asc`, `desc` or `order_by`
  switches that ranking off.
- **Importing.** It streams every record of a class into bulk-indexing
  batches of a fixed size.

Modules, one per concern of `adapters/mongo_mapper.rb`:

- `Documents`: record ids, which are Integers or Strings. Ruby's `to_s`
  writes an integer in decimal. Records carry their id and their
  `as_indexed_json` document.
- `Sorting`: `Enumerable#sort_by` on natural-number keys. It is specified
  by what any run may return: a permutation whose keys do not decrease.
- `Ranking`: the ranked `to_a`. The key is the index of the first hit whose
  `_id.to_s` equals the entry's `id.to_s`.
- `Records`: the criteria object as a class. Its `toA` field records which
  `to_a` is installed: the ranked one, closed over the hits, or the plain
  `entries`. This module also holds `records` and the ordering
  interceptors.
- `Importing`: `__find_in_batches` as a loop over a buffer. It is proved
  against `Chunk`, a pure chunking function. `Chunk` is in turn proved
  equal to an independent description of a chunking.

Where one might expect otherwise, the model follows the code:

- **Unmatched ids.** A record whose id is in no hit does not "sort last".
  Its key is nil. Ruby raises ArgumentError when `sort_by` compares nil with
  an Integer. When every key is nil, all keys compare equal and no error is
  raised.
- **Ties.** `sort_by` is not stable. `RankedToA` computes one admissible
  order, but its contract, and the contract of `to_a` on the criteria,
  promise only a permutation in non-decreasing rank. With distinct ids
  there are no ties, and the result is proved unique.
- **Batch size.** The batch size is never validated. A size of 0 raises
  ZeroDivisionError when the first record is pushed, not before the walk.
  Over an empty class it raises nothing. A negative size behaves like its
  absolute value, because the code only tests whether the remainder is zero.

## Model

| member | source | states |
|---|---|---|
| `Documents.IntToDecimalInjective` | elasticsearch-model/lib/elasticsearch/model/adapters/mongo_mapper.rb:21 | distinct integer ids never share a `to_s` form, so comparing through `to_s` merges no integer ids |
| `Documents.IntIdMatchesCanonicalDecimal` | elasticsearch-model/lib/elasticsearch/model/adapters/mongo_mapper.rb:21 | an integer id and a string id match exactly when the string is a canonical decimal (no leading zero, no plus sign, no `-0`) whose digit-by-digit value is the integer; "02", "+2" and "-0" match no integer id |
| `Documents.NatToDecimalReadsBack` | elasticsearch-model/lib/elasticsearch/model/adapters/mongo_mapper.rb:21 | the decimal form of a natural has no leading zero and reads back, by an independent digit reader, as that natural |
| `Documents.CanonicalNatWrittenBack` | elasticsearch-model/lib/elasticsearch/model/adapters/mongo_mapper.rb:21 | every canonical digit string is the decimal form of its value |
| `Documents.IntToDecimalReadsBack` | elasticsearch-model/lib/elasticsearch/model/adapters/mongo_mapper.rb:21 | the decimal form of any integer is canonical and reads back as that integer |
| `Documents.CanonicalDecimalWrittenBack` | elasticsearch-model/lib/elasticsearch/model/adapters/mongo_mapper.rb:21 | every canonical decimal is the `to_s` form of its value |
| `Documents.NonCanonicalStringsMatchNoIntId` | elasticsearch-model/lib/elasticsearch/model/adapters/mongo_mapper.rb:21 | no integer id has `to_s` "02", "+2" or "-0" |
| `Ranking.RankOf` | elasticsearch-model/lib/elasticsearch/model/adapters/mongo_mapper.rb:21 | `hits.index`: the result is the FIRST index whose hit has the id's string form, and nil exactly when no hit has it |
| `Ranking.RankIgnoresIdKind` | elasticsearch-model/lib/elasticsearch/model/adapters/mongo_mapper.rb:21 | an integer id and its decimal string get the same rank key; the earliest matching hit wins even when a later hit has another id kind |
| `Sorting.SortBy` | elasticsearch-model/lib/elasticsearch/model/adapters/mongo_mapper.rb:21 | the result is a permutation of the input whose keys do not decrease, i.e. an admissible `sort_by` outcome |
| `Sorting.SortByDeterminate` | elasticsearch-model/lib/elasticsearch/model/adapters/mongo_mapper.rb:21 | with distinct keys, every admissible `sort_by` outcome is the same sequence, so the missing stability guarantee does not matter |
| `Ranking.RankedToA` | elasticsearch-model/lib/elasticsearch/model/adapters/mongo_mapper.rb:20-22 | ranked `to_a` raises exactly when some entry's id is found in the hits and another's is not; otherwise it returns a permutation of `entries` in non-decreasing rank (any order when no id is found) |
| `Ranking.RankedToADeterminate` | elasticsearch-model/lib/elasticsearch/model/adapters/mongo_mapper.rb:21 | when all ids are found and distinct, whatever `sort_by` returns equals the modelled result |
| `Ranking.HitsOrder` | elasticsearch-model/lib/elasticsearch/model/adapters/mongo_mapper.rb:21 | with distinct hits and one record per hit, the i-th record returned is the one for the i-th hit, whatever order the datastore used |
| `Ranking.MissingIdRaises` | elasticsearch-model/lib/elasticsearch/model/adapters/mongo_mapper.rb:21 | a record matched by no hit next to one matched by a hit makes `to_a` raise, in either datastore order: unmatched records are not pushed last |
| `Ranking.HitsOrderExample` | elasticsearch-model/test/unit/adapter_mongo_mapper_test.rb:45-53 | hits `[2, 1]` over datastore order `[1, 2]` materialise as `[2, 1]` |
| `Records.Criteria.constructor` | elasticsearch-model/lib/elasticsearch/model/adapters/mongo_mapper.rb:17 | a fresh query result has the datastore's entries and the plain `to_a` |
| `Records.Criteria.Clone` | elasticsearch-model/lib/elasticsearch/model/adapters/mongo_mapper.rb:32 | the object a native ordering returns has the ordered entries and carries over the `to_a` installed on its source |
| `Records.Criteria.RankBy` | elasticsearch-model/lib/elasticsearch/model/adapters/mongo_mapper.rb:19-23 | installs the ranked `to_a` over the given hits; the entries are untouched |
| `Records.Criteria.DropRanking` | elasticsearch-model/lib/elasticsearch/model/adapters/mongo_mapper.rb:33-35 | installs the plain `to_a`; the entries are untouched |
| `Records.Criteria.ToA` | elasticsearch-model/lib/elasticsearch/model/adapters/mongo_mapper.rb:20-22 | while ranking is installed, raises exactly when one entry's id is found in the hits and another's is not, and otherwise answers with a permutation of `entries` in non-decreasing rank; without ranking it answers with `entries` unchanged |
| `Records.MakeRecords` | elasticsearch-model/lib/elasticsearch/model/adapters/mongo_mapper.rb:16-26 | `records` returns a new criteria over the query's result with the ranked `to_a` over the response's hits |
| `Records.Reorder` | elasticsearch-model/lib/elasticsearch/model/adapters/mongo_mapper.rb:30-39 | `asc`/`desc`/`order_by` return the ordering that the named call's native method gives the query's result, with ranking switched off |
| `Records.ReorderAgain` | elasticsearch-model/lib/elasticsearch/model/adapters/mongo_mapper.rb:32-35 | a further native ordering on an object whose ranking is off leaves it off |
| `Records.AscIgnoresHits` | elasticsearch-model/test/unit/adapter_mongo_mapper_test.rb:55-64 | `records.to_a` is `[2, 1]` while `asc.to_a` is the datastore's `[1, 2]` |
| `Importing.FindInBatches` | elasticsearch-model/lib/elasticsearch/model/adapters/mongo_mapper.rb:56-74 | raises ZeroDivisionError exactly when the batch size is 0 and there is a record, yielding nothing; otherwise yields exactly the bulk form of `Chunk(all, abs(size))`, nothing for an empty class, default size 1000 |
| `Importing.ChunkIsChunking` | elasticsearch-model/lib/elasticsearch/model/adapters/mongo_mapper.rb:60-73 | the chunks concatenate back to the input; none is empty; every chunk except the last has exactly the batch size |
| `Importing.ChunkingUnique` | elasticsearch-model/lib/elasticsearch/model/adapters/mongo_mapper.rb:60-73 | any sequence of chunks with those properties is `Chunk`'s |
| `Importing.ChunkCount` | elasticsearch-model/lib/elasticsearch/model/adapters/mongo_mapper.rb:63-73 | there are ceil(N / size) chunks |
| `Importing.ChunkExact` | elasticsearch-model/lib/elasticsearch/model/adapters/mongo_mapper.rb:63-73 | when the size divides N there is no short trailing chunk |
| `Importing.ChunkAppend` | elasticsearch-model/lib/elasticsearch/model/adapters/mongo_mapper.rb:63-66 | chunking a prefix whose length is a multiple of the size, then the rest, gives the same chunks as chunking the whole: resetting the buffer after a full batch loses nothing |
| `Importing.FlattenBulk` | elasticsearch-model/lib/elasticsearch/model/adapters/mongo_mapper.rb:64-71 | mapping each batch to bulk actions and concatenating gives the bulk actions of the concatenation |
| `Importing.ExportProperties` | elasticsearch-model/lib/elasticsearch/model/adapters/mongo_mapper.rb:56-74 | the yielded batches concatenate to every record's `{index: {_id: id.to_s, data: ...}}` once, in order; ceil(N / size) batches; each is 1 to size long; all but the last are full; all are full when size divides N |
| `Importing.DefaultBatchExample` | elasticsearch-model/lib/elasticsearch/model/adapters/mongo_mapper.rb:57 | with the default size, 2500 records give batches of 1000, 1000 and 500 |
| `Importing.RemainderZeroAtSize` | elasticsearch-model/lib/elasticsearch/model/adapters/mongo_mapper.rb:63 | for a buffer of 1 to abs(size) items, `length % size == 0` holds exactly when the buffer is full, for negative sizes too |

## Left out

- `Adapter.register` and its lambda (lines 11-12) are left out. They are runtime reflection over framework classes, with no algorithm in them.
- `Callbacks.included` (lines 46-50) is left out. It only registers three framework lifecycle hooks. Their bodies are calls into the index client (network I/O).
- The datastore is not modelled. `klass.where(:id.in => ids)`, `entries` and `all` are input sequences. A native `asc`/`desc`/`order_by` is a function parameter from entries to entries.
- `Records.Reorder` makes the native ordering return a fresh clone of the query. The model does not cover a datastore whose ordering mutates and returns the same object; the resulting `to_a` would be the same.
- The lazy, deferred execution of datastore queries is not modelled. `entries` is a fixed snapshot.
- `as_indexed_json` and the shape of the search response are not modelled. A document is an opaque field map; the hits are the sequence of their `_id` values.
- Ruby's singleton-method redefinition (`instance_exec`, `define_singleton_method`) is modelled as the `toA` mode field.
- Ids other than Integers and Strings (for example BSON ObjectIds) are not modelled. Their `to_s` form can be supplied as a String id.
- `Importing.FindInBatches`: a block that raises is not modelled. It would stop the walk after the batches already yielded. The model records every batch the block receives.
- `Importing.BatchSize`: `||=` also replaces `false`, and non-Integer batch sizes are possible in Ruby. The model takes the option as absent or an integer.
- `Ranking.RankedToA`: the body picks one order where `sort_by` may pick several. Tied entries keep their datastore order, and when no entry's id occurs in the hits the datastore's order is returned unchanged. The contract promises only a permutation in non-decreasing rank, because Ruby promises nothing more.
- `Records.Criteria.ToA`: for the same reason, the ranked answer is promised only to be an admissible `sort_by` outcome, not the particular order `RankedToA` computes.
