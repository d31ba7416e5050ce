# Perfetto trace processor: interval intersection and the Winscope proto mapping

This project models two pieces of Perfetto's trace processor in Dafny and proves properties of them.

1. **`__intrinsic_interval_intersect`**. This SQL function takes N ≥ 2 lists of sorted intervals. Each interval has a `start`, an `end` and an `id`. The function returns a table with the columns `ts`, `dur`, `id_0` … `id_{N-1}`.
   - The step function names the columns. It returns an empty table if any input is missing or empty.
   - Otherwise it sorts the table indices by table size and seeds the result from the smallest table.
   - For each further table in size order, it replaces the result with one entry per overlap that `FindOverlaps` reports for each entry. It stops early once the result is empty.
   - Finally it emits one row per entry.
   - The model is imperative, like the source. Its methods use loops, and the size sort works in place on an array. Each method is proved against specification functions (`Seed`, `Round`, `Rounds`, `Intersect`, `Rows`, `ColumnNames`).
   - Lemmas state what the result means. For example, every output row names one interval of every input table by id. When `FindOverlaps` reports table intervals unchanged, the row's `ts`/`dur` also come from an interval of the table processed last.
2. **The Winscope table → proto mapping**. Three lookups over table names, written as pure functions: the proto name (or an error status), the allowed proto fields, and the group-id column.

Modules: `Wrappers` (Option, Result), `Decimal` (the `%u` rendering of the id column names), `IntervalIntersectSpec` (datatypes, specification functions, lemmas), `IntervalIntersect` (the step function and its loops), `WinscopeProtoMapping`.

`IntervalTree::FindOverlaps` is not part of this model. It is a parameter `find` of type `Finder`, and the model assumes no particular overlap test and no particular order. The results about ids assume `IdsFromTable(find)`: every interval it reports carries the id of an interval of the queried table. The results about `ts`/`dur` assume more, `Unclipped(find)`: it reports the table's intervals unchanged, with no clipping to the query. `Unclipped` implies `IdsFromTable` (`UnclippedIdsFromTable`).

`std::sort` leaves the order of equal-sized tables unspecified. `Step` returns the order it used as a ghost out-parameter and proves that this order is a size-sorted permutation (`IsSizeOrder`). The lemmas about `Intersect` hold for every such order.

In a round, the source assigns `std::move(r.idx_in_table)` where `r` is a `const` reference. This selects the copy assignment, so every overlap of an entry starts from the entry's full id slots. The model does the same.

## Model

| member | source | states |
|---|---|---|
| `IntervalIntersect.Step` | src/trace_processor/perfetto_sql/intrinsics/functions/interval_intersect.cc:86-168 | There are argc − 1 ≥ 2 tables. The columns are `ColumnNames(n)`. If any table argument is null, not an interval list, or empty, the result has zero rows. Otherwise the order used is a size-sorted permutation of the tables, and the rows are `Rows(Intersect(tables, order, find))`, one row per entry of the final result. |
| `IntervalIntersectSpec.ColumnNames` | src/trace_processor/perfetto_sql/intrinsics/functions/interval_intersect.cc:89-95 | The output schema has n + 2 columns: `"ts"`, `"dur"`, then column i + 2 is `IdColumnName(i)` = `"id_" + decimal(i)`. |
| `IntervalIntersect.BuildColumnNames` | src/trace_processor/perfetto_sql/intrinsics/functions/interval_intersect.cc:89-95 | The push_back loop builds exactly `ColumnNames(n)`: `"ts"`, `"dur"`, then `"id_" + decimal(i)` for each table i. |
| `IntervalIntersectSpec.ColumnNamesDistinct` | src/trace_processor/perfetto_sql/intrinsics/functions/interval_intersect.cc:89-95 | There are exactly n + 2 column names, and they are pairwise different. |
| `Decimal.NatToString` | src/trace_processor/perfetto_sql/intrinsics/functions/interval_intersect.cc:93 | `%u` renders a number as at least one decimal digit, with no leading zero. |
| `Decimal.NatToStringRoundTrip` | src/trace_processor/perfetto_sql/intrinsics/functions/interval_intersect.cc:93 | Reading back the decimal rendering of n gives n. |
| `Decimal.NatToStringInjective` | src/trace_processor/perfetto_sql/intrinsics/functions/interval_intersect.cc:93 | Different table indices give different renderings, so different id column names. |
| `IntervalIntersect.SortBySize` | src/trace_processor/perfetto_sql/intrinsics/functions/interval_intersect.cc:115-120 | Sorting `tables_order` in place keeps its elements as a multiset and leaves the table sizes non-decreasing along it. |
| `IntervalIntersect.InsertBySize` | src/trace_processor/perfetto_sql/intrinsics/functions/interval_intersect.cc:116-120 | One insertion step of the sort: it extends the size-sorted prefix to `order[..i + 1]`, and that prefix is a permutation of the old one. Every element after position i is unchanged, so the whole array keeps its elements as a multiset. |
| `IntervalIntersectSpec.Tables` | src/trace_processor/perfetto_sql/intrinsics/functions/interval_intersect.cc:100-113 | When every table argument is present, there are argc − 1 tables. Table i is the interval list of argument i, and it is not empty. |
| `IntervalIntersectSpec.OrderIsPermutation` | src/trace_processor/perfetto_sql/intrinsics/functions/interval_intersect.cc:101-120 | A size order of the indices 0..n−1 has n entries. They are pairwise different table indices, and every table index occurs in it. |
| `IntervalIntersectSpec.IotaCount` | src/trace_processor/perfetto_sql/intrinsics/functions/interval_intersect.cc:112 | The initial `tables_order` (0, 1, …, n−1) holds each index below n exactly once and nothing else. |
| `IntervalIntersectSpec.FirstIsSmallest` | src/trace_processor/perfetto_sql/intrinsics/functions/interval_intersect.cc:115-122 | `tables_order.front()` is a table of minimum size. |
| `IntervalIntersectSpec.Seed` | src/trace_processor/perfetto_sql/intrinsics/functions/interval_intersect.cc:125-132 | The seeded result has one entry per interval of the smallest table, and each entry has n id slots. |
| `IntervalIntersect.SeedResult` | src/trace_processor/perfetto_sql/intrinsics/functions/interval_intersect.cc:125-132 | The seeding loop builds `Seed(smallest, smallestTableIdx, n)`: one entry per interval of the smallest table, in that table's order. Entry k has interval k's start and end, n id slots, and interval k's id in the smallest table's slot. |
| `IntervalIntersectSpec.Extended` | src/trace_processor/perfetto_sql/intrinsics/functions/interval_intersect.cc:143-147 | The entry recorded for overlap o of entry m takes o's start and end. It keeps m's number of id slots and all of m's ids except the current table's slot, which becomes o's id. |
| `IntervalIntersectSpec.ExtendAll` | src/trace_processor/perfetto_sql/intrinsics/functions/interval_intersect.cc:142-149 | One entry is recorded per overlap reported for an entry. |
| `IntervalIntersectSpec.Round` | src/trace_processor/perfetto_sql/intrinsics/functions/interval_intersect.cc:138-152 | One round: for each entry in result order, the `Extended` entries for its reported overlaps in report order. Every entry it produces has the round's table slot. `RoundMembers`, `RoundLength` and `RoundWellSized` state what it contains. |
| `IntervalIntersect.IntersectRound` | src/trace_processor/perfetto_sql/intrinsics/functions/interval_intersect.cc:136-152 | The two nested loops of a round build exactly `Round(res, table, slot, find)`, and every entry keeps n id slots. |
| `IntervalIntersectSpec.RoundMembers` | src/trace_processor/perfetto_sql/intrinsics/functions/interval_intersect.cc:139-152 | An entry is in the round's result if and only if it comes from some entry r and some overlap o of r reported by `FindOverlaps`. It then has o's start and end, and r's id slots with the current table's slot set to o's id. |
| `IntervalIntersectSpec.RoundEntrySource` | src/trace_processor/perfetto_sql/intrinsics/functions/interval_intersect.cc:139-152 | Every entry a round produces comes from one entry r of the previous result and one overlap o that `FindOverlaps` reported for r. The entry has o's bounds and r's id slots, with the current table's slot set to o's id. |
| `IntervalIntersectSpec.RoundEntryPresent` | src/trace_processor/perfetto_sql/intrinsics/functions/interval_intersect.cc:139-152 | Every overlap reported for every entry of the previous result yields an entry of the round, so no overlap is dropped. |
| `IntervalIntersectSpec.RoundLength` | src/trace_processor/perfetto_sql/intrinsics/functions/interval_intersect.cc:139-152 | A round has exactly as many entries as `FindOverlaps` reported overlaps across all entries. |
| `IntervalIntersectSpec.RoundWellSized` | src/trace_processor/perfetto_sql/intrinsics/functions/interval_intersect.cc:143-145 | A round keeps exactly n id slots in every entry. |
| `IntervalIntersect.RunRounds` | src/trace_processor/perfetto_sql/intrinsics/functions/interval_intersect.cc:134-153 | The round loop computes `Rounds` over `tables_order[1..]`. An empty seed gives an empty result. |
| `IntervalIntersectSpec.RoundsStep` | src/trace_processor/perfetto_sql/intrinsics/functions/interval_intersect.cc:135-152 | While tables remain and the result is not empty, the rounds from table i are the round against `tables_order[i]` followed by the rounds from i + 1. |
| `IntervalIntersectSpec.Rounds` | src/trace_processor/perfetto_sql/intrinsics/functions/interval_intersect.cc:135-153 | Once the result is empty, no further table is processed and the result stays empty. Every entry keeps n id slots. |
| `IntervalIntersectSpec.Intersect` | src/trace_processor/perfetto_sql/intrinsics/functions/interval_intersect.cc:122-153 | Every entry of the final result has one id slot per table. |
| `IntervalIntersectSpec.SeedCovers` | src/trace_processor/perfetto_sql/intrinsics/functions/interval_intersect.cc:125-132 | Every seeded entry names, by id, an interval of the smallest table, and has that interval's bounds. |
| `IntervalIntersectSpec.RoundCovers` | src/trace_processor/perfetto_sql/intrinsics/functions/interval_intersect.cc:136-152 | Under `IdsFromTable`: if every entry names an interval of each table processed so far by id, a round keeps this true with the round's table added. |
| `IntervalIntersectSpec.RoundBounds` | src/trace_processor/perfetto_sql/intrinsics/functions/interval_intersect.cc:141-147 | Under `Unclipped`: every entry of a round has the start and end of an interval of the round's table. |
| `IntervalIntersectSpec.RoundsCover` | src/trace_processor/perfetto_sql/intrinsics/functions/interval_intersect.cc:135-153 | Under `IdsFromTable`: the id coverage holds through all the remaining rounds, including an early stop. |
| `IntervalIntersectSpec.RoundsBounds` | src/trace_processor/perfetto_sql/intrinsics/functions/interval_intersect.cc:135-153 | Under `Unclipped`: after the remaining rounds, every entry has the bounds of an interval of the last table in the order. An early stop leaves no entry. |
| `IntervalIntersectSpec.IntersectSound` | src/trace_processor/perfetto_sql/intrinsics/functions/interval_intersect.cc:122-153 | Under `IdsFromTable`, for any size order: every entry of the final result holds, for each table t, the id of an interval of table t. |
| `IntervalIntersectSpec.IntersectBounds` | src/trace_processor/perfetto_sql/intrinsics/functions/interval_intersect.cc:122-153 | Under `Unclipped`, for any size order: every entry of the final result has the bounds of an interval of the table processed last, the last in size order. |
| `IntervalIntersectSpec.Row` | src/trace_processor/perfetto_sql/intrinsics/functions/interval_intersect.cc:74-83 | A row has n + 2 integers. `ts` is the start, `ts + dur` is the end, and the ids of the n tables follow in table order. |
| `IntervalIntersectSpec.Rows` | src/trace_processor/perfetto_sql/intrinsics/functions/interval_intersect.cc:156-165 | The table has one row per entry of the result, and row k is the `Row` of entry k. |
| `IntervalIntersect.AddRow` | src/trace_processor/perfetto_sql/intrinsics/functions/interval_intersect.cc:74-83 | The loop emits exactly `Row(m, n)`: `ts = start`, `dur = end − start`, then the id of each table from offset `kIdxColOffset` = 2. |
| `IntervalIntersectSpec.RowRoundTrip` | src/trace_processor/perfetto_sql/intrinsics/functions/interval_intersect.cc:74-83 | A row loses nothing. Start is `ts`, end is `ts + dur`, and the ids follow, so the entry can be read back from its row. |
| `IntervalIntersect.PushRows` | src/trace_processor/perfetto_sql/intrinsics/functions/interval_intersect.cc:155-165 | The builder loop emits exactly `res.size()` rows, one `AddRow` row per entry, in order. |
| `IntervalIntersectSpec.RowsSound` | src/trace_processor/perfetto_sql/intrinsics/functions/interval_intersect.cc:122-165 | Under `IdsFromTable`: every row of the returned table has n + 2 integers, and column `id_t` holds the id of an interval of table t. |
| `IntervalIntersectSpec.RowsBounds` | src/trace_processor/perfetto_sql/intrinsics/functions/interval_intersect.cc:122-165 | Under `Unclipped`: the `ts` and `dur` of every row are the start and length of one interval of the table processed last. |
| `WinscopeProtoMapping.GetProtoName` | src/trace_processor/util/winscope_proto_mapping.h:27-67 | The lookup succeeds if and only if the name is one of the twelve table names, and then returns the proto of a table with that name. Otherwise it returns `NoDescriptorError(name)`: the name as `%s` prints its `c_str()`, followed by `" table does not have proto descriptor."`. |
| `WinscopeProtoMapping.NotATableName` | src/trace_processor/util/winscope_proto_mapping.h:65-66 | A name that matches none of the twelve checks names no table, so the error path is taken exactly for unknown names. |
| `WinscopeProtoMapping.CStr` | src/trace_processor/util/winscope_proto_mapping.h:65-66 | What `%s` reads from `c_str()`: a prefix of the string with no NUL in it. It is the whole string when there is no NUL; otherwise it stops right before the first NUL. |
| `WinscopeProtoMapping.NoDescriptorErrorWholeName` | src/trace_processor/util/winscope_proto_mapping.h:65-66 | For a name without NUL, the error text is the whole name followed by `" table does not have proto descriptor."`. |
| `WinscopeProtoMapping.NoDescriptorErrorCutsAtNul` | src/trace_processor/util/winscope_proto_mapping.h:65-66 | A name is cut at its first NUL: `"a\0b"` is printed as `"a"` and gets the same error text as `"a"`. |
| `WinscopeProtoMapping.ProtoNameOfEachTable` | src/trace_processor/util/winscope_proto_mapping.h:29-64 | When the table names are distinct, at most one branch matches. Each of the twelve tables maps to its fixed proto name, for example the SurfaceFlinger layer table to `.perfetto.protos.LayerProto`. |
| `WinscopeProtoMapping.GetAllowedFields` | src/trace_processor/util/winscope_proto_mapping.h:69-75 | A list is returned if and only if the name is the layers-snapshot table's. That list is strictly increasing and holds exactly the fields 1–8 except 3. |
| `WinscopeProtoMapping.GetGroupIdColName` | src/trace_processor/util/winscope_proto_mapping.h:77-83 | A column is returned if and only if the name is the shell-transition protos table's, and the column is `"transition_id"`. |
| `WinscopeProtoMapping.AllowedFieldsHaveProto` | src/trace_processor/util/winscope_proto_mapping.h:27-75 | A table with allowed fields also has a proto name. With distinct names, that proto name is `.perfetto.protos.LayersSnapshotProto`. |
| `WinscopeProtoMapping.GroupIdHasProto` | src/trace_processor/util/winscope_proto_mapping.h:27-83 | A table with a group-id column also has a proto name. With distinct names, that proto name is `.perfetto.protos.ShellTransition`. |

## Left out

- `IntervalTree` and `FindOverlaps` are not part of this model. `FindOverlaps` is the parameter `find`.
- `IntervalIntersectSpec.RowsBounds`, `IntervalIntersectSpec.IntersectBounds`, `IntervalIntersectSpec.RoundsBounds`, `IntervalIntersectSpec.RoundBounds`: these assume that `FindOverlaps` returns table intervals unchanged (`Unclipped`, no clipping to the query). The interval tree's code is not part of this model, so this is not proved. Without it, nothing is promised about `ts`/`dur`. The id results need only `IdsFromTable`.
- The SQLite plumbing is not modelled: `sqlite::value::Pointer`, `sqlite::result::UniquePointer`, the user-data context, and `RegisterIntervalIntersectFunctions`. A table argument is a `SqlValue`, and the returned table is a `RuntimeTable` value holding column names and rows.
- The error returns of `RuntimeTable::Builder` (`AddInteger`, `Build`) are not modelled. The builder is assumed to accept every row.
- `IntervalIntersect.SortBySize`: the tie order of `std::sort` is unspecified. The method is one admissible sort, and its contract states only what every admissible outcome satisfies.
- `IntervalIntersect.AddRow`: uint64 and int64 widths are not modelled. Start, end and ids are unbounded naturals, and `dur` is the integer `end − start`. This equals the source's `static_cast<int64_t>(end - start)` whenever start and end are below 2^63. Values at or above 2^63 wrap in the source and are not modelled.
- The formatting inside `base::ErrStatus` is not part of this model. Any length limit of its message buffer is not modelled.
- `PERFETTO_DCHECK(argc >= 3)` is a precondition of `IntervalIntersect.Step`. The source does not check it in release builds.
- The generated table classes that supply `Name()` for the twelve Winscope and Android tables are not part of this model. The names are a parameter `name: WinscopeTable -> string`. Results that pick a specific table require the twelve names to be distinct.
