# Pagination bridge of ag-grid-playground, in Dafny

The application shows the signed-in GitHub user's repositories in an AG Grid
table with the *infinite* row model. The rows come from a Relay cursor
connection (`repositories(first, after, orderBy)`), which can only append
forward from its last cursor and must be refetched from the start when the
order changes. This project models the datasource that bridges the two, and
the inline rename of a repository, and proves what they do.

- `wrappers.dfy` (`Wrappers`): `Option`, and two small helpers.
- `orders.dfy` (`Orders`): the grid's sort model, the connection's
  `RepositoryOrder`, and the lookup from one to the other.
- `rows.dfy` (`Rows`): edges (cursor plus repository node), `getRowId`, and
  `Array.prototype.slice` on non-negative bounds.
- `pagination.dfy` (`Pagination`): `getRows` as pure functions (`SyncOrder`
  for the sort check and refetch, `Classify` and `Serve` for the range
  request, `ServeRequest` for both) and as the class `Datasource`. Its fields
  are the `orderBy` signal and the connection's edges. Its methods are
  proved against those functions.
- `pagination_proofs.dfy` (`PaginationProofs`): properties of single
  requests and of any sequence of requests.
- `editing.dfy` (`Editing`): the optimistic rename with rollback, as pure
  functions and as the class `RenameEditor`. Its fields are the grid's rows
  keyed by row id and the rename mutations in flight.

The remote collection is modelled as a fixed ordered sequence of edges per
order argument (`Pagination.Source`). `refetch` leaves the first 50 rows
under the new order. That is the fragment's default `count`. `loadNext(n)`
appends the `n` edges that follow the last cached one, or fewer at the end
of the collection. Whether a load reports an error is a parameter of the
request. The main results:

- every successful answer is exactly `source(orderBy).slice(startRow, endRow)`;
- the cache stays a prefix of the collection under the current order;
- within one order the cache only grows.

Notes on the code's behaviour:

- `loadNext` is sized `endRow - startRow`, the width of the request. That is
  at least as many rows as are missing, and more when
  `startRow < existingRows`. It always reaches `endRow`
  (`Pagination.Classify`, `PaginationProofs.ReachableRequestsSucceed`).
- A change of order refetches one first page, not the displayed range. A
  request starting beyond that page then fails without loading
  (`PaginationProofs.SortChangeThenFarRequestFails`).
- There is no epoch counter and no discarding of stale loads.
- The rollback is unconditional. It writes the row data captured when the
  edit was made, with the old name, even over a later rename of the same row
  (`Editing.RollbackOverwritesLaterRename`).
- A cell editor that starts while a rename is in flight is stopped at once.

## Model

| member | source | states |
|---|---|---|
| `Orders.FieldForColumn` | src/app.tsx:178-186 | a known column id maps to the field whose column it is; any other column id of this grid maps to NAME |
| `Orders.DirectionFor` | src/app.tsx:187 | `asc`/`desc` map to ASC/DESC, the inverse of the direction's grid spelling |
| `Orders.OrderFromSortModel` | src/app.tsx:176-188 | the result is `undefined` exactly when the sort model is empty |
| `Orders.ColumnRoundTrip` | src/app.tsx:178-186 | each order field is reached from its own column id |
| `Orders.OnlyFirstEntryCounts` | src/app.tsx:176 | sort models with the same first entry give the same order |
| `Orders.OrderDeterminesFirstEntry` | src/app.tsx:176-188 | the order gives back the first entry's direction, and its column when known; unknown columns order by NAME |
| `Orders.EqualOrdersIffEqualFirstEntries` | src/app.tsx:176-190 | for known columns, the orders are structurally equal iff the first entries are equal |
| `Orders.InitialSortIsInitialOrder` | src/app.tsx:74-77 | the Stars column sorted descending yields the signal's initial STARGAZERS/DESC order |
| `Rows.JsSlice` | src/app.tsx:205-208 | `slice` clamps both bounds to the length; in range it is the subsequence, and its i-th row is row `start + i` |
| `Rows.JsSliceOfPrefix` | src/app.tsx:215-218 | slicing a prefix that holds the whole range gives the same rows as slicing the full collection |
| `Rows.SliceKeepsUniqueRowIds` | src/app.tsx:170 | a slice of rows with unique cursors has unique row ids |
| `Rows.RowId` | src/app.tsx:170 | definition of `getRowId`; its properties are `Rows.SliceKeepsUniqueRowIds`, `Rows.IndexFindsEveryRow` and `PaginationProofs.AnswersHaveUniqueRowIds` |
| `Rows.IndexByRowId` | src/app.tsx:170 | a standalone fact about `getRowId`: keying a block by it gives one key per cursor, each holding a row with that cursor |
| `Rows.IndexFindsEveryRow` | src/app.tsx:170 | a standalone fact about `getRowId`: with unique cursors, every row of a block is found under its own row id |
| `Pagination.Classify` | src/app.tsx:201-212 | cache hit iff `endRow <= existingRows`; gap iff `startRow > existingRows`; otherwise a load of `endRow - startRow > 0` rows, which reaches `endRow` |
| `Pagination.CompleteLoad` | src/app.tsx:214-221 | fails iff the load reported an error or there is no block; otherwise answers the slice of the extended edges |
| `Pagination.FirstPage` | src/app.tsx:40-44 | the refetched edges are the first `min(50, n)` rows of the collection |
| `Pagination.NextEdges` | src/app.tsx:213 | `loadNext(count)` yields the rows that follow the cached ones, at most `count` of them |
| `Pagination.SyncOrder` | src/app.tsx:190-197 | definition of the sort check; it sets `orderBy` to the new order and keeps the cache consistent; further properties in `PaginationProofs.SortCheckResetsOnlyOnChange` and `PaginationProofs.SortCheckIdempotent` |
| `Pagination.Serve` | src/app.tsx:201-222 | definition of the classification step; it keeps the order, only appends to the edges, and any load is sized `endRow - startRow`; further properties in `Pagination.AnswersComeFromSource`, `PaginationProofs.CacheHitFetchesNothing`, `PaginationProofs.GapFails` and `PaginationProofs.OverlapLoadsOnce` |
| `Pagination.ServeRequest` | src/app.tsx:175-222 | definition of one `getRows` call; the order afterwards is the sort model's; further properties in `PaginationProofs.RequestAnswersFromSource` and `PaginationProofs.RunAnswersFromSource` |
| `Pagination.AnswersComeFromSource` | src/app.tsx:201-222 | a consistent cache stays consistent under the same order, and a successful answer is the requested slice of the collection |
| `Pagination.Datasource.constructor` | src/app.tsx:74-77 | starts with order STARGAZERS/DESC and the first page under it, with no fetch logged |
| `Pagination.Datasource.GetRows` | src/app.tsx:175-223 | new state and answer are those of `ServeRequest`; logs a refetch iff the order changed and one `loadNext` iff the range overlaps the cache end; success answers the collection's slice |
| `Pagination.Datasource.SortCheck` | src/app.tsx:190-199 | an equal order leaves everything; a different one sets `orderBy`, replaces the edges by the first page and logs one refetch |
| `Pagination.Datasource.Answer` | src/app.tsx:201-222 | answers and updates the edges as `Serve` does and logs the `loadNext` count it issues |
| `PaginationProofs.SortCheckResetsOnlyOnChange` | src/app.tsx:190-197 | an equal order leaves the state unchanged; a different one sets `orderBy` and a fresh, consistent first page |
| `PaginationProofs.SortCheckIdempotent` | src/app.tsx:190-199 | re-selecting the order just selected changes nothing |
| `PaginationProofs.CacheHitFetchesNothing` | src/app.tsx:203-209 | a covered range succeeds with exactly `edges[startRow..endRow]`, with no fetch and no change |
| `PaginationProofs.GapFails` | src/app.tsx:210-211 | a request starting beyond the cache fails, with no fetch and no change |
| `PaginationProofs.OverlapLoadsOnce` | src/app.tsx:201-221 | an overlapping request issues one `loadNext` of `endRow - startRow` and fails iff it reports an error; an error leaves the cache |
| `PaginationProofs.LoadOnlyAppends` | src/app.tsx:213-218 | the cached edges survive as a prefix and the order is kept |
| `PaginationProofs.ReachableRequestsSucceed` | src/app.tsx:201-221 | with `startRow <= existingRows` and no load error the answer succeeds with every row the collection has in the range |
| `PaginationProofs.SortChangeClearsCache` | src/app.tsx:190-222 | after a change of order the cache lies between the new first page and the new collection: no old row remains |
| `PaginationProofs.SortChangeThenFarRequestFails` | src/app.tsx:190-212 | after a change of order a request beyond the first page fails without loading |
| `PaginationProofs.RequestAnswersFromSource` | src/app.tsx:175-222 | one request sets the order from the sort model, keeps the cache consistent and answers from the collection |
| `PaginationProofs.RunAnswersFromSource` | src/app.tsx:175-222 | over any sequence of requests the cache stays consistent and every success is the slice of the collection under its request's order |
| `PaginationProofs.RunOnlyAppends` | src/app.tsx:201-222 | over any sequence of requests under one order, the earlier cache is a prefix of the final one |
| `PaginationProofs.AnswersHaveUniqueRowIds` | src/app.tsx:170 | with unique cursors in the collection, every answer has unique row ids |
| `Editing.WithName` | src/app.tsx:116-120 | the spread rewrites the name and nothing else |
| `Editing.Optimistic` | src/app.tsx:104-111 | the optimistic response renames only the edited row, keeping its other fields; a row not in the grid changes nothing |
| `Editing.RolledBack` | src/app.tsx:115-121 | the captured row data is written back with the old name, and no other row changes; a row not in the grid changes nothing |
| `Editing.RollsBack` | src/app.tsx:113-133 | a completion with no payload errors (absent or empty) does not roll back; a non-empty list or a transport error does; used by `Editing.EditEndsWithOneOfTheNames` |
| `Editing.Settle` | src/app.tsx:112-133 | definition of the rows after a mutation ends; it keeps the row ids and leaves the rows alone when nothing rolls back; properties in `Editing.EditEndsWithOneOfTheNames` and `Editing.RollbackOverwritesLaterRename` |
| `Editing.RollbackUndoesOptimistic` | src/app.tsx:104-133 | rolling back a rename restores the rows exactly |
| `Editing.EditEndsWithOneOfTheNames` | src/app.tsx:112-133 | after an edit settles the row has the old name iff it rolled back, otherwise the new one; nothing else changes |
| `Editing.RollbackOverwritesLaterRename` | src/app.tsx:126-132 | a failed first rename writes its old name even over a later rename of the same row |
| `Editing.RenameEditor.constructor` | src/app.tsx:170 | starts with the given rows and no rename in flight |
| `Editing.RenameEditor.OnCellEditingStarted` | src/app.tsx:167-169 | the editor is stopped iff a rename is in flight |
| `Editing.RenameEditor.ValueSetter` | src/app.tsx:98-136 | the edit is accepted, one rename is put in flight and the optimistic rename is applied |
| `Editing.RenameEditor.OnCompleted` | src/app.tsx:112-123 | the rename leaves the in-flight set; rows roll back iff the payload errors are non-empty |
| `Editing.RenameEditor.OnError` | src/app.tsx:124-133 | the rename leaves the in-flight set and the rows roll back |

## Left out

- `src/RelayEnvironment.tsx` (the HTTP request to GitHub's GraphQL endpoint and its bearer token) and `app.config.ts` (build configuration): I/O and configuration, no logic.
- The JSX layout, the column options (`lockPosition`, `flex`, `autoSizeStrategy`, `cellDataType`), the date `valueFormatter`s and `console.log`: presentation and logging.
- `rowCount`/`totalCount` (src/app.tsx:174): it only sizes the scrollbar.
- Solid's reactivity (`createEffect`, signals, `untrack`): `orderBy` is a plain field, and the grid is created once.
- Asynchronous interleaving: `await`s and callbacks are discrete steps. The `loadNext` completion is folded into the request that issued it, so two requests in flight at once are not modelled.
- Pagination.Datasource.SortCheck: a failed refetch is treated as delivering the first page. The source ignores the refetch error (src/app.tsx:195), and what Relay then leaves in the connection is not part of this model.
- Pagination.Datasource.GetRows: the connection always has an edges list, so the `?? 0` and `?? []` fallbacks never apply. The missing-block failure appears only in `Pagination.CompleteLoad`.
- Pagination.NextEdges: any server limit on page size is not modelled. The server is taken to return `count` rows, or fewer at the end of the collection.
- Orders.FieldForColumn: maps every column id that is not a known key to NAME. In JavaScript an id naming an inherited property of a plain object (`"constructor"`, `"toString"`, `"__proto__"`) would read that property and skip the `?? "NAME"` fallback. This grid's column ids are its five `field`s (src/app.tsx:93-153), so such ids never arise.
- Editing.RenameEditor.OnCellEditingStarted: models only that the editor is stopped. `stopEditing()` without `cancel` keeps the editor's value, which at that moment is still the old name. What AG Grid does with that value is not part of this model.
- Rows.IndexByRowId, Rows.IndexFindsEveryRow: these are facts about `getRowId` on their own. `Editing.RenameEditor` takes its rows as given and is not built from the datasource's answers.
- Negative row indices: the grid issues `0 <= startRow <= endRow`, so `slice` is modelled on non-negative bounds only.
- The Relay store: normalisation by node id, and Relay's own reverting of optimistic updates, are left out. The edit writes the row keyed by its cursor.
- Editing.RenameEditor.OnCellEditingStarted: `isUpdatingRepoName` is taken to be true exactly while some rename mutation is in flight. The library that defines it is not part of this model.
- The GraphQL documents and the Relay runtime internals: not logic of this application.
