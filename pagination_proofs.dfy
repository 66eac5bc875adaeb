/**
 * Properties of the datasource: what the sort check does to the cache, how
 * each kind of request is answered, and what holds over any sequence of
 * requests.
 */
module PaginationProofs {
  import opened Wrappers
  import opened Orders
  import opened Rows
  import opened Pagination

  /**
   * A structurally equal order leaves the state as it is (no refetch); a
   * different one sets `orderBy` and replaces the cache by the first page
   * under it, which is consistent whatever the cache held before.
   */
  lemma SortCheckResetsOnlyOnChange(source: Source, b: Bridge, o: Option<RepositoryOrder>)
    ensures o == b.orderBy ==> SyncOrder(source, b, o) == b
    ensures o != b.orderBy ==> SyncOrder(source, b, o) == Bridge(o, FirstPage(source(o)))
    ensures o != b.orderBy ==> Consistent(source, SyncOrder(source, b, o))
  {
  }

  /** Re-selecting the order just selected changes nothing. */
  lemma SortCheckIdempotent(source: Source, b: Bridge, o: Option<RepositoryOrder>)
    ensures SyncOrder(source, SyncOrder(source, b, o), o) == SyncOrder(source, b, o)
  {
  }

  /** A request fully inside the cache is answered from it, with no fetch of any kind. */
  lemma CacheHitFetchesNothing(source: Source, b: Bridge, sortModel: seq<SortModelItem>,
                               startRow: nat, endRow: nat, loadError: bool)
    requires OrderFromSortModel(sortModel) == b.orderBy
    requires startRow <= endRow <= |b.edges|
    ensures var s := ServeRequest(source, b, sortModel, startRow, endRow, loadError);
      s == Served(b, Success(b.edges[startRow..endRow]), None)
  {
  }

  /** A request that starts beyond the cache fails, fetches nothing and leaves the cache alone. */
  lemma GapFails(source: Source, b: Bridge, sortModel: seq<SortModelItem>,
                 startRow: nat, endRow: nat, loadError: bool)
    requires OrderFromSortModel(sortModel) == b.orderBy
    requires |b.edges| < startRow <= endRow
    ensures ServeRequest(source, b, sortModel, startRow, endRow, loadError) == Served(b, Fail, None)
  {
  }

  /**
   * A request that overlaps the end of the cache issues exactly one
   * `loadNext`, sized to the whole request, and fails exactly when that
   * load reports an error; a failed load leaves the cache alone.
   */
  lemma OverlapLoadsOnce(source: Source, b: Bridge, sortModel: seq<SortModelItem>,
                         startRow: nat, endRow: nat, loadError: bool)
    requires OrderFromSortModel(sortModel) == b.orderBy
    requires startRow <= |b.edges| < endRow
    ensures var s := ServeRequest(source, b, sortModel, startRow, endRow, loadError);
      && s.loadCount == Some(endRow - startRow)
      && (s.result.Fail? <==> loadError)
      && (loadError ==> s.bridge == b)
  {
  }

  /** Loading only appends: the cached edges survive as a prefix and the order stays. */
  lemma LoadOnlyAppends(source: Source, b: Bridge, startRow: nat, endRow: nat, loadError: bool)
    requires startRow <= endRow
    ensures var s := Serve(source, b, startRow, endRow, loadError);
      && b.edges <= s.bridge.edges
      && s.bridge.orderBy == b.orderBy
  {
  }

  /**
   * Whenever the request is reachable and the load does not fail, the answer
   * is a success holding every row of the range the collection has; with a
   * collection at least `endRow` long that is all `endRow - startRow` rows.
   * The load is sized by the request's width, which always reaches `endRow`.
   */
  lemma ReachableRequestsSucceed(source: Source, b: Bridge, startRow: nat, endRow: nat)
    requires Consistent(source, b)
    requires startRow <= endRow
    requires startRow <= |b.edges|
    ensures var s := Serve(source, b, startRow, endRow, false);
      && s.result.Success?
      && |s.result.rows| == Min(endRow, |source(b.orderBy)|) - Min(startRow, |source(b.orderBy)|)
      && (endRow <= |source(b.orderBy)| ==> s.result.rows == source(b.orderBy)[startRow..endRow])
  {
    AnswersComeFromSource(source, b, startRow, endRow, false);
  }

  /**
   * After a change of order the old rows are gone: the cache starts with
   * the new order's first page and holds nothing but rows of the new order.
   */
  lemma SortChangeClearsCache(source: Source, b: Bridge, sortModel: seq<SortModelItem>,
                              startRow: nat, endRow: nat, loadError: bool)
    requires OrderFromSortModel(sortModel) != b.orderBy
    requires startRow <= endRow
    ensures var o := OrderFromSortModel(sortModel);
      var s := ServeRequest(source, b, sortModel, startRow, endRow, loadError);
      && s.bridge.orderBy == o
      && FirstPage(source(o)) <= s.bridge.edges <= source(o)
  {
    var o := OrderFromSortModel(sortModel);
    var synced := SyncOrder(source, b, o);
    AnswersComeFromSource(source, synced, startRow, endRow, loadError);
    LoadOnlyAppends(source, synced, startRow, endRow, loadError);
  }

  /**
   * After a change of order only the first page is cached, so a request
   * that starts beyond it fails without loading anything: the refetch does
   * not cover the requested range.
   */
  lemma SortChangeThenFarRequestFails(source: Source, b: Bridge, sortModel: seq<SortModelItem>,
                                      startRow: nat, endRow: nat, loadError: bool)
    requires OrderFromSortModel(sortModel) != b.orderBy
    requires Min(FIRST_PAGE_SIZE, |source(OrderFromSortModel(sortModel))|) < startRow <= endRow
    ensures var s := ServeRequest(source, b, sortModel, startRow, endRow, loadError);
      s.result == Fail && s.loadCount == None
  {
  }

  /** A row-range request as the grid issues it, with the outcome of its load. */
  datatype Request = Request(sortModel: seq<SortModelItem>, startRow: nat, endRow: nat, loadError: bool)

  ghost predicate WellFormed(reqs: seq<Request>) {
    forall i :: 0 <= i < |reqs| ==> reqs[i].startRow <= reqs[i].endRow
  }

  /** The state after the requests, handled one after the other. */
  function Run(source: Source, b: Bridge, reqs: seq<Request>): Bridge
    requires WellFormed(reqs)
    decreases |reqs|
  {
    if reqs == [] then b
    else
      var r := reqs[0];
      Run(source, ServeRequest(source, b, r.sortModel, r.startRow, r.endRow, r.loadError).bridge, reqs[1..])
  }

  /** The answers to the requests, handled one after the other. */
  function Answers(source: Source, b: Bridge, reqs: seq<Request>): (rs: seq<RowsResult>)
    requires WellFormed(reqs)
    ensures |rs| == |reqs|
    decreases |reqs|
  {
    if reqs == [] then []
    else
      var r := reqs[0];
      var s := ServeRequest(source, b, r.sortModel, r.startRow, r.endRow, r.loadError);
      [s.result] + Answers(source, s.bridge, reqs[1..])
  }

  /** One request keeps the state consistent and answers from the collection. */
  lemma RequestAnswersFromSource(source: Source, b: Bridge, r: Request)
    requires Consistent(source, b)
    requires r.startRow <= r.endRow
    ensures var s := ServeRequest(source, b, r.sortModel, r.startRow, r.endRow, r.loadError);
      && Consistent(source, s.bridge)
      && s.bridge.orderBy == OrderFromSortModel(r.sortModel)
      && (s.result.Success? ==>
            s.result.rows == JsSlice(source(OrderFromSortModel(r.sortModel)), r.startRow, r.endRow))
  {
    var synced := SyncOrder(source, b, OrderFromSortModel(r.sortModel));
    AnswersComeFromSource(source, synced, r.startRow, r.endRow, r.loadError);
  }

  /**
   * Over any sequence of requests the cache stays the start of the
   * collection under the current order, and every successful answer is
   * exactly the requested slice of the collection under its request's order.
   */
  lemma {:induction false} RunAnswersFromSource(source: Source, b: Bridge, reqs: seq<Request>)
    requires Consistent(source, b)
    requires WellFormed(reqs)
    ensures Consistent(source, Run(source, b, reqs))
    ensures var rs := Answers(source, b, reqs);
      forall i :: 0 <= i < |reqs| && rs[i].Success? ==>
        rs[i].rows == JsSlice(source(OrderFromSortModel(reqs[i].sortModel)), reqs[i].startRow, reqs[i].endRow)
    decreases |reqs|
  {
    if reqs != [] {
      var r := reqs[0];
      var s := ServeRequest(source, b, r.sortModel, r.startRow, r.endRow, r.loadError);
      RequestAnswersFromSource(source, b, r);
      var rest := reqs[1..];
      assert WellFormed(rest) by {
        forall i | 0 <= i < |rest| ensures rest[i].startRow <= rest[i].endRow {
          assert rest[i] == reqs[i + 1];
        }
      }
      RunAnswersFromSource(source, s.bridge, rest);
      var rs := Answers(source, b, reqs);
      assert rs == [s.result] + Answers(source, s.bridge, rest);
      forall i | 0 <= i < |reqs| && rs[i].Success?
        ensures rs[i].rows == JsSlice(source(OrderFromSortModel(reqs[i].sortModel)), reqs[i].startRow, reqs[i].endRow)
      {
        if i > 0 {
          assert rs[i] == Answers(source, s.bridge, rest)[i - 1];
          assert reqs[i] == rest[i - 1];
        }
      }
    }
  }

  /** All requests use the sort model's current order: nothing triggers a refetch. */
  ghost predicate SameOrder(b: Bridge, reqs: seq<Request>) {
    forall i :: 0 <= i < |reqs| ==> OrderFromSortModel(reqs[i].sortModel) == b.orderBy
  }

  /**
   * Within one order the cache only grows: the edges cached before any
   * sequence of requests survive unchanged as a prefix of the final cache.
   */
  lemma {:induction false} RunOnlyAppends(source: Source, b: Bridge, reqs: seq<Request>)
    requires WellFormed(reqs)
    requires SameOrder(b, reqs)
    ensures Run(source, b, reqs).orderBy == b.orderBy
    ensures b.edges <= Run(source, b, reqs).edges
    decreases |reqs|
  {
    if reqs != [] {
      var r := reqs[0];
      var s := ServeRequest(source, b, r.sortModel, r.startRow, r.endRow, r.loadError);
      LoadOnlyAppends(source, b, r.startRow, r.endRow, r.loadError);
      var rest := reqs[1..];
      assert WellFormed(rest) by {
        forall i | 0 <= i < |rest| ensures rest[i].startRow <= rest[i].endRow {
          assert rest[i] == reqs[i + 1];
        }
      }
      assert SameOrder(s.bridge, rest) by {
        forall i | 0 <= i < |rest| ensures OrderFromSortModel(rest[i].sortModel) == s.bridge.orderBy {
          assert rest[i] == reqs[i + 1];
        }
      }
      RunOnlyAppends(source, s.bridge, rest);
    }
  }

  /**
   * When the collection has unique cursors under every order, every answer
   * has unique row ids, so `getRowId` keys the grid's rows without clashes.
   */
  lemma AnswersHaveUniqueRowIds(source: Source, b: Bridge, r: Request)
    requires Consistent(source, b)
    requires r.startRow <= r.endRow
    requires UniqueRowIds(source(OrderFromSortModel(r.sortModel)))
    ensures var s := ServeRequest(source, b, r.sortModel, r.startRow, r.endRow, r.loadError);
      s.result.Success? ==> UniqueRowIds(s.result.rows)
  {
    RequestAnswersFromSource(source, b, r);
    SliceKeepsUniqueRowIds(source(OrderFromSortModel(r.sortModel)), r.startRow, r.endRow);
  }
}
