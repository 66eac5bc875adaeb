/**
 * The infinite row model's datasource: how `getRows` answers a row-range
 * request from the edges the repositories connection holds, after first
 * resetting the connection when the requested sort order differs from the
 * current one.
 *
 * The remote collection is a fixed ordered sequence of edges per order
 * (`Source`). The connection's `refetch` replaces the edges by the first
 * page under the new order; its `loadNext(count)` appends the `count` edges
 * that follow the last cached one (fewer at the end of the collection).
 */
module Pagination {
  import opened Wrappers
  import opened Orders
  import opened Rows

  /** The rows the server returns for each order argument, in order. */
  type Source = Option<RepositoryOrder> -> seq<Edge>

  /** The fragment's default `count`: the size of a refetched first page. */
  const FIRST_PAGE_SIZE: nat := 50

  /** What `getRows` reports to the grid: `successCallback(rows)` or `failCallback()`. */
  datatype RowsResult = Success(rows: seq<Edge>) | Fail

  /** How a row-range request is answered. */
  datatype Decision = CacheHit | Gap | LoadMore(count: nat)

  /**
   * The classification of a request `[startRow, endRow)` against the number
   * of cached edges; the fetch size is the width of the request.
   */
  function Classify(startRow: nat, endRow: nat, existingRows: nat): (d: Decision)
    requires startRow <= endRow
    ensures d == CacheHit <==> endRow <= existingRows
    ensures d == Gap <==> existingRows < startRow
    ensures d.LoadMore? <==> startRow <= existingRows < endRow
    ensures d.LoadMore? ==> d.count == endRow - startRow > 0
    ensures d.LoadMore? ==> existingRows + d.count >= endRow
  {
    if endRow <= existingRows then CacheHit
    else if startRow > existingRows then Gap
    else LoadMore(endRow - startRow)
  }

  /**
   * The answer once `loadNext` has completed: a failure when it reported an
   * error or the connection has no edges list, otherwise the requested slice
   * of whatever the connection now holds.
   */
  function CompleteLoad(error: bool, edges: Option<seq<Edge>>, startRow: nat, endRow: nat): (r: RowsResult)
    ensures r.Fail? <==> error || edges.None?
    ensures r.Success? ==> r.rows == JsSlice(edges.value, startRow, endRow)
  {
    if error || edges.None? then Fail else Success(JsSlice(edges.value, startRow, endRow))
  }

  /** The edges `refetch` leaves in the connection: the first page of `rows`. */
  function FirstPage(rows: seq<Edge>): (page: seq<Edge>)
    ensures page <= rows
    ensures |page| == Min(FIRST_PAGE_SIZE, |rows|)
  {
    rows[..Min(FIRST_PAGE_SIZE, |rows|)]
  }

  /** The edges `loadNext(count)` appends after the `cached` first edges of `rows`. */
  function NextEdges(rows: seq<Edge>, cached: nat, count: nat): (more: seq<Edge>)
    ensures |more| == Min(cached + count, |rows|) - Min(cached, |rows|)
    ensures forall i :: 0 <= i < |more| ==> cached + i < |rows| && more[i] == rows[cached + i]
  {
    rows[Min(cached, |rows|)..Min(cached + count, |rows|)]
  }

  /** The bridge's state: the `orderBy` signal and the connection's edges. */
  datatype Bridge = Bridge(orderBy: Option<RepositoryOrder>, edges: seq<Edge>)

  /** The cached edges are the start of the collection under the current order. */
  ghost predicate Consistent(source: Source, b: Bridge) {
    b.edges <= source(b.orderBy)
  }

  /** The state after the sort check: unchanged on an equal order, refetched otherwise. */
  function SyncOrder(source: Source, b: Bridge, newOrderBy: Option<RepositoryOrder>): (r: Bridge)
    ensures r.orderBy == newOrderBy
    ensures Consistent(source, b) ==> Consistent(source, r)
  {
    if newOrderBy == b.orderBy then b
    else Bridge(newOrderBy, FirstPage(source(newOrderBy)))
  }

  /** The outcome of a request: the new state, the answer and the `loadNext` count issued, if any. */
  datatype Served = Served(bridge: Bridge, result: RowsResult, loadCount: Option<nat>)

  /**
   * The classification step of `getRows`: a cache hit answers at once, a gap
   * fails at once, and otherwise one `loadNext` is issued whose completion
   * (`loadError` says whether it reported an error) decides the answer.
   */
  function Serve(source: Source, b: Bridge, startRow: nat, endRow: nat, loadError: bool): (s: Served)
    requires startRow <= endRow
    ensures s.bridge.orderBy == b.orderBy
    ensures b.edges <= s.bridge.edges
    ensures s.loadCount.Some? ==> s.loadCount.value == endRow - startRow
  {
    match Classify(startRow, endRow, |b.edges|)
    case CacheHit => Served(b, Success(JsSlice(b.edges, startRow, endRow)), None)
    case Gap => Served(b, Fail, None)
    case LoadMore(count) =>
      var edges := if loadError then b.edges
                   else b.edges + NextEdges(source(b.orderBy), |b.edges|, count);
      Served(Bridge(b.orderBy, edges), CompleteLoad(loadError, Some(edges), startRow, endRow), Some(count))
  }

  /** One whole `getRows` call: the sort check, then the classification. */
  function ServeRequest(source: Source, b: Bridge, sortModel: seq<SortModelItem>,
                        startRow: nat, endRow: nat, loadError: bool): (s: Served)
    requires startRow <= endRow
    ensures s.bridge.orderBy == OrderFromSortModel(sortModel)
  {
    Serve(source, SyncOrder(source, b, OrderFromSortModel(sortModel)), startRow, endRow, loadError)
  }

  /**
   * The datasource together with the state it reads and writes: the
   * `orderBy` signal and the connection's edges. The ghost logs record every
   * `refetch` and every `loadNext` it issues.
   */
  class Datasource {
    const source: Source
    var orderBy: Option<RepositoryOrder>
    var edges: seq<Edge>
    ghost var refetches: seq<Option<RepositoryOrder>>
    ghost var loadRequests: seq<nat>

    function State(): Bridge
      reads this
    {
      Bridge(orderBy, edges)
    }

    ghost predicate Valid()
      reads this
    {
      Consistent(source, State())
    }

    /** The page the initial query loads, under the signal's initial order. */
    constructor (source: Source)
      ensures Valid()
      ensures this.source == source
      ensures orderBy == INITIAL_ORDER && edges == FirstPage(source(INITIAL_ORDER))
      ensures refetches == [] && loadRequests == []
    {
      this.source := source;
      orderBy := INITIAL_ORDER;
      edges := FirstPage(source(INITIAL_ORDER));
      refetches := [];
      loadRequests := [];
    }

    /**
     * `getRows`: the sort check with its refetch, then the classification of
     * `[startRow, endRow)`; the completion of a `loadNext` is the event whose
     * error flag is `loadError`.
     */
    method GetRows(sortModel: seq<SortModelItem>, startRow: nat, endRow: nat, loadError: bool)
      returns (res: RowsResult)
      requires Valid()
      requires startRow <= endRow
      modifies this
      ensures Valid()
      ensures var s := ServeRequest(source, old(State()), sortModel, startRow, endRow, loadError);
        State() == s.bridge && res == s.result && loadRequests == old(loadRequests) + ToSeq(s.loadCount)
      ensures var o := OrderFromSortModel(sortModel);
        refetches == old(refetches) + (if o == old(orderBy) then [] else [o])
      ensures orderBy == OrderFromSortModel(sortModel)
      ensures res.Success? ==> res.rows == JsSlice(source(orderBy), startRow, endRow)
    {
      var newOrderBy := OrderFromSortModel(sortModel);
      SortCheck(newOrderBy);
      res := Answer(startRow, endRow, loadError);
    }

    /** The sort check: on a structurally different order, set `orderBy` and refetch. */
    method SortCheck(newOrderBy: Option<RepositoryOrder>)
      requires Valid()
      modifies this
      ensures Valid()
      ensures State() == SyncOrder(source, old(State()), newOrderBy)
      ensures refetches == old(refetches) + (if newOrderBy == old(orderBy) then [] else [newOrderBy])
      ensures loadRequests == old(loadRequests)
    {
      if newOrderBy != orderBy {
        orderBy := newOrderBy;
        edges := FirstPage(source(newOrderBy));
        refetches := refetches + [newOrderBy];
      }
    }

    /** The classification of `[startRow, endRow)` and its answer. */
    method Answer(startRow: nat, endRow: nat, loadError: bool) returns (res: RowsResult)
      requires Valid()
      requires startRow <= endRow
      modifies this
      ensures Valid()
      ensures var s := Serve(source, old(State()), startRow, endRow, loadError);
        State() == s.bridge && res == s.result && loadRequests == old(loadRequests) + ToSeq(s.loadCount)
      ensures refetches == old(refetches)
      ensures res.Success? ==> res.rows == JsSlice(source(orderBy), startRow, endRow)
    {
      AnswersComeFromSource(source, State(), startRow, endRow, loadError);
      var count := endRow - startRow;
      var existingRows := |edges|;
      if endRow <= existingRows {
        res := Success(JsSlice(edges, startRow, endRow));
      } else if startRow > existingRows {
        res := Fail;
      } else {
        loadRequests := loadRequests + [count];
        if !loadError {
          edges := edges + NextEdges(source(orderBy), existingRows, count);
        }
        res := CompleteLoad(loadError, Some(edges), startRow, endRow);
      }
    }
  }

  /**
   * Every request keeps the cached edges the start of the collection under
   * the current order, and every successful answer is exactly the requested
   * slice of that collection.
   */
  lemma AnswersComeFromSource(source: Source, b: Bridge, startRow: nat, endRow: nat, loadError: bool)
    requires Consistent(source, b)
    requires startRow <= endRow
    ensures var s := Serve(source, b, startRow, endRow, loadError);
      && Consistent(source, s.bridge)
      && s.bridge.orderBy == b.orderBy
      && (s.result.Success? ==> s.result.rows == JsSlice(source(b.orderBy), startRow, endRow))
  {
    var rows := source(b.orderBy);
    var s := Serve(source, b, startRow, endRow, loadError);
    match Classify(startRow, endRow, |b.edges|)
    case CacheHit =>
      JsSliceOfPrefix(b.edges, rows, startRow, endRow);
    case Gap =>
    case LoadMore(count) =>
      if !loadError {
        var more := NextEdges(rows, |b.edges|, count);
        var edges := b.edges + more;
        assert edges <= rows by {
          forall i | 0 <= i < |edges| ensures edges[i] == rows[i] {
            if i >= |b.edges| { assert edges[i] == more[i - |b.edges|]; }
          }
        }
        JsSliceOfPrefix(edges, rows, startRow, endRow);
      }
  }
}
