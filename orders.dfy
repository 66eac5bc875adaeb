/**
 * The grid's sort model and the `RepositoryOrder` argument of the
 * repositories connection, and the translation from one to the other that
 * `getRows` performs before it compares the order with the current one.
 */
module Orders {
  import opened Wrappers

  /** The fields GitHub can order a viewer's repositories by. */
  datatype OrderField = NAME | STARGAZERS | CREATED_AT | UPDATED_AT

  datatype OrderDirection = ASC | DESC

  /** `RepositoryOrder`: a field and a direction; equality is structural. */
  datatype RepositoryOrder = RepositoryOrder(field: OrderField, direction: OrderDirection)

  /** The grid's sort direction of a sort-model entry, `"asc"` or `"desc"`. */
  datatype SortDirection = Asc | Desc

  /** One entry of the grid's sort model: the sorted column and its direction. */
  datatype SortModelItem = SortModelItem(colId: string, sort: SortDirection)

  /** The order the `orderBy` signal starts with, the fragment's default order. */
  const INITIAL_ORDER: Option<RepositoryOrder> := Some(RepositoryOrder(STARGAZERS, DESC))

  /** The column ids the lookup table knows. */
  const KNOWN_COLUMNS: set<string> :=
    {"node.name", "node.stargazerCount", "node.createdAt", "node.updatedAt"}

  /** The column whose id the lookup table maps to `f`. */
  function ColumnOf(f: OrderField): (colId: string)
    ensures colId in KNOWN_COLUMNS
  {
    match f
    case NAME => "node.name"
    case STARGAZERS => "node.stargazerCount"
    case CREATED_AT => "node.createdAt"
    case UPDATED_AT => "node.updatedAt"
  }

  /** The lookup from column id to order field; an unknown id falls back to NAME. */
  function FieldForColumn(colId: string): (f: OrderField)
    ensures colId in KNOWN_COLUMNS ==> ColumnOf(f) == colId
    ensures colId !in KNOWN_COLUMNS ==> f == NAME
  {
    if colId == "node.name" then NAME
    else if colId == "node.stargazerCount" then STARGAZERS
    else if colId == "node.createdAt" then CREATED_AT
    else if colId == "node.updatedAt" then UPDATED_AT
    else NAME
  }

  /** The grid direction that the lookup table maps to `d`. */
  function SortOf(d: OrderDirection): SortDirection {
    match d
    case ASC => Asc
    case DESC => Desc
  }

  /** The lookup from `"asc"`/`"desc"` to `ASC`/`DESC`. */
  function DirectionFor(s: SortDirection): (d: OrderDirection)
    ensures SortOf(d) == s
  {
    match s
    case Asc => ASC
    case Desc => DESC
  }

  /**
   * The order a sort model asks for: only its first entry is looked at, and
   * an empty sort model yields no order (`undefined`).
   */
  function OrderFromSortModel(sortModel: seq<SortModelItem>): (r: Option<RepositoryOrder>)
    ensures r.None? <==> sortModel == []
  {
    if sortModel == [] then None
    else Some(RepositoryOrder(FieldForColumn(sortModel[0].colId), DirectionFor(sortModel[0].sort)))
  }

  /** Every order field is reached from exactly its own column. */
  lemma ColumnRoundTrip(f: OrderField)
    ensures FieldForColumn(ColumnOf(f)) == f
  {
  }

  /** Two sort models with the same first entry yield the same order. */
  lemma OnlyFirstEntryCounts(a: seq<SortModelItem>, b: seq<SortModelItem>)
    requires a != [] && b != [] && a[0] == b[0]
    ensures OrderFromSortModel(a) == OrderFromSortModel(b)
  {
  }

  /**
   * The translation loses nothing for a known column: the order gives back
   * the first sort-model entry. For an unknown column it orders by NAME.
   */
  lemma OrderDeterminesFirstEntry(sortModel: seq<SortModelItem>)
    requires sortModel != []
    ensures var o := OrderFromSortModel(sortModel).value;
      && SortOf(o.direction) == sortModel[0].sort
      && (sortModel[0].colId in KNOWN_COLUMNS ==> ColumnOf(o.field) == sortModel[0].colId)
      && (sortModel[0].colId !in KNOWN_COLUMNS ==> o.field == NAME)
  {
  }

  /**
   * Two sort models on known columns yield structurally equal orders exactly
   * when their first entries are equal.
   */
  lemma EqualOrdersIffEqualFirstEntries(a: seq<SortModelItem>, b: seq<SortModelItem>)
    requires a != [] && b != []
    requires a[0].colId in KNOWN_COLUMNS && b[0].colId in KNOWN_COLUMNS
    ensures OrderFromSortModel(a) == OrderFromSortModel(b) <==> a[0] == b[0]
  {
    if OrderFromSortModel(a) == OrderFromSortModel(b) {
      OrderDeterminesFirstEntry(a);
      OrderDeterminesFirstEntry(b);
    }
  }

  /**
   * The grid's initial sort (the Stars column, descending) is the order the
   * signal starts with, so the first request does not refetch.
   */
  lemma InitialSortIsInitialOrder()
    ensures OrderFromSortModel([SortModelItem("node.stargazerCount", Desc)]) == INITIAL_ORDER
  {
  }
}
