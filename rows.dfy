/**
 * The rows of the table: the edges of the repositories connection, each a
 * server-issued cursor and a repository node, and the two operations the
 * bridge applies to them, `Array.prototype.slice` and `getRowId`.
 */
module Rows {
  import opened Wrappers

  /** The repository fields the connection selects. */
  datatype Repository = Repository(
    id: string,
    name: string,
    stargazerCount: int,
    createdAt: string,
    updatedAt: string,
    isFork: bool)

  /** One edge of the connection, and one row of the grid. */
  datatype Edge = Edge(cursor: string, node: Repository)

  /** `getRowId`: a row is identified by its edge's cursor. */
  function RowId(e: Edge): string {
    e.cursor
  }

  /** No two rows share a row id. */
  ghost predicate UniqueRowIds(s: seq<Edge>) {
    forall i, j :: 0 <= i < j < |s| ==> RowId(s[i]) != RowId(s[j])
  }

  /**
   * `s.slice(start, end)` for non-negative bounds: both bounds are clamped to
   * the length, and an empty range gives the empty sequence.
   */
  function JsSlice<T>(s: seq<T>, start: nat, end: nat): (r: seq<T>)
    ensures start <= end <= |s| ==> r == s[start..end]
    ensures |r| == if start <= end then Min(end, |s|) - Min(start, |s|) else 0
    ensures forall i :: 0 <= i < |r| ==> start + i < |s| && r[i] == s[start + i]
  {
    var lo := Min(start, |s|);
    var hi := Min(end, |s|);
    if lo <= hi then s[lo..hi] else []
  }

  /**
   * A slice of `p` is the same slice of `s` when `p` is a prefix of `s` that
   * holds every row of the range that `s` holds.
   */
  lemma JsSliceOfPrefix<T>(p: seq<T>, s: seq<T>, start: nat, end: nat)
    requires p <= s
    requires end <= |p| || |p| == |s|
    ensures JsSlice(p, start, end) == JsSlice(s, start, end)
  {
    var a, b := JsSlice(p, start, end), JsSlice(s, start, end);
    assert |a| == |b|;
    forall i | 0 <= i < |a| ensures a[i] == b[i] {
      assert start + i < |p|;
    }
  }

  /** A slice of rows with unique row ids has unique row ids. */
  lemma SliceKeepsUniqueRowIds(s: seq<Edge>, start: nat, end: nat)
    requires UniqueRowIds(s)
    ensures UniqueRowIds(JsSlice(s, start, end))
  {
    var r := JsSlice(s, start, end);
    forall i, j | 0 <= i < j < |r| ensures RowId(r[i]) != RowId(r[j]) {
      assert r[i] == s[start + i] && r[j] == s[start + j];
    }
  }

  /** The grid's rows keyed by `getRowId`; a later row wins a shared id. */
  function IndexByRowId(block: seq<Edge>): (m: map<string, Edge>)
    ensures m.Keys == set e | e in block :: RowId(e)
    ensures forall id :: id in m ==> m[id] in block && RowId(m[id]) == id
  {
    if block == [] then map[]
    else
      var last := block[|block| - 1];
      var init := block[..|block| - 1];
      assert block == init + [last];
      IndexByRowId(init)[RowId(last) := last]
  }

  /** Within a block whose row ids are unique, every row is found under its own id. */
  lemma {:induction false} IndexFindsEveryRow(block: seq<Edge>, i: nat)
    requires UniqueRowIds(block)
    requires i < |block|
    ensures IndexByRowId(block)[RowId(block[i])] == block[i]
  {
    var n := |block|;
    if i < n - 1 {
      var init := block[..n - 1];
      assert UniqueRowIds(init) by {
        forall a, b | 0 <= a < b < |init| ensures RowId(init[a]) != RowId(init[b]) {
          assert init[a] == block[a] && init[b] == block[b];
        }
      }
      IndexFindsEveryRow(init, i);
      assert init[i] == block[i];
      assert RowId(block[i]) != RowId(block[n - 1]);
    }
  }
}
