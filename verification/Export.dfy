/** Keyset pagination of an export over a table that keeps changing, and its row counter. */
module Export {

  /** The ids, all positive, that match an export's conditions at one moment. */
  type Table = t: set<int> | forall id :: id in t ==> id > 0

  ghost predicate Ascending(ids: seq<int>) { forall i, j :: 0 <= i < j < |ids| ==> ids[i] < ids[j] }

  /** `page` is what `where id > after order by id limit n` returns. */
  ghost predicate IsPage(table: Table, after: int, limit: nat, page: seq<int>) {
    && Ascending(page) && |page| <= limit
    && (forall i :: 0 <= i < |page| ==> page[i] in table && page[i] > after)
    && (forall id :: id in table && id > after && id !in page ==> |page| == limit > 0 && page[limit - 1] < id)
  }

  function Beyond(table: Table, after: int): Table { set id | id in table && id > after }

  method SmallestAbove(table: Table, after: int) returns (id: int)
    requires Beyond(table, after) != {}
    ensures id in table && id > after && forall other :: other in table && other > after ==> id <= other
  {
    var left := Beyond(table, after);
    id :| id in left;
    left := left - {id};
    while left != {}
      invariant left <= Beyond(table, after) && id in Beyond(table, after)
      invariant forall other :: other in Beyond(table, after) && other !in left ==> id <= other
      decreases |left|
    {
      var other :| other in left;
      left := left - {other};
      if other < id { id := other; }
    }
    assert forall other :: other in table && other > after ==> other in Beyond(table, after);
  }

  method SelectPage(table: Table, after: int, limit: nat) returns (page: seq<int>)
    requires limit > 0
    ensures IsPage(table, after, limit, page)
  {
    page := [];
    var cursor := after;
    while |page| < limit && Beyond(table, cursor) != {}
      invariant |page| <= limit && Ascending(page) && cursor == if page == [] then after else page[|page| - 1]
      invariant forall i :: 0 <= i < |page| ==> page[i] in table && after < page[i] <= cursor
      invariant forall id :: id in table && id > after ==> id in page || id > cursor
      decreases limit - |page|
    {
      cursor := SmallestAbove(table, cursor);
      page := page + [cursor];
    }
    assert forall id :: id in table && id > cursor ==> id in Beyond(table, cursor);
  }

  /** A row is decided by the one query whose page passes its id: it is exported if it matched at that moment. */
  ghost predicate DecidedBy(at: nat -> Table, rows: seq<int>, k: nat, id: int) { id in rows <==> id in at(k) }

  ghost predicate Decided(at: nat -> Table, rows: seq<int>, queries: nat, id: int) {
    exists k: nat :: k < queries && DecidedBy(at, rows, k, id)
  }

  /** What `queries` queries, the last with cursor `last`, have settled; all of it once `finished`. */
  ghost predicate Settled(at: nat -> Table, rows: seq<int>, queries: nat, last: int, finished: bool) {
    forall id :: 0 < id && (id <= last || finished) ==> Decided(at, rows, queries, id)
  }

  /** Every exported row matched when its page was read. */
  ghost predicate Witnessed(at: nat -> Table, rows: seq<int>, queries: nat) {
    forall id :: id in rows ==> exists k: nat :: k < queries && id in at(k)
  }

  /** What a finished export over this run of snapshots satisfies. */
  ghost predicate Finished(at: nat -> Table, rows: seq<int>, queries: nat) {
    && Ascending(rows) && Witnessed(at, rows, queries)
    && forall id :: id > 0 ==> Decided(at, rows, queries, id)
  }

  lemma PageAppends(at: nat -> Table, rows: seq<int>, queries: nat, last: int, limit: nat, page: seq<int>)
    requires limit > 0 && IsPage(at(queries), last, limit, page) && last >= 0
    requires Ascending(rows) && (forall i :: 0 <= i < |rows| ==> rows[i] <= last)
    requires Settled(at, rows, queries, last, false) && Witnessed(at, rows, queries)
    ensures var next := if page == [] then last else page[|page| - 1];
            && Ascending(rows + page) && (forall i :: 0 <= i < |rows + page| ==> (rows + page)[i] <= next)
            && Settled(at, rows + page, queries + 1, next, |page| < limit) && Witnessed(at, rows + page, queries + 1)
  {
    var next := if page == [] then last else page[|page| - 1];
    var all, done := rows + page, queries + 1;
    forall id ensures 0 < id && (id <= next || |page| < limit) ==> Decided(at, all, done, id) {
      if 0 < id <= last {
        assert Decided(at, rows, queries, id);
        var k: nat :| k < queries && DecidedBy(at, rows, k, id);
        assert DecidedBy(at, rows + page, k, id);
      } else if 0 < id && (id <= next || |page| < limit) {
        assert DecidedBy(at, rows + page, queries, id);
      }
    }
    forall id | id in rows + page ensures exists k: nat :: k < queries + 1 && id in at(k) {
      if id in rows {
        var k: nat :| k < queries && id in at(k);
        assert k < queries + 1 && id in at(k);
      } else {
        assert id in at(queries);
      }
    }
  }

  /** All rows that ever match are among these. */
  ghost predicate Bounded(at: nat -> Table, all: set<int>) { forall k: nat :: at(k) <= all }

  lemma {:induction false} DistinctCount(rows: seq<int>, ids: set<int>)
    requires Ascending(rows) && forall id :: id in rows <==> id in ids
    ensures |rows| == |ids|
  {
    if rows == [] {
      assert forall id :: id !in ids;
      assert ids == {};
    } else {
      var n := |rows| - 1;
      assert rows == rows[..n] + [rows[n]];
      DistinctCount(rows[..n], ids - {rows[n]});
    }
  }

  lemma {:induction false} Subset(a: set<int>, b: set<int>)
    requires a <= b
    ensures |a| <= |b|
  {
    assert |b - a| + |a| == |b|;
  }

  /** The rows exported are different ones that matched at some time. */
  lemma NoMoreThanMatched(at: nat -> Table, rows: seq<int>, queries: nat, all: set<int>)
    requires Ascending(rows) && Witnessed(at, rows, queries) && Bounded(at, all)
    ensures |rows| <= |all|
  {
    var ids := set id | id in rows;
    DistinctCount(rows, ids);
    assert ids <= all;
    Subset(ids, all);
  }

  /**
   * What a reader has received once the export has made at most `rounds`
   * queries, the k-th of which finds the matching rows `at(k)`.  If only so
   * many rows ever match, enough queries finish it.
   */
  method StreamRows(at: nat -> Table, limit: nat, rounds: nat)
    returns (rows: seq<int>, rowCounter: nat, queries: nat, finished: bool)
    requires limit > 0
    ensures rowCounter == |rows| && Ascending(rows)
    ensures queries <= rounds && Witnessed(at, rows, queries)
    ensures finished ==> Finished(at, rows, queries)
    ensures !finished ==> queries == rounds && |rows| == rounds * limit
    ensures forall all: set<int> :: Bounded(at, all) && |all| < rounds * limit ==> finished
  {
    rows, rowCounter, queries, finished := [], 0, 0, false;
    var lastId := 0;
    while queries < rounds
      invariant 0 <= queries <= rounds && rowCounter == |rows| == queries * limit && lastId >= 0
      invariant Ascending(rows) && forall i :: 0 <= i < |rows| ==> rows[i] <= lastId
      invariant Settled(at, rows, queries, lastId, false) && Witnessed(at, rows, queries)
      decreases rounds - queries
    {
      var page := SelectPage(at(queries), lastId, limit);
      PageAppends(at, rows, queries, lastId, limit, page);
      queries := queries + 1;
      if page == [] {
        assert rows + page == rows;
        finished := true;
        return;
      }
      rowCounter := rowCounter + |page|;
      rows := rows + page;
      lastId := page[|page| - 1];
      if |page| < limit {
        finished := true;
        return;
      }
    }
    forall all: set<int> | Bounded(at, all) ensures |rows| <= |all| { NoMoreThanMatched(at, rows, queries, all); }
  }

  // ---- What a reader can rely on --------------------------------------------

  /**
   * A row that matches throughout is exported exactly once, one that never matches is
   * not, whatever else comes and goes.
   */
  lemma PresentThroughout(at: nat -> Table, rows: seq<int>, queries: nat, id: int)
    requires Finished(at, rows, queries) && id > 0
    ensures (forall k: nat :: k < queries ==> id in at(k)) ==> multiset(rows)[id] == 1
    ensures (forall k: nat :: k < queries ==> id !in at(k)) ==> id !in rows
  {
    assert Decided(at, rows, queries, id);
    var k: nat :| k < queries && DecidedBy(at, rows, k, id);
    assert id in rows <==> id in at(k);
    OccursOnce(rows, id);
  }

  lemma {:induction false} OccursOnce(rows: seq<int>, id: int)
    requires Ascending(rows)
    ensures multiset(rows)[id] == if id in rows then 1 else 0
  {
    if rows != [] {
      var n := |rows| - 1;
      OccursOnce(rows[..n], id);
      assert rows == rows[..n] + [rows[n]];
    }
  }

  /** Over a table that does not change, the export is exactly the matching rows in order. */
  lemma StaticExport(at: nat -> Table, rows: seq<int>, queries: nat, table: Table)
    requires Finished(at, rows, queries) && forall k: nat :: at(k) == table
    ensures forall id :: id in rows <==> id in table
    ensures |rows| == |table|
  {
    assert forall id :: id in rows ==> id > 0 by {
      forall id | id in rows ensures id > 0 {
        var k: nat :| k < queries && id in at(k);
      }
    }
    forall id ensures id in rows <==> id in table {
      if id > 0 {
        assert Decided(at, rows, queries, id);
        var k: nat :| k < queries && DecidedBy(at, rows, k, id);
      }
    }
    DistinctCount(rows, table);
  }
}
