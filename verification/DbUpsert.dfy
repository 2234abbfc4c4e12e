/** Batched "insert or increment" into a keyed table. */
module DbUpsert {
  import opened Sequences
  import opened Tables

  const MAX_VARIABLES := 900

  function BatchSize(columnsPerRow: nat, maxVariables: nat): (n: nat)
    requires columnsPerRow > 0
    ensures n >= 1
  {
    if maxVariables / columnsPerRow >= 1 then maxVariables / columnsPerRow else 1
  }

  /** It is the largest number of rows that a statement can bind, but at least one. */
  lemma BatchIsLargest(columnsPerRow: nat, maxVariables: nat)
    requires columnsPerRow > 0
    ensures var n := BatchSize(columnsPerRow, maxVariables);
            (n > 1 ==> n * columnsPerRow <= maxVariables) && maxVariables < (n + 1) * columnsPerRow
  {
    var n := maxVariables / columnsPerRow;
    assert n * columnsPerRow <= maxVariables < (n + 1) * columnsPerRow;
  }

  /** A batch binds at most the permitted number of variables, as soon as a single row does. */
  lemma BatchWithinBudget(rows: nat, columnsPerRow: nat, maxVariables: nat)
    requires 0 < columnsPerRow <= maxVariables && rows <= BatchSize(columnsPerRow, maxVariables)
    ensures rows * columnsPerRow <= maxVariables
  {
    assert rows <= maxVariables / columnsPerRow;
    ProductMonotone(rows, maxVariables / columnsPerRow, columnsPerRow);
  }

  lemma ProductMonotone(a: nat, b: nat, c: nat)
    requires a <= b
    ensures a * c <= b * c
  {}

  /**
   * Splits rows into statements: in order, none empty, and none binding too many
   * variables unless a single row does.
   */
  method ChunkRows<T>(rows: seq<T>, columnsPerRow: nat, maxVariables: nat) returns (batches: seq<seq<T>>)
    requires columnsPerRow > 0
    ensures Flatten(batches) == rows
    ensures forall i :: 0 <= i < |batches| ==> 0 < |batches[i]| <= BatchSize(columnsPerRow, maxVariables)
    ensures forall i :: 0 <= i < |batches| - 1 ==> |batches[i]| == BatchSize(columnsPerRow, maxVariables)
    ensures columnsPerRow <= maxVariables ==>
              forall i :: 0 <= i < |batches| ==> |batches[i]| * columnsPerRow <= maxVariables
  {
    hide BatchSize;
    var size := BatchSize(columnsPerRow, maxVariables);
    batches := [];
    var start := 0;
    while start < |rows|
      invariant 0 <= start
      invariant Flatten(batches) == rows[..if start <= |rows| then start else |rows|]
      invariant forall i :: 0 <= i < |batches| ==> 0 < |batches[i]| <= size
      invariant forall i :: 0 <= i < |batches| && (i < |batches| - 1 || start <= |rows|) ==> |batches[i]| == size
    {
      var end := if start + size <= |rows| then start + size else |rows|;
      ghost var before := batches;
      batches := batches + [rows[start..end]];
      assert batches[..|batches| - 1] == before;
      start := start + size;
    }
    assert rows[..|rows|] == rows;
    if columnsPerRow <= maxVariables {
      forall i | 0 <= i < |batches| ensures |batches[i]| * columnsPerRow <= maxVariables {
        BatchWithinBudget(|batches[i]|, columnsPerRow, maxVariables);
      }
    }
  }

  /**
   * One INSERT ... ON CONFLICT DO UPDATE statement; not `ok` if a row does not fit
   * its columns, and then without effect.
   */
  method ExecuteUpsert<K, V>(t: map<K, V>, batch: seq<(K, V)>, plus: (V, V) -> V, keyFits: K -> bool, fits: V -> bool)
    returns (ok: bool, t': map<K, V>)
    ensures ok <==> RowsTaken(t, batch, plus, keyFits, fits)
    ensures t' == if ok then Upsert(t, batch, plus) else t
  {
    ok, t' := true, t;
    var i := 0;
    while i < |batch|
      invariant 0 <= i <= |batch|
      invariant t' == Upsert(t, batch[..i], plus) && RowsTaken(t, batch[..i], plus, keyFits, fits)
    {
      assert batch[..i + 1][..i] == batch[..i];
      var k, v := batch[i].0, batch[i].1;
      if !keyFits(k) || !fits(v) || !fits(Combined(t', k, v, plus)) {
        assert batch == batch[..i + 1] + batch[i + 1..];
        RowsTakenConcat(t, batch[..i + 1], batch[i + 1..], plus, keyFits, fits);
        return false, t;
      }
      if k in t' {
        t' := t'[k := plus(t'[k], v)];
      } else {
        t' := t'[k := v];
      }
      i := i + 1;
    }
    assert batch[..i] == batch;
  }

  lemma NothingUpserted<K, V>(t: map<K, V>, plus: (V, V) -> V, keyFits: K -> bool, fits: V -> bool)
    ensures Upsert(t, [], plus) == t && RowsTaken(t, [], plus, keyFits, fits)
  {}

  /**
   * However many statements the rows are cut into, the table ends up as if
   * they were written one by one, or unchanged if one of them does not fit.
   */
  method BulkUpsertSum<K, V>(t: map<K, V>, rows: seq<(K, V)>, columnsPerRow: nat, plus: (V, V) -> V,
      keyFits: K -> bool, fits: V -> bool)
    returns (ok: bool, t': map<K, V>)
    requires columnsPerRow > 0
    ensures ok <==> RowsTaken(t, rows, plus, keyFits, fits)
    ensures t' == if ok then Upsert(t, rows, plus) else t
  {
    hide BatchSize, Upsert, RowsTaken;
    ok, t' := true, t;
    NothingUpserted(t, plus, keyFits, fits);
    if rows == [] { return; }
    var batches := ChunkRows(rows, columnsPerRow, MAX_VARIABLES);
    var i := 0;
    while i < |batches|
      invariant 0 <= i <= |batches|
      invariant t' == Upsert(t, Flatten(batches[..i]), plus)
      invariant RowsTaken(t, Flatten(batches[..i]), plus, keyFits, fits)
    {
      assert batches[..i + 1][..i] == batches[..i];
      UpsertConcat(t, Flatten(batches[..i]), batches[i], plus);
      RowsTakenConcat(t, Flatten(batches[..i]), batches[i], plus, keyFits, fits);
      ok, t' := ExecuteUpsert(t', batches[i], plus, keyFits, fits);
      if !ok {
        FlattenSplit(batches, i + 1);
        RowsTakenConcat(t, Flatten(batches[..i + 1]), Flatten(batches[i + 1..]), plus, keyFits, fits);
        return false, t;
      }
      i := i + 1;
    }
    assert batches[..i] == batches;
  }
}
