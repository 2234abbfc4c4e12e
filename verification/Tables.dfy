/**
 * Keyed tables as maps: grouping a sequence, inserting-or-adding rows, and
 * totals over the rows whose key satisfies a condition.
 */
module Tables {
  import opened Options

  /** Insert a row, or combine it with the one already under its key. */
  function Bump<K, V>(t: map<K, V>, k: K, v: V, plus: (V, V) -> V): map<K, V> {
    t[k := if k in t then plus(t[k], v) else v]
  }

  /** GROUP BY from scratch; an item without a key contributes nothing. */
  function GroupBy<E, K, V>(items: seq<E>, key: E -> Option<K>, val: E -> V, plus: (V, V) -> V): map<K, V> {
    if items == [] then map[]
    else
      var last := items[|items| - 1];
      var t := GroupBy(items[..|items| - 1], key, val, plus);
      match key(last)
      case None => t
      case Some(k) => Bump(t, k, val(last), plus)
  }

  /** Insert-or-add, one row after the other. */
  function Upsert<K, V>(t: map<K, V>, rows: seq<(K, V)>, plus: (V, V) -> V): map<K, V> {
    if rows == [] then t
    else Bump(Upsert(t, rows[..|rows| - 1], plus), rows[|rows| - 1].0, rows[|rows| - 1].1, plus)
  }

  /** Insert-or-add of a whole table at once. */
  function Merge<K, V>(t: map<K, V>, d: map<K, V>, plus: (V, V) -> V): map<K, V> {
    map k | k in t.Keys + d.Keys ::
      if k in t && k in d then plus(t[k], d[k]) else if k in t then t[k] else d[k]
  }

  /** `rows` enumerates the entries of `m`, each once, in some order. */
  ghost predicate Lists<K, V>(rows: seq<(K, V)>, m: map<K, V>) {
    && (forall i :: 0 <= i < |rows| ==> rows[i].0 in m && m[rows[i].0] == rows[i].1)
    && (forall k :: k in m ==> exists i :: 0 <= i < |rows| && rows[i].0 == k)
    && forall i, j :: 0 <= i < j < |rows| ==> rows[i].0 != rows[j].0
  }

  ghost predicate Associative<V(!new)>(plus: (V, V) -> V) {
    forall a: V, b: V, c: V :: plus(plus(a, b), c) == plus(a, plus(b, c))
  }

  lemma {:induction false} UpsertConcat<K, V>(t: map<K, V>, a: seq<(K, V)>, b: seq<(K, V)>, plus: (V, V) -> V)
    ensures Upsert(t, a + b, plus) == Upsert(Upsert(t, a, plus), b, plus)
  {
    if b == [] {
      assert a + b == a;
    } else {
      UpsertConcat(t, a, b[..|b| - 1], plus);
      assert (a + b)[..|a + b| - 1] == a + b[..|b| - 1];
    }
  }

  lemma ListsFront<K, V>(rows: seq<(K, V)>, m: map<K, V>)
    requires Lists(rows, m) && rows != []
    ensures var k := rows[|rows| - 1].0;
            k in m && rows[|rows| - 1].1 == m[k] && Lists(rows[..|rows| - 1], m - {k})
  {
    var front, k := rows[..|rows| - 1], rows[|rows| - 1].0;
    forall x | x in m - {k} ensures exists i :: 0 <= i < |front| && front[i].0 == x {
      var i :| 0 <= i < |rows| && rows[i].0 == x;
      assert front[i].0 == x;
    }
  }

  lemma MergeGrow<K, V>(t: map<K, V>, d: map<K, V>, k: K, plus: (V, V) -> V)
    requires k in d
    ensures Merge(t, d, plus) == Bump(Merge(t, d - {k}, plus), k, d[k], plus)
  {}

  /** In whatever order a table's rows are listed, upserting them merges the table. */
  lemma {:induction false} UpsertIsMerge<K, V>(t: map<K, V>, rows: seq<(K, V)>, d: map<K, V>, plus: (V, V) -> V)
    requires Lists(rows, d)
    ensures Upsert(t, rows, plus) == Merge(t, d, plus)
  {
    if rows == [] {
      assert Merge(t, d, plus) == t;
    } else {
      hide Lists, Merge, Bump;
      var k := rows[|rows| - 1].0;
      ListsFront(rows, d);
      UpsertIsMerge(t, rows[..|rows| - 1], d - {k}, plus);
      MergeGrow(t, d, k, plus);
    }
  }

  /** Flushing two batches one after the other is grouping them together. */
  lemma {:induction false} MergeGroups<E, K, V(!new)>(a: seq<E>, b: seq<E>, key: E -> Option<K>, val: E -> V,
      plus: (V, V) -> V)
    requires Associative(plus)
    ensures Merge(GroupBy(a, key, val, plus), GroupBy(b, key, val, plus), plus) == GroupBy(a + b, key, val, plus)
  {
    if b == [] {
      assert a + b == a;
    } else {
      var front, last := b[..|b| - 1], b[|b| - 1];
      MergeGroups(a, front, key, val, plus);
      assert (a + b)[..|a + b| - 1] == a + front;
      if key(last).Some? {
        MergeBump(GroupBy(a, key, val, plus), GroupBy(front, key, val, plus), key(last).value, val(last), plus);
      }
    }
  }

  lemma MergeBump<K, V(!new)>(t: map<K, V>, d: map<K, V>, k: K, v: V, plus: (V, V) -> V)
    requires Associative(plus)
    ensures Merge(t, Bump(d, k, v, plus), plus) == Bump(Merge(t, d, plus), k, v, plus)
  {
    if k in t && k in d {
      assert plus(plus(t[k], d[k]), v) == plus(t[k], plus(d[k], v));
    }
  }

  // ---- Rows and their columns -----------------------------------------------

  /** What one row combines to with the table. */
  function Combined<K, V>(t: map<K, V>, k: K, v: V, plus: (V, V) -> V): V { if k in t then plus(t[k], v) else v }

  /** Every row of `d` fits its columns, both as it is written and as it is combined. */
  predicate TableTakes<K, V>(t: map<K, V>, d: map<K, V>, plus: (V, V) -> V, keyFits: K -> bool, fits: V -> bool) {
    forall k :: k in d ==> keyFits(k) && fits(d[k]) && fits(Combined(t, k, d[k], plus))
  }

  /** The same for rows upserted one after the other. */
  predicate RowsTaken<K, V>(t: map<K, V>, rows: seq<(K, V)>, plus: (V, V) -> V, keyFits: K -> bool, fits: V -> bool) {
    rows == [] ||
    var front, last := rows[..|rows| - 1], rows[|rows| - 1];
    && RowsTaken(t, front, plus, keyFits, fits)
    && keyFits(last.0) && fits(last.1) && fits(Combined(Upsert(t, front, plus), last.0, last.1, plus))
  }

  lemma {:induction false} RowsTakenConcat<K, V>(t: map<K, V>, a: seq<(K, V)>, b: seq<(K, V)>, plus: (V, V) -> V,
      keyFits: K -> bool, fits: V -> bool)
    ensures RowsTaken(t, a + b, plus, keyFits, fits)
            <==> RowsTaken(t, a, plus, keyFits, fits) && RowsTaken(Upsert(t, a, plus), b, plus, keyFits, fits)
  {
    if b == [] {
      assert a + b == a;
    } else {
      RowsTakenConcat(t, a, b[..|b| - 1], plus, keyFits, fits);
      UpsertConcat(t, a, b[..|b| - 1], plus);
      assert (a + b)[..|a + b| - 1] == a + b[..|b| - 1];
    }
  }

  /** In whatever order a table's rows are listed, they are taken exactly if the table is. */
  lemma {:induction false} RowsTakenIff<K, V>(t: map<K, V>, rows: seq<(K, V)>, d: map<K, V>, plus: (V, V) -> V,
      keyFits: K -> bool, fits: V -> bool)
    requires Lists(rows, d)
    ensures RowsTaken(t, rows, plus, keyFits, fits) <==> TableTakes(t, d, plus, keyFits, fits)
  {
    if rows == [] {
      assert d == map[];
    } else {
      hide Lists, Upsert, Combined;
      var front, k := rows[..|rows| - 1], rows[|rows| - 1].0;
      ListsFront(rows, d);
      RowsTakenIff(t, front, d - {k}, plus, keyFits, fits);
      UpsertIsMerge(t, front, d - {k}, plus);
      CombinedApart(t, d - {k}, k, d[k], plus);
      assert forall x :: x in d <==> x in d - {k} || x == k;
    }
  }

  lemma CombinedApart<K, V>(t: map<K, V>, d: map<K, V>, k: K, v: V, plus: (V, V) -> V)
    requires k !in d
    ensures Combined(Merge(t, d, plus), k, v, plus) == Combined(t, k, v, plus)
  {}

  lemma {:induction false} GroupKeys<E, K, V>(items: seq<E>, key: E -> Option<K>, val: E -> V, plus: (V, V) -> V, k: K)
    ensures k in GroupBy(items, key, val, plus) <==> exists e :: e in items && key(e) == Some(k)
  {
    if items != [] {
      var front, last := items[..|items| - 1], items[|items| - 1];
      GroupKeys(front, key, val, plus, k);
      assert items == front + [last];
      if e :| e in front && key(e) == Some(k) { assert e in items; }
    }
  }

  lemma GroupOfTwo<E, K, V>(e: E, f: E, key: E -> Option<K>, val: E -> V, plus: (V, V) -> V)
    requires key(e) == key(f) && key(e).Some?
    ensures var t := GroupBy([e, f], key, val, plus); key(e).value in t && t[key(e).value] == plus(val(e), val(f))
  {
    assert [e, f][..1] == [e] && [e][..0] == [];
    assert GroupBy([e], key, val, plus) == Bump(GroupBy([], key, val, plus), key(e).value, val(e), plus);
    assert GroupBy([e, f], key, val, plus) == Bump(GroupBy([e], key, val, plus), key(f).value, val(f), plus);
  }

  /** Sums of good values are good, and fit only where both parts do. */
  ghost predicate Downward<V(!new)>(good: V -> bool, plus: (V, V) -> V, fits: V -> bool) {
    forall a: V, b: V :: good(a) && good(b) ==> good(plus(a, b)) && (fits(plus(a, b)) ==> fits(a) && fits(b))
  }

  ghost predicate GoodItems<E, K, V>(items: seq<E>, key: E -> Option<K>, val: E -> V, good: V -> bool) {
    forall i :: 0 <= i < |items| && key(items[i]).Some? ==> good(val(items[i]))
  }

  ghost predicate AllGood<K, V(!new)>(t: map<K, V>, good: V -> bool) { forall k :: k in t ==> good(t[k]) }

  lemma GoodBump<K, V(!new)>(t: map<K, V>, k: K, v: V, plus: (V, V) -> V, good: V -> bool, fits: V -> bool)
    requires Downward(good, plus, fits) && good(v) && AllGood(t, good)
    ensures AllGood(Bump(t, k, v, plus), good)
  {
    if k in t { assert good(t[k]) && good(v); }
  }

  lemma {:induction false} GroupsAreGood<E, K, V(!new)>(items: seq<E>, key: E -> Option<K>, val: E -> V, plus: (V,
      V) -> V,
      good: V -> bool, fits: V -> bool)
    requires Downward(good, plus, fits) && GoodItems(items, key, val, good)
    ensures AllGood(GroupBy(items, key, val, plus), good)
  {
    if items != [] {
      var front, last := items[..|items| - 1], items[|items| - 1];
      assert forall i :: 0 <= i < |front| ==> front[i] == items[i];
      GroupsAreGood(front, key, val, plus, good, fits);
      if key(last).Some? {
        assert good(val(items[|items| - 1]));
        GoodBump(GroupBy(front, key, val, plus), key(last).value, val(last), plus, good, fits);
      }
    }
  }

  /**
   * A window's groups are taken exactly if every item's key fits and every
   * total over the items so far and the window does.
   */
  lemma TakesIffTotals<E, K, V(!new)>(done: seq<E>, window: seq<E>, key: E -> Option<K>, val: E -> V, plus: (V, V) -> V,
      good: V -> bool, keyFits: K -> bool, fits: V -> bool)
    requires Associative(plus) && Downward(good, plus, fits)
    requires GoodItems(done, key, val, good) && GoodItems(window, key, val, good)
    ensures TableTakes(GroupBy(done, key, val, plus), GroupBy(window, key, val, plus), plus, keyFits, fits)
            <==> && (forall e :: e in window && key(e).Some? ==> keyFits(key(e).value))
                 && TotalsFit(GroupBy(done + window, key, val, plus), window, key, fits)
  {
    hide GroupBy, Associative, GoodItems, Merge, Combined, Downward;
    var t, d, all := GroupBy(done, key, val, plus), GroupBy(window, key, val, plus),
        GroupBy(done + window, key, val, plus);
    MergeGroups(done, window, key, val, plus);
    GroupsAreGood(done, key, val, plus, good, fits);
    GroupsAreGood(window, key, val, plus, good, fits);
    forall k ensures k in d <==> exists e :: e in window && key(e) == Some(k) { GroupKeys(window, key, val, plus, k); }
    CombinedFits(t, d, plus, good, fits);
    assert all == Merge(t, d, plus);
    if TableTakes(t, d, plus, keyFits, fits) {
      forall e | e in window && key(e).Some?
        ensures keyFits(key(e).value) && key(e).value in all && fits(all[key(e).value])
      {
        GroupKeys(window, key, val, plus, key(e).value);
        assert key(e).value in d;
      }
    }
  }

  lemma CombinedFits<K, V(!new)>(t: map<K, V>, d: map<K, V>, plus: (V, V) -> V, good: V -> bool, fits: V -> bool)
    requires Downward(good, plus, fits) && AllGood(t, good) && AllGood(d, good)
    ensures forall k :: k in d ==> k in Merge(t, d, plus) && Merge(t, d, plus)[k] == Combined(t, k, d[k], plus)
    ensures forall k :: k in d && fits(Combined(t, k, d[k], plus)) ==> fits(d[k])
  {}

  /** Every group that the window adds to fits. */
  ghost predicate TotalsFit<E, K, V>(t: map<K, V>, window: seq<E>, key: E -> Option<K>, fits: V -> bool) {
    forall e :: e in window && key(e).Some? ==> key(e).value in t && fits(t[key(e).value])
  }

  /** What is refused for a window is refused for every longer one. */
  lemma TakesOfPrefix<E, K, V(!new)>(done: seq<E>, xs: seq<E>, ys: seq<E>, key: E -> Option<K>, val: E -> V,
      plus: (V, V) -> V, good: V -> bool, keyFits: K -> bool, fits: V -> bool)
    requires Associative(plus) && Downward(good, plus, fits)
    requires GoodItems(done, key, val, good) && GoodItems(xs, key, val, good) && GoodItems(ys, key, val, good)
    requires TableTakes(GroupBy(done, key, val, plus), GroupBy(xs + ys, key, val, plus), plus, keyFits, fits)
    ensures TableTakes(GroupBy(done, key, val, plus), GroupBy(xs, key, val, plus), plus, keyFits, fits)
  {
    var t, d, more := GroupBy(done, key, val, plus), GroupBy(xs, key, val, plus), GroupBy(ys, key, val, plus);
    MergeGroups(xs, ys, key, val, plus);
    GroupsAreGood(done, key, val, plus, good, fits);
    GroupsAreGood(xs, key, val, plus, good, fits);
    GroupsAreGood(ys, key, val, plus, good, fits);
    hide GroupBy, GoodItems;
    var both := Merge(d, more, plus);
    forall k | k in d ensures keyFits(k) && fits(d[k]) && fits(Combined(t, k, d[k], plus)) {
      assert k in both && fits(both[k]) && fits(Combined(t, k, both[k], plus));
      if k in more && k in t { assert plus(t[k], plus(d[k], more[k])) == plus(plus(t[k], d[k]), more[k]); }
    }
  }

  // ---- Totals ---------------------------------------------------------------

  /** The sum of `w` over the rows whose key satisfies `p`. */
  ghost function Total<K, V>(t: map<K, V>, p: K -> bool, w: V -> int): int
    decreases |t|
  {
    if t == map[] then 0
    else
      var k :| k in t;
      (if p(k) then w(t[k]) else 0) + Total(t - {k}, p, w)
  }

  /** The same sum taken directly over the items. */
  function Tally<E, K, V>(items: seq<E>, key: E -> Option<K>, val: E -> V, p: K -> bool, w: V -> int): int {
    if items == [] then 0
    else Tally(items[..|items| - 1], key, val, p, w) + Share(items[|items| - 1], key, val, p, w)
  }

  function Share<E, K, V>(item: E, key: E -> Option<K>, val: E -> V, p: K -> bool, w: V -> int): int {
    match key(item)
    case None => 0
    case Some(k) => if p(k) then w(val(item)) else 0
  }

  ghost predicate Additive<V(!new)>(w: V -> int, plus: (V, V) -> V) {
    forall a: V, b: V :: w(plus(a, b)) == w(a) + w(b)
  }

  /** A total may be taken apart at any key. */
  lemma {:induction false} TotalAt<K, V>(t: map<K, V>, p: K -> bool, w: V -> int, k: K)
    requires k in t
    ensures Total(t, p, w) == (if p(k) then w(t[k]) else 0) + Total(t - {k}, p, w)
    decreases |t|
  {
    var j :| j in t && Total(t, p, w) == (if p(j) then w(t[j]) else 0) + Total(t - {j}, p, w);
    if j != k {
      TotalAt(t - {j}, p, w, k);
      TotalAt(t - {k}, p, w, j);
      assert t - {j} - {k} == t - {k} - {j};
    }
  }

  lemma TotalBump<K, V(!new)>(t: map<K, V>, k: K, v: V, plus: (V, V) -> V, p: K -> bool, w: V -> int)
    requires Additive(w, plus)
    ensures Total(Bump(t, k, v, plus), p, w) == Total(t, p, w) + (if p(k) then w(v) else 0)
  {
    var t' := Bump(t, k, v, plus);
    TotalAt(t', p, w, k);
    assert t' - {k} == t - {k};
    if k in t { TotalAt(t, p, w, k); } else { assert t - {k} == t; }
  }

  /** Marginals of a GROUP BY are direct sums: nothing is counted in two rows or in none. */
  lemma {:induction false} TotalOfGroups<E, K, V(!new)>(
    items: seq<E>, key: E -> Option<K>, val: E -> V, plus: (V, V) -> V, p: K -> bool, w: V -> int)
    requires Additive(w, plus)
    ensures Total(GroupBy(items, key, val, plus), p, w) == Tally(items, key, val, p, w)
  {
    if items != [] {
      var last := items[|items| - 1];
      TotalOfGroups(items[..|items| - 1], key, val, plus, p, w);
      if key(last).Some? {
        TotalBump(GroupBy(items[..|items| - 1], key, val, plus), key(last).value, val(last), plus, p, w);
      }
    }
  }

  /** Merging adds totals. */
  lemma {:induction false} TotalMerge<K, V(!new)>(t: map<K, V>, d: map<K, V>, plus: (V, V) -> V, p: K -> bool,
      w: V -> int)
    requires Additive(w, plus)
    ensures Total(Merge(t, d, plus), p, w) == Total(t, p, w) + Total(d, p, w)
    decreases |d|
  {
    if d == map[] {
      assert Merge(t, d, plus) == t;
      TotalOfNothing(p, w);
    } else {
      hide Merge, Bump, Total;
      var k :| k in d;
      TotalMerge(t, d - {k}, plus, p, w);
      MergeGrow(t, d, k, plus);
      TotalBump(Merge(t, d - {k}, plus), k, d[k], plus, p, w);
      TotalAt(d, p, w, k);
    }
  }

  lemma TotalOfNothing<K, V>(p: K -> bool, w: V -> int)
    ensures Total(map[], p, w) == 0
  {}

  function TotalRows<K, V>(rows: seq<(K, V)>, p: K -> bool, w: V -> int): int {
    if rows == [] then 0
    else TotalRows(rows[..|rows| - 1], p, w) + (if p(rows[|rows| - 1].0) then w(rows[|rows| - 1].1) else 0)
  }

  lemma {:induction false} TotalOfListing<K, V>(rows: seq<(K, V)>, m: map<K, V>, p: K -> bool, w: V -> int)
    requires Lists(rows, m)
    ensures Total(m, p, w) == TotalRows(rows, p, w)
  {
    if rows == [] {
      assert m == map[];
    } else {
      var k := rows[|rows| - 1].0;
      ListsFront(rows, m);
      TotalOfListing(rows[..|rows| - 1], m - {k}, p, w);
      TotalAt(m, p, w, k);
    }
  }

  /** A total over one key is that row. */
  lemma TotalOne<K, V>(t: map<K, V>, k: K, p: K -> bool, w: V -> int)
    requires forall x :: x in t ==> (p(x) <==> x == k)
    ensures Total(t, p, w) == if k in t then w(t[k]) else 0
  {
    if k in t {
      TotalAt(t, p, w, k);
      TotalNone(t - {k}, p, w);
    } else {
      TotalNone(t, p, w);
    }
  }

  lemma {:induction false} TotalNone<K, V>(t: map<K, V>, p: K -> bool, w: V -> int)
    requires forall x :: x in t ==> !p(x)
    ensures Total(t, p, w) == 0
    decreases |t|
  {
    if t != map[] {
      var k :| k in t;
      TotalAt(t, p, w, k);
      TotalNone(t - {k}, p, w);
    }
  }

  /** Totals are monotone in the condition when the summands are non-negative. */
  lemma {:induction false} TotalMonotone<K, V>(t: map<K, V>, p: K -> bool, q: K -> bool, w: V -> int)
    requires forall k :: k in t ==> (p(k) ==> q(k)) && w(t[k]) >= 0
    ensures 0 <= Total(t, p, w) <= Total(t, q, w)
    decreases |t|
  {
    if t != map[] {
      var k :| k in t;
      TotalAt(t, p, w, k);
      TotalAt(t, q, w, k);
      TotalMonotone(t - {k}, p, q, w);
    }
  }

  /** The rows of a table whose keys satisfy a condition. */
  function Where<K, V>(t: map<K, V>, c: K -> bool): map<K, V> { map k | k in t && c(k) :: t[k] }

  function WhereNot<K, V>(t: map<K, V>, c: K -> bool): map<K, V> { map k | k in t && !c(k) :: t[k] }

  lemma TotalDrop<K, V>(t: map<K, V>, p: K -> bool, w: V -> int, k: K)
    ensures Total(t, p, w) == (if k in t && p(k) then w(t[k]) else 0) + Total(t - {k}, p, w)
  {
    if k in t { TotalAt(t, p, w, k); } else { assert t - {k} == t; }
  }

  lemma WhereDrop<K, V>(t: map<K, V>, c: K -> bool, k: K)
    requires k in t
    ensures Where(t, c) - {k} == Where(t - {k}, c) && WhereNot(t, c) - {k} == WhereNot(t - {k}, c)
    ensures k in Where(t, c) <==> c(k)
    ensures k in WhereNot(t, c) <==> !c(k)
    ensures (k in Where(t, c) ==> Where(t, c)[k] == t[k]) && (k in WhereNot(t, c) ==> WhereNot(t, c)[k] == t[k])
  {}

  /** Cutting a table in two by key cuts its totals in two. */
  lemma {:induction false} TotalSplit<K, V>(t: map<K, V>, c: K -> bool, p: K -> bool, w: V -> int)
    ensures Total(t, p, w) == Total(Where(t, c), p, w) + Total(WhereNot(t, c), p, w)
    decreases |t|
  {
    if t == map[] {
      assert Where(t, c) == map[] && WhereNot(t, c) == map[];
    } else {
      hide Where, WhereNot, Total;
      var k :| k in t;
      TotalSplit(t - {k}, c, p, w);
      WhereDrop(t, c, k);
      TotalDrop(t, p, w, k);
      TotalDrop(Where(t, c), p, w, k);
      TotalDrop(WhereNot(t, c), p, w, k);
    }
  }

  /** Tallies that agree item by item agree. */
  lemma {:induction false} TallyAgree<E, K, V, L, W>(
    items: seq<E>, key: E -> Option<K>, val: E -> V, p: K -> bool, w: V -> int,
    key': E -> Option<L>, val': E -> W, p': L -> bool, w': W -> int)
    requires forall i :: 0 <= i < |items| ==> Share(items[i], key, val, p, w) == Share(items[i], key', val', p', w')
    ensures Tally(items, key, val, p, w) == Tally(items, key', val', p', w')
  {
    if items != [] {
      TallyAgree(items[..|items| - 1], key, val, p, w, key', val', p', w');
    }
  }

  lemma {:induction false} TallyConcat<E, K, V>(a: seq<E>, b: seq<E>, key: E -> Option<K>, val: E -> V, p: K -> bool,
      w: V -> int)
    ensures Tally(a + b, key, val, p, w) == Tally(a, key, val, p, w) + Tally(b, key, val, p, w)
  {
    if b == [] {
      assert a + b == a;
    } else {
      TallyConcat(a, b[..|b| - 1], key, val, p, w);
      assert (a + b)[..|a + b| - 1] == a + b[..|b| - 1];
    }
  }

  // ---- Projections ----------------------------------------------------------

  function Project<K, V, W>(t: map<K, V>, h: V -> W): map<K, W> { map k | k in t :: h(t[k]) }

  ghost predicate Homomorphic<V(!new), W>(h: V -> W, plus: (V, V) -> V, plus': (W, W) -> W) {
    forall a: V, b: V :: h(plus(a, b)) == plus'(h(a), h(b))
  }

  lemma ProjectMerge<K, V(!new), W>(t: map<K, V>, d: map<K, V>, h: V -> W, plus: (V, V) -> V, plus': (W, W) -> W)
    requires Homomorphic(h, plus, plus')
    ensures Project(Merge(t, d, plus), h) == Merge(Project(t, h), Project(d, h), plus')
  {}

  /** Projecting a GROUP BY is grouping the projections. */
  lemma {:induction false} ProjectGroups<E, K, V(!new), W>(
    items: seq<E>, key: E -> Option<K>, val: E -> V, h: V -> W, val': E -> W, plus: (V, V) -> V, plus': (W, W) -> W)
    requires Homomorphic(h, plus, plus')
    requires forall i :: 0 <= i < |items| ==> val'(items[i]) == h(val(items[i]))
    ensures Project(GroupBy(items, key, val, plus), h) == GroupBy(items, key, val', plus')
  {
    if items != [] {
      var last := items[|items| - 1];
      var front := items[..|items| - 1];
      ProjectGroups(front, key, val, h, val', plus, plus');
      if key(last).Some? { ProjectBump(GroupBy(front, key, val, plus), key(last).value, val(last), h, plus, plus'); }
    }
  }

  lemma ProjectBump<K, V(!new), W>(t: map<K, V>, k: K, v: V, h: V -> W, plus: (V, V) -> V, plus': (W, W) -> W)
    requires Homomorphic(h, plus, plus')
    ensures Project(Bump(t, k, v, plus), h) == Bump(Project(t, h), k, h(v), plus')
  {}
}
