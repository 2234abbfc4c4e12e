/**
 * Comma-joined label lists in a text column: merged in SQL by a CASE over
 * substring searches, and read back in Python as sorted sets.
 */
module LabelLists {
  import opened Options
  import opened PyText

  // ---- merge_csv ------------------------------------------------------------

  /** Code-point order, as sorted() uses it. */
  predicate StrLe(a: string, b: string) {
    if a == "" then true
    else if b == "" then false
    else a[0] < b[0] || (a[0] == b[0] && StrLe(a[1..], b[1..]))
  }

  lemma {:induction false} StrLeTotal(a: string, b: string)
    ensures StrLe(a, b) || StrLe(b, a)
    ensures StrLe(a, b) && StrLe(b, a) ==> a == b
  {
    if a != "" && b != "" {
      StrLeTotal(a[1..], b[1..]);
      assert a == [a[0]] + a[1..] && b == [b[0]] + b[1..];
    }
  }

  lemma {:induction false} StrLeTransitive(a: string, b: string, c: string)
    requires StrLe(a, b) && StrLe(b, c)
    ensures StrLe(a, c)
  {
    if a != "" && b != "" && c != "" && a[0] == b[0] == c[0] { StrLeTransitive(a[1..], b[1..], c[1..]); }
  }

  predicate Least(m: string, labels: set<string>) {
    m in labels && forall x :: x in labels ==> StrLe(m, x)
  }

  lemma LeastStep(y: string, m: string, rest: set<string>)
    requires Least(m, rest)
    ensures Least(y, rest + {y}) || Least(m, rest + {y})
  {
    StrLeTotal(y, m);
    StrLeTotal(y, y);
    if StrLe(y, m) {
      forall x | x in rest + {y} ensures StrLe(y, x) { if x != y { StrLeTransitive(y, m, x); } }
    }
  }

  lemma {:induction false} LeastExists(labels: set<string>)
    requires labels != {}
    ensures exists m :: Least(m, labels)
    decreases |labels|
  {
    var y :| y in labels;
    var rest := labels - {y};
    assert labels == rest + {y};
    if rest == {} {
      StrLeTotal(y, y);
      assert Least(y, labels);
    } else {
      hide Least;
      LeastExists(rest);
      var m :| Least(m, rest);
      LeastStep(y, m, rest);
    }
  }

  lemma LeastUnique(m: string, n: string, labels: set<string>)
    requires Least(m, labels) && Least(n, labels)
    ensures m == n
  {
    StrLeTotal(m, n);
  }

  function Sorted(labels: set<string>): (s: seq<string>)
    ensures forall x :: x in s <==> x in labels
    ensures labels != {} ==> s != []
  {
    if labels == {} then []
    else
      var m := LeastOf(labels);
      [m] + Sorted(labels - {m})
  }

  function LeastOf(labels: set<string>): (m: string)
    requires labels != {}
    ensures Least(m, labels)
  {
    LeastExists(labels);
    assert forall m, n :: Least(m, labels) && Least(n, labels) ==> m == n by {
      forall m, n | Least(m, labels) && Least(n, labels) ensures m == n { LeastUnique(m, n, labels); }
    }
    var m :| m in labels && Least(m, labels);
    m
  }

  /** Code-point order: a text before its continuations, and the smaller character first where two texts differ. */
  lemma {:induction false} CodePointOrder(p: string, x: string, y: string, c: char, d: char)
    requires c < d
    ensures StrLe(p, p + x) && (x != "" ==> !StrLe(p + x, p))
    ensures StrLe(p + [c] + x, p + [d] + y) && !StrLe(p + [d] + y, p + [c] + x)
  {
    if p == "" {
      assert p + x == x && p + [c] + x == [c] + x && p + [d] + y == [d] + y;
    } else {
      CodePointOrder(p[1..], x, y, c, d);
      assert (p + x)[1..] == p[1..] + x;
      assert (p + [c] + x)[1..] == p[1..] + [c] + x && (p + [d] + y)[1..] == p[1..] + [d] + y;
    }
  }

  /** The labels come out in that order, each once. */
  lemma {:induction false} SortedAscends(labels: set<string>)
    ensures var s := Sorted(labels); forall i, j :: 0 <= i < j < |s| ==> StrLe(s[i], s[j]) && s[i] != s[j]
    decreases |labels|
  {
    if labels != {} {
      var m := LeastOf(labels);
      SortedAscends(labels - {m});
      var s := Sorted(labels);
      forall i, j | 0 <= i < j < |s| ensures StrLe(s[i], s[j]) && s[i] != s[j] {
        assert s[j] in Sorted(labels - {m});
      }
    }
  }

  /** The labels of one stored value. */
  function Labels(value: Option<string>): set<string> {
    match value
    case None => {}
    case Some(text) => set part | part in Split(text, ',') && part != ""
  }

  function AllLabels(values: seq<Option<string>>): set<string> {
    if values == [] then {} else AllLabels(values[..|values| - 1]) + Labels(values[|values| - 1])
  }

  function MergeCsv(values: seq<Option<string>>): Option<string> {
    var labels := AllLabels(values);
    if labels == {} then None else Some(Join(Sorted(labels), ','))
  }

  /** A list of labels as it can be stored: something, each label non-empty and comma-free. */
  ghost predicate Clean(labels: seq<string>) {
    labels != [] && forall i :: 0 <= i < |labels| ==> labels[i] != "" && ',' !in labels[i]
  }

  ghost predicate Stores(value: Option<string>, labels: seq<string>) {
    Clean(labels) && value == Some(Join(labels, ','))
  }

  lemma StoredLabels(value: Option<string>, labels: seq<string>)
    requires Stores(value, labels)
    ensures forall x :: x in Labels(value) <==> x in labels
  {
    JoinThenSplit(labels, ',');
  }

  lemma {:induction false} AllLabelsClean(values: seq<Option<string>>)
    ensures forall x :: x in AllLabels(values) ==> x != "" && ',' !in x
  {
    if values != [] {
      AllLabelsClean(values[..|values| - 1]);
      if values[|values| - 1].Some? { SplitThenJoin(values[|values| - 1].value, ','); }
    }
  }

  /** merge_csv reads back exactly the union of the labels it is given. */
  lemma MergeCsvIsUnion(values: seq<Option<string>>)
    ensures Labels(MergeCsv(values)) == AllLabels(values)
    ensures MergeCsv(values).Some? ==> exists labels :: Stores(MergeCsv(values), labels)
  {
    AllLabelsClean(values);
    var labels := AllLabels(values);
    if labels != {} {
      var sorted := Sorted(labels);
      forall i | 0 <= i < |sorted| ensures sorted[i] != "" && ',' !in sorted[i] { assert sorted[i] in sorted; }
      assert Stores(MergeCsv(values), sorted);
      StoredLabels(MergeCsv(values), Sorted(labels));
    }
  }

  lemma JoinFirst(first: string, rest: seq<string>)
    requires rest != []
    ensures Join([first] + rest, ',') == first + "," + Join(rest, ',')
  {
    assert ([first] + rest)[1..] == rest;
  }

  lemma {:induction false} JoinedAdds(labels: set<string>, x: string)
    requires labels != {} && x !in labels
    ensures |Join(Sorted(labels + {x}), ',')| == |Join(Sorted(labels), ',')| + 1 + |x|
    decreases |labels|
  {
    var m := LeastOf(labels + {x});
    if m == x {
      assert labels + {x} - {x} == labels;
      JoinFirst(x, Sorted(labels));
    } else {
      assert LeastOf(labels) == m by { LeastUnique(m, LeastOf(labels), labels); }
      var rest := labels - {m};
      assert Sorted(labels) == [m] + Sorted(rest);
      assert labels + {x} - {m} == rest + {x};
      assert Sorted(labels + {x}) == [m] + Sorted(rest + {x});
      hide Sorted, Least, Join;
      JoinFirst(m, Sorted(rest + {x}));
      if rest == {} {
        NothingSorted(m);
        SortedOne(x);
        assert rest + {x} == {x};
      } else {
        JoinedAdds(rest, x);
        JoinFirst(m, Sorted(rest));
      }
    }
  }

  lemma NothingSorted(m: string)
    ensures Sorted({}) == [] && Join([m] + Sorted({}), ',') == m
  {}

  lemma SortedOne(x: string)
    ensures Sorted({x}) == [x] && Join([x], ',') == x
  {
    assert LeastOf({x}) == x && {x} - {x} == {};
  }

  /** More labels make a longer list. */
  lemma {:induction false} JoinedGrows(small: set<string>, large: set<string>)
    requires small != {} && small <= large
    ensures |Join(Sorted(small), ',')| <= |Join(Sorted(large), ',')|
    decreases |large - small|
  {
    if small == large {
    } else {
      var x :| x in large && x !in small;
      assert large - (small + {x}) < large - small;
      JoinedAdds(small, x);
      JoinedGrows(small + {x}, large);
    }
  }

  // ---- The CASE expression --------------------------------------------------

  const LABELS_WIDTH := 255

  function CaseMerge(kept: Option<string>, incoming: Option<string>): Option<string> {
    if kept.None? then incoming
    else if incoming.None? then kept
    else
      var wrappedOld := "," + kept.value + ",";
      var wrappedNew := "," + incoming.value + ",";
      if Contains(wrappedOld, wrappedNew) then kept
      else if Contains(wrappedNew, wrappedOld) then incoming
      else
        var both := kept.value + "," + incoming.value;
        Some(if |both| <= LABELS_WIDTH then both else both[..LABELS_WIDTH])
  }

  /** xs occurs in ys as a contiguous run. */
  ghost predicate IsRun<T>(xs: seq<T>, ys: seq<T>) {
    exists i :: OccursAt(ys, xs, i)
  }

  /** A label list with a comma on either side of every label. */
  function Wrapped(labels: seq<string>): string {
    if labels == [] then "," else "," + labels[0] + Wrapped(labels[1..])
  }

  lemma {:induction false} WrappedIsJoin(labels: seq<string>)
    requires labels != []
    ensures "," + Join(labels, ',') + "," == Wrapped(labels)
  {
    if |labels| > 1 {
      WrappedIsJoin(labels[1..]);
      assert "," + Join(labels, ',') + "," == "," + labels[0] + ("," + Join(labels[1..], ',') + ",");
    } else {
      assert labels[1..] == [];
    }
  }

  /** Comma-free labels are read off a wrapped list unambiguously. */
  lemma FirstLabel(x: string, y: string, a: string, b: string)
    requires ',' !in x && ',' !in y
    requires a != "" && b != "" && a[0] == ',' && b[0] == ','
    requires x + a <= y + b
    ensures x == y && a <= b
  {
    var m, n := x + a, y + b;
    assert n[..|m|] == m;
    assert forall k :: 0 <= k < |m| ==> m[k] == n[k];
    assert forall k :: 0 <= k < |x| ==> m[k] == x[k];
    assert forall k :: 0 <= k < |y| ==> n[k] == y[k];
    assert m[|x|] == ',' && n[|y|] == ',';
    assert x == m[..|x|] == n[..|x|] == y;
    assert a == m[|x|..] && b == n[|x|..];
  }

  lemma {:induction false} WrappedPrefix(xs: seq<string>, ys: seq<string>)
    requires forall i :: 0 <= i < |xs| ==> ',' !in xs[i]
    requires forall i :: 0 <= i < |ys| ==> ',' !in ys[i]
    ensures Wrapped(xs) <= Wrapped(ys) <==> xs <= ys
  {
    if xs != [] && ys != [] {
      WrappedPrefix(xs[1..], ys[1..]);
      var a, b := Wrapped(xs[1..]), Wrapped(ys[1..]);
      assert xs == [xs[0]] + xs[1..] && ys == [ys[0]] + ys[1..];
      if Wrapped(xs) <= Wrapped(ys) {
        assert Wrapped(xs)[1..] == xs[0] + a && Wrapped(ys)[1..] == ys[0] + b;
        FirstLabel(xs[0], ys[0], a, b);
      }
      if xs <= ys {
        assert xs[1..] <= ys[1..] && xs[0] == ys[0];
        assert ys[0] + b == xs[0] + a + b[|a|..];
      }
    }
  }

  lemma {:induction false} OccurrenceIsRun(xs: seq<string>, ys: seq<string>, p: int)
    requires forall i :: 0 <= i < |xs| ==> ',' !in xs[i]
    requires forall i :: 0 <= i < |ys| ==> ',' !in ys[i]
    requires OccursAt(Wrapped(ys), Wrapped(xs), p)
    ensures IsRun(xs, ys)
    decreases |ys|
  {
    var hay, needle := Wrapped(ys), Wrapped(xs);
    if p == 0 {
      WrappedPrefix(xs, ys);
      assert OccursAt(ys, xs, 0);
    } else {
      var rest := Wrapped(ys[1..]);
      assert hay[p] == needle[0] == ',';
      assert hay == ("," + ys[0]) + rest;
      assert forall k :: 1 <= k <= |ys[0]| ==> hay[k] == ys[0][k - 1];
      assert p > |ys[0]|;
      var q := p - 1 - |ys[0]|;
      OccursShift("," + ys[0], rest, needle, q);
      OccurrenceIsRun(xs, ys[1..], q);
      var i :| OccursAt(ys[1..], xs, i);
      assert ys == [ys[0]] + ys[1..];
      OccursShift([ys[0]], ys[1..], xs, i);
    }
  }

  lemma {:induction false} RunOccurs(xs: seq<string>, ys: seq<string>, i: nat)
    requires OccursAt(ys, xs, i)
    requires forall k :: 0 <= k < |ys| ==> ',' !in ys[k]
    ensures Contains(Wrapped(ys), Wrapped(xs))
    decreases i
  {
    var hay, needle := Wrapped(ys), Wrapped(xs);
    if i == 0 {
      assert forall k :: 0 <= k < |xs| ==> xs[k] == ys[k];
      assert xs <= ys;
      WrappedPrefix(xs, ys);
      assert OccursAt(hay, needle, 0);
    } else {
      assert ys[1..][i - 1..i - 1 + |xs|] == ys[i..i + |xs|];
      RunOccurs(xs, ys[1..], i - 1);
      var rest := Wrapped(ys[1..]);
      var q :| 0 <= q <= |rest| && OccursAt(rest, needle, q);
      var p := q + 1 + |ys[0]|;
      assert hay == ("," + ys[0]) + rest;
      OccursShift("," + ys[0], rest, needle, q);
      assert OccursAt(hay, needle, p);
    }
  }

  /** The substring search on wrapped text answers exactly "is one list a run of the other?". */
  lemma SearchIsRun(kept: Option<string>, incoming: Option<string>, ys: seq<string>, xs: seq<string>)
    requires Stores(kept, ys) && Stores(incoming, xs)
    ensures Contains("," + kept.value + ",", "," + incoming.value + ",") <==> IsRun(xs, ys)
  {
    WrappedIsJoin(xs);
    WrappedIsJoin(ys);
    var hay, needle := Wrapped(ys), Wrapped(xs);
    if Contains(hay, needle) {
      var p :| OccursAt(hay, needle, p);
      OccurrenceIsRun(xs, ys, p);
    }
    if IsRun(xs, ys) {
      var i :| OccursAt(ys, xs, i);
      RunOccurs(xs, ys, i);
    }
  }

  // ---- Any sequence of upserts ----------------------------------------------

  lemma RunTransitive<T>(xs: seq<T>, ys: seq<T>, zs: seq<T>)
    requires IsRun(xs, ys) && IsRun(ys, zs)
    ensures IsRun(xs, zs)
  {
    var i :| OccursAt(ys, xs, i);
    var j :| OccursAt(zs, ys, j);
    OccursTransitive(xs, ys, zs, i, j);
  }

  lemma RunOfConcat<T>(xs: seq<T>, ys: seq<T>)
    ensures IsRun(xs, xs) && IsRun(xs, xs + ys) && IsRun(ys, xs + ys)
  {
    assert OccursAt(xs, xs, 0) && OccursAt(xs + ys, xs, 0) && OccursAt(xs + ys, ys, |xs|);
  }

  lemma {:induction false} JoinConcat(xs: seq<string>, ys: seq<string>)
    requires xs != [] && ys != []
    ensures Join(xs + ys, ',') == Join(xs, ',') + "," + Join(ys, ',')
  {
    if |xs| == 1 {
      assert (xs + ys)[1..] == ys;
    } else {
      JoinConcat(xs[1..], ys);
      assert (xs + ys)[1..] == xs[1..] + ys;
    }
  }

  /** The incoming list is appended, and what does not fit the column is cut off. */
  predicate Cuts(kept: Option<string>, incoming: Option<string>) {
    && kept.Some? && incoming.Some? && |kept.value| + 1 + |incoming.value| > LABELS_WIDTH
    && !Contains("," + kept.value + ",", "," + incoming.value + ",")
    && !Contains("," + incoming.value + ",", "," + kept.value + ",")
  }

  /** The column takes the incoming list, and an upsert of it cuts nothing off. */
  predicate Fits(kept: Option<string>, incoming: Option<string>) {
    (incoming.Some? ==> |incoming.value| <= LABELS_WIDTH) && !Cuts(kept, incoming)
  }

  /** A column within its width stays so, whatever list is written that is within it too. */
  lemma CaseMergeWidth(kept: Option<string>, incoming: Option<string>)
    requires kept.Some? ==> |kept.value| <= LABELS_WIDTH
    requires incoming.Some? ==> |incoming.value| <= LABELS_WIDTH
    ensures CaseMerge(kept, incoming).Some? ==> |CaseMerge(kept, incoming).value| <= LABELS_WIDTH
  {}

  /** One upsert keeps the stored list as a run and adds the incoming one as a run. */
  lemma CaseMergeKeeps(kept: Option<string>, ys: seq<string>, incoming: Option<string>,
      xs: seq<string>) returns (zs: seq<string>)
    requires Stores(kept, ys) && Stores(incoming, xs) && Fits(kept, incoming)
    ensures Stores(CaseMerge(kept, incoming), zs) && IsRun(ys, zs) && IsRun(xs, zs)
    ensures forall x :: x in zs <==> x in xs || x in ys
    ensures IsRun(xs, ys) ==> CaseMerge(kept, incoming) == kept
  {
    SearchIsRun(kept, incoming, ys, xs);
    SearchIsRun(incoming, kept, xs, ys);
    RunOfConcat(ys, xs);
    RunOfConcat(xs, ys);
    JoinConcat(ys, xs);
    if IsRun(xs, ys) {
      zs := ys;
      RunElements(xs, ys);
    } else if IsRun(ys, xs) {
      zs := xs;
      RunElements(ys, xs);
    } else {
      zs := ys + xs;
    }
  }

  lemma RunMembers<T>(xs: seq<T>, ys: seq<T>)
    ensures IsRun(xs, ys) ==> forall x :: x in xs ==> x in ys
  {
    if IsRun(xs, ys) { RunElements(xs, ys); }
  }

  lemma RunElements<T>(xs: seq<T>, ys: seq<T>)
    requires IsRun(xs, ys)
    ensures forall x :: x in xs ==> x in ys
  {
    var i :| OccursAt(ys, xs, i);
  }

  /** The column after a sequence of upserts, and whether all of them fitted. */
  function Stored(values: seq<string>): Option<string> {
    if values == [] then None else CaseMerge(Stored(values[..|values| - 1]), Some(values[|values| - 1]))
  }

  predicate AllFit(values: seq<string>) {
    values == [] ||
    (AllFit(values[..|values| - 1]) && Fits(Stored(values[..|values| - 1]), Some(values[|values| - 1])))
  }

  function JoinAll(lists: seq<seq<string>>): seq<string> {
    seq(|lists|, i requires 0 <= i < |lists| => Join(lists[i], ','))
  }

  /**
   * Any sequence of upserts that stays within the column's width leaves a
   * list holding exactly the labels seen, in which every list seen is a
   * contiguous run -- so writing any of them again changes nothing.
   */
  lemma {:induction false} UpsertsKeepEveryList(lists: seq<seq<string>>) returns (zs: seq<string>)
    requires lists != [] && (forall i :: 0 <= i < |lists| ==> Clean(lists[i])) && AllFit(JoinAll(lists))
    ensures Stores(Stored(JoinAll(lists)), zs)
    ensures forall i :: 0 <= i < |lists| ==> IsRun(lists[i], zs)
    ensures forall x :: x in zs <==> exists i :: 0 <= i < |lists| && x in lists[i]
    decreases |lists|
  {
    hide Join, IsRun, CaseMerge, Clean, Fits, Cuts;
    var n := |lists| - 1;
    var front, last := lists[..n], lists[n];
    assert JoinAll(lists)[..n] == JoinAll(front);
    if n == 0 {
      zs := last;
      RunOfConcat(last, []);
      FirstStored(Join(last, ','));
      assert JoinAll(lists) == [Join(last, ',')];
    } else {
      var ys := UpsertsKeepEveryList(front);
      zs := CaseMergeKeeps(Stored(JoinAll(front)), ys, Some(Join(last, ',')), last);
      forall i | 0 <= i < n ensures IsRun(lists[i], zs) {
        assert lists[i] == front[i];
        RunTransitive(front[i], ys, zs);
      }
      forall x | x in zs ensures exists i :: 0 <= i < |lists| && x in lists[i] {
        if x in ys {
          var i :| 0 <= i < |front| && x in front[i];
          assert x in lists[i];
        }
      }
      forall x, i | 0 <= i < |lists| && x in lists[i] ensures x in zs { RunElements(lists[i], zs); }
    }
  }

  lemma FirstStored(value: string)
    ensures Stored([value]) == Some(value)
  {
    assert [value][..0] == [];
  }

  /** Reading the column back gives the union; repeating a list leaves it untouched. */
  lemma StoredReadsBack(lists: seq<seq<string>>, again: nat)
    requires lists != [] && (forall i :: 0 <= i < |lists| ==> Clean(lists[i])) && AllFit(JoinAll(lists))
    requires again < |lists|
    ensures var column := Stored(JoinAll(lists));
            && (forall x :: x in Labels(MergeCsv([column])) <==> exists i :: 0 <= i < |lists| && x in lists[i])
            && CaseMerge(column, Some(Join(lists[again], ','))) == column
  {
    var zs := UpsertsKeepEveryList(lists);
    var column := Stored(JoinAll(lists));
    MergeCsvIsUnion([column]);
    assert AllLabels([column]) == AllLabels([]) + Labels(column);
    StoredLabels(column, zs);
    SearchIsRun(column, Some(Join(lists[again], ',')), zs, lists[again]);
  }

  lemma EqualLengthRun<T>(xs: seq<T>, ys: seq<T>)
    requires |xs| == |ys|
    ensures IsRun(xs, ys) ==> xs == ys
  {
    if IsRun(xs, ys) { var i :| OccursAt(ys, xs, i); }
  }

  /** Lists that overlap without containing each other leave a duplicate label behind. */
  lemma OverlapDuplicates()
    ensures CaseMerge(Some("a,b"), Some("b,c")) == Some("a,b,b,c")
  {
    var xs, ys := ["b", "c"], ["a", "b"];
    assert Join(xs, ',') == "b,c" && Join(ys, ',') == "a,b";
    SearchIsRun(Some("a,b"), Some("b,c"), ys, xs);
    SearchIsRun(Some("b,c"), Some("a,b"), xs, ys);
    assert xs[0] != ys[0];
    EqualLengthRun(xs, ys);
    EqualLengthRun(ys, xs);
    assert !IsRun(xs, ys) && !IsRun(ys, xs);
    assert "a,b" + "," + "b,c" == "a,b,b,c";
  }

  ghost predicate DuplicateFree<T>(xs: seq<T>) { forall i, j :: 0 <= i < j < |xs| ==> xs[i] != xs[j] }

  lemma DuplicateFreeConcat<T>(ys: seq<T>, xs: seq<T>)
    requires DuplicateFree(xs) && DuplicateFree(ys)
    ensures DuplicateFree(ys + xs) <==> forall x :: x in xs ==> x !in ys
  {
    var zs := ys + xs;
    if DuplicateFree(zs) {
      forall x | x in xs ensures x !in ys {
        var j :| 0 <= j < |xs| && xs[j] == x;
        assert zs[|ys| + j] == x;
        assert forall i :: 0 <= i < |ys| ==> zs[i] == ys[i] && zs[i] != zs[|ys| + j];
      }
    }
    if forall x :: x in xs ==> x !in ys {
      forall i, j | 0 <= i < j < |zs| ensures zs[i] != zs[j] {
        if i < |ys| <= j { assert zs[i] in ys && zs[j] == xs[j - |ys|] && xs[j - |ys|] in xs; }
      }
    }
  }

  /** Exactly when an upsert leaves no duplicate behind: one list contains the other, or they share no label. */
  lemma DuplicateFreeIff(kept: Option<string>, ys: seq<string>, incoming: Option<string>, xs: seq<string>)
      returns (zs: seq<string>)
    requires Stores(kept, ys) && Stores(incoming, xs) && Fits(kept, incoming)
    requires DuplicateFree(xs) && DuplicateFree(ys)
    ensures Stores(CaseMerge(kept, incoming), zs)
    ensures DuplicateFree(zs) <==> IsRun(xs, ys) || IsRun(ys, xs) || forall x :: x in xs ==> x !in ys
  {
    SearchIsRun(kept, incoming, ys, xs);
    SearchIsRun(incoming, kept, xs, ys);
    JoinConcat(ys, xs);
    DuplicateFreeConcat(ys, xs);
    hide IsRun, DuplicateFree;
    zs := if IsRun(xs, ys) then ys else if IsRun(ys, xs) then xs else ys + xs;
  }

  // ---- Past the column's width ----------------------------------------------

  /** A text without commas stays at the front of the first piece, whatever follows it. */
  lemma {:induction false} FirstPiece(p: string, rest: string)
    requires ',' !in p
    ensures p <= Split(p + rest, ',')[0]
  {
    if p != "" {
      FirstPiece(p[1..], rest);
      assert (p + rest)[1..] == p[1..] + rest;
      assert p == [p[0]] + p[1..];
    }
  }

  /** The pieces of a text cut short are its labels up to some place, and a beginning of the next one. */
  lemma CutPieces(xs: seq<string>, q: string) returns (m: nat)
    requires Clean(xs) && q <= Join(xs, ',')
    ensures m < |xs| && |Split(q, ',')| == m + 1
    ensures Split(q, ',') == xs[..m] + [Split(q, ',')[m]] && Split(q, ',')[m] <= xs[m]
  {
    hide Split, Join;
    var parts, rest := Split(q, ','), Join(xs, ',')[|q|..];
    m := |parts| - 1;
    SplitThenJoin(q, ',');
    JoinThenSplit(xs, ',');
    SplitConcat(q, rest, ',');
    FirstPiece(parts[m], rest);
    assert q + rest == Join(xs, ',');
    var tail := Split(parts[m] + rest, ',');
    assert xs == parts[..m] + tail;
    assert xs[m] == tail[0] && xs[..m] == parts[..m];
    assert parts == parts[..m] + [parts[m]];
  }

  /** What is stored when an append does not fit: all old labels, some new ones, and the beginning of the next. */
  lemma CutAppend(kept: Option<string>, ys: seq<string>, incoming: Option<string>, xs: seq<string>)
      returns (m: nat, p: string)
    requires Stores(kept, ys) && Stores(incoming, xs) && Cuts(kept, incoming) && |kept.value| < LABELS_WIDTH
    ensures CaseMerge(kept, incoming).Some? && |CaseMerge(kept, incoming).value| == LABELS_WIDTH
    ensures |incoming.value| > LABELS_WIDTH - |kept.value| - 1
    ensures m < |xs| && p <= xs[m] && Split(incoming.value[..LABELS_WIDTH - |kept.value| - 1], ',') == xs[..m] + [p]
    ensures Split(CaseMerge(kept, incoming).value, ',') == ys + xs[..m] + [p]
    ensures (exists x :: x in Labels(CaseMerge(kept, incoming)) && x !in xs && x !in ys)
            <==> p != "" && p !in xs && p !in ys
  {
    var q := incoming.value[..LABELS_WIDTH - |kept.value| - 1];
    var text := (kept.value + "," + incoming.value)[..LABELS_WIDTH];
    assert text == kept.value + "," + q;
    m := CutPieces(xs, q);
    p := Split(q, ',')[m];
    SplitAppended(ys, q);
    hide Split, Join, IsRun, Contains;
    var stored := CaseMerge(kept, incoming);
    assert stored == Some(text);
    var parts := ys + xs[..m] + [p];
    assert Split(text, ',') == parts;
    assert forall x :: x in parts ==> x in ys || x in xs || x == p;
    assert parts[|ys| + m] == p;
  }

  lemma {:induction false} SplitAppended(ys: seq<string>, q: string)
    requires Clean(ys)
    ensures Split(Join(ys, ',') + "," + q, ',') == ys + Split(q, ',')
    decreases |ys|
  {
    hide Split;
    if |ys| == 1 {
      SplitFirst(ys[0], q, ',');
    } else {
      assert Clean(ys[1..]) && ys == [ys[0]] + ys[1..];
      JoinFirst(ys[0], ys[1..]);
      hide Join, Clean;
      SplitAppended(ys[1..], q);
      var more := Join(ys[1..], ',');
      assert Join(ys, ',') + "," + q == ys[0] + "," + (more + "," + q);
      SplitFirst(ys[0], more + "," + q, ',');
    }
  }

  /** A column with three characters left stores "bc" for "bcd", a label nobody wrote. */
  lemma CutInventsLabel(kept: Option<string>, ys: seq<string>)
    requires Stores(kept, ys) && |kept.value| == LABELS_WIDTH - 3 && "bc" !in ys && "bcd" !in ys
    ensures "bc" in Labels(CaseMerge(kept, Some("bcd")))
  {
    var xs := ["bcd"];
    assert Join(xs, ',') == "bcd";
    NotARun(ys, "bcd");
    SearchIsRun(kept, Some("bcd"), ys, xs);
    SearchIsRun(Some("bcd"), kept, xs, ys);
    var text := (kept.value + "," + "bcd")[..LABELS_WIDTH];
    assert text == kept.value + "," + "bc";
    SplitAppended(ys, "bc");
    assert ',' !in "bc";
    JoinThenSplit(["bc"], ',');
    assert Join(["bc"], ',') == "bc";
    hide Split, Join, IsRun, Contains;
    var parts := ys + ["bc"];
    assert Split(text, ',') == parts && parts[|ys|] == "bc";
  }

  /** One label that is not in a longer list: neither is a run of the other. */
  lemma NotARun(ys: seq<string>, only: string)
    requires Clean(ys) && only !in ys
    ensures !IsRun([only], ys) && !IsRun(ys, [only])
  {
    assert [only][0] in [only];
    RunMembers([only], ys);
    if |ys| == 1 { EqualLengthRun(ys, [only]); }
  }

  /** A full column drops every further label. */
  lemma FullColumnDropsLabels(kept: Option<string>, ys: seq<string>, extra: string)
    requires Stores(kept, ys) && |kept.value| == LABELS_WIDTH
    requires extra != "" && ',' !in extra && extra !in ys
    ensures CaseMerge(kept, Some(extra)) == kept
  {
    assert Join([extra], ',') == extra;
    SearchIsRun(kept, Some(extra), ys, [extra]);
    SearchIsRun(Some(extra), kept, [extra], ys);
    NotARun(ys, extra);
    assert (kept.value + "," + extra)[..LABELS_WIDTH] == kept.value;
  }
}
