/** The proxy columns under flushes and rollups: minute and hourly rows together keep every label of their events. */
module HourlyProxies {
  import opened Options
  import opened Events
  import opened Tables
  import opened Aggregates
  import opened LabelLists
  import opened ProxyColumn
  import opened Rollup

  /** The labels of the events of one hour, client, branch and user. */
  function HourSeen(events: seq<ParsedEvent>, h: ClientKey): set<string> {
    if events == [] then {}
    else
      var last := events[|events| - 1];
      HourSeen(events[..|events| - 1], h) + if HourKey(ClientKeyOf(last).value) == h then Labels(last.proxy) else {}
  }

  lemma {:induction false} HourSeenConcat(a: seq<ParsedEvent>, b: seq<ParsedEvent>, h: ClientKey)
    ensures HourSeen(a + b, h) == HourSeen(a, h) + HourSeen(b, h)
  {
    hide Labels, ClientKeyOf, HourKey;
    if b == [] {
      assert a + b == a;
    } else {
      HourSeenConcat(a, b[..|b| - 1], h);
      assert (a + b)[..|a + b| - 1] == a + b[..|b| - 1];
    }
  }

  /** A label of the hour is one of a minute of the hour. */
  lemma {:induction false} HourIsMinutes(events: seq<ParsedEvent>, h: ClientKey, x: string)
    ensures x in HourSeen(events, h) <==> exists k :: HourKey(k) == h && x in LabelsSeen(events, k)
  {
    hide Labels, HourKey, ClientKeyOf;
    if events != [] {
      var front, last := events[..|events| - 1], events[|events| - 1];
      HourIsMinutes(front, h, x);
      Keyed(last);
      var own := ClientKeyOf(last).value;
      assert x in LabelsSeen(events, own) <==> x in LabelsSeen(front, own) || x in Labels(last.proxy);
      if k :| HourKey(k) == h && x in LabelsSeen(front, k) { assert x in LabelsSeen(events, k); }
    }
  }

  lemma Keyed(e: ParsedEvent)
    ensures ClientKeyOf(e).Some?
  {}

  // ---- What the tables hold -------------------------------------------------

  ghost predicate InMinutes(minute: map<ClientKey, ClientRow>, h: ClientKey, x: string) {
    exists k :: k in minute && HourKey(k) == h && x in Labels(minute[k].proxy)
  }

  predicate InHour(hourly: map<ClientKey, ClientRow>, h: ClientKey, x: string) {
    h in hourly && x in Labels(hourly[h].proxy)
  }

  ghost predicate AllReadable(rows: map<ClientKey, ClientRow>) { forall k :: k in rows ==> Readable(rows[k].proxy) }

  /** Every list is one, and the labels of an hour's rows are those of the hour's events. */
  ghost predicate LabelsKept(s: State) {
    && AllReadable(s.minute) && AllReadable(s.hourly)
    && forall h, x :: x in HourSeen(s.committed, h) <==> InMinutes(s.minute, h, x) || InHour(s.hourly, h, x)
  }

  /** The column takes every list written, and none is cut off. */
  ghost predicate ListsFit(rows: map<ClientKey, ClientRow>, written: map<ClientKey, ClientRow>) {
    forall k :: k in written ==> Fits(if k in rows then rows[k].proxy else None, written[k].proxy)
  }

  ghost predicate ActionFits(s: State, a: Action) {
    match a
    case Flush(events) => ListsFit(s.minute, NewRows(events))
    case RollUp(_, rows) => ListsFit(s.hourly, Project(HourlyOf(rows), ToRow))
  }

  lemma MergedRows(rows: map<ClientKey, ClientRow>, written: map<ClientKey, ClientRow>)
    requires AllReadable(rows) && AllReadable(written) && ListsFit(rows, written)
    ensures AllReadable(Merge(rows, written, ClientRowPlus))
    ensures forall k, x ::
              InRow(Merge(rows, written, ClientRowPlus), k, x) <==> InRow(rows, k, x) || InRow(written, k, x)
  {
    hide Readable, CaseMerge, Fits, Labels, ClientSumsPlus;
    var merged := Merge(rows, written, ClientRowPlus);
    forall k | k in merged ensures Readable(merged[k].proxy) {
      if k in rows && k in written { MergedLabels(rows[k].proxy, written[k].proxy); }
    }
    forall k, x
      ensures InRow(merged, k, x) <==> InRow(rows, k, x) || InRow(written, k, x)
    {
      if k in rows && k in written { MergedLabels(rows[k].proxy, written[k].proxy); }
    }
  }

  predicate InRow(rows: map<ClientKey, ClientRow>, k: ClientKey, x: string) { k in rows && x in Labels(rows[k].proxy) }

  // ---- Flushes --------------------------------------------------------------

  lemma NewRowsLabels(events: seq<ParsedEvent>)
    ensures AllReadable(NewRows(events))
    ensures forall k, x :: InRow(NewRows(events), k, x) <==> x in LabelsSeen(events, k)
  {
    hide Readable, Labels, LabelsSeen, GroupBy, LabelsAmong, ToRow;
    var d := NewRows(events);
    forall k | k in d ensures Readable(d[k].proxy) { RowLabels(Window(events)[k]); }
    forall k, x
      ensures InRow(d, k, x) <==> x in LabelsSeen(events, k)
    {
      WindowLabels(events, k);
      if k in d { RowLabels(Window(events)[k]); }
    }
  }

  lemma FlushKeepsAll(s: State, events: seq<ParsedEvent>)
    requires LabelsKept(s) && ActionFits(s, Flush(events))
    ensures LabelsKept(DoFlush(s, events))
  {
    hide AllReadable, ListsFit, NewRows, Labels, HourKey, LabelsSeen, HourSeen, ClientRowPlus, Merge;
    var s' := DoFlush(s, events);
    NewRowsLabels(events);
    MergedRows(s.minute, NewRows(events));
    forall h, x ensures x in HourSeen(s'.committed, h) <==> InMinutes(s'.minute, h, x) || InHour(s'.hourly, h, x) {
      HourSeenConcat(s.committed, events, h);
      HourIsMinutes(events, h, x);
      MinutesOfRows(s.minute, h, x);
      MinutesOfRows(s'.minute, h, x);
      hide InMinutes, InHour;
      assert x in HourSeen(s.committed, h) <==> InMinutes(s.minute, h, x) || InHour(s.hourly, h, x);
      if k :| HourKey(k) == h && x in LabelsSeen(events, k) {
        assert InRow(NewRows(events), k, x) && InRow(s'.minute, k, x);
      }
      if k :| HourKey(k) == h && InRow(s.minute, k, x) { assert InRow(s'.minute, k, x); }
    }
  }

  lemma MinutesOfRows(rows: map<ClientKey, ClientRow>, h: ClientKey, x: string)
    ensures InMinutes(rows, h, x) <==> exists k :: HourKey(k) == h && InRow(rows, k, x)
  {
    hide HourKey, Labels;
  }

  // ---- Rollups --------------------------------------------------------------

  lemma {:induction false} HourlyLabels(rows: seq<Row>, h: ClientKey, x: string)
    ensures (h in HourlyOf(rows) && x in LabelsAmong(HourlyOf(rows)[h].proxies))
            <==> exists i :: 0 <= i < |rows| && HourKey(rows[i].0) == h && x in Labels(rows[i].1.proxy)
  {
    hide HourKey, ClientSumsPlus;
    if rows != [] {
      var n := |rows| - 1;
      HourlyLabels(rows[..n], h, x);
      OwnLabels(rows[n]);
      hide Labels, RowTotals;
      if i :| 0 <= i < n && HourKey(rows[..n][i].0) == h && x in Labels(rows[..n][i].1.proxy) {
        assert HourKey(rows[i].0) == h && x in Labels(rows[i].1.proxy);
      }
      if i :| 0 <= i < |rows| && HourKey(rows[i].0) == h && x in Labels(rows[i].1.proxy) {
        if i < n { assert HourKey(rows[..n][i].0) == h && x in Labels(rows[..n][i].1.proxy); }
      }
    }
  }

  lemma OwnLabels(r: Row)
    ensures LabelsAmong(RowTotals(r).proxies) == Labels(r.1.proxy)
  {
    if OrEmpty(r.1.proxy) == "" { assert Labels(r.1.proxy) == {}; }
  }

  lemma WrittenHours(rows: seq<Row>)
    ensures AllReadable(Project(HourlyOf(rows), ToRow))
    ensures forall h, x :: InRow(Project(HourlyOf(rows), ToRow), h, x)
                           <==> exists i :: 0 <= i < |rows| && HourKey(rows[i].0) == h && x in Labels(rows[i].1.proxy)
  {
    hide Readable, Labels, HourlyOf, LabelsAmong, ToRow, HourKey;
    var d := Project(HourlyOf(rows), ToRow);
    forall h | h in d ensures Readable(d[h].proxy) { RowLabels(HourlyOf(rows)[h]); }
    forall h, x
      ensures InRow(d, h, x) <==> exists i :: 0 <= i < |rows| && HourKey(rows[i].0) == h && x in Labels(rows[i].1.proxy)
    {
      HourlyLabels(rows, h, x);
      if h in d { RowLabels(HourlyOf(rows)[h]); }
    }
  }

  lemma RollUpKeepsAll(s: State, cutoff: int, rows: seq<Row>)
    requires LabelsKept(s) && Legal(s, RollUp(cutoff, rows)) && ActionFits(s, RollUp(cutoff, rows))
    ensures LabelsKept(DoRollup(s, cutoff, rows))
  {
    hide Readable, ListsFit, Labels, HourKey, HourSeen, ClientRowPlus, Merge, HourlyOf, ToRow;
    var s' := DoRollup(s, cutoff, rows);
    WrittenHours(rows);
    MergedRows(s.hourly, Project(HourlyOf(rows), ToRow));
    forall h, x ensures x in HourSeen(s'.committed, h) <==> InMinutes(s'.minute, h, x) || InHour(s'.hourly, h, x) {
      assert x in HourSeen(s.committed, h) <==> InMinutes(s.minute, h, x) || InHour(s.hourly, h, x);
      assert InHour(s'.hourly, h, x) <==> InRow(s'.hourly, h, x);
      assert InHour(s.hourly, h, x) <==> InRow(s.hourly, h, x);
      AgedOrNot(s, cutoff, rows, h, x);
    }
  }

  /** A label in a minute row of the hour is in a row that is read for the rollup, or in one that stays. */
  lemma AgedOrNot(s: State, cutoff: int, rows: seq<Row>, h: ClientKey, x: string)
    requires Legal(s, RollUp(cutoff, rows))
    ensures InMinutes(s.minute, h, x)
            <==> || InMinutes(WhereNot(s.minute, Before(cutoff)), h, x)
                 || exists i :: 0 <= i < |rows| && HourKey(rows[i].0) == h && x in Labels(rows[i].1.proxy)
  {
    hide HourKey, Labels;
    var aged, stays := Where(s.minute, Before(cutoff)), WhereNot(s.minute, Before(cutoff));
    if k :| k in s.minute && HourKey(k) == h && x in Labels(s.minute[k].proxy) {
      if k in aged {
        var i :| 0 <= i < |rows| && rows[i].0 == k;
        assert HourKey(rows[i].0) == h && x in Labels(rows[i].1.proxy);
      } else {
        assert k in stays && stays[k] == s.minute[k];
      }
    }
    if i :| 0 <= i < |rows| && HourKey(rows[i].0) == h && x in Labels(rows[i].1.proxy) { assert rows[i].0 in aged; }
  }

  // ---- Runs -----------------------------------------------------------------

  ghost predicate FittingRun(actions: seq<Action>) {
    actions == [] ||
    (FittingRun(actions[..|actions| - 1]) && ActionFits(After(actions[..|actions| - 1]), actions[|actions| - 1]))
  }

  /**
   * Over every run of flushes and rollups in which no list is cut off, the
   * labels read back from the minute rows of an hour and from its hourly row
   * are together exactly the labels of the hour's events.
   */
  lemma {:induction false} HoursReadBack(actions: seq<Action>)
    requires LegalRun(actions) && FittingRun(actions)
    ensures LabelsKept(After(actions))
  {
    hide LabelsKept, Legal, ActionFits, DoFlush, DoRollup;
    if actions == [] {
      NothingKept();
    } else {
      var front := actions[..|actions| - 1];
      HoursReadBack(front);
      match actions[|actions| - 1]
      case Flush(events) => FlushKeepsAll(After(front), events);
      case RollUp(cutoff, rows) => RollUpKeepsAll(After(front), cutoff, rows);
    }
  }

  lemma NothingKept()
    ensures LabelsKept(INITIAL)
  {}
}
