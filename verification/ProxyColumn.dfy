/** The client rows' proxy column over any sequence of flushes: it reads back as the labels of the row's events. */
module ProxyColumn {
  import opened Options
  import opened Events
  import opened Sequences
  import opened Tables
  import opened Aggregates
  import opened LabelLists

  /** The proxy labels of the events counted in one client row. */
  function LabelsSeen(events: seq<ParsedEvent>, k: ClientKey): set<string> {
    if events == [] then {}
    else
      var last := events[|events| - 1];
      LabelsSeen(events[..|events| - 1], k) + if ClientKeyOf(last) == Some(k) then Labels(last.proxy) else {}
  }

  lemma {:induction false} LabelsSeenConcat(a: seq<ParsedEvent>, b: seq<ParsedEvent>, k: ClientKey)
    ensures LabelsSeen(a + b, k) == LabelsSeen(a, k) + LabelsSeen(b, k)
  {
    hide Labels, ClientKeyOf;
    if b == [] {
      assert a + b == a;
    } else {
      LabelsSeenConcat(a, b[..|b| - 1], k);
      assert (a + b)[..|a + b| - 1] == a + b[..|b| - 1];
    }
  }

  // ---- One flush window -----------------------------------------------------

  /** The labels of a set of proxy names, each of which may itself be a list. */
  function LabelsAmong(proxies: set<string>): set<string> { set p, x | p in proxies && x in Labels(Some(p)) :: x }

  lemma ShareLabels(e: ParsedEvent)
    ensures LabelsAmong(ClientTotalsShare(e).proxies) == Labels(e.proxy)
  {
    if OrEmpty(e.proxy) == "" { assert Labels(e.proxy) == {}; }
  }

  /** A window's row carries the labels of its events. */
  lemma {:induction false} WindowLabels(events: seq<ParsedEvent>, k: ClientKey)
    ensures LabelsSeen(events, k) == if k in Window(events) then LabelsAmong(Window(events)[k].proxies) else {}
  {
    if events != [] {
      hide Labels, ClientTotalsShare, ClientKeyOf, ClientSumsPlus;
      var front, last := events[..|events| - 1], events[|events| - 1];
      WindowLabels(front, k);
      ShareLabels(last);
    }
  }

  lemma {:induction false} AllLabelsAmong(values: seq<Option<string>>, x: string)
    ensures x in AllLabels(values) <==> exists i :: 0 <= i < |values| && x in Labels(values[i])
  {
    hide Labels;
    if values != [] {
      var front := values[..|values| - 1];
      AllLabelsAmong(front, x);
      if i :| 0 <= i < |front| && x in Labels(front[i]) { assert x in Labels(values[i]); }
    }
  }

  ghost predicate Readable(value: Option<string>) { value.None? || exists labels :: Stores(value, labels) }

  /** The row written for a window's entry reads back as the entry's labels. */
  lemma RowLabels(t: ClientTotals)
    ensures Readable(ToRow(t).proxy) && Labels(ToRow(t).proxy) == LabelsAmong(t.proxies)
  {
    var values := OptionSet(t.proxies);
    MergeCsvIsUnion(values);
    hide Labels, MergeCsv, AllLabels, Stores;
    assert forall p :: p in t.proxies <==> p in Sorted(t.proxies);
    forall x ensures x in AllLabels(values) <==> x in LabelsAmong(t.proxies) {
      AllLabelsAmong(values, x);
      if x in LabelsAmong(t.proxies) {
        var p :| p in t.proxies && x in Labels(Some(p));
        var i :| 0 <= i < |Sorted(t.proxies)| && Sorted(t.proxies)[i] == p;
        assert values[i] == Some(p);
      }
    }
  }

  // ---- The stored column ----------------------------------------------------

  /** An upsert that fits adds labels to labels. */
  lemma MergedLabels(kept: Option<string>, incoming: Option<string>)
    requires Readable(kept) && Readable(incoming) && Fits(kept, incoming)
    ensures Readable(CaseMerge(kept, incoming))
    ensures Labels(CaseMerge(kept, incoming)) == Labels(kept) + Labels(incoming)
  {
    if kept.Some? && incoming.Some? {
      hide CaseMerge, Stores, Fits, Labels;
      var ys :| Stores(kept, ys);
      var xs :| Stores(incoming, xs);
      var zs := CaseMergeKeeps(kept, ys, incoming, xs);
      StoredLabels(kept, ys);
      StoredLabels(incoming, xs);
      StoredLabels(CaseMerge(kept, incoming), zs);
    }
  }

  /** Every stored row reads back as the labels of its events. */
  ghost predicate ReadsBack(rows: map<ClientKey, ClientRow>, events: seq<ParsedEvent>) {
    && (forall k :: k in rows ==> Readable(rows[k].proxy) && Labels(rows[k].proxy) == LabelsSeen(events, k))
    && forall k :: k !in rows ==> LabelsSeen(events, k) == {}
  }

  /** The column takes every list of the window, and none is cut off. */
  ghost predicate WindowFits(rows: map<ClientKey, ClientRow>, events: seq<ParsedEvent>) {
    forall k :: k in Window(events) ==>
      Fits(if k in rows then rows[k].proxy else None, ToRow(Window(events)[k]).proxy)
  }

  lemma FlushKeepsLabels(category: string -> string, s: Store, done: seq<ParsedEvent>, events: seq<ParsedEvent>)
    requires ReadsBack(s.client, done) && WindowFits(s.client, events)
    ensures ReadsBack(Flushed(category, s, events).client, done + events)
  {
    hide LabelsSeen, Labels, GroupBy, Readable, CaseMerge, Fits, ToRow, ClientSumsPlus;
    var rows := Flushed(category, s, events).client;
    forall k
      ensures k in rows <==> k in s.client || k in Window(events)
      ensures k in rows ==> Readable(rows[k].proxy) && Labels(rows[k].proxy) == LabelsSeen(done + events, k)
      ensures k !in rows ==> LabelsSeen(done + events, k) == {}
    {
      LabelsSeenConcat(done, events, k);
      WindowLabels(events, k);
      if k in Window(events) {
        RowLabels(Window(events)[k]);
        if k in s.client { MergedLabels(s.client[k].proxy, ToRow(Window(events)[k]).proxy); }
      }
    }
  }

  ghost predicate AllWindowsFit(category: string -> string, batches: seq<seq<ParsedEvent>>) {
    batches == [] ||
    (AllWindowsFit(category, batches[..|batches| - 1])
     && WindowFits(FlushedAll(category, batches[..|batches| - 1]).client, batches[|batches| - 1]))
  }

  /**
   * However the events are split into flushes, as long as the column takes
   * every list and none is cut off, each client row's proxy column reads back as exactly the labels of
   * the events counted in the row.
   */
  lemma {:induction false} ColumnReadsBack(category: string -> string, batches: seq<seq<ParsedEvent>>)
    requires AllWindowsFit(category, batches)
    ensures ReadsBack(FlushedAll(category, batches).client, Flatten(batches))
  {
    hide WindowFits, Flushed, ReadsBack;
    if batches == [] {
      NothingToRead();
    } else {
      var front, last := batches[..|batches| - 1], batches[|batches| - 1];
      ColumnReadsBack(category, front);
      FlushKeepsLabels(category, FlushedAll(category, front), Flatten(front), last);
    }
  }

  lemma NothingToRead()
    ensures ReadsBack(map[], [])
  {}
}
