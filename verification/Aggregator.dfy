/** Folds newly arrived events into the stored tables, one transaction per flush. */
module Aggregator {
  import opened Options
  import opened Events
  import opened Tables
  import opened Aggregates
  import opened Columns
  import opened EventStore
  import DbUpsert
  import LabelLists
  import LogTailer
  import Sequences

  // ---- Building one window's buckets ----------------------------------------

  method AddDuration(h: Histogram, duration: int) returns (h': Histogram)
    ensures h' == HistogramPlus(h, DurationShare(duration))
  {
    h' := h;
    if duration < 0 { return; }
    h' := h'.(sum := h'.sum + duration);
    if duration < 100 {
      h' := h'.(lt100 := h'.lt100 + 1);
    } else if duration < 300 {
      h' := h'.(lt300 := h'.lt300 + 1);
    } else if duration < 1000 {
      h' := h'.(lt1000 := h'.lt1000 + 1);
    } else if duration < 3000 {
      h' := h'.(lt3000 := h'.lt3000 + 1);
    } else if duration < 10000 {
      h' := h'.(lt10000 := h'.lt10000 + 1);
    } else {
      h' := h'.(gte10000 := h'.gte10000 + 1);
    }
  }

  method CountMinute(t: map<MinuteKey, MinuteTotals>, ev: ParsedEvent) returns (t': map<MinuteKey, MinuteTotals>)
    ensures t' == Bump(t, MinuteKeyOf(ev).value, MinuteShare(ev), MinutePlus)
  {
    hide IsCacheHit, IsCacheMiss, MinuteOf, DurationShare;
    var key := MinuteKeyOf(ev).value;
    var recv := Received(ev);
    var mb := if key in t then t[key] else NO_MINUTE;
    mb := mb.(total := mb.total + 1, reply := mb.reply + ev.reply, received := mb.received + recv);
    if ev.blocked {
      mb := mb.(blocked := mb.blocked + 1);
    } else {
      mb := mb.(allowed := mb.allowed + 1, allowedReply := mb.allowedReply + ev.reply,
                allowedReceived := mb.allowedReceived + recv);
    }
    if IsCacheHit(ev.action) {
      mb := mb.(hit := mb.hit + 1);
    } else if IsCacheMiss(ev.action) {
      mb := mb.(miss := mb.miss + 1);
    }
    var durations := AddDuration(mb.durations, ev.durationMs);
    t' := t[key := mb.(durations := durations)];
  }

  method CountBytesIn<K>(t: map<K, CountBytes>, key: K, bytes: int) returns (t': map<K, CountBytes>)
    ensures t' == Bump(t, key, CountBytes(1, bytes), CountBytesPlus)
  {
    var row := if key in t then t[key] else CountBytes(0, 0);
    row := row.(count := row.count + 1);
    row := row.(bytes := row.bytes + bytes);
    t' := t[key := row];
  }

  method CountDomain(t: map<DomainKey, DomainTotals>, ev: ParsedEvent) returns (t': map<DomainKey, DomainTotals>)
    requires HasDomain(ev)
    ensures t' == Bump(t, DomainKeyOf(ev).value, DomainShare(ev), DomainPlus)
  {
    var key := DomainKeyOf(ev).value;
    var row := if key in t then t[key] else NO_DOMAIN;
    row := row.(count := row.count + 1);
    if ev.blocked {
      row := row.(blocked := row.blocked + 1);
    } else {
      row := row.(reply := row.reply + ev.reply, received := row.received + Received(ev));
    }
    t' := t[key := row];
  }

  method CountBlocked<K>(t: map<K, BlockCounts>, key: K, ev: ParsedEvent) returns (t': map<K, BlockCounts>)
    ensures t' == Bump(t, key, BlockShare(ev), BlockPlus)
  {
    var row := if key in t then t[key] else BlockCounts(0, 0);
    if ev.statusCode == 407 {
      row := row.(auth := row.auth + 1);
    } else {
      row := row.(denied := row.denied + 1);
    }
    t' := t[key := row];
  }

  method CountClient(t: map<ClientKey, ClientTotals>, ev: ParsedEvent) returns (t': map<ClientKey, ClientTotals>)
    ensures t' == Bump(t, ClientKeyOf(ev).value, ClientTotalsShare(ev), ClientTotalsPlus)
  {
    var key := ClientKeyOf(ev).value;
    var row := if key in t then t[key] else NO_CLIENT;
    var sums := row.sums.(count := row.sums.count + 1);
    var proxies := row.proxies;
    if ev.proxy.Some? && ev.proxy.value != "" { proxies := proxies + {ev.proxy.value}; }
    if ev.blocked {
      sums := sums.(blocked := sums.blocked + 1, blockedReply := sums.blockedReply + ev.reply,
                    blockedReceived := sums.blockedReceived + Received(ev));
    } else {
      sums := sums.(reply := sums.reply + ev.reply, received := sums.received + Received(ev));
    }
    var old' := if key in t then t[key] else NO_CLIENT;
    assert proxies == old'.proxies + ClientTotalsShare(ev).proxies;
    assert NO_CLIENT.proxies + ClientTotalsShare(ev).proxies == ClientTotalsShare(ev).proxies;
    assert sums == ClientSumsPlus(old'.sums, ClientShare(ev));
    t' := t[key := ClientTotals(sums, proxies)];
  }

  /** One event's contribution to every table. */
  ghost function BumpAll(category: string -> string, b: Buckets, ev: ParsedEvent): Buckets {
    Buckets(
      BumpAt(b.minute, MinuteKeyOf(ev), MinuteShare(ev), MinutePlus),
      BumpAt(b.domain, DomainKeyOf(ev), DomainShare(ev), DomainPlus),
      BumpAt(b.client, ClientKeyOf(ev), ClientTotalsShare(ev), ClientTotalsPlus),
      BumpAt(b.category, CategoryKeys(category)(ev), AllowedShare(ev), CountBytesPlus),
      BumpAt(b.code, CodeKeyOf(ev), FullShare(ev), CountBytesPlus),
      BumpAt(b.http, HttpKeyOf(ev), FullShare(ev), CountBytesPlus),
      BumpAt(b.hierarchy, HierarchyKeyOf(ev), FullShare(ev), CountBytesPlus),
      BumpAt(b.userCategory, UserCategoryKeys(category)(ev), AllowedShare(ev), CountBytesPlus),
      BumpAt(b.blockedDomain, BlockedDomainKeyOf(ev), BlockShare(ev), BlockPlus),
      BumpAt(b.blockedClient, BlockedClientKeyOf(ev), BlockShare(ev), BlockPlus))
  }

  ghost function BumpAt<K, V>(t: map<K, V>, key: Option<K>, v: V, plus: (V, V) -> V): map<K, V> {
    match key case None => t case Some(k) => Bump(t, k, v, plus)
  }

  lemma BucketsGrow(category: string -> string, events: seq<ParsedEvent>, n: nat)
    requires n < |events|
    ensures BucketsOf(category, events[..n + 1]) == BumpAll(category, BucketsOf(category, events[..n]), events[n])
  {
    var longer := events[..n + 1];
    assert longer[..|longer| - 1] == events[..n] && longer[|longer| - 1] == events[n];
  }

  /** The loop over a window's events, touching every table an event belongs to. */
  method BuildBuckets(events: seq<StoredEvent>, category: string -> string)
    returns (b: Buckets, rawRows: seq<ParsedEvent>)
    ensures b == BucketsOf(category, Payload(events)) && rawRows == Payload(events)
  {
    hide BucketsOf, BumpAll;
    b := NO_BUCKETS;
    rawRows := [];
    ghost var all := Payload(events);
    BucketsOfNothing(category);
    assert all[..0] == [];
    var i := 0;
    while i < |events|
      invariant 0 <= i <= |events|
      invariant b == BucketsOf(category, all[..i]) && rawRows == all[..i]
    {
      var ev := events[i].event;
      BucketsGrow(category, all, i);
      b := CountEvent(b, ev, category);
      rawRows := rawRows + [ev];
      i := i + 1;
    }
    assert all[..i] == all;
  }

  const NO_BUCKETS := Buckets(map[], map[], map[], map[], map[], map[], map[], map[], map[], map[])

  lemma BucketsOfNothing(category: string -> string)
    ensures BucketsOf(category, []) == NO_BUCKETS
  {}

  method CountEvent(b: Buckets, ev: ParsedEvent, category: string -> string) returns (b': Buckets)
    ensures b' == BumpAll(category, b, ev)
  {
    hide Bump, MinuteShare, DomainShare, ClientTotalsShare, MinuteOf, HourOf, HierarchyCode, OrEmpty, BlockShare,
         AllowedShare, FullShare;
    b' := CountTraffic(b, ev);
    if HasDomain(ev) {
      b' := CountByDomain(b', ev, category);
    }
    var client := CountClient(b.client, ev);
    b' := b'.(client := client);
  }

  /** The tables every event belongs to, but for the clients'. */
  method CountTraffic(b: Buckets, ev: ParsedEvent) returns (b': Buckets)
    ensures b' == b.(
      minute := BumpAt(b.minute, MinuteKeyOf(ev), MinuteShare(ev), MinutePlus),
      code := BumpAt(b.code, CodeKeyOf(ev), FullShare(ev), CountBytesPlus),
      http := BumpAt(b.http, HttpKeyOf(ev), FullShare(ev), CountBytesPlus),
      hierarchy := BumpAt(b.hierarchy, HierarchyKeyOf(ev), FullShare(ev), CountBytesPlus))
  {
    hide Bump, MinuteShare, MinuteOf, HierarchyCode;
    var minute := CountMinute(b.minute, ev);
    var code := CountBytesIn(b.code, CodeKeyOf(ev).value, ev.reply);
    var http := CountBytesIn(b.http, HttpKeyOf(ev).value, ev.reply);
    var hierarchy := CountBytesIn(b.hierarchy, HierarchyKeyOf(ev).value, ev.reply);
    b' := b.(minute := minute, code := code, http := http, hierarchy := hierarchy);
  }

  /** The tables only events with a domain belong to. */
  method CountByDomain(b: Buckets, ev: ParsedEvent, category: string -> string) returns (b': Buckets)
    requires HasDomain(ev)
    ensures b' == b.(
      domain := BumpAt(b.domain, DomainKeyOf(ev), DomainShare(ev), DomainPlus),
      category := BumpAt(b.category, CategoryKeys(category)(ev), AllowedShare(ev), CountBytesPlus),
      userCategory := BumpAt(b.userCategory, UserCategoryKeys(category)(ev), AllowedShare(ev), CountBytesPlus),
      blockedDomain := BumpAt(b.blockedDomain, BlockedDomainKeyOf(ev), BlockShare(ev), BlockPlus),
      blockedClient := BumpAt(b.blockedClient, BlockedClientKeyOf(ev), BlockShare(ev), BlockPlus))
  {
    hide Bump, DomainShare, MinuteOf, HourOf;
    var domain := CountDomain(b.domain, ev);
    var bytes := if ev.blocked then 0 else ev.reply;
    var cats := CountBytesIn(b.category, CategoryKeys(category)(ev).value, bytes);
    var users := CountBytesIn(b.userCategory, UserCategoryKeys(category)(ev).value, bytes);
    b' := b.(domain := domain, category := cats, userCategory := users);
    if ev.blocked {
      var blockedDomain := CountBlocked(b.blockedDomain, BlockedDomainKeyOf(ev).value, ev);
      var blockedClient := CountBlocked(b.blockedClient, BlockedClientKeyOf(ev).value, ev);
      b' := b'.(blockedDomain := blockedDomain, blockedClient := blockedClient);
    }
  }

  // ---- The database and the flush -------------------------------------------

  /** The part of a table whose keys have been listed. */
  ghost function Done<K, V>(m: map<K, V>, left: set<K>): map<K, V> { map k | k in m && k !in left :: m[k] }

  /** A table's rows in some order; which one is not promised. */
  method Rows<K, V>(m: map<K, V>) returns (rows: seq<(K, V)>)
    ensures Lists(rows, m)
  {
    rows := [];
    var left := m.Keys;
    while left != {}
      invariant left <= m.Keys
      invariant Lists(rows, Done(m, left))
      decreases |left|
    {
      var k :| k in left;
      ListsGrow(rows, Done(m, left), k, m[k]);
      assert Done(m, left)[k := m[k]] == Done(m, left - {k});
      left := left - {k};
      rows := rows + [(k, m[k])];
    }
    assert Done(m, left) == m;
  }

  lemma ListsGrow<K, V>(rows: seq<(K, V)>, m: map<K, V>, k: K, v: V)
    requires Lists(rows, m) && k !in m
    ensures Lists(rows + [(k, v)], m[k := v])
  {
    var longer, m' := rows + [(k, v)], m[k := v];
    assert longer[|rows|].0 == k;
    forall x | x in m'.Keys ensures exists i :: 0 <= i < |longer| && longer[i].0 == x {
      if x != k {
        var i :| 0 <= i < |rows| && rows[i].0 == x;
        assert longer[i].0 == x;
      }
    }
  }

  /** One table's upsert: list the window's buckets, then write them in batches. */
  method UpsertTable<K, V>(t: map<K, V>, buckets: map<K, V>, columnsPerRow: nat, plus: (V, V) -> V,
      keyFits: K -> bool, fits: V -> bool)
    returns (ok: bool, t': map<K, V>)
    requires columnsPerRow > 0
    ensures ok <==> TableTakes(t, buckets, plus, keyFits, fits)
    ensures t' == if ok then Merge(t, buckets, plus) else t
  {
    var rows := Rows(buckets);
    ok, t' := DbUpsert.BulkUpsertSum(t, rows, columnsPerRow, plus, keyFits, fits);
    RowsTakenIff(t, rows, buckets, plus, keyFits, fits);
    UpsertIsMerge(t, rows, buckets, plus);
  }

  /** A batch that fits is inserted whole; otherwise row by row, leaving out the rows that do not fit. */
  method InsertRawEventsBatch(raw: seq<ParsedEvent>, batch: seq<ParsedEvent>) returns (raw': seq<ParsedEvent>)
    ensures raw' == raw + Insertable(batch)
  {
    hide LogParser.FitsColumns;
    InsertableIff(batch);
    if forall i :: 0 <= i < |batch| ==> LogParser.FitsColumns(batch[i]) { return raw + batch; }
    raw' := raw;
    for i := 0 to |batch|
      invariant raw' == raw + Insertable(batch[..i])
    {
      assert batch[..i + 1][..i] == batch[..i];
      if LogParser.FitsColumns(batch[i]) { raw' := raw' + [batch[i]]; }
    }
    assert batch[..|batch|] == batch;
  }

  const RAW_COLUMNS := 17

  method InsertRawEvents(raw: seq<ParsedEvent>, rows: seq<ParsedEvent>,
      maxVariables: nat) returns (raw': seq<ParsedEvent>)
    ensures raw' == raw + Insertable(rows)
  {
    hide Insertable;
    InsertableNothing();
    var batches := DbUpsert.ChunkRows(rows, RAW_COLUMNS, maxVariables);
    raw' := raw;
    for i := 0 to |batches|
      invariant raw' == raw + Insertable(Sequences.Flatten(batches[..i]))
    {
      assert batches[..i + 1][..i] == batches[..i];
      InsertableConcat(Sequences.Flatten(batches[..i]), batches[i]);
      raw' := InsertRawEventsBatch(raw', batches[i]);
    }
    assert batches[..|batches|] == batches;
  }

  lemma InsertableNothing()
    ensures Insertable([]) == []
  {}

  class Database {
    const maxVariables: nat
    var store: Store

    constructor (maxVariables: nat)
      ensures store == EMPTY_STORE
    {
      this.maxVariables := maxVariables;
      store := EMPTY_STORE;
    }

    /**
     * Everything one flush writes, as one transaction.  A row that does not
     * fit its columns fails the transaction; otherwise `commits` is whether it
     * goes through.
     */
    method WriteWindow(b: Buckets, rawRows: seq<ParsedEvent>, category: string -> string, commits: bool)
      returns (committed: bool)
      requires b == BucketsOf(category, rawRows)
      requires forall e :: e in rawRows ==> e.user != Some("")
      modifies this
      ensures committed == (commits && Takes(category, old(store), rawRows))
      ensures store == if committed then Flushed(category, old(store), rawRows) else old(store)
    {
      hide GroupBy, Merge, Project, Insertable, TableTakes;
      var ok, minute, domain, client, cats, code, http, hierarchy, users, blockedDomain, blockedClient;
      ok, minute := UpsertTable(store.minute, b.minute, 18, MinutePlus, MinuteKeyFits, MinuteFits);
      if !ok { return false; }
      ok, domain := UpsertTable(store.domain, b.domain, 7, DomainPlus, DomainKeyFits, DomainFits);
      if !ok { return false; }
      ok, client := UpsertTable(store.client, Project(b.client, ToRow), 11, ClientRowPlus, ClientKeyFits,
          ClientRowFits);
      if !ok { return false; }
      ok, cats := UpsertTable(store.category, b.category, 6, CountBytesPlus, CategoryKeyFits, CountBytesFits);
      if !ok { return false; }
      ok, code := UpsertTable(store.code, b.code, 5, CountBytesPlus, CodeKeyFits, CountBytesFits);
      if !ok { return false; }
      ok, http := UpsertTable(store.http, b.http, 6, CountBytesPlus, HttpKeyFits, CountBytesFits);
      if !ok { return false; }
      ok, hierarchy := UpsertTable(store.hierarchy, b.hierarchy, 5, CountBytesPlus, HierarchyKeyFits, CountBytesFits);
      if !ok { return false; }
      ok, users := UpsertTable(store.userCategory, b.userCategory, 6, CountBytesPlus, UserCategoryKeyFits,
          CountBytesFits);
      if !ok { return false; }
      ok, blockedDomain := UpsertTable(store.blockedDomain, b.blockedDomain, 6, BlockPlus, BlockedDomainKeyFits,
          BlockCountsFit);
      if !ok { return false; }
      ok, blockedClient := UpsertTable(store.blockedClient, b.blockedClient, 9, BlockPlus, BlockedClientKeyFits,
          BlockCountsFit);
      if !ok { return false; }
      var raw := InsertRawEvents(store.raw, rawRows, maxVariables);
      committed := commits;
      if commits {
        store := Store(minute, domain, client, cats, code, http, hierarchy, users, blockedDomain, blockedClient, raw);
      }
    }
  }

  class Aggregator {
    const ring: RingBuffer
    const db: Database
    const tailer: LogTailer.LogTailer
    const category: string -> string
    var lastFlushedId: nat

    ghost predicate Valid() reads this, ring, tailer, tailer.stateDir {
      && ring.Valid() && lastFlushedId <= ring.latestId && tailer.sink == ring
      && (tailer.lastPersisted.Some? ==> tailer.Disk() == tailer.lastPersisted)
    }

    constructor (ring: RingBuffer, db: Database, tailer: LogTailer.LogTailer, category: string -> string)
      requires ring.Valid() && tailer.sink == ring && tailer.lastPersisted == None
      ensures Valid() && this.ring == ring && this.db == db && this.tailer == tailer && this.category == category
      ensures lastFlushedId == 0
    {
      this.ring, this.db, this.tailer, this.category := ring, db, tailer, category;
      lastFlushedId := 0;
    }

    /** The first half of a flush: what it is going to write. */
    method TakeBatch() returns (events: seq<StoredEvent>)
      requires ring.Valid()
      ensures events == Above(ring.buffer, lastFlushedId)
    {
      events := ring.EventsSince(lastFlushedId);
    }

    /**
     * The second half, after which polls may have happened: write the batch;
     * only when that is durable advance the mark and let the tailer persist
     * its position.
     */
    method FinishFlush(events: seq<StoredEvent>, commits: bool, writable: bool) returns (flushed: nat)
      requires Valid() && (events != [] ==> events[|events| - 1].id <= ring.latestId)
      requires forall s :: s in events ==> s.event.user != Some("")
      modifies this, db, tailer, tailer.stateDir
      ensures Valid() && tailer.Value() == old(tailer.Value())
      ensures var committed := commits && Takes(category, old(db.store), Payload(events));
              && flushed == (if committed then |events| else 0)
              && (events == [] || !committed ==>
                    (db.store, lastFlushedId, tailer.Disk()) == (old(db.store), old(lastFlushedId), old(tailer.Disk())))
              && (events != [] && committed ==>
                    && db.store == Flushed(category, old(db.store), Payload(events))
                    && lastFlushedId == events[|events| - 1].id
                    && (tailer.stateDir != null ==>
                          tailer.Disk() == LogTailer.Persisted(tailer.lastRead, old(tailer.Disk()), writable)))
    {
      if events == [] { return 0; }
      var b, rawRows := BuildBuckets(events, category);
      forall e | e in rawRows ensures e.user != Some("") {
        var i :| 0 <= i < |rawRows| && rawRows[i] == e;
        assert events[i] in events;
      }
      var committed := db.WriteWindow(b, rawRows, category, commits);
      if !committed { return 0; }
      lastFlushedId := events[|events| - 1].id;
      tailer.Checkpoint(writable);
      flushed := |events|;
    }
  }
}
