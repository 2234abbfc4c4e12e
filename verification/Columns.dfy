/** The columns of the aggregate tables: which windows a database that enforces them takes, and which it refuses. */
module Columns {
  import opened Options
  import opened Events
  import opened PyText
  import opened Tables
  import opened Aggregates
  import LabelLists
  import LogParser
  import ProxyColumn

  // ---- The declared widths --------------------------------------------------

  /** Integer and BigInteger columns; nothing stored in them is negative. */
  predicate Int32(n: int) { n <= LogParser.MAX_INTEGER }

  predicate Int64(n: int) { n <= LogParser.MAX_BIGINT }

  predicate HistogramFits(h: Histogram) {
    && Int64(h.sum) && Int32(h.lt100) && Int32(h.lt300) && Int32(h.lt1000) && Int32(h.lt3000)
    && Int32(h.lt10000) && Int32(h.gte10000)
  }

  predicate MinuteFits(v: MinuteTotals) {
    && Int32(v.total) && Int32(v.blocked) && Int32(v.allowed) && Int32(v.hit) && Int32(v.miss)
    && Int64(v.reply) && Int64(v.received) && Int64(v.allowedReply) && Int64(v.allowedReceived)
    && HistogramFits(v.durations)
  }

  predicate DomainFits(v: DomainTotals) { Int32(v.count) && Int32(v.blocked) && Int64(v.reply) && Int64(v.received) }

  predicate ClientSumsFit(v: ClientSums) {
    && Int32(v.count) && Int32(v.blocked) && Int64(v.reply) && Int64(v.received)
    && Int64(v.blockedReply) && Int64(v.blockedReceived)
  }

  predicate ClientRowFits(r: ClientRow) { ClientSumsFit(r.sums) && ListFits(r.proxy) }

  predicate ListFits(list: Option<string>) { LogParser.FitsOpt(list, LabelLists.LABELS_WIDTH) }

  predicate CountBytesFits(v: CountBytes) { Int32(v.count) && Int64(v.bytes) }

  predicate BlockCountsFit(v: BlockCounts) { Int32(v.denied) && Int32(v.auth) }

  predicate Tag(s: string) { |s| <= LogParser.MAX_TAG_LEN }

  predicate Address(s: string) { |s| <= LogParser.MAX_ADDRESS_LEN }

  predicate Name(s: string) { |s| <= 255 }

  predicate MinuteKeyFits(k: MinuteKey) { Tag(k.branch) }

  predicate DomainKeyFits(k: DomainKey) { Name(k.domain) && Tag(k.branch) }

  predicate ClientKeyFits(k: ClientKey) { Address(k.clientIp) && Tag(k.branch) && LogParser.FitsOpt(k.user, 255) }

  predicate CategoryKeyFits(k: CategoryKey) { Address(k.clientIp) && Tag(k.branch) }

  predicate CodeKeyFits(k: CodeKey) { Tag(k.branch) && Tag(k.action) }

  predicate HttpKeyFits(k: HttpKey) { Tag(k.branch) && |k.verb| <= 16 && Int32(k.statusCode) }

  predicate HierarchyKeyFits(k: HierarchyKey) { Tag(k.branch) && Tag(k.code) }

  predicate UserCategoryKeyFits(k: UserCategoryKey) { Tag(k.branch) && Name(k.user) }

  predicate BlockedDomainKeyFits(k: BlockedDomainKey) { Tag(k.branch) && Tag(k.proxy) && Name(k.domain) }

  predicate BlockedClientKeyFits(k: BlockedClientKey) {
    Tag(k.branch) && Tag(k.proxy) && Name(k.domain) && Address(k.clientIp) && Name(k.user)
  }

  /** Every row that a flush of the window writes fits, as it is written and as it is combined. */
  predicate Takes(category: string -> string, s: Store, events: seq<ParsedEvent>) {
    var b := BucketsOf(category, events);
    && TableTakes(s.minute, b.minute, MinutePlus, MinuteKeyFits, MinuteFits)
    && TableTakes(s.domain, b.domain, DomainPlus, DomainKeyFits, DomainFits)
    && TableTakes(s.client, Project(b.client, ToRow), ClientRowPlus, ClientKeyFits, ClientRowFits)
    && TableTakes(s.category, b.category, CountBytesPlus, CategoryKeyFits, CountBytesFits)
    && TableTakes(s.code, b.code, CountBytesPlus, CodeKeyFits, CountBytesFits)
    && TableTakes(s.http, b.http, CountBytesPlus, HttpKeyFits, CountBytesFits)
    && TableTakes(s.hierarchy, b.hierarchy, CountBytesPlus, HierarchyKeyFits, CountBytesFits)
    && TableTakes(s.userCategory, b.userCategory, CountBytesPlus, UserCategoryKeyFits, CountBytesFits)
    && TableTakes(s.blockedDomain, b.blockedDomain, BlockPlus, BlockedDomainKeyFits, BlockCountsFit)
    && TableTakes(s.blockedClient, b.blockedClient, BlockPlus, BlockedClientKeyFits, BlockCountsFit)
  }

  // ---- Sums of what is never negative ---------------------------------------

  /** The byte counts are not negative, which the parser sees to. */
  predicate Countable(e: ParsedEvent) { e.reply >= 0 && Received(e) >= 0 }

  ghost predicate AllCountable(events: seq<ParsedEvent>) { forall i :: 0 <= i < |events| ==> Countable(events[i]) }

  predicate HistogramGood(h: Histogram) {
    h.sum >= 0 && h.lt100 >= 0 && h.lt300 >= 0 && h.lt1000 >= 0 && h.lt3000 >= 0 && h.lt10000 >= 0 && h.gte10000 >= 0
  }

  predicate MinuteGood(v: MinuteTotals) {
    && v.total >= 0 && v.blocked >= 0 && v.allowed >= 0 && v.hit >= 0 && v.miss >= 0 && v.reply >= 0
    && v.received >= 0 && v.allowedReply >= 0 && v.allowedReceived >= 0 && HistogramGood(v.durations)
  }

  predicate DomainGood(v: DomainTotals) { v.count >= 0 && v.blocked >= 0 && v.reply >= 0 && v.received >= 0 }

  predicate ClientSumsGood(v: ClientSums) {
    v.count >= 0 && v.blocked >= 0 && v.reply >= 0 && v.received >= 0 && v.blockedReply >= 0 && v.blockedReceived >= 0
  }

  predicate CountBytesGood(v: CountBytes) { v.count >= 0 && v.bytes >= 0 }

  predicate BlockCountsGood(v: BlockCounts) { v.denied >= 0 && v.auth >= 0 }

  lemma AllDownward()
    ensures Downward(MinuteGood, MinutePlus, MinuteFits) && Downward(DomainGood, DomainPlus, DomainFits)
    ensures Downward(ClientSumsGood, ClientSumsPlus, ClientSumsFit)
    ensures Downward(CountBytesGood, CountBytesPlus, CountBytesFits)
    ensures Downward(BlockCountsGood, BlockPlus, BlockCountsFit)
  {}

  lemma AllAssociative()
    ensures Associative(MinutePlus) && Associative(DomainPlus) && Associative(ClientSumsPlus)
    ensures Associative(CountBytesPlus) && Associative(BlockPlus)
  {}

  lemma SharesAreGood(e: ParsedEvent)
    requires Countable(e)
    ensures MinuteGood(MinuteShare(e)) && DomainGood(DomainShare(e)) && ClientSumsGood(ClientShare(e))
    ensures CountBytesGood(FullShare(e)) && CountBytesGood(AllowedShare(e)) && BlockCountsGood(BlockShare(e))
  {}

  lemma ItemsAreGood(category: string -> string, events: seq<ParsedEvent>)
    requires AllCountable(events)
    ensures GoodItems(events, MinuteKeyOf, MinuteShare, MinuteGood)
    ensures GoodItems(events, DomainKeyOf, DomainShare, DomainGood)
    ensures GoodItems(events, ClientKeyOf, ClientShare, ClientSumsGood)
    ensures GoodItems(events, CategoryKeys(category), AllowedShare, CountBytesGood)
    ensures GoodItems(events, CodeKeyOf, FullShare, CountBytesGood)
    ensures GoodItems(events, HttpKeyOf, FullShare, CountBytesGood)
    ensures GoodItems(events, HierarchyKeyOf, FullShare, CountBytesGood)
    ensures GoodItems(events, UserCategoryKeys(category), AllowedShare, CountBytesGood)
    ensures GoodItems(events, BlockedDomainKeyOf, BlockShare, BlockCountsGood)
    ensures GoodItems(events, BlockedClientKeyOf, BlockShare, BlockCountsGood)
  {
    forall e | Countable(e)
      ensures MinuteGood(MinuteShare(e)) && DomainGood(DomainShare(e)) && ClientSumsGood(ClientShare(e))
      ensures CountBytesGood(FullShare(e)) && CountBytesGood(AllowedShare(e)) && BlockCountsGood(BlockShare(e))
    {
      SharesAreGood(e);
    }
    hide MinuteShare, DomainShare, ClientShare, FullShare, AllowedShare, BlockShare, Countable;
    hide MinuteGood, DomainGood, ClientSumsGood, CountBytesGood, BlockCountsGood;
  }

  // ---- Label lists ----------------------------------------------------------

  /** Every proxy list of the window fits the column. */
  predicate ListsFit(events: seq<ParsedEvent>) {
    forall k :: k in Window(events) ==> ListFits(ToRow(Window(events)[k]).proxy)
  }

  predicate ListsWithin(rows: map<ClientKey, ClientRow>) { forall k :: k in rows ==> ListFits(rows[k].proxy) }

  /** Client rows are taken exactly if their sums are and each list written fits. */
  lemma ClientTakesIff(rows: map<ClientKey, ClientRow>, events: seq<ParsedEvent>)
    requires ListsWithin(rows)
    ensures TableTakes(rows, Project(Window(events), ToRow), ClientRowPlus, ClientKeyFits, ClientRowFits)
            <==> && TableTakes(Project(rows, SumsOf), GroupBy(events, ClientKeyOf, ClientShare, ClientSumsPlus),
                               ClientSumsPlus, ClientKeyFits, ClientSumsFit)
                 && ListsFit(events)
  {
    ClientRowsProject(events);
    hide GroupBy, ClientKeyFits, ClientSumsFit, ClientSumsPlus, LabelLists.MergeCsv, LabelLists.CaseMerge;
    var w := Window(events);
    var sums := GroupBy(events, ClientKeyOf, ClientShare, ClientSumsPlus);
    assert sums.Keys == w.Keys && forall k :: k in w ==> sums[k] == ToRow(w[k]).sums;
    hide Window;
    forall k | k in w
      ensures ClientRowFits(ToRow(w[k])) && ClientRowFits(Combined(rows, k, ToRow(w[k]), ClientRowPlus))
              <==> && ClientSumsFit(sums[k])
                   && ClientSumsFit(Combined(Project(rows, SumsOf), k, sums[k], ClientSumsPlus))
                   && ListFits(ToRow(w[k]).proxy)
    {
      if k in rows && ListFits(ToRow(w[k]).proxy) { LabelLists.CaseMergeWidth(rows[k].proxy, ToRow(w[k]).proxy); }
    }
  }

  // ---- When a window is taken -----------------------------------------------

  /** The keys an event is counted under fit their columns. */
  predicate KeysFit(category: string -> string, e: ParsedEvent) {
    && MinuteKeyFits(MinuteKeyOf(e).value) && (DomainKeyOf(e).Some? ==> DomainKeyFits(DomainKeyOf(e).value))
    && ClientKeyFits(ClientKeyOf(e).value) && CodeKeyFits(CodeKeyOf(e).value) && HttpKeyFits(HttpKeyOf(e).value)
    && HierarchyKeyFits(HierarchyKeyOf(e).value)
    && (CategoryKeys(category)(e).Some? ==> CategoryKeyFits(CategoryKeys(category)(e).value))
    && (UserCategoryKeys(category)(e).Some? ==> UserCategoryKeyFits(UserCategoryKeys(category)(e).value))
    && (BlockedDomainKeyOf(e).Some? ==> BlockedDomainKeyFits(BlockedDomainKeyOf(e).value))
    && (BlockedClientKeyOf(e).Some? ==> BlockedClientKeyFits(BlockedClientKeyOf(e).value))
  }

  /** Every total that the window adds to, taken over all the events, fits its columns. */
  ghost predicate AllTotalsFit(category: string -> string, all: seq<ParsedEvent>, window: seq<ParsedEvent>) {
    && TotalsFit(GroupBy(all, MinuteKeyOf, MinuteShare, MinutePlus), window, MinuteKeyOf, MinuteFits)
    && TotalsFit(GroupBy(all, DomainKeyOf, DomainShare, DomainPlus), window, DomainKeyOf, DomainFits)
    && TotalsFit(GroupBy(all, ClientKeyOf, ClientShare, ClientSumsPlus), window, ClientKeyOf, ClientSumsFit)
    && TotalsFit(GroupBy(all, CategoryKeys(category), AllowedShare, CountBytesPlus), window, CategoryKeys(category),
        CountBytesFits)
    && TotalsFit(GroupBy(all, CodeKeyOf, FullShare, CountBytesPlus), window, CodeKeyOf, CountBytesFits)
    && TotalsFit(GroupBy(all, HttpKeyOf, FullShare, CountBytesPlus), window, HttpKeyOf, CountBytesFits)
    && TotalsFit(GroupBy(all, HierarchyKeyOf, FullShare, CountBytesPlus), window, HierarchyKeyOf, CountBytesFits)
    && TotalsFit(GroupBy(all, UserCategoryKeys(category), AllowedShare, CountBytesPlus), window,
        UserCategoryKeys(category), CountBytesFits)
    && TotalsFit(GroupBy(all, BlockedDomainKeyOf, BlockShare, BlockPlus), window, BlockedDomainKeyOf, BlockCountsFit)
    && TotalsFit(GroupBy(all, BlockedClientKeyOf, BlockShare, BlockPlus), window, BlockedClientKeyOf, BlockCountsFit)
  }

  /** A window is taken exactly if every key, every resulting total and every written list fits. */
  lemma TakesIff(category: string -> string, s: Store, done: seq<ParsedEvent>, events: seq<ParsedEvent>)
    requires IsBatch(category, s, done) && ListsWithin(s.client) && AllCountable(done) && AllCountable(events)
    ensures Takes(category, s, events)
            <==> && (forall e :: e in events ==> KeysFit(category, e))
                 && AllTotalsFit(category, done + events, events) && ListsFit(events)
  {
    hide GroupBy, TableTakes, TotalsFit, ListsFit, ListsWithin, AllCountable, Associative, Downward, GoodItems, Project;
    hide MinuteKeyOf, DomainKeyOf, ClientKeyOf, CategoryKeys, CodeKeyOf, HttpKeyOf, HierarchyKeyOf, UserCategoryKeys,
         BlockedDomainKeyOf, BlockedClientKeyOf;
    hide MinuteKeyFits, DomainKeyFits, ClientKeyFits, CategoryKeyFits, CodeKeyFits, HttpKeyFits, HierarchyKeyFits,
         UserCategoryKeyFits, BlockedDomainKeyFits, BlockedClientKeyFits;
    AllDownward();
    AllAssociative();
    ItemsAreGood(category, done);
    ItemsAreGood(category, events);
    ClientTakesIff(s.client, events);
    TakesIffTotals(done, events, MinuteKeyOf, MinuteShare, MinutePlus, MinuteGood, MinuteKeyFits, MinuteFits);
    TakesIffTotals(done, events, DomainKeyOf, DomainShare, DomainPlus, DomainGood, DomainKeyFits, DomainFits);
    TakesIffTotals(done, events, ClientKeyOf, ClientShare, ClientSumsPlus, ClientSumsGood, ClientKeyFits,
        ClientSumsFit);
    TakesIffTotals(done, events, CategoryKeys(category), AllowedShare, CountBytesPlus, CountBytesGood, CategoryKeyFits,
        CountBytesFits);
    TakesIffTotals(done, events, CodeKeyOf, FullShare, CountBytesPlus, CountBytesGood, CodeKeyFits, CountBytesFits);
    TakesIffTotals(done, events, HttpKeyOf, FullShare, CountBytesPlus, CountBytesGood, HttpKeyFits, CountBytesFits);
    TakesIffTotals(done, events, HierarchyKeyOf, FullShare, CountBytesPlus, CountBytesGood, HierarchyKeyFits,
        CountBytesFits);
    TakesIffTotals(done, events, UserCategoryKeys(category), AllowedShare, CountBytesPlus, CountBytesGood,
        UserCategoryKeyFits, CountBytesFits);
    TakesIffTotals(done, events, BlockedDomainKeyOf, BlockShare, BlockPlus, BlockCountsGood, BlockedDomainKeyFits,
        BlockCountsFit);
    TakesIffTotals(done, events, BlockedClientKeyOf, BlockShare, BlockPlus, BlockCountsGood, BlockedClientKeyFits,
        BlockCountsFit);
    AlwaysKeyed();
  }

  lemma AlwaysKeyed()
    ensures forall e :: MinuteKeyOf(e).Some? && ClientKeyOf(e).Some? && CodeKeyOf(e).Some?
    ensures forall e :: HttpKeyOf(e).Some? && HierarchyKeyOf(e).Some?
  {}

  /** What is refused for a window is refused for every longer one. */
  lemma TakesPrefix(category: string -> string, s: Store, done: seq<ParsedEvent>, xs: seq<ParsedEvent>,
      ys: seq<ParsedEvent>)
    requires IsBatch(category, s, done) && ListsWithin(s.client)
    requires AllCountable(done) && AllCountable(xs) && AllCountable(ys) && Takes(category, s, xs + ys)
    ensures Takes(category, s, xs)
  {
    hide GroupBy, TableTakes, ListsFit, ListsWithin, AllCountable, Associative, Downward, GoodItems, Project;
    AllDownward();
    AllAssociative();
    ItemsAreGood(category, done);
    ItemsAreGood(category, xs);
    ItemsAreGood(category, ys);
    ClientTakesIff(s.client, xs);
    ClientTakesIff(s.client, xs + ys);
    ListsFitPrefix(xs, ys);
    TakesOfPrefix(done, xs, ys, MinuteKeyOf, MinuteShare, MinutePlus, MinuteGood, MinuteKeyFits, MinuteFits);
    TakesOfPrefix(done, xs, ys, DomainKeyOf, DomainShare, DomainPlus, DomainGood, DomainKeyFits, DomainFits);
    TakesOfPrefix(done, xs, ys, ClientKeyOf, ClientShare, ClientSumsPlus, ClientSumsGood, ClientKeyFits, ClientSumsFit);
    TakesOfPrefix(done, xs, ys, CategoryKeys(category), AllowedShare, CountBytesPlus, CountBytesGood, CategoryKeyFits,
        CountBytesFits);
    TakesOfPrefix(done, xs, ys, CodeKeyOf, FullShare, CountBytesPlus, CountBytesGood, CodeKeyFits, CountBytesFits);
    TakesOfPrefix(done, xs, ys, HttpKeyOf, FullShare, CountBytesPlus, CountBytesGood, HttpKeyFits, CountBytesFits);
    TakesOfPrefix(done, xs, ys, HierarchyKeyOf, FullShare, CountBytesPlus, CountBytesGood, HierarchyKeyFits,
        CountBytesFits);
    TakesOfPrefix(done, xs, ys, UserCategoryKeys(category), AllowedShare, CountBytesPlus, CountBytesGood,
        UserCategoryKeyFits, CountBytesFits);
    TakesOfPrefix(done, xs, ys, BlockedDomainKeyOf, BlockShare, BlockPlus, BlockCountsGood, BlockedDomainKeyFits,
        BlockCountsFit);
    TakesOfPrefix(done, xs, ys, BlockedClientKeyOf, BlockShare, BlockPlus, BlockCountsGood, BlockedClientKeyFits,
        BlockCountsFit);
  }

  // ---- Longer windows write longer lists ------------------------------------

  lemma ListsFitPrefix(xs: seq<ParsedEvent>, ys: seq<ParsedEvent>)
    ensures ListsFit(xs + ys) ==> ListsFit(xs)
  {
    forall k | k in Window(xs)
      ensures k in Window(xs + ys)
          && (ListFits(ToRow(Window(xs + ys)[k]).proxy) ==> ListFits(ToRow(Window(xs)[k]).proxy))
    {
      GroupKeys(xs, ClientKeyOf, ClientTotalsShare, ClientTotalsPlus, k);
      GroupKeys(xs + ys, ClientKeyOf, ClientTotalsShare, ClientTotalsPlus, k);
      var e :| e in xs && ClientKeyOf(e) == Some(k);
      assert e in xs + ys;
      hide ClientKeyOf, ToRow, ListFits, GroupBy;
      ProxyColumn.LabelsSeenConcat(xs, ys, k);
      ProxyColumn.WindowLabels(xs, k);
      ProxyColumn.WindowLabels(xs + ys, k);
      LongerList(Window(xs)[k], Window(xs + ys)[k]);
    }
  }

  lemma LongerList(t: ClientTotals, u: ClientTotals)
    requires ProxyColumn.LabelsAmong(t.proxies) <= ProxyColumn.LabelsAmong(u.proxies)
    ensures ListFits(ToRow(u).proxy) ==> ListFits(ToRow(t).proxy)
  {
    hide LabelLists.AllLabels, LabelLists.Labels, LabelLists.Sorted, Join, OptionSet;
    ProxyColumn.RowLabels(t);
    ProxyColumn.RowLabels(u);
    LabelLists.MergeCsvIsUnion(OptionSet(t.proxies));
    LabelLists.MergeCsvIsUnion(OptionSet(u.proxies));
    var small, large := LabelLists.AllLabels(OptionSet(t.proxies)), LabelLists.AllLabels(OptionSet(u.proxies));
    if small != {} { LabelLists.JoinedGrows(small, large); }
  }

  // ---- Parsed events --------------------------------------------------------

  lemma {:induction false} FirstPieceShorter(s: string, c: char)
    ensures |Split(s, c)[0]| <= |s|
  {
    if s != "" { FirstPieceShorter(s[1..], c); }
  }

  lemma {:induction false} StripRightShortens(s: string)
    ensures |StripRight(s)| <= |s|
  {
    if s != "" { StripRightShortens(s[..|s| - 1]); }
  }

  lemma CodeFits(raw: Option<string>)
    requires LogParser.FitsOpt(raw, LogParser.MAX_TAG_LEN)
    ensures Tag(HierarchyCode(raw))
  {
    if raw.Some? {
      FirstPieceShorter(raw.value, '/');
      var piece := Split(raw.value, '/')[0];
      StripLeftShortens(piece);
      StripRightShortens(StripLeft(piece));
    }
  }

  /** The names a log source is configured with fit their columns. */
  predicate SourceFits(e: ParsedEvent) { Tag(e.branch) && LogParser.FitsOpt(e.proxy, LogParser.MAX_TAG_LEN) }

  /** The keys of a parsed event fit exactly if its own row does. */
  lemma KeysFitIff(category: string -> string, e: ParsedEvent)
    requires LogParser.Sanitized(e) && SourceFits(e)
    ensures Countable(e) && (KeysFit(category, e) <==> LogParser.FitsColumns(e))
  {
    CodeFits(e.hierarchy);
    hide HierarchyCode, LogParser.IsRefusal, MinuteOf, HourOf;
  }

  /**
   * A flush of parsed events goes through if and only if each event's own row
   * fits, every total that the window adds to, over all events committed and
   * the window, fits its column, and so does every proxy list written.
   */
  lemma TakenIff(category: string -> string, s: Store, done: seq<ParsedEvent>, events: seq<ParsedEvent>)
    requires IsBatch(category, s, done) && ListsWithin(s.client)
    requires forall e :: e in done ==> LogParser.Sanitized(e)
    requires forall e :: e in events ==> LogParser.Sanitized(e) && SourceFits(e)
    ensures Takes(category, s, events)
            <==> && (forall e :: e in events ==> LogParser.FitsColumns(e))
                 && AllTotalsFit(category, done + events, events) && ListsFit(events)
  {
    hide IsBatch, ListsWithin, Takes, AllTotalsFit, ListsFit, KeysFit, SourceFits, LogParser.FitsColumns;
    forall i | 0 <= i < |done| ensures Countable(done[i]) { SanitizedIsCountable(done[i]); }
    forall e | e in events ensures Countable(e) && (KeysFit(category, e) <==> LogParser.FitsColumns(e)) {
      KeysFitIff(category, e);
    }
    hide Countable, LogParser.Sanitized;
    TakesIff(category, s, done, events);
  }

  lemma SanitizedIsCountable(e: ParsedEvent)
    requires LogParser.Sanitized(e)
    ensures Countable(e)
  {
    hide LogParser.IsRefusal;
  }

  /** Whatever the tables hold, no window with a too wide status or address is taken. */
  lemma TakesNoOversized(category: string -> string, s: Store, events: seq<ParsedEvent>, e: ParsedEvent)
    requires Takes(category, s, events) && e in events
    ensures e.statusCode <= LogParser.MAX_INTEGER && |e.clientIp| <= LogParser.MAX_ADDRESS_LEN
  {
    GroupKeys(events, HttpKeyOf, FullShare, CountBytesPlus, HttpKeyOf(e).value);
    GroupKeys(events, ClientKeyOf, ClientTotalsShare, ClientTotalsPlus, ClientKeyOf(e).value);
    hide GroupBy, ToRow, ClientRowFits, CountBytesFits, ClientRowPlus, CountBytesPlus, MinuteOf;
    var b := BucketsOf(category, events);
    assert HttpKeyOf(e).value in b.http && ClientKeyOf(e).value in Project(b.client, ToRow);
    assert HttpKeyFits(HttpKeyOf(e).value) && ClientKeyFits(ClientKeyOf(e).value);
  }

  lemma EmptyListsWithin()
    ensures ListsWithin(EMPTY_STORE.client)
  {}

  lemma NothingIsTaken(category: string -> string, s: Store)
    ensures Takes(category, s, [])
  {
    assert Project(BucketsOf(category, []).client, ToRow) == map[];
  }

  /** A flush that is taken leaves no list past its column. */
  lemma TakesKeepsLists(category: string -> string, s: Store, events: seq<ParsedEvent>)
    requires Takes(category, s, events) && ListsWithin(s.client)
    ensures ListsWithin(Flushed(category, s, events).client)
  {
    hide GroupBy, ToRow, ClientSumsFit, LabelLists.CaseMerge, ClientSumsPlus;
    var rows, d := Flushed(category, s, events).client, Project(BucketsOf(category, events).client, ToRow);
    forall k | k in rows ensures ListFits(rows[k].proxy) {
      if k in d { assert ClientRowFits(d[k]) && ClientRowFits(Combined(s.client, k, d[k], ClientRowPlus)); }
    }
  }

  // ---- Windows of fitting events that are refused ---------------------------

  /** Two events of a minute whose sizes together pass 64 bits, each of which fits. */
  lemma SumOverflows(category: string -> string, s: Store, e: ParsedEvent, f: ParsedEvent)
    requires MinuteKeyOf(e) == MinuteKeyOf(f) && e.reply + f.reply > LogParser.MAX_BIGINT
    ensures !Takes(category, s, [e, f])
  {
    hide MinuteOf, DurationShare, HistogramPlus, IsCacheHit, IsCacheMiss, GroupBy;
    GroupOfTwo(e, f, MinuteKeyOf, MinuteShare, MinutePlus);
    var d := GroupBy([e, f], MinuteKeyOf, MinuteShare, MinutePlus);
    assert !MinuteFits(d[MinuteKeyOf(e).value]);
  }

  /** Four proxies with names of full width in one client's minute: their list is 259 characters long. */
  lemma FourProxiesOverflow(category: string -> string, s: Store, e: ParsedEvent, a: string, b: string, c: string,
      d: string)
    requires |a| == |b| == |c| == |d| == LogParser.MAX_TAG_LEN && a !in {b, c, d} && b !in {c, d} && c != d
    requires ',' !in a && ',' !in b && ',' !in c && ',' !in d
    ensures !Takes(category, s,
        [e.(proxy := Some(a)), e.(proxy := Some(b)), e.(proxy := Some(c)), e.(proxy := Some(d))])
  {
    var events := [e.(proxy := Some(a)), e.(proxy := Some(b)), e.(proxy := Some(c)), e.(proxy := Some(d))];
    var k := ClientKeyOf(e).value;
    hide GroupBy, ToRow, TableTakes, ListsFit;
    FourSeen(e, a, b, c, d);
    FourNames(a, b, c, d);
    WrittenList(events, k);
    assert k in Window(events) && !ListFits(ToRow(Window(events)[k]).proxy);
    RefusedList(s.client, events, k);
  }

  lemma RefusedList(rows: map<ClientKey, ClientRow>, events: seq<ParsedEvent>, k: ClientKey)
    requires k in Window(events) && !ListFits(ToRow(Window(events)[k]).proxy)
    ensures !TableTakes(rows, Project(Window(events), ToRow), ClientRowPlus, ClientKeyFits, ClientRowFits)
  {
    hide Window, ToRow;
    assert k in Project(Window(events), ToRow);
  }

  /** The list written for a client is the sorted list of the labels its events carry. */
  lemma WrittenList(events: seq<ParsedEvent>, k: ClientKey)
    ensures var seen := ProxyColumn.LabelsSeen(events, k);
            seen != {} ==>
              k in Window(events) && ToRow(Window(events)[k]).proxy == Some(Join(LabelLists.Sorted(seen), ','))
  {
    hide GroupBy, OptionSet, LabelLists.AllLabels, LabelLists.Labels, ProxyColumn.LabelsSeen, ProxyColumn.LabelsAmong,
        LabelLists.Sorted;
    ProxyColumn.WindowLabels(events, k);
    if k in Window(events) {
      ProxyColumn.RowLabels(Window(events)[k]);
      LabelLists.MergeCsvIsUnion(OptionSet(Window(events)[k].proxies));
    }
  }

  lemma FourSeen(e: ParsedEvent, a: string, b: string, c: string, d: string)
    requires a != "" && b != "" && c != "" && d != "" && ',' !in a && ',' !in b && ',' !in c && ',' !in d
    ensures ProxyColumn.LabelsSeen([e.(proxy := Some(a)), e.(proxy := Some(b)), e.(proxy := Some(c)),
        e.(proxy := Some(d))],
                                   ClientKeyOf(e).value) == {a, b, c, d}
  {
    var k := ClientKeyOf(e).value;
    hide ProxyColumn.LabelsSeen, ClientKeyOf;
    SeenOnce(e, a, k);
    SeenOnce(e, b, k);
    SeenOnce(e, c, k);
    SeenOnce(e, d, k);
    var p, q, r, s := [e.(proxy := Some(a))], [e.(proxy := Some(b))], [e.(proxy := Some(c))], [e.(proxy := Some(d))];
    ProxyColumn.LabelsSeenConcat(p, q, k);
    ProxyColumn.LabelsSeenConcat(p + q, r, k);
    ProxyColumn.LabelsSeenConcat(p + q + r, s, k);
    assert p + q + r + s == [e.(proxy := Some(a)), e.(proxy := Some(b)), e.(proxy := Some(c)), e.(proxy := Some(d))];
  }

  lemma SeenOnce(e: ParsedEvent, a: string, k: ClientKey)
    requires a != "" && ',' !in a && ClientKeyOf(e) == Some(k)
    ensures ProxyColumn.LabelsSeen([e.(proxy := Some(a))], k) == {a}
  {
    JoinThenSplit([a], ',');
    var one := [e.(proxy := Some(a))];
    assert one[..0] == [] && ClientKeyOf(one[0]) == Some(k);
  }

  lemma FourNames(a: string, b: string, c: string, d: string)
    requires |a| == |b| == |c| == |d| == 64 && a !in {b, c, d} && b !in {c, d} && c != d
    ensures |Join(LabelLists.Sorted({a, b, c, d}), ',')| == 259
  {
    hide LabelLists.Sorted, Join;
    LabelLists.SortedOne(a);
    LabelLists.JoinedAdds({a}, b);
    LabelLists.JoinedAdds({a} + {b}, c);
    LabelLists.JoinedAdds({a} + {b} + {c}, d);
    assert {a} + {b} + {c} + {d} == {a, b, c, d};
  }
}
