/**
 * The aggregate tables: their keys, their rows, and what one event
 * contributes to each.  Every table is a GROUP BY of the committed events.
 */
module Aggregates {
  import opened Options
  import opened Events
  import opened PyText
  import opened Sequences
  import opened Tables
  import LabelLists
  import LogParser

  const MINUTE := 60_000_000
  const HOUR := 3_600_000_000

  /** The start of the minute, or of the hour, a moment falls in (also before the epoch). */
  function MinuteOf(timestamp: int): (start: int)
    ensures start % 60_000_000 == 0 && start <= timestamp < start + 60_000_000
  {
    timestamp - timestamp % MINUTE
  }

  function HourOf(timestamp: int): (start: int)
    ensures start % 3_600_000_000 == 0 && start <= timestamp < start + 3_600_000_000
  {
    timestamp - timestamp % HOUR
  }

  // ---- Rows -----------------------------------------------------------------

  /** Six disjoint response-time bands, by upper bound in milliseconds, and the sum. */
  datatype Histogram = Histogram(
    sum: int, lt100: int, lt300: int, lt1000: int, lt3000: int, lt10000: int, gte10000: int)

  datatype MinuteTotals = MinuteTotals(
    total: int, blocked: int, allowed: int, reply: int, received: int,
    allowedReply: int, allowedReceived: int, hit: int, miss: int, durations: Histogram)

  datatype DomainTotals = DomainTotals(count: int, blocked: int, reply: int, received: int)

  datatype ClientSums = ClientSums(
    count: int, blocked: int, reply: int, received: int, blockedReply: int, blockedReceived: int)

  datatype ClientTotals = ClientTotals(sums: ClientSums, proxies: set<string>)

  /** A stored client row: its sum columns, and the proxy labels as a comma-joined list. */
  datatype ClientRow = ClientRow(sums: ClientSums, proxy: Option<string>)

  datatype CountBytes = CountBytes(count: int, bytes: int)

  datatype BlockCounts = BlockCounts(denied: int, auth: int)

  const NO_DURATIONS := Histogram(0, 0, 0, 0, 0, 0, 0)
  const NO_MINUTE := MinuteTotals(0, 0, 0, 0, 0, 0, 0, 0, 0, NO_DURATIONS)
  const NO_DOMAIN := DomainTotals(0, 0, 0, 0)
  const NO_CLIENT := ClientTotals(ClientSums(0, 0, 0, 0, 0, 0), {})

  function HistogramPlus(a: Histogram, b: Histogram): Histogram {
    Histogram(a.sum + b.sum, a.lt100 + b.lt100, a.lt300 + b.lt300, a.lt1000 + b.lt1000,
              a.lt3000 + b.lt3000, a.lt10000 + b.lt10000, a.gte10000 + b.gte10000)
  }

  function MinutePlus(a: MinuteTotals, b: MinuteTotals): MinuteTotals {
    MinuteTotals(a.total + b.total, a.blocked + b.blocked, a.allowed + b.allowed, a.reply + b.reply,
                 a.received + b.received, a.allowedReply + b.allowedReply, a.allowedReceived + b.allowedReceived,
                 a.hit + b.hit, a.miss + b.miss, HistogramPlus(a.durations, b.durations))
  }

  function DomainPlus(a: DomainTotals, b: DomainTotals): DomainTotals {
    DomainTotals(a.count + b.count, a.blocked + b.blocked, a.reply + b.reply, a.received + b.received)
  }

  function ClientSumsPlus(a: ClientSums, b: ClientSums): ClientSums {
    ClientSums(a.count + b.count, a.blocked + b.blocked, a.reply + b.reply, a.received + b.received,
               a.blockedReply + b.blockedReply, a.blockedReceived + b.blockedReceived)
  }

  function ClientTotalsPlus(a: ClientTotals, b: ClientTotals): ClientTotals {
    ClientTotals(ClientSumsPlus(a.sums, b.sums), a.proxies + b.proxies)
  }

  /** On conflict the sum columns are added and the label lists merged by the CASE. */
  function ClientRowPlus(a: ClientRow, b: ClientRow): ClientRow {
    ClientRow(ClientSumsPlus(a.sums, b.sums), LabelLists.CaseMerge(a.proxy, b.proxy))
  }

  function CountBytesPlus(a: CountBytes, b: CountBytes): CountBytes { CountBytes(a.count + b.count, a.bytes + b.bytes) }

  function BlockPlus(a: BlockCounts, b: BlockCounts): BlockCounts { BlockCounts(a.denied + b.denied, a.auth + b.auth) }

  // ---- Keys -----------------------------------------------------------------

  datatype MinuteKey = MinuteKey(bucket: int, branch: string)
  datatype DomainKey = DomainKey(bucket: int, domain: string, branch: string)
  datatype ClientKey = ClientKey(bucket: int, clientIp: string, branch: string, user: Option<string>)
  datatype CategoryKey = CategoryKey(bucket: int, clientIp: string, branch: string, category: string)
  datatype CodeKey = CodeKey(bucket: int, branch: string, action: string)
  datatype HttpKey = HttpKey(bucket: int, branch: string, verb: string, statusCode: int)
  datatype HierarchyKey = HierarchyKey(bucket: int, branch: string, code: string)
  datatype UserCategoryKey = UserCategoryKey(bucket: int, branch: string, user: string, category: string)
  datatype BlockedDomainKey = BlockedDomainKey(hour: int, branch: string, proxy: string, domain: string)
  datatype BlockedClientKey = BlockedClientKey(
    hour: int, branch: string, proxy: string, domain: string, clientIp: string, user: string)

  /** `value or fallback` */
  function Or(value: string, fallback: string): string { if value == "" then fallback else value }

  function OrEmpty(value: Option<string>): string { if value.Some? then value.value else "" }

  function HierarchyCode(raw: Option<string>): string {
    if raw.None? || raw.value == "" || raw.value == "-" then "NONE"
    else Or(Strip(Split(raw.value, '/')[0]), "NONE")
  }

  function Upper(s: string): string { seq(|s|, i requires 0 <= i < |s| => UpperChar(s[i])) }

  predicate IsCacheHit(action: string) {
    Contains(Upper(action), "HIT") || Contains(Upper(action), "REFRESH_UNMODIFIED")
  }

  predicate IsCacheMiss(action: string) {
    Contains(Upper(action), "MISS") || Contains(Upper(action), "REFRESH_MODIFIED")
  }

  predicate HasDomain(e: ParsedEvent) { e.domain.Some? && e.domain.value != "" }

  function Received(e: ParsedEvent): int { if e.received.Some? then e.received.value else 0 }

  function One(c: bool): int { if c then 1 else 0 }

  function When(c: bool, n: int): int { if c then n else 0 }

  function MinuteKeyOf(e: ParsedEvent): Option<MinuteKey> { Some(MinuteKey(MinuteOf(e.timestamp), e.branch)) }

  function DomainKeyOf(e: ParsedEvent): Option<DomainKey> {
    if HasDomain(e) then Some(DomainKey(MinuteOf(e.timestamp), e.domain.value, e.branch)) else None
  }

  function ClientKeyOf(e: ParsedEvent): Option<ClientKey> {
    Some(ClientKey(MinuteOf(e.timestamp), e.clientIp, e.branch, e.user))
  }

  function CodeKeyOf(e: ParsedEvent): Option<CodeKey> {
    Some(CodeKey(MinuteOf(e.timestamp), e.branch, Or(e.action, "NONE")))
  }

  function HttpKeyOf(e: ParsedEvent): Option<HttpKey> {
    Some(HttpKey(MinuteOf(e.timestamp), e.branch, Or(e.verb, "NONE"), e.statusCode))
  }

  function HierarchyKeyOf(e: ParsedEvent): Option<HierarchyKey> {
    Some(HierarchyKey(MinuteOf(e.timestamp), e.branch, HierarchyCode(e.hierarchy)))
  }

  /** `category` stands for the domain-to-category lookup in force; it is fixed throughout. */
  function CategoryKeys(category: string -> string): ParsedEvent -> Option<CategoryKey> {
    (e: ParsedEvent) =>
      if HasDomain(e) then Some(CategoryKey(MinuteOf(e.timestamp), e.clientIp, e.branch, category(e.domain.value)))
      else None
  }

  function UserCategoryKeys(category: string -> string): ParsedEvent -> Option<UserCategoryKey> {
    (e: ParsedEvent) =>
      if HasDomain(e) then
        Some(UserCategoryKey(MinuteOf(e.timestamp), e.branch, OrEmpty(e.user), category(e.domain.value)))
      else None
  }

  function BlockedDomainKeyOf(e: ParsedEvent): Option<BlockedDomainKey> {
    if HasDomain(e) && e.blocked then
      Some(BlockedDomainKey(HourOf(MinuteOf(e.timestamp)), e.branch, OrEmpty(e.proxy), e.domain.value))
    else None
  }

  function BlockedClientKeyOf(e: ParsedEvent): Option<BlockedClientKey> {
    if HasDomain(e) && e.blocked then
      Some(BlockedClientKey(
             HourOf(MinuteOf(e.timestamp)), e.branch, OrEmpty(e.proxy), e.domain.value, e.clientIp, OrEmpty(e.user)))
    else None
  }

  // ---- What one event contributes -------------------------------------------

  function DurationShare(d: int): Histogram {
    if d < 0 then NO_DURATIONS
    else Histogram(d, One(d < 100), One(100 <= d < 300), One(300 <= d < 1000), One(1000 <= d < 3000),
                   One(3000 <= d < 10000), One(10000 <= d))
  }

  function MinuteShare(e: ParsedEvent): MinuteTotals {
    MinuteTotals(1, One(e.blocked), One(!e.blocked), e.reply, Received(e),
                 When(!e.blocked, e.reply), When(!e.blocked, Received(e)),
                 One(IsCacheHit(e.action)), One(!IsCacheHit(e.action) && IsCacheMiss(e.action)),
                 DurationShare(e.durationMs))
  }

  function DomainShare(e: ParsedEvent): DomainTotals {
    DomainTotals(1, One(e.blocked), When(!e.blocked, e.reply), When(!e.blocked, Received(e)))
  }

  function ClientShare(e: ParsedEvent): ClientSums {
    ClientSums(1, One(e.blocked), When(!e.blocked, e.reply), When(!e.blocked, Received(e)),
               When(e.blocked, e.reply), When(e.blocked, Received(e)))
  }

  function ClientTotalsShare(e: ParsedEvent): ClientTotals {
    ClientTotals(ClientShare(e), if OrEmpty(e.proxy) == "" then {} else {e.proxy.value})
  }

  function FullShare(e: ParsedEvent): CountBytes { CountBytes(1, e.reply) }

  function AllowedShare(e: ParsedEvent): CountBytes { CountBytes(1, When(!e.blocked, e.reply)) }

  function BlockShare(e: ParsedEvent): BlockCounts { BlockCounts(One(e.statusCode != 407), One(e.statusCode == 407)) }

  // ---- The tables -----------------------------------------------------------

  /** One flush window's in-memory buckets. */
  datatype Buckets = Buckets(
    minute: map<MinuteKey, MinuteTotals>, domain: map<DomainKey, DomainTotals>, client: map<ClientKey, ClientTotals>,
    category: map<CategoryKey, CountBytes>, code: map<CodeKey, CountBytes>, http: map<HttpKey, CountBytes>,
    hierarchy: map<HierarchyKey, CountBytes>, userCategory: map<UserCategoryKey, CountBytes>,
    blockedDomain: map<BlockedDomainKey, BlockCounts>, blockedClient: map<BlockedClientKey, BlockCounts>)

  function BucketsOf(category: string -> string, events: seq<ParsedEvent>): Buckets {
    Buckets(
      GroupBy(events, MinuteKeyOf, MinuteShare, MinutePlus),
      GroupBy(events, DomainKeyOf, DomainShare, DomainPlus),
      GroupBy(events, ClientKeyOf, ClientTotalsShare, ClientTotalsPlus),
      GroupBy(events, CategoryKeys(category), AllowedShare, CountBytesPlus),
      GroupBy(events, CodeKeyOf, FullShare, CountBytesPlus),
      GroupBy(events, HttpKeyOf, FullShare, CountBytesPlus),
      GroupBy(events, HierarchyKeyOf, FullShare, CountBytesPlus),
      GroupBy(events, UserCategoryKeys(category), AllowedShare, CountBytesPlus),
      GroupBy(events, BlockedDomainKeyOf, BlockShare, BlockPlus),
      GroupBy(events, BlockedClientKeyOf, BlockShare, BlockPlus))
  }

  /** The events whose raw row fits its columns; the others are dropped from that table, and only from that one. */
  function Insertable(events: seq<ParsedEvent>): seq<ParsedEvent> {
    if events == [] then []
    else
      var last := events[|events| - 1];
      Insertable(events[..|events| - 1]) + if LogParser.FitsColumns(last) then [last] else []
  }

  lemma {:induction false} InsertableConcat(a: seq<ParsedEvent>, b: seq<ParsedEvent>)
    ensures Insertable(a + b) == Insertable(a) + Insertable(b)
  {
    hide LogParser.FitsColumns;
    if b == [] {
      assert a + b == a;
    } else {
      InsertableConcat(a, b[..|b| - 1]);
      assert (a + b)[..|a + b| - 1] == a + b[..|b| - 1];
    }
  }

  lemma {:induction false} InsertableIff(events: seq<ParsedEvent>)
    ensures |Insertable(events)| <= |events|
    ensures Insertable(events) == events <==> forall i :: 0 <= i < |events| ==> LogParser.FitsColumns(events[i])
  {
    hide LogParser.FitsColumns;
    if events != [] {
      var front, last := events[..|events| - 1], events[|events| - 1];
      InsertableIff(front);
      assert events == front + [last];
      if Insertable(events) == events { assert |Insertable(front)| == |front| && Insertable(front) == front; }
    }
  }

  /** The stored tables. */
  datatype Store = Store(
    minute: map<MinuteKey, MinuteTotals>, domain: map<DomainKey, DomainTotals>, client: map<ClientKey, ClientRow>,
    category: map<CategoryKey, CountBytes>, code: map<CodeKey, CountBytes>, http: map<HttpKey, CountBytes>,
    hierarchy: map<HierarchyKey, CountBytes>, userCategory: map<UserCategoryKey, CountBytes>,
    blockedDomain: map<BlockedDomainKey, BlockCounts>, blockedClient: map<BlockedClientKey, BlockCounts>,
    raw: seq<ParsedEvent>)

  const EMPTY_STORE := Store(map[], map[], map[], map[], map[], map[], map[], map[], map[], map[], [])

  function OptionSet(labels: set<string>): seq<Option<string>> {
    var sorted := LabelLists.Sorted(labels);
    seq(|sorted|, i requires 0 <= i < |sorted| => Some(sorted[i]))
  }

  function ToRow(t: ClientTotals): ClientRow { ClientRow(t.sums, LabelLists.MergeCsv(OptionSet(t.proxies))) }

  /** The store after one committed flush. */
  function Flushed(category: string -> string, s: Store, events: seq<ParsedEvent>): Store {
    var b := BucketsOf(category, events);
    Store(Merge(s.minute, b.minute, MinutePlus), Merge(s.domain, b.domain, DomainPlus),
          Merge(s.client, Project(b.client, ToRow), ClientRowPlus), Merge(s.category, b.category, CountBytesPlus),
          Merge(s.code, b.code, CountBytesPlus), Merge(s.http, b.http, CountBytesPlus),
          Merge(s.hierarchy, b.hierarchy, CountBytesPlus), Merge(s.userCategory, b.userCategory, CountBytesPlus),
          Merge(s.blockedDomain, b.blockedDomain, BlockPlus), Merge(s.blockedClient, b.blockedClient, BlockPlus),
          s.raw + Insertable(events))
  }

  function FlushedAll(category: string -> string, batches: seq<seq<ParsedEvent>>): Store {
    if batches == [] then EMPTY_STORE
    else Flushed(category, FlushedAll(category, batches[..|batches| - 1]), batches[|batches| - 1])
  }

  /** A flush window's client rows, before their label lists are joined. */
  function Window(events: seq<ParsedEvent>): map<ClientKey, ClientTotals> {
    GroupBy(events, ClientKeyOf, ClientTotalsShare, ClientTotalsPlus)
  }

  function SumsOf(r: ClientRow): ClientSums { r.sums }

  /** Every table's sum columns are those of a GROUP BY over all committed events at once. */
  ghost predicate IsBatch(category: string -> string, s: Store, events: seq<ParsedEvent>) {
    var b := BucketsOf(category, events);
    && s.minute == b.minute && s.domain == b.domain && s.category == b.category && s.code == b.code
    && s.http == b.http && s.hierarchy == b.hierarchy && s.userCategory == b.userCategory
    && s.blockedDomain == b.blockedDomain && s.blockedClient == b.blockedClient
    && Project(s.client, SumsOf) == GroupBy(events, ClientKeyOf, ClientShare, ClientSumsPlus)
    && s.raw == Insertable(events)
  }

  lemma ClientRowsProject(events: seq<ParsedEvent>)
    ensures Project(Project(GroupBy(events, ClientKeyOf, ClientTotalsShare, ClientTotalsPlus), ToRow), SumsOf)
            == GroupBy(events, ClientKeyOf, ClientShare, ClientSumsPlus)
  {
    var totals := GroupBy(events, ClientKeyOf, ClientTotalsShare, ClientTotalsPlus);
    var sums := (t: ClientTotals) => t.sums;
    ProjectGroups(events, ClientKeyOf, ClientTotalsShare, sums, ClientShare, ClientTotalsPlus, ClientSumsPlus);
    assert Project(Project(totals, ToRow), SumsOf) == Project(totals, sums);
  }

  lemma FlushKeepsBatch(category: string -> string, s: Store, done: seq<ParsedEvent>, events: seq<ParsedEvent>)
    requires IsBatch(category, s, done)
    ensures IsBatch(category, Flushed(category, s, events), done + events)
  {
    hide GroupBy, Merge, Project, Insertable, LabelLists.CaseMerge, LabelLists.MergeCsv;
    MergeGroups(done, events, MinuteKeyOf, MinuteShare, MinutePlus);
    MergeGroups(done, events, DomainKeyOf, DomainShare, DomainPlus);
    MergeGroups(done, events, CategoryKeys(category), AllowedShare, CountBytesPlus);
    MergeGroups(done, events, CodeKeyOf, FullShare, CountBytesPlus);
    MergeGroups(done, events, HttpKeyOf, FullShare, CountBytesPlus);
    MergeGroups(done, events, HierarchyKeyOf, FullShare, CountBytesPlus);
    MergeGroups(done, events, UserCategoryKeys(category), AllowedShare, CountBytesPlus);
    MergeGroups(done, events, BlockedDomainKeyOf, BlockShare, BlockPlus);
    MergeGroups(done, events, BlockedClientKeyOf, BlockShare, BlockPlus);
    MergeGroups(done, events, ClientKeyOf, ClientShare, ClientSumsPlus);
    InsertableConcat(done, events);
    ClientRowsProject(events);
    ProjectMerge(s.client, Project(BucketsOf(category, events).client, ToRow), SumsOf, ClientRowPlus, ClientSumsPlus);
  }

  /** Incremental equals batch, for every split of the committed events into flushes. */
  lemma {:induction false} IncrementalIsBatch(category: string -> string, batches: seq<seq<ParsedEvent>>)
    ensures IsBatch(category, FlushedAll(category, batches), Flatten(batches))
  {
    if batches != [] {
      IncrementalIsBatch(category, batches[..|batches| - 1]);
      FlushKeepsBatch(category, FlushedAll(category, batches[..|batches| - 1]),
                      Flatten(batches[..|batches| - 1]), batches[|batches| - 1]);
    }
  }

  /** The raw table lists every counted event exactly if each of them fits its columns. */
  lemma RawIsCompleteIff(category: string -> string, s: Store, events: seq<ParsedEvent>)
    requires IsBatch(category, s, events)
    ensures s.raw == events <==> forall i :: 0 <= i < |events| ==> LogParser.FitsColumns(events[i])
  {
    InsertableIff(events);
    hide BucketsOf, Project, GroupBy, LogParser.FitsColumns;
  }

  /** The client tables' unique index is over coalesce(user, ''). */
  function ConflictKey(k: ClientKey): (int, string, string, string) { (k.bucket, k.clientIp, k.branch,
      OrEmpty(k.user)) }

  /** No two rows of one flush collide on that index, as long as no event's user is the empty string. */
  lemma {:induction false} ConflictKeysDistinct(events: seq<ParsedEvent>)
    requires forall e :: e in events ==> e.user != Some("")
    ensures var t := GroupBy(events, ClientKeyOf, ClientShare, ClientSumsPlus);
            && (forall k :: k in t ==> k.user != Some(""))
            && forall j, k :: j in t && k in t && ConflictKey(j) == ConflictKey(k) ==> j == k
  {
    if events != [] { ConflictKeysDistinct(events[..|events| - 1]); }
  }

  /** With an empty user beside a missing one they do collide. */
  lemma EmptyUserCollides(e: ParsedEvent)
    requires e.user == None
    ensures var t := GroupBy([e, e.(user := Some(""))], ClientKeyOf, ClientShare, ClientSumsPlus);
            exists j, k :: j in t && k in t && ConflictKey(j) == ConflictKey(k) && j != k
  {
    var e' := e.(user := Some(""));
    var events := [e, e'];
    assert events[..1] == [e] && [e][..0] == [];
    assert GroupBy([e], ClientKeyOf, ClientShare, ClientSumsPlus)
           == Bump(GroupBy([], ClientKeyOf, ClientShare, ClientSumsPlus), ClientKeyOf(e).value, ClientShare(e),
               ClientSumsPlus);
    var t := GroupBy(events, ClientKeyOf, ClientShare, ClientSumsPlus);
    assert t == Bump(Bump(map[], ClientKeyOf(e).value, ClientShare(e), ClientSumsPlus),
                     ClientKeyOf(e').value, ClientShare(e'), ClientSumsPlus);
    assert ClientKeyOf(e).value in t && ClientKeyOf(e').value in t;
  }
}
