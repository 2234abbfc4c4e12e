/** The aggregate tables agree with one another: the numbers on every page reconcile. */
module Reconciliation {
  import opened Options
  import opened Events
  import opened Tables
  import opened Aggregates
  import LogParser

  /** What the parser guarantees of every event: clamped durations, and refusals marked as blocked. */
  ghost predicate WellParsed(events: seq<ParsedEvent>) {
    forall e :: e in events ==>
      && e.durationMs >= 0
      && (e.statusCode == 403 || e.statusCode == 407 ==> e.blocked)
  }

  // Rows of one minute and branch (the branch filter is any condition on the branch).
  function MinuteRows(b: int, f: string -> bool): MinuteKey -> bool { (k: MinuteKey) => k.bucket == b && f(k.branch) }
  function CodeRows(b: int, f: string -> bool): CodeKey -> bool { (k: CodeKey) => k.bucket == b && f(k.branch) }
  function HttpRows(b: int, f: string -> bool): HttpKey -> bool { (k: HttpKey) => k.bucket == b && f(k.branch) }
  function HierarchyRows(b: int,
      f: string -> bool): HierarchyKey -> bool { (k: HierarchyKey) => k.bucket == b && f(k.branch) }
  function ClientRows(b: int, f: string -> bool): ClientKey -> bool { (k: ClientKey) => k.bucket == b && f(k.branch) }
  function StatusRows(b: int, f: string -> bool, status: int): HttpKey -> bool {
    (k: HttpKey) => k.bucket == b && f(k.branch) && k.statusCode == status
  }

  // Columns.
  function TotalCol(m: MinuteTotals): int { m.total }
  function BlockedCol(m: MinuteTotals): int { m.blocked }
  function SplitCol(m: MinuteTotals): int { m.blocked + m.allowed }
  function ReplyCol(m: MinuteTotals): int { m.reply }
  function ReceivedCol(m: MinuteTotals): int { m.received }
  function BandsCol(m: MinuteTotals): int {
    var d := m.durations;
    d.lt100 + d.lt300 + d.lt1000 + d.lt3000 + d.lt10000 + d.gte10000
  }
  function CountCol(c: CountBytes): int { c.count }
  function BytesCol(c: CountBytes): int { c.bytes }
  function ClientCountCol(c: ClientSums): int { c.count }
  function ClientBlockedCol(c: ClientSums): int { c.blocked }
  function ClientReplyCol(c: ClientSums): int { c.reply + c.blockedReply }
  function ClientReceivedCol(c: ClientSums): int { c.received + c.blockedReceived }
  function DomainBlockedCol(d: DomainTotals): int { d.blocked }
  function DeniedCol(c: BlockCounts): int { c.denied }
  function AuthCol(c: BlockCounts): int { c.auth }
  function RefusedCol(c: BlockCounts): int { c.denied + c.auth }

  /** Two tables grouped from the same events have equal totals when each event's shares are equal. */
  lemma SameTotals<K, V(!new), L, W(!new)>(
    items: seq<ParsedEvent>,
    key: ParsedEvent -> Option<K>, val: ParsedEvent -> V, plus: (V, V) -> V, p: K -> bool, w: V -> int,
    key': ParsedEvent -> Option<L>, val': ParsedEvent -> W, plus': (W, W) -> W, p': L -> bool, w': W -> int)
    requires Additive(w, plus) && Additive(w', plus')
    requires forall e :: e in items ==> Share(e, key, val, p, w) == Share(e, key', val', p', w')
    ensures Total(GroupBy(items, key, val, plus), p, w) == Total(GroupBy(items, key', val', plus'), p', w')
  {
    TotalOfGroups(items, key, val, plus, p, w);
    TotalOfGroups(items, key', val', plus', p', w');
    TallyAgree(items, key, val, p, w, key', val', p', w');
  }

  /** Per minute and branch, every request is counted once in each of the count tables. */
  lemma RequestsReconcile(category: string -> string, s: Store, events: seq<ParsedEvent>, b: int, f: string -> bool)
    requires IsBatch(category, s, events) && WellParsed(events)
    ensures var requests := Total(s.minute, MinuteRows(b, f), TotalCol);
            && requests == Total(s.minute, MinuteRows(b, f), SplitCol)
            && requests == Total(s.minute, MinuteRows(b, f), BandsCol)
            && requests == Total(s.code, CodeRows(b, f), CountCol)
            && requests == Total(s.http, HttpRows(b, f), CountCol)
            && requests == Total(s.hierarchy, HierarchyRows(b, f), CountCol)
            && requests == Total(Project(s.client, SumsOf), ClientRows(b, f), ClientCountCol)
  {
    hide GroupBy, Total, MinuteOf, HierarchyCode, IsCacheHit, IsCacheMiss, Project;
    var p := MinuteRows(b, f);
    SameTotals(events, MinuteKeyOf, MinuteShare, MinutePlus, p, TotalCol, MinuteKeyOf, MinuteShare, MinutePlus, p,
        SplitCol);
    SameTotals(events, MinuteKeyOf, MinuteShare, MinutePlus, p, TotalCol, MinuteKeyOf, MinuteShare, MinutePlus, p,
        BandsCol);
    SameTotals(events, MinuteKeyOf, MinuteShare, MinutePlus, p, TotalCol,
               CodeKeyOf, FullShare, CountBytesPlus, CodeRows(b, f), CountCol);
    SameTotals(events, MinuteKeyOf, MinuteShare, MinutePlus, p, TotalCol,
               HttpKeyOf, FullShare, CountBytesPlus, HttpRows(b, f), CountCol);
    SameTotals(events, MinuteKeyOf, MinuteShare, MinutePlus, p, TotalCol,
               HierarchyKeyOf, FullShare, CountBytesPlus, HierarchyRows(b, f), CountCol);
    SameTotals(events, MinuteKeyOf, MinuteShare, MinutePlus, p, TotalCol,
               ClientKeyOf, ClientShare, ClientSumsPlus, ClientRows(b, f), ClientCountCol);
  }

  /** Per minute and branch, blocked requests and bytes agree between the minute and the client table. */
  lemma BytesReconcile(category: string -> string, s: Store, events: seq<ParsedEvent>, b: int, f: string -> bool)
    requires IsBatch(category, s, events)
    ensures var clients := Project(s.client, SumsOf);
            && Total(s.minute, MinuteRows(b, f), BlockedCol) == Total(clients, ClientRows(b, f), ClientBlockedCol)
            && Total(s.minute, MinuteRows(b, f), ReplyCol) == Total(clients, ClientRows(b, f), ClientReplyCol)
            && Total(s.minute, MinuteRows(b, f), ReceivedCol) == Total(clients, ClientRows(b, f), ClientReceivedCol)
            && Total(s.minute, MinuteRows(b, f), ReplyCol) == Total(s.code, CodeRows(b, f), BytesCol)
  {
    hide GroupBy, Total, MinuteOf, IsCacheHit, IsCacheMiss, Project, DurationShare;
    var p, q := MinuteRows(b, f), ClientRows(b, f);
    SameTotals(events, MinuteKeyOf, MinuteShare, MinutePlus, p, BlockedCol,
               ClientKeyOf, ClientShare, ClientSumsPlus, q, ClientBlockedCol);
    SameTotals(events, MinuteKeyOf, MinuteShare, MinutePlus, p, ReplyCol,
               ClientKeyOf, ClientShare, ClientSumsPlus, q, ClientReplyCol);
    SameTotals(events, MinuteKeyOf, MinuteShare, MinutePlus, p, ReceivedCol,
               ClientKeyOf, ClientShare, ClientSumsPlus, q, ClientReceivedCol);
    SameTotals(events, MinuteKeyOf, MinuteShare, MinutePlus, p, ReplyCol,
               CodeKeyOf, FullShare, CountBytesPlus, CodeRows(b, f), BytesCol);
  }

  function DomainHour(h: int, r: string, d: string): DomainKey -> bool {
    (k: DomainKey) => HourOf(k.bucket) == h && k.branch == r && k.domain == d
  }
  function BlockedDomainHour(h: int, r: string, d: string): BlockedDomainKey -> bool {
    (k: BlockedDomainKey) => k.hour == h && k.branch == r && k.domain == d
  }
  function BlockedClientHour(h: int, r: string, d: string): BlockedClientKey -> bool {
    (k: BlockedClientKey) => k.hour == h && k.branch == r && k.domain == d
  }

  /** Per hour, branch and domain, the two blocked tables and the domain table agree on the refusals. */
  lemma RefusalsReconcile(category: string -> string, s: Store, events: seq<ParsedEvent>, h: int, r: string, d: string)
    requires IsBatch(category, s, events)
    ensures && Total(s.blockedDomain, BlockedDomainHour(h, r, d), DeniedCol)
               == Total(s.blockedClient, BlockedClientHour(h, r, d), DeniedCol)
            && Total(s.blockedDomain, BlockedDomainHour(h, r, d), AuthCol)
               == Total(s.blockedClient, BlockedClientHour(h, r, d), AuthCol)
            && Total(s.blockedDomain, BlockedDomainHour(h, r, d), RefusedCol)
               == Total(s.domain, DomainHour(h, r, d), DomainBlockedCol)
  {
    hide GroupBy, Total, MinuteOf, HourOf, Project;
    var p, q := BlockedDomainHour(h, r, d), BlockedClientHour(h, r, d);
    SameTotals(events, BlockedDomainKeyOf, BlockShare, BlockPlus, p, DeniedCol,
               BlockedClientKeyOf, BlockShare, BlockPlus, q, DeniedCol);
    SameTotals(events, BlockedDomainKeyOf, BlockShare, BlockPlus, p, AuthCol,
               BlockedClientKeyOf, BlockShare, BlockPlus, q, AuthCol);
    SameTotals(events, BlockedDomainKeyOf, BlockShare, BlockPlus, p, RefusedCol,
               DomainKeyOf, DomainShare, DomainPlus, DomainHour(h, r, d), DomainBlockedCol);
  }

  // ---- The denial split -----------------------------------------------------

  lemma {:induction false} TallyBound<K, V, L, W, M, X>(
    items: seq<ParsedEvent>,
    k1: ParsedEvent -> Option<K>, v1: ParsedEvent -> V, p1: K -> bool, w1: V -> int,
    k2: ParsedEvent -> Option<L>, v2: ParsedEvent -> W, p2: L -> bool, w2: W -> int,
    k3: ParsedEvent -> Option<M>, v3: ParsedEvent -> X, p3: M -> bool, w3: X -> int)
    requires forall e :: e in items ==>
      0 <= Share(e, k1, v1, p1, w1) && 0 <= Share(e, k2, v2, p2, w2)
      && Share(e, k1, v1, p1, w1) + Share(e, k2, v2, p2, w2) <= Share(e, k3, v3, p3, w3)
    ensures 0 <= Tally(items, k1, v1, p1, w1) && 0 <= Tally(items, k2, v2, p2, w2)
    ensures Tally(items, k1, v1, p1, w1) + Tally(items, k2, v2, p2, w2) <= Tally(items, k3, v3, p3, w3)
  {
    if items != [] {
      TallyBound(items[..|items| - 1], k1, v1, p1, w1, k2, v2, p2, w2, k3, v3, p3, w3);
    }
  }

  /** In every minute, for every choice of branches, the 403s and 407s together are among the blocked requests. */
  lemma RefusalsAreBlocked(category: string -> string, s: Store, events: seq<ParsedEvent>, b: int, f: string -> bool)
    requires IsBatch(category, s, events) && WellParsed(events)
    ensures var acl := Total(s.http, StatusRows(b, f, 403), CountCol);
            var auth := Total(s.http, StatusRows(b, f, 407), CountCol);
            0 <= acl && 0 <= auth && acl + auth <= Total(s.minute, MinuteRows(b, f), BlockedCol)
  {
    hide GroupBy, Total, MinuteOf, IsCacheHit, IsCacheMiss, Project, DurationShare;
    TotalOfGroups(events, HttpKeyOf, FullShare, CountBytesPlus, StatusRows(b, f, 403), CountCol);
    TotalOfGroups(events, HttpKeyOf, FullShare, CountBytesPlus, StatusRows(b, f, 407), CountCol);
    TotalOfGroups(events, MinuteKeyOf, MinuteShare, MinutePlus, MinuteRows(b, f), BlockedCol);
    TallyBound(events, HttpKeyOf, FullShare, StatusRows(b, f, 403), CountCol,
               HttpKeyOf, FullShare, StatusRows(b, f, 407), CountCol,
               MinuteKeyOf, MinuteShare, MinuteRows(b, f), BlockedCol);
  }

  /** One minute's blocked requests split by reason, as the denials page computes it. */
  datatype Reasons = Reasons(acl: int, auth: int, other: int)

  /** What neither count explains is "other", and never less than nothing. */
  function SplitMinute(blocked: int, acl: int, auth: int): (r: Reasons)
    ensures r.acl == acl && r.auth == auth && r.other >= 0
    ensures r.acl + r.auth + r.other >= blocked && (r.other > 0 ==> r.acl + r.auth + r.other == blocked)
  {
    Reasons(acl, auth, if blocked - acl - auth >= 0 then blocked - acl - auth else 0)
  }

  /** The clipping at zero never happens, so the three reasons add up to the blocked requests. */
  lemma SplitAddsUp(category: string -> string, s: Store, events: seq<ParsedEvent>, b: int, f: string -> bool)
    requires IsBatch(category, s, events) && WellParsed(events)
    ensures var blocked := Total(s.minute, MinuteRows(b, f), BlockedCol);
            var r := SplitMinute(blocked, Total(s.http, StatusRows(b, f, 403), CountCol),
                                 Total(s.http, StatusRows(b, f, 407), CountCol));
            r.acl + r.auth + r.other == blocked && r.acl >= 0 && r.auth >= 0 && r.other >= 0
  {
    hide Total, IsBatch, WellParsed;
    RefusalsAreBlocked(category, s, events, b, f);
  }

  /** The event came out of the line parser. */
  ghost predicate Parsed(lib: LogParser.Library, e: ParsedEvent) {
    exists line, branch, proxy :: LogParser.ParseLine(lib, line, branch, proxy) == LogParser.Returned(Some(e))
  }

  lemma ParsedEventSanitized(lib: LogParser.Library, e: ParsedEvent)
    requires Parsed(lib, e)
    ensures LogParser.Sanitized(e)
  {
    var line, branch, proxy :| LogParser.ParseLine(lib, line, branch, proxy) == LogParser.Returned(Some(e));
    LogParser.ParsedIsSanitized(lib, line, branch, proxy);
  }

  /**
   * The parser delivers what the aggregates need: events whose totals reconcile and
   * whose table keys cannot collide.
   */
  lemma ParsedEventsQualify(lib: LogParser.Library, events: seq<ParsedEvent>)
    requires forall e :: e in events ==> Parsed(lib, e)
    ensures WellParsed(events) && forall e :: e in events ==> e.user != Some("")
  {
    forall e | e in events ensures LogParser.Sanitized(e) {
      ParsedEventSanitized(lib, e);
    }
  }
}
