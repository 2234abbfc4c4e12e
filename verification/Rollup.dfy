/**
 * Client minute rows age into hourly rows, and queries read both tables.
 * Late events may put a minute row back into an hour already rolled up, so
 * the two tables do overlap; still every event is counted in exactly one row.
 */
module Rollup {
  import opened Options
  import opened Events
  import opened Tables
  import opened Aggregates
  import opened Columns
  import opened DirectSums
  import opened Reconciliation
  import Aggregator
  import DbUpsert
  import LabelLists

  /** `committed` and `rolled` (the minute rows rolled up so far) are history. */
  datatype State = State(
    minute: map<ClientKey, ClientRow>, hourly: map<ClientKey, ClientRow>,
    committed: seq<ParsedEvent>, rolled: map<ClientKey, ClientRow>)

  const INITIAL := State(map[], map[], [], map[])

  type Row = (ClientKey, ClientRow)

  function HourKey(k: ClientKey): ClientKey { k.(bucket := HourOf(k.bucket)) }

  function HourKeyOf(r: Row): Option<ClientKey> { Some(HourKey(r.0)) }

  function RowTotals(r: Row): ClientTotals {
    ClientTotals(r.1.sums, if OrEmpty(r.1.proxy) == "" then {} else {r.1.proxy.value})
  }

  function RowSums(r: Row): ClientSums { r.1.sums }

  /** Minute rows grouped by the hour they fall in. */
  function HourlyOf(rows: seq<Row>): map<ClientKey, ClientTotals> {
    GroupBy(rows, HourKeyOf, RowTotals, ClientTotalsPlus)
  }

  function Before(cutoff: int): ClientKey -> bool { (k: ClientKey) => k.bucket < cutoff }

  function Sums(t: map<ClientKey, ClientRow>): map<ClientKey, ClientSums> { Project(t, SumsOf) }

  function NewRows(events: seq<ParsedEvent>): map<ClientKey, ClientRow> {
    Project(GroupBy(events, ClientKeyOf, ClientTotalsShare, ClientTotalsPlus), ToRow)
  }

  function DoFlush(s: State, events: seq<ParsedEvent>): State {
    s.(minute := Merge(s.minute, NewRows(events), ClientRowPlus), committed := s.committed + events)
  }

  /** `rows` is the order in which the aged rows were read. */
  function DoRollup(s: State, cutoff: int, rows: seq<Row>): State {
    s.(minute := WhereNot(s.minute, Before(cutoff)),
       hourly := Merge(s.hourly, Project(HourlyOf(rows), ToRow), ClientRowPlus),
       rolled := Merge(s.rolled, Where(s.minute, Before(cutoff)), ClientRowPlus))
  }

  datatype Action = Flush(events: seq<ParsedEvent>) | RollUp(cutoff: int, rows: seq<Row>)

  ghost predicate Legal(s: State, a: Action) {
    a.RollUp? ==> Lists(a.rows, Where(s.minute, Before(a.cutoff)))
  }

  function Do(s: State, a: Action): State {
    match a
    case Flush(events) => DoFlush(s, events)
    case RollUp(cutoff, rows) => DoRollup(s, cutoff, rows)
  }

  ghost predicate LegalRun(actions: seq<Action>) {
    actions == []
        || (LegalRun(actions[..|actions| - 1]) && Legal(After(actions[..|actions| - 1]), actions[|actions| - 1]))
  }

  function After(actions: seq<Action>): State {
    if actions == [] then INITIAL else Do(After(actions[..|actions| - 1]), actions[|actions| - 1])
  }

  // ---- The retention step, in place -----------------------------------------

  class ClientTables {
    var minute: map<ClientKey, ClientRow>
    var hourly: map<ClientKey, ClientRow>

    constructor () ensures minute == map[] == hourly { minute, hourly := map[], map[]; }

    /**
     * Rolls the aged rows up per hour, writes the hours, deletes the rows; all
     * of it fails if one of the hours does not fit its columns.
     */
    method RollUpBefore(cutoff: int) returns (ok: bool, ghost rows: seq<Row>)
      modifies this
      ensures Lists(rows, Where(old(minute), Before(cutoff)))
      ensures ok
          <==> TableTakes(old(hourly), Project(HourlyOf(rows), ToRow), ClientRowPlus, ClientKeyFits, ClientRowFits)
      ensures var s := DoRollup(State(old(minute), old(hourly), [], map[]), cutoff, rows);
              (minute, hourly) == if ok then (s.minute, s.hourly) else (old(minute), old(hourly))
    {
      ok := true;
      hide HourlyOf, Merge, Project, LabelLists.MergeCsv, LabelLists.CaseMerge;
      var aged := Where(minute, Before(cutoff));
      var read := Aggregator.Rows(aged);
      rows := read;
      if read == [] {
        NothingAged(minute, hourly, cutoff);
        return;
      }
      var totals := AccumulateHours(read);
      var hourly';
      ok, hourly' := Aggregator.UpsertTable(hourly, Project(totals, ToRow), 11, ClientRowPlus, ClientKeyFits,
          ClientRowFits);
      if !ok { return; }
      hourly := hourly';
      minute := WhereNot(minute, Before(cutoff));
    }
  }

  method AccumulateHours(rows: seq<Row>) returns (totals: map<ClientKey, ClientTotals>)
    ensures totals == HourlyOf(rows)
  {
    totals := map[];
    var i := 0;
    while i < |rows|
      invariant 0 <= i <= |rows|
      invariant totals == HourlyOf(rows[..i])
    {
      assert rows[..i + 1][..i] == rows[..i];
      totals := AddRow(totals, rows[i]);
      i := i + 1;
    }
    assert rows[..i] == rows;
  }

  method AddRow(totals: map<ClientKey, ClientTotals>, row: Row) returns (totals': map<ClientKey, ClientTotals>)
    ensures totals' == Bump(totals, HourKeyOf(row).value, RowTotals(row), ClientTotalsPlus)
  {
    var key := HourKey(row.0);
    var acc := if key in totals then totals[key] else NO_CLIENT;
    var proxies := acc.proxies;
    if row.1.proxy.Some? && row.1.proxy.value != "" { proxies := proxies + {row.1.proxy.value}; }
    assert proxies == acc.proxies + RowTotals(row).proxies;
    assert NO_CLIENT.proxies + RowTotals(row).proxies == RowTotals(row).proxies;
    totals' := totals[key := ClientTotals(ClientSumsPlus(acc.sums, row.1.sums), proxies)];
  }

  lemma NothingAged(minute: map<ClientKey, ClientRow>, hourly: map<ClientKey, ClientRow>, cutoff: int)
    requires Lists([], Where(minute, Before(cutoff)))
    ensures minute == WhereNot(minute, Before(cutoff))
    ensures Project(HourlyOf([]), ToRow) == map[] && Merge(hourly, map[], ClientRowPlus) == hourly
  {
    assert forall k :: k in minute && Before(cutoff)(k) ==> k in Where(minute, Before(cutoff));
  }

  // ---- Conservation ---------------------------------------------------------

  function OfHour(q: ClientKey -> bool): ClientKey -> bool { (k: ClientKey) => q(HourKey(k)) }

  lemma {:induction false} TallyOfRows(rows: seq<Row>, q: ClientKey -> bool, c: ClientSums -> int)
    ensures Tally(rows, HourKeyOf, RowSums, q, c) == TotalRows(SumRows(rows), OfHour(q), c)
  {
    if rows != [] {
      TallyOfRows(rows[..|rows| - 1], q, c);
      assert SumRows(rows)[..|rows| - 1] == SumRows(rows[..|rows| - 1]);
    }
  }

  function SumRows(rows: seq<Row>): seq<(ClientKey, ClientSums)> {
    seq(|rows|, i requires 0 <= i < |rows| => (rows[i].0, rows[i].1.sums))
  }

  lemma SumRowsList(rows: seq<Row>, t: map<ClientKey, ClientRow>)
    requires Lists(rows, t)
    ensures Lists(SumRows(rows), Sums(t))
  {
    forall k | k in Sums(t) ensures exists i :: 0 <= i < |SumRows(rows)| && SumRows(rows)[i].0 == k {
      var i :| 0 <= i < |rows| && rows[i].0 == k;
      assert SumRows(rows)[i].0 == k;
    }
  }

  /** The hourly rows written for a set of minute rows carry exactly those rows' sums. */
  lemma HourlyCarries(rows: seq<Row>, t: map<ClientKey, ClientRow>, q: ClientKey -> bool, c: ClientSums -> int)
    requires Lists(rows, t) && Additive(c, ClientSumsPlus)
    ensures Total(Sums(Project(HourlyOf(rows), ToRow)), q, c) == Total(Sums(t), OfHour(q), c)
  {
    var sums := (x: ClientTotals) => x.sums;
    ProjectGroups(rows, HourKeyOf, RowTotals, sums, RowSums, ClientTotalsPlus, ClientSumsPlus);
    assert Sums(Project(HourlyOf(rows), ToRow)) == Project(HourlyOf(rows), sums);
    TotalOfGroups(rows, HourKeyOf, RowSums, ClientSumsPlus, q, c);
    TallyOfRows(rows, q, c);
    SumRowsList(rows, t);
    TotalOfListing(SumRows(rows), Sums(t), OfHour(q), c);
  }

  lemma SumsMerge(t: map<ClientKey, ClientRow>, d: map<ClientKey, ClientRow>, p: ClientKey -> bool,
      c: ClientSums -> int)
    requires Additive(c, ClientSumsPlus)
    ensures Total(Sums(Merge(t, d, ClientRowPlus)), p, c) == Total(Sums(t), p, c) + Total(Sums(d), p, c)
  {
    hide LabelLists.CaseMerge;
    ProjectMerge(t, d, SumsOf, ClientRowPlus, ClientSumsPlus);
    TotalMerge(Sums(t), Sums(d), ClientSumsPlus, p, c);
  }

  lemma SumsSplit(t: map<ClientKey, ClientRow>, b: ClientKey -> bool, p: ClientKey -> bool, c: ClientSums -> int)
    ensures Total(Sums(t), p, c) == Total(Sums(Where(t, b)), p, c) + Total(Sums(WhereNot(t, b)), p, c)
  {
    TotalSplit(Sums(t), b, p, c);
    assert Where(Sums(t), b) == Sums(Where(t, b)) && WhereNot(Sums(t), b) == Sums(WhereNot(t, b));
  }

  /** What the events satisfying `p` contribute to column `c`, counted directly. */
  function Direct(events: seq<ParsedEvent>, p: ClientKey -> bool, c: ClientSums -> int): int {
    Tally(events, ClientKeyOf, ClientShare, p, c)
  }

  lemma FlushCounts(s: State, events: seq<ParsedEvent>, p: ClientKey -> bool, c: ClientSums -> int)
    requires Additive(c, ClientSumsPlus)
    ensures Total(Sums(DoFlush(s, events).minute), p, c) == Total(Sums(s.minute), p, c) + Direct(events, p, c)
    ensures Direct(s.committed + events, p, c) == Direct(s.committed, p, c) + Direct(events, p, c)
  {
    SumsMerge(s.minute, NewRows(events), p, c);
    ClientRowsProject(events);
    TotalOfGroups(events, ClientKeyOf, ClientShare, ClientSumsPlus, p, c);
    TallyConcat(s.committed, events, ClientKeyOf, ClientShare, p, c);
  }

  lemma NothingCounted(p: ClientKey -> bool, c: ClientSums -> int)
    ensures Total(Sums(map[]), p, c) == 0
  {
    TotalNone(Sums(map[]), p, c);
  }

  /** A rollup moves what it takes from the minute rows, and adds the same to the hours. */
  lemma RollUpCounts(s: State, cutoff: int, rows: seq<Row>, p: ClientKey -> bool, q: ClientKey -> bool,
      c: ClientSums -> int)
    requires Legal(s, RollUp(cutoff, rows)) && Additive(c, ClientSumsPlus)
    ensures var s' := Do(s, RollUp(cutoff, rows));
            && Total(Sums(s'.minute), p, c) + Total(Sums(s'.rolled), p, c)
                == Total(Sums(s.minute), p, c) + Total(Sums(s.rolled), p, c)
            && Total(Sums(s'.hourly), q, c) - Total(Sums(s.hourly), q, c)
               == Total(Sums(s'.rolled), OfHour(q), c) - Total(Sums(s.rolled), OfHour(q), c)
  {
    hide Total, Merge, Where, WhereNot, Sums, HourlyOf, NewRows, Direct;
    var aged := Where(s.minute, Before(cutoff));
    SumsSplit(s.minute, Before(cutoff), p, c);
    SumsMerge(s.rolled, aged, p, c);
    SumsMerge(s.rolled, aged, OfHour(q), c);
    SumsMerge(s.hourly, Project(HourlyOf(rows), ToRow), q, c);
    HourlyCarries(rows, aged, q, c);
  }

  /**
   * Over every run: whatever minutes are asked about, the minute rows and the
   * rows rolled up so far together count each committed event once; and the
   * hourly rows carry exactly what was rolled up.
   */
  lemma {:induction false} EachEventInOneRow(actions: seq<Action>, p: ClientKey -> bool, q: ClientKey -> bool,
      c: ClientSums -> int)
    requires LegalRun(actions) && Additive(c, ClientSumsPlus)
    ensures var s := After(actions);
            && Total(Sums(s.minute), p, c) + Total(Sums(s.rolled), p, c) == Direct(s.committed, p, c)
            && Total(Sums(s.hourly), q, c) == Total(Sums(s.rolled), OfHour(q), c)
  {
    if actions == [] {
      NothingCounted(p, c);
      NothingCounted(q, c);
      NothingCounted(OfHour(q), c);
    } else {
      hide Total, Merge, Where, WhereNot, Sums, HourlyOf, NewRows, Direct, LegalRun;
      var s := After(actions[..|actions| - 1]);
      assert LegalRun(actions[..|actions| - 1]) && Legal(s, actions[|actions| - 1]) by { LegalFront(actions); }
      EachEventInOneRow(actions[..|actions| - 1], p, q, c);
      match actions[|actions| - 1]
      case Flush(events) => FlushCounts(s, events, p, c);
      case RollUp(cutoff, rows) => RollUpCounts(s, cutoff, rows, p, q, c);
    }
  }

  lemma LegalFront(actions: seq<Action>)
    requires LegalRun(actions) && actions != []
    ensures LegalRun(actions[..|actions| - 1]) && Legal(After(actions[..|actions| - 1]), actions[|actions| - 1])
  {}

  function IsHour(h: ClientKey): ClientKey -> bool { (k: ClientKey) => k == h }

  /**
   * Rollup conservation: for every hour, client, branch and user, the minute
   * rows of that hour plus its hourly row equal the direct sum over the
   * committed events -- however late events and cutoffs fall.
   */
  lemma RollupConserves(actions: seq<Action>, h: ClientKey, c: ClientSums -> int)
    requires LegalRun(actions) && Additive(c, ClientSumsPlus)
    ensures var s := After(actions);
            Total(Sums(s.minute), OfHour(IsHour(h)), c) + (if h in s.hourly then c(s.hourly[h].sums) else 0)
            == Direct(s.committed, OfHour(IsHour(h)), c)
  {
    hide Total, LegalRun, Direct;
    var s := After(actions);
    EachEventInOneRow(actions, OfHour(IsHour(h)), IsHour(h), c);
    TotalOne(Sums(s.hourly), h, IsHour(h), c);
  }

  function InHour(h: ClientKey): ParsedEvent -> bool {
    (e: ParsedEvent) => h == ClientKey(HourOf(e.timestamp), e.clientIp, e.branch, e.user)
  }

  /** What the two tables hold for one client and hour. */
  ghost function HourTotal(s: State, h: ClientKey, c: ClientSums -> int): int {
    Total(Sums(s.minute), OfHour(IsHour(h)), c) + if h in s.hourly then c(s.hourly[h].sums) else 0
  }

  lemma HourColumn(actions: seq<Action>, h: ClientKey, c: ClientSums -> int, worth: ParsedEvent -> int)
    requires LegalRun(actions) && Additive(c, ClientSumsPlus) && forall e :: c(ClientShare(e)) == worth(e)
    ensures HourTotal(After(actions), h, c) == SumWhere(After(actions).committed, InHour(h), worth)
  {
    hide Total, LegalRun, MinuteOf, HourOf, ClientShare, Sums, After, SumWhere, Tally;
    RollupConserves(actions, h, c);
    HoursOfMinutes();
    forall e ensures InHour(h)(e) <==> OfHour(IsHour(h))(ClientKeyOf(e).value) {
      var k := ClientKeyOf(e).value;
      assert HourKey(k) == ClientKey(HourOf(MinuteOf(e.timestamp)), e.clientIp, e.branch, e.user);
    }
    TallyIsSum(After(actions).committed, ClientKeyOf, ClientShare, OfHour(IsHour(h)), c, InHour(h), worth);
  }

  /** The same column by column, from the events' own fields and the hours they were logged in. */
  lemma HoursAddUp(actions: seq<Action>, h: ClientKey)
    requires LegalRun(actions)
    ensures var s, at := After(actions), InHour(h);
            && HourTotal(s, h, (r: ClientSums) => r.count) == SumWhere(s.committed, at, Each)
            && HourTotal(s, h, (r: ClientSums) => r.blocked) == SumWhere(s.committed, at, Refused)
            && HourTotal(s, h, (r: ClientSums) => r.reply) == SumWhere(s.committed, at, PassedBytes)
            && HourTotal(s, h, (r: ClientSums) => r.received) == SumWhere(s.committed, at, PassedUpload)
            && HourTotal(s, h, (r: ClientSums) => r.blockedReply) == SumWhere(s.committed, at, RefusedBytes)
            && HourTotal(s, h, (r: ClientSums) => r.blockedReceived) == SumWhere(s.committed, at, RefusedUpload)
  {
    hide HourTotal, LegalRun, After, SumWhere;
    HourColumn(actions, h, (r: ClientSums) => r.count, Each);
    HourColumn(actions, h, (r: ClientSums) => r.blocked, Refused);
    HourColumn(actions, h, (r: ClientSums) => r.reply, PassedBytes);
    HourColumn(actions, h, (r: ClientSums) => r.received, PassedUpload);
    HourColumn(actions, h, (r: ClientSums) => r.blockedReply, RefusedBytes);
    HourColumn(actions, h, (r: ClientSums) => r.blockedReceived, RefusedUpload);
  }

  // ---- Queries over both tables ---------------------------------------------

  /** Which clients a query is about: any condition on address, user and branch. */
  type Who = (string, Option<string>, string) -> bool

  function InRange(since: int, until: int, who: Who): ClientKey -> bool {
    (k: ClientKey) => since <= k.bucket <= until && who(k.clientIp, k.user, k.branch)
  }

  /** An hourly row is included when its hour overlaps the range. */
  function Overlaps(since: int, until: int, who: Who): ClientKey -> bool {
    (k: ClientKey) => k.bucket <= until && k.bucket > since - HOUR && who(k.clientIp, k.user, k.branch)
  }

  /** The request total over the union of both tables. */
  ghost function Requests(s: State, since: int, until: int, who: Who): int {
    Total(Sums(s.minute), InRange(since, until, who), ClientCountCol)
    + Total(Sums(s.hourly), Overlaps(since, until, who), ClientCountCol)
  }

  ghost predicate NonNegative(t: map<ClientKey, ClientRow>) { forall k :: k in t ==> t[k].sums.count >= 0 }

  lemma {:induction false} GroupsNonNegative(events: seq<ParsedEvent>)
    ensures NonNegative(NewRows(events))
  {
    if events == [] { return; }
    var e := events[|events| - 1];
    var t := GroupBy(events[..|events| - 1], ClientKeyOf, ClientTotalsShare, ClientTotalsPlus);
    GroupsNonNegative(events[..|events| - 1]);
    assert forall k :: k in t ==> NewRows(events[..|events| - 1])[k].sums == t[k].sums;
    var t' := Bump(t, ClientKeyOf(e).value, ClientTotalsShare(e), ClientTotalsPlus);
    assert GroupBy(events, ClientKeyOf, ClientTotalsShare, ClientTotalsPlus) == t';
    assert forall k :: k in t' ==> NewRows(events)[k].sums == t'[k].sums;
  }

  lemma {:induction false} RowsNonNegative(actions: seq<Action>)
    requires LegalRun(actions)
    ensures NonNegative(After(actions).minute) && NonNegative(After(actions).rolled)
  {
    hide LabelLists.CaseMerge, NewRows, HourlyOf;
    if actions != [] {
      RowsNonNegative(actions[..|actions| - 1]);
      match actions[|actions| - 1]
      case Flush(events) => GroupsNonNegative(events);
      case RollUp(cutoff, rows) =>
    }
  }

  /** A minute row in the range is one whose hour overlaps it. */
  lemma InsideOverlaps(k: ClientKey, since: int, until: int, who: Who)
    ensures InRange(since, until, who)(k) ==> OfHour(Overlaps(since, until, who))(k)
  {
    var h := HourKey(k);
    assert h == ClientKey(HourOf(k.bucket), k.clientIp, k.branch, k.user);
    assert OfHour(Overlaps(since, until, who))(k) == Overlaps(since, until, who)(h);
    assert Overlaps(since, until, who)(h) ==
           (HourOf(k.bucket) <= until && HourOf(k.bucket) > since - HOUR && who(k.clientIp, k.user, k.branch));
  }

  /** The union counts every event whose minute lies in the range, and only events whose hour overlaps it. */
  lemma RowBounds(actions: seq<Action>, since: int, until: int, who: Who)
    requires LegalRun(actions)
    ensures var s := After(actions);
            && Direct(s.committed, InRange(since, until, who), ClientCountCol) <= Requests(s, since, until, who)
            && Requests(s, since, until, who)
               <= Direct(s.committed, OfHour(Overlaps(since, until, who)), ClientCountCol)
  {
    hide Total, LegalRun, Direct, After;
    var s := After(actions);
    var inside, over := InRange(since, until, who), Overlaps(since, until, who);
    RowsNonNegative(actions);
    EachEventInOneRow(actions, inside, over, ClientCountCol);
    EachEventInOneRow(actions, OfHour(over), over, ClientCountCol);
    forall k { InsideOverlaps(k, since, until, who); }
    TotalMonotone(Sums(s.rolled), inside, OfHour(over), ClientCountCol);
    TotalMonotone(Sums(s.minute), inside, OfHour(over), ClientCountCol);
  }

  /** The events logged from `first` to `last`, both included. */
  function Logged(first: int, last: int, who: Who): ParsedEvent -> bool {
    (e: ParsedEvent) => first <= e.timestamp <= last && who(e.clientIp, e.user, e.branch)
  }

  lemma DirectIsSum(events: seq<ParsedEvent>, p: ClientKey -> bool)
    ensures Direct(events, p, ClientCountCol) == SumWhere(events, ChosenClient(p), Each)
  {
    hide Tally, SumWhere, MinuteOf;
    TallyIsSum(events, ClientKeyOf, ClientShare, p, ClientCountCol, ChosenClient(p), Each);
  }

  lemma InsideIsCounted(since: int, first: int, until: int, who: Who, e: ParsedEvent)
    requires since <= first && first % 60_000_000 == 0 && Logged(first, until, who)(e)
    ensures ChosenClient(InRange(since, until, who))(e)
  {
    hide MinuteOf;
    WholeMinute(e.timestamp, MinuteOf(e.timestamp), first);
  }

  lemma WholeMinute(t: int, m: int, first: int)
    requires m % 60_000_000 == 0 && t < m + 60_000_000 && first % 60_000_000 == 0 && first <= t
    ensures first <= m
  {
    var a, b := m / 60_000_000, first / 60_000_000;
    assert m == 60_000_000 * a && first == 60_000_000 * b;
    assert b <= a;
  }

  lemma CountedIsNear(since: int, until: int, who: Who, e: ParsedEvent)
    requires ChosenClient(OfHour(Overlaps(since, until, who)))(e)
    ensures Logged(since - 3_599_999_999, until + 3_599_999_999, who)(e)
  {
    HoursOfMinutes();
    var k := ClientKey(MinuteOf(e.timestamp), e.clientIp, e.branch, e.user);
    assert HourKey(k) == ClientKey(HourOf(k.bucket), k.clientIp, k.branch, k.user);
    assert Overlaps(since, until, who)(HourKey(k));
    hide MinuteOf, HourOf;
  }

  lemma {:induction false} SumMonotone(events: seq<ParsedEvent>, p: ParsedEvent -> bool, q: ParsedEvent -> bool)
    requires forall e :: p(e) ==> q(e)
    ensures SumWhere(events, p, Each) <= SumWhere(events, q, Each)
  {
    if events != [] { SumMonotone(events[..|events| - 1], p, q); }
  }

  /**
   * Query bounds, by the moments the events themselves were logged at: from any
   * whole minute in the range on the union misses none, and it counts none
   * logged an hour or more outside the range.
   */
  lemma QueryBounds(actions: seq<Action>, since: int, first: int, until: int, who: Who)
    requires LegalRun(actions) && since <= first && first % 60_000_000 == 0
    ensures var s := After(actions);
            && SumWhere(s.committed, Logged(first, until, who), Each) <= Requests(s, since, until, who)
            && Requests(s, since, until, who)
               <= SumWhere(s.committed, Logged(since - 3_599_999_999, until + 3_599_999_999, who), Each)
  {
    hide Total, LegalRun, Direct, After, SumWhere, Requests, Logged, ChosenClient;
    var s := After(actions);
    var inside, over := InRange(since, until, who), OfHour(Overlaps(since, until, who));
    RowBounds(actions, since, until, who);
    DirectIsSum(s.committed, inside);
    DirectIsSum(s.committed, over);
    forall e | Logged(first, until, who)(e) ensures ChosenClient(inside)(e) {
      InsideIsCounted(since, first, until, who, e);
    }
    SumMonotone(s.committed, Logged(first, until, who), ChosenClient(inside));
    forall e | ChosenClient(over)(e) ensures Logged(since - 3_599_999_999, until + 3_599_999_999, who)(e) {
      CountedIsNear(since, until, who, e);
    }
    SumMonotone(s.committed, ChosenClient(over), Logged(since - 3_599_999_999, until + 3_599_999_999, who));
  }

  /** The whole minute matters: an event in the range is missed exactly if its minute began before the range. */
  lemma PartialMinuteIsMissed(e: ParsedEvent, since: int, until: int, who: Who)
    requires Logged(since, until, who)(e)
    ensures LegalRun([Flush([e])])
    ensures Requests(After([Flush([e])]), since, until, who) == if MinuteOf(e.timestamp) < since then 0 else 1
  {
    hide Total, Direct, MinuteOf, NewRows, SumWhere;
    assert [Flush([e])][..0] == [];
    assert After([]) == INITIAL && After([Flush([e])]) == DoFlush(INITIAL, [e]);
    var inside := InRange(since, until, who);
    NothingCounted(inside, ClientCountCol);
    NothingCounted(Overlaps(since, until, who), ClientCountCol);
    FlushCounts(INITIAL, [e], inside, ClientCountCol);
    DirectIsSum([e], inside);
    SumOfOne(e, ChosenClient(inside));
  }

  lemma SumOfOne(e: ParsedEvent, p: ParsedEvent -> bool)
    ensures SumWhere([e], p, Each) == if p(e) then 1 else 0
  {
    assert [e][..0] == [];
  }

  // ---- When the two tables overlap ------------------------------------------

  /** No client has a minute row in an hour that it also has an hourly row for. */
  ghost predicate Disjoint(s: State) { forall k :: k in s.minute ==> HourKey(k) !in s.hourly }

  /** A flush reopens an hour, or a cutoff falls inside one with rows on either side. */
  ghost predicate Breaks(s: State, a: Action) {
    match a
    case Flush(events) => exists e :: e in events && HourKey(ClientKeyOf(e).value) in s.hourly
    case RollUp(cutoff, _) => exists j, k :: SplitBy(s, cutoff, j, k)
  }

  ghost predicate SplitBy(s: State, cutoff: int, j: ClientKey, k: ClientKey) {
    j in s.minute && k in s.minute && HourKey(j) == HourKey(k) && j.bucket < cutoff <= k.bucket
  }

  lemma FlushDisjointIff(s: State, events: seq<ParsedEvent>)
    requires Disjoint(s)
    ensures Disjoint(DoFlush(s, events)) <==> !Breaks(s, Flush(events))
  {
    hide LabelLists.CaseMerge, HourKey;
    NewRowsKeys(events);
    hide NewRows;
    var s' := DoFlush(s, events);
    assert s'.hourly == s.hourly && s'.minute.Keys == s.minute.Keys + NewRows(events).Keys;
    if Breaks(s, Flush(events)) {
      var e :| e in events && HourKey(ClientKeyOf(e).value) in s.hourly;
      assert ClientKeyOf(e).value in s'.minute;
    }
  }

  /** A cutoff inside an hour with rows on either side leaves that hour in both tables, whatever they held before. */
  lemma SplitHourOverlaps(s: State, cutoff: int, rows: seq<Row>, j: ClientKey, k: ClientKey)
    requires Legal(s, RollUp(cutoff, rows)) && SplitBy(s, cutoff, j, k)
    ensures k in DoRollup(s, cutoff, rows).minute && HourKey(k) in DoRollup(s, cutoff, rows).hourly
  {
    hide HourKey, HourlyOf;
    HourlyKeys(s, cutoff, rows);
  }

  lemma RollUpDisjointIff(s: State, cutoff: int, rows: seq<Row>)
    requires Disjoint(s) && Legal(s, RollUp(cutoff, rows))
    ensures Disjoint(DoRollup(s, cutoff, rows)) <==> !Breaks(s, RollUp(cutoff, rows))
  {
    hide LabelLists.CaseMerge, HourKey, Lists;
    HourlyKeys(s, cutoff, rows);
    hide HourlyOf;
    var s' := DoRollup(s, cutoff, rows);
    if Breaks(s, RollUp(cutoff, rows)) {
      var j, k :| SplitBy(s, cutoff, j, k);
      SplitHourOverlaps(s, cutoff, rows, j, k);
    }
    if !Disjoint(s') {
      var k :| k in s'.minute && HourKey(k) in s'.hourly;
      var j :| j in s.minute && j.bucket < cutoff && HourKey(j) == HourKey(k);
      assert SplitBy(s, cutoff, j, k);
    }
  }

  /** From tables without an overlap, a step makes one exactly if it reopens or splits an hour. */
  lemma StepDisjointIff(s: State, a: Action)
    requires Disjoint(s) && Legal(s, a)
    ensures Disjoint(Do(s, a)) <==> !Breaks(s, a)
  {
    hide Disjoint, Breaks, DoFlush, DoRollup, Legal;
    match a
    case Flush(events) => FlushDisjointIff(s, events);
    case RollUp(cutoff, rows) => RollUpDisjointIff(s, cutoff, rows);
  }

  lemma {:induction false} NewRowsKeys(events: seq<ParsedEvent>)
    ensures forall k :: k in NewRows(events) <==> exists e :: e in events && ClientKeyOf(e).value == k
  {
    hide ClientTotalsShare, ClientTotalsPlus, MinuteOf;
    if events != [] {
      var n := |events| - 1;
      NewRowsKeys(events[..n]);
      assert events == events[..n] + [events[n]];
      var t := GroupBy(events[..n], ClientKeyOf, ClientTotalsShare, ClientTotalsPlus);
      var t' := GroupBy(events, ClientKeyOf, ClientTotalsShare, ClientTotalsPlus);
      assert t'.Keys == t.Keys + {ClientKeyOf(events[n]).value};
      assert NewRows(events).Keys == t'.Keys && NewRows(events[..n]).Keys == t.Keys;
      hide NewRows, GroupBy;
      forall k ensures k in NewRows(events) <==> exists e :: e in events && ClientKeyOf(e).value == k {
        if k in NewRows(events[..n]) {
          var e :| e in events[..n] && ClientKeyOf(e).value == k;
          assert e in events;
        } else if k in NewRows(events) {
          assert events[n] in events && ClientKeyOf(events[n]).value == k;
        }
      }
    }
  }

  lemma {:induction false} GroupedHours(rows: seq<Row>)
    ensures forall h :: h in HourlyOf(rows) <==> exists i :: 0 <= i < |rows| && HourKey(rows[i].0) == h
  {
    hide HourKey;
    if rows != [] {
      var n := |rows| - 1;
      GroupedHours(rows[..n]);
      forall h ensures h in HourlyOf(rows) <==> exists i :: 0 <= i < |rows| && HourKey(rows[i].0) == h {
        if h in HourlyOf(rows[..n]) {
          var i :| 0 <= i < n && HourKey(rows[..n][i].0) == h;
          assert HourKey(rows[i].0) == h;
        } else if h in HourlyOf(rows) {
          assert HourKey(rows[n].0) == h;
        }
        if i :| 0 <= i < |rows| && HourKey(rows[i].0) == h {
          if i < n { assert HourKey(rows[..n][i].0) == h; }
        }
      }
    }
  }

  /** After a rollup the hourly rows are the old ones and those of every hour that lost a minute row. */
  lemma HourlyKeys(s: State, cutoff: int, rows: seq<Row>)
    requires Legal(s, RollUp(cutoff, rows))
    ensures forall h :: h in DoRollup(s, cutoff, rows).hourly <==>
              h in s.hourly || exists j :: j in s.minute && j.bucket < cutoff && HourKey(j) == h
  {
    hide LabelLists.CaseMerge, HourKey;
    GroupedHours(rows);
    hide HourlyOf;
    var aged := Where(s.minute, Before(cutoff));
    forall h ensures h in HourlyOf(rows) <==> exists j :: j in s.minute && j.bucket < cutoff && HourKey(j) == h {
      if h in HourlyOf(rows) {
        var i :| 0 <= i < |rows| && HourKey(rows[i].0) == h;
        assert rows[i].0 in aged;
      }
      if j :| j in s.minute && j.bucket < cutoff && HourKey(j) == h {
        assert j in aged;
        var i :| 0 <= i < |rows| && rows[i].0 == j;
        assert HourKey(rows[i].0) == h;
      }
    }
  }

  /** The latest cutoff so far, or None. */
  function LastCutoff(actions: seq<Action>): Option<int> {
    if actions == [] then None
    else
      var earlier := LastCutoff(actions[..|actions| - 1]);
      match actions[|actions| - 1]
      case Flush(_) => earlier
      case RollUp(cutoff, _) => if earlier.Some? && earlier.value > cutoff then earlier else Some(cutoff)
  }

  /** Cutoffs fall on hours, and no flush carries an event older than an earlier cutoff. */
  ghost predicate Tidy(actions: seq<Action>) {
    actions == [] ||
    var front := actions[..|actions| - 1];
    && Tidy(front)
    && match actions[|actions| - 1]
       case Flush(events) =>
         LastCutoff(front).Some? ==> forall e :: e in events ==> ClientKeyOf(e).value.bucket >= LastCutoff(front).value
       case RollUp(cutoff, _) => cutoff % HOUR == 0
  }

  /** All hourly rows lie before the last cutoff, which falls on an hour, and all minute rows from there on. */
  ghost predicate Divided(s: State, cutoff: Option<int>) {
    match cutoff
    case None => s.hourly == map[]
    case Some(at) =>
      at % HOUR == 0 && (forall k :: k in s.minute ==> k.bucket >= at) && (forall h :: h in s.hourly ==> h.bucket < at)
  }

  lemma HourBounds(k: ClientKey)
    ensures HourKey(k).bucket <= k.bucket < HourKey(k).bucket + HOUR && HourKey(k).bucket % HOUR == 0
  {}

  lemma DividedIsDisjoint(s: State, cutoff: Option<int>)
    requires Divided(s, cutoff)
    ensures Disjoint(s)
  {
    hide HourKey;
    if cutoff.Some? {
      forall k | k in s.minute ensures HourKey(k) !in s.hourly {
        HourBounds(k);
        AlignedBelow(HourKey(k).bucket, k.bucket, cutoff.value);
      }
    }
  }

  lemma AlignedBelow(hour: int, t: int, at: int)
    requires hour % HOUR == 0 && at % HOUR == 0 && hour <= t < hour + HOUR && at <= t
    ensures at <= hour
  {}

  lemma DividedFlush(s: State, events: seq<ParsedEvent>, cutoff: Option<int>)
    requires Divided(s, cutoff)
    requires cutoff.Some? ==> forall e :: e in events ==> ClientKeyOf(e).value.bucket >= cutoff.value
    ensures Divided(DoFlush(s, events), cutoff)
  {
    hide LabelLists.CaseMerge, ClientKeyOf;
    NewRowsKeys(events);
    hide NewRows;
  }

  lemma MinutesLeft(s: State, cutoff: int, rows: seq<Row>)
    ensures forall k :: k in DoRollup(s, cutoff, rows).minute <==> k in s.minute && k.bucket >= cutoff
  {}

  lemma DividedRollUp(s: State, cutoff: int, rows: seq<Row>, earlier: Option<int>)
    requires Divided(s, earlier) && Legal(s, RollUp(cutoff, rows)) && cutoff % HOUR == 0
    ensures Divided(DoRollup(s, cutoff, rows),
        Some(if earlier.Some? && earlier.value > cutoff then earlier.value else cutoff))
  {
    hide DoRollup, Legal, HourKey, HourOf;
    HourlyKeys(s, cutoff, rows);
    MinutesLeft(s, cutoff, rows);
    var s' := DoRollup(s, cutoff, rows);
    forall h | h in s'.hourly && h !in s.hourly ensures h.bucket < cutoff {
      var j :| j in s.minute && j.bucket < cutoff && HourKey(j) == h;
      HourBounds(j);
    }
  }

  lemma {:induction false} TidyDivides(actions: seq<Action>)
    requires LegalRun(actions) && Tidy(actions)
    ensures Divided(After(actions), LastCutoff(actions))
  {
    hide Divided, Legal, DoFlush, DoRollup;
    if actions == [] {
      NothingDivided();
    } else {
      var front := actions[..|actions| - 1];
      LegalFront(actions);
      TidyDivides(front);
      match actions[|actions| - 1]
      case Flush(events) => DividedFlush(After(front), events, LastCutoff(front));
      case RollUp(cutoff, rows) => DividedRollUp(After(front), cutoff, rows, LastCutoff(front));
    }
  }

  lemma NothingDivided()
    ensures Divided(INITIAL, None)
  {}

  /** What the documentation promises, for runs with aligned cutoffs and no late events: the tables never overlap. */
  lemma TidyRunsAreDisjoint(actions: seq<Action>)
    requires LegalRun(actions) && Tidy(actions)
    ensures Disjoint(After(actions))
  {
    hide Divided, Disjoint, Tidy, LegalRun, After;
    TidyDivides(actions);
    DividedIsDisjoint(After(actions), LastCutoff(actions));
  }

  /**
   * The cutoff is "now less some hours", so it splits an hour in an ordinary
   * run: two events of one client and hour, rolled up in between.
   */
  lemma UnalignedCutoffOverlaps(e: ParsedEvent, f: ParsedEvent, cutoff: int, rows: seq<Row>)
    requires ClientKeyOf(e).value.bucket < cutoff <= ClientKeyOf(f).value.bucket
    requires HourKey(ClientKeyOf(e).value) == HourKey(ClientKeyOf(f).value)
    requires Legal(Do(INITIAL, Flush([e, f])), RollUp(cutoff, rows))
    ensures LegalRun([Flush([e, f]), RollUp(cutoff, rows)]) && !Disjoint(After([Flush([e, f]), RollUp(cutoff, rows)]))
  {
    var j, k := ClientKeyOf(e).value, ClientKeyOf(f).value;
    hide HourKey, Disjoint, Legal, Do, NewRows, ClientKeyOf, LegalRun, After;
    var s := Do(INITIAL, Flush([e, f]));
    TwoActions(Flush([e, f]), RollUp(cutoff, rows));
    FromNothing([e, f]);
    NewRowsKeys([e, f]);
    assert e in [e, f] && f in [e, f];
    assert SplitBy(s, cutoff, j, k);
    StepDisjointIff(s, RollUp(cutoff, rows));
    assert Breaks(s, RollUp(cutoff, rows));
  }

  lemma FromNothing(events: seq<ParsedEvent>)
    ensures Do(INITIAL, Flush(events)).minute.Keys == NewRows(events).Keys && Disjoint(Do(INITIAL, Flush(events)))
    ensures Legal(INITIAL, Flush(events))
  {
    hide NewRows;
  }

  lemma TwoActions(a: Action, b: Action)
    ensures After([a, b]) == Do(Do(INITIAL, a), b)
    ensures LegalRun([a, b]) <==> Legal(INITIAL, a) && Legal(Do(INITIAL, a), b)
  {
    hide Do, Legal;
    assert [a, b][..1] == [a] && [a][..0] == [];
    assert After([a]) == Do(After([]), a);
    assert LegalRun([a]) <==> Legal(After([]), a);
  }

  /** An event that arrives after its hour was rolled up reopens the hour. */
  lemma LateEventOverlaps(e: ParsedEvent, rows: seq<Row>, cutoff: int)
    requires MinuteOf(e.timestamp) < cutoff && Legal(Do(INITIAL, Flush([e])), RollUp(cutoff, rows))
    ensures var s := Do(Do(Do(INITIAL, Flush([e])), RollUp(cutoff, rows)), Flush([e]));
            var k := ClientKeyOf(e).value;
            k in s.minute && HourKey(k) in s.hourly
  {
    hide MinuteOf, HourOf, Lists;
    var k := ClientKeyOf(e).value;
    var s1 := Do(INITIAL, Flush([e]));
    FlushAddsRow(INITIAL, e);
    RollupAddsHour(s1, cutoff, rows, k);
    FlushAddsRow(Do(s1, RollUp(cutoff, rows)), e);
  }

  lemma FlushAddsRow(s: State, e: ParsedEvent)
    ensures ClientKeyOf(e).value in DoFlush(s, [e]).minute && DoFlush(s, [e]).hourly == s.hourly
  {
    OneEventOneRow(e);
    hide NewRows;
  }

  lemma RollupAddsHour(s: State, cutoff: int, rows: seq<Row>, k: ClientKey)
    requires Lists(rows, Where(s.minute, Before(cutoff))) && k in s.minute && k.bucket < cutoff
    ensures HourKey(k) in DoRollup(s, cutoff, rows).hourly
  {
    assert k in Where(s.minute, Before(cutoff));
    var i :| 0 <= i < |rows| && rows[i].0 == k;
    GroupHasKey(rows, i);
    hide HourlyOf;
    assert HourKey(k) in Project(HourlyOf(rows), ToRow);
  }

  lemma OneEventOneRow(e: ParsedEvent)
    ensures ClientKeyOf(e).value in NewRows([e])
  {
    assert [e][..0] == [];
  }

  lemma {:induction false} GroupHasKey(rows: seq<Row>, i: nat)
    requires i < |rows|
    ensures HourKey(rows[i].0) in HourlyOf(rows)
  {
    if i < |rows| - 1 { GroupHasKey(rows[..|rows| - 1], i); }
  }
}
