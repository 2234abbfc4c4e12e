/**
 * Which windows the columns take, in terms of the events alone: of the hundred
 * or so sums that a flush adds to, only a few per minute and per hour matter.
 */
module ColumnSums {
  import opened Options
  import opened Events
  import opened Tables
  import opened Aggregates
  import opened Columns
  import opened DirectSums
  import LogParser

  /** The sums over the event's minute and branch: requests, bytes, uploads and durations. */
  ghost predicate MinuteSumsFit(all: seq<ParsedEvent>, e: ParsedEvent) {
    var at := AtMinute(MinuteKey(MinuteOf(e.timestamp), e.branch));
    && SumWhere(all, at, Each) <= 2_147_483_647
    && SumWhere(all, at, Bytes) <= 9_223_372_036_854_775_807
    && SumWhere(all, at, Upload) <= 9_223_372_036_854_775_807
    && SumWhere(all, at, Duration) <= 9_223_372_036_854_775_807
  }

  /** The refusals over the hour, branch, proxy and domain of a refused event. */
  ghost predicate HourSumsFit(all: seq<ParsedEvent>, e: ParsedEvent) {
    HasName(e) && e.blocked ==>
      var at := AtBlockedDomain(BlockedDomainKey(HourOf(e.timestamp), e.branch, Text(e.proxy), Text(e.domain)));
      SumWhere(all, at, Denied) <= 2_147_483_647 && SumWhere(all, at, Challenged) <= 2_147_483_647
  }

  // ---- Sums over fewer events are smaller -----------------------------------

  lemma {:induction false} FewerAreLess(all: seq<ParsedEvent>, p: ParsedEvent -> bool, q: ParsedEvent -> bool,
      w: ParsedEvent -> int, v: ParsedEvent -> int)
    requires forall e :: e in all ==> (p(e) ==> q(e)) && 0 <= w(e) <= v(e)
    ensures 0 <= SumWhere(all, p, w) <= SumWhere(all, q, v)
  {
    if all != [] {
      var front, last := all[..|all| - 1], all[|all| - 1];
      assert forall e :: e in front ==> e in all;
      FewerAreLess(front, p, q, w, v);
      assert last in all;
    }
  }

  lemma CountableEach(all: seq<ParsedEvent>, e: ParsedEvent)
    requires AllCountable(all) && e in all
    ensures Bytes(e) >= 0 && Upload(e) >= 0
  {
    var i: nat :| i < |all| && all[i] == e;
    assert Countable(all[i]);
  }

  ghost predicate Within(all: seq<ParsedEvent>, p: ParsedEvent -> bool, q: ParsedEvent -> bool) {
    AllCountable(all) && forall e :: e in all && p(e) ==> q(e)
  }

  lemma CountsWithin(all: seq<ParsedEvent>, p: ParsedEvent -> bool, q: ParsedEvent -> bool, w: ParsedEvent -> int)
    requires Within(all, p, q) && forall e :: 0 <= w(e) <= 1
    ensures SumWhere(all, p, w) <= SumWhere(all, q, Each)
  {
    FewerAreLess(all, p, q, w, Each);
  }

  lemma BytesWithin(all: seq<ParsedEvent>, p: ParsedEvent -> bool, q: ParsedEvent -> bool)
    requires Within(all, p, q)
    ensures SumWhere(all, p, Bytes) <= SumWhere(all, q, Bytes) && SumWhere(all, p, Upload) <= SumWhere(all, q, Upload)
    ensures SumWhere(all, p, PassedBytes) <= SumWhere(all, q, Bytes)
    ensures SumWhere(all, p, PassedUpload) <= SumWhere(all, q, Upload)
    ensures SumWhere(all, p, RefusedBytes) <= SumWhere(all, q, Bytes)
    ensures SumWhere(all, p, RefusedUpload) <= SumWhere(all, q, Upload)
  {
    hide SumWhere;
    forall e | e in all ensures Bytes(e) >= 0 && Upload(e) >= 0 { CountableEach(all, e); }
    hide AllCountable;
    FewerAreLess(all, p, q, Bytes, Bytes);
    FewerAreLess(all, p, q, Upload, Upload);
    FewerAreLess(all, p, q, PassedBytes, Bytes);
    FewerAreLess(all, p, q, PassedUpload, Upload);
    FewerAreLess(all, p, q, RefusedBytes, Bytes);
    FewerAreLess(all, p, q, RefusedUpload, Upload);
  }

  /** What a row holds is no more than its minute does. */
  lemma RowWithinMinute(all: seq<ParsedEvent>, p: ParsedEvent -> bool, e: ParsedEvent)
    requires Within(all, p, AtMinute(MinuteKey(MinuteOf(e.timestamp), e.branch))) && MinuteSumsFit(all, e)
    ensures DomainFits(DomainRow(p)(all)) && ClientSumsFit(ClientRowSums(p)(all))
    ensures CountBytesFits(AllBytesRow(p)(all)) && CountBytesFits(PassedBytesRow(p)(all))
  {
    hide SumWhere, Within, AtMinute, MinuteOf;
    var q := AtMinute(MinuteKey(MinuteOf(e.timestamp), e.branch));
    CountsWithin(all, p, q, Each);
    CountsWithin(all, p, q, Refused);
    BytesWithin(all, p, q);
  }

  lemma MinuteRowFits(all: seq<ParsedEvent>, e: ParsedEvent)
    requires AllCountable(all)
    ensures var at := AtMinute(MinuteKey(MinuteOf(e.timestamp), e.branch));
            MinuteFits(MinuteRow(at)(all)) <==> MinuteSumsFit(all, e)
  {
    hide SumWhere, AtMinute, MinuteOf, SaysHit, SaysMiss;
    var at := AtMinute(MinuteKey(MinuteOf(e.timestamp), e.branch));
    assert Within(all, at, at);
    hide Within;
    CountsWithin(all, at, at, Refused);
    CountsWithin(all, at, at, Passed);
    CountsWithin(all, at, at, Hit);
    CountsWithin(all, at, at, Miss);
    CountsWithin(all, at, at, Took(0, 100));
    CountsWithin(all, at, at, Took(100, 300));
    CountsWithin(all, at, at, Took(300, 1000));
    CountsWithin(all, at, at, Took(1000, 3000));
    CountsWithin(all, at, at, Took(3000, 10000));
    CountsWithin(all, at, at, TookLong);
    BytesWithin(all, at, at);
  }

  // ---- Table by table -------------------------------------------------------

  /** A table's totals fit exactly if each row that the window adds to, written as sums, does. */
  lemma FitsRowByRow<K(!new), V(!new)>(all: seq<ParsedEvent>, window: seq<ParsedEvent>, key: ParsedEvent -> Option<K>,
      val: ParsedEvent -> V, plus: (V, V) -> V, fits: V -> bool, at: K -> ParsedEvent -> bool,
      row: (ParsedEvent -> bool) -> seq<ParsedEvent> -> V)
    requires forall k, e :: at(k)(e) <==> key(e) == Some(k)
    requires forall k :: Accumulates(key, val, plus, k, row(at(k)))
    requires forall e :: e in window ==> e in all
    ensures TotalsFit(GroupBy(all, key, val, plus), window, key, fits)
            <==> forall e :: e in window && key(e).Some? ==> fits(row(at(key(e).value))(all))
  {
    hide Accumulates, GroupBy;
    GroupsHold(all, key, val, plus, at, row);
    var t := GroupBy(all, key, val, plus);
    forall e | e in window && key(e).Some?
      ensures key(e).value in t && t[key(e).value] == row(at(key(e).value))(all)
    {
      assert at(key(e).value)(e) && e in all;
    }
  }

  /** In the minute tables each row is within a minute's. */
  lemma MinuteTablesFit(category: string -> string, all: seq<ParsedEvent>, e: ParsedEvent)
    requires AllCountable(all) && MinuteSumsFit(all, e)
    ensures DomainKeyOf(e).Some? ==> DomainFits(DomainRow(AtDomain(DomainKeyOf(e).value))(all))
    ensures ClientSumsFit(ClientRowSums(AtClient(ClientKeyOf(e).value))(all))
    ensures CategoryKeys(category)(e).Some? ==>
              CountBytesFits(PassedBytesRow(AtCategory(category)(CategoryKeys(category)(e).value))(all))
    ensures CountBytesFits(AllBytesRow(AtCode(CodeKeyOf(e).value))(all))
    ensures CountBytesFits(AllBytesRow(AtHttp(HttpKeyOf(e).value))(all))
    ensures CountBytesFits(AllBytesRow(AtHierarchy(HierarchyKeyOf(e).value))(all))
    ensures UserCategoryKeys(category)(e).Some? ==>
              CountBytesFits(PassedBytesRow(AtUserCategory(category)(UserCategoryKeys(category)(e).value))(all))
  {
    hide SumWhere, MinuteSumsFit, MinuteOf, HierarchyCode, DomainFits, ClientSumsFit, CountBytesFits, AllCountable;
    hide DomainRow, ClientRowSums, AllBytesRow, PassedBytesRow;
    if DomainKeyOf(e).Some? { RowWithinMinute(all, AtDomain(DomainKeyOf(e).value), e); }
    RowWithinMinute(all, AtClient(ClientKeyOf(e).value), e);
    RowWithinMinute(all, AtCode(CodeKeyOf(e).value), e);
    RowWithinMinute(all, AtHttp(HttpKeyOf(e).value), e);
    RowWithinMinute(all, AtHierarchy(HierarchyKeyOf(e).value), e);
    if CategoryKeys(category)(e).Some? {
      RowWithinMinute(all, AtCategory(category)(CategoryKeys(category)(e).value), e);
    }
    if UserCategoryKeys(category)(e).Some? {
      RowWithinMinute(all, AtUserCategory(category)(UserCategoryKeys(category)(e).value), e);
    }
  }

  /** In the hourly ones each client's row is within the domain's. */
  lemma HourTablesFit(all: seq<ParsedEvent>, e: ParsedEvent)
    requires AllCountable(all)
    ensures BlockedDomainKeyOf(e).Some? ==>
              (BlockCountsFit(BlockRow(AtBlockedDomain(BlockedDomainKeyOf(e).value))(all)) <==> HourSumsFit(all, e))
    ensures BlockedClientKeyOf(e).Some? && HourSumsFit(all, e) ==>
              BlockCountsFit(BlockRow(AtBlockedClient(BlockedClientKeyOf(e).value))(all))
    ensures BlockedDomainKeyOf(e).None? ==> HourSumsFit(all, e)
  {
    hide SumWhere, MinuteOf, HourOf;
    HoursOfMinutes();
    if BlockedClientKeyOf(e).Some? {
      var p, q := AtBlockedClient(BlockedClientKeyOf(e).value), AtBlockedDomain(BlockedDomainKeyOf(e).value);
      FewerAreLess(all, p, q, Denied, Denied);
      FewerAreLess(all, p, q, Challenged, Challenged);
    }
  }

  /**
   * Of all the sums a flush adds to -- nine tables by the minute and two by the
   * hour -- those of each event's own minute and branch, and for refused events
   * those of the hour, decide whether every one fits its column.
   */
  lemma TotalsFitIff(category: string -> string, all: seq<ParsedEvent>, window: seq<ParsedEvent>)
    requires AllCountable(all) && forall e :: e in window ==> e in all
    ensures AllTotalsFit(category, all, window) <==>
            forall e :: e in window ==> MinuteSumsFit(all, e) && HourSumsFit(all, e)
  {
    RowsDecide(category, all, window);
    hide AllTotalsFit, RowsFit;
    forall e ensures RowsFit(category, all, e) <==> MinuteSumsFit(all, e) && HourSumsFit(all, e) {
      RowsFitIff(category, all, e);
    }
  }

  ghost predicate RowsFit(category: string -> string, all: seq<ParsedEvent>, e: ParsedEvent) {
    && MinuteFits(MinuteRow(AtMinute(MinuteKeyOf(e).value))(all))
    && (DomainKeyOf(e).Some? ==> DomainFits(DomainRow(AtDomain(DomainKeyOf(e).value))(all)))
    && ClientSumsFit(ClientRowSums(AtClient(ClientKeyOf(e).value))(all))
    && (CategoryKeys(category)(e).Some? ==>
          CountBytesFits(PassedBytesRow(AtCategory(category)(CategoryKeys(category)(e).value))(all)))
    && CountBytesFits(AllBytesRow(AtCode(CodeKeyOf(e).value))(all))
    && CountBytesFits(AllBytesRow(AtHttp(HttpKeyOf(e).value))(all))
    && CountBytesFits(AllBytesRow(AtHierarchy(HierarchyKeyOf(e).value))(all))
    && (UserCategoryKeys(category)(e).Some? ==>
          CountBytesFits(PassedBytesRow(AtUserCategory(category)(UserCategoryKeys(category)(e).value))(all)))
    && (BlockedDomainKeyOf(e).Some? ==>
          BlockCountsFit(BlockRow(AtBlockedDomain(BlockedDomainKeyOf(e).value))(all)))
    && (BlockedClientKeyOf(e).Some? ==>
          BlockCountsFit(BlockRow(AtBlockedClient(BlockedClientKeyOf(e).value))(all)))
  }

  lemma RowsFitIff(category: string -> string, all: seq<ParsedEvent>, e: ParsedEvent)
    requires AllCountable(all)
    ensures RowsFit(category, all, e) <==> MinuteSumsFit(all, e) && HourSumsFit(all, e)
  {
    hide SumWhere, MinuteFits, DomainFits, ClientSumsFit, CountBytesFits, BlockCountsFit, MinuteSumsFit, HourSumsFit;
    hide MinuteRow, DomainRow, ClientRowSums, AllBytesRow, PassedBytesRow, BlockRow, MinuteOf, HourOf;
    hide DomainKeyOf, ClientKeyOf, CategoryKeys, CodeKeyOf, HttpKeyOf, HierarchyKeyOf, UserCategoryKeys;
    hide AtMinute, AtDomain, AtClient, AtCategory, AtCode, AtHttp, AtHierarchy, AtUserCategory, AtBlockedDomain,
         AtBlockedClient;
    MinuteRowFits(all, e);
    HourTablesFit(all, e);
    if MinuteSumsFit(all, e) { MinuteTablesFit(category, all, e); }
  }

  lemma RowsDecide(category: string -> string, all: seq<ParsedEvent>, window: seq<ParsedEvent>)
    requires forall e :: e in window ==> e in all
    ensures AllTotalsFit(category, all, window) <==> forall e :: e in window ==> RowsFit(category, all, e)
  {
    KeysMean(category);
    AlwaysKeyed();
    hide GroupBy, Accumulates, TotalsFit;
    hide MinuteKeyOf, DomainKeyOf, ClientKeyOf, CategoryKeys, CodeKeyOf, HttpKeyOf, HierarchyKeyOf, UserCategoryKeys,
         BlockedDomainKeyOf, BlockedClientKeyOf;
    hide AtMinute, AtDomain, AtClient, AtCategory, AtCode, AtHttp, AtHierarchy, AtUserCategory, AtBlockedDomain,
         AtBlockedClient;
    hide MinuteRow, DomainRow, ClientRowSums, AllBytesRow, PassedBytesRow, BlockRow;
    hide MinuteFits, DomainFits, ClientSumsFit, CountBytesFits, BlockCountsFit;
    forall k { MinuteAccumulates(k); }
    forall k { DomainAccumulates(k); }
    forall k { ClientAccumulates(k); }
    forall k { CategoryAccumulates(category, k); }
    forall k { CodeAccumulates(k); }
    forall k { HttpAccumulates(k); }
    forall k { HierarchyAccumulates(k); }
    forall k { UserCategoryAccumulates(category, k); }
    forall k { BlockedDomainAccumulates(k); }
    forall k { BlockedClientAccumulates(k); }
    FitsRowByRow(all, window, MinuteKeyOf, MinuteShare, MinutePlus, MinuteFits, AtMinute, MinuteRow);
    FitsRowByRow(all, window, DomainKeyOf, DomainShare, DomainPlus, DomainFits, AtDomain, DomainRow);
    FitsRowByRow(all, window, ClientKeyOf, ClientShare, ClientSumsPlus, ClientSumsFit, AtClient, ClientRowSums);
    FitsRowByRow(all, window, CategoryKeys(category), AllowedShare, CountBytesPlus, CountBytesFits,
                 AtCategory(category), PassedBytesRow);
    FitsRowByRow(all, window, CodeKeyOf, FullShare, CountBytesPlus, CountBytesFits, AtCode, AllBytesRow);
    FitsRowByRow(all, window, HttpKeyOf, FullShare, CountBytesPlus, CountBytesFits, AtHttp, AllBytesRow);
    FitsRowByRow(all, window, HierarchyKeyOf, FullShare, CountBytesPlus, CountBytesFits, AtHierarchy, AllBytesRow);
    FitsRowByRow(all, window, UserCategoryKeys(category), AllowedShare, CountBytesPlus, CountBytesFits,
                 AtUserCategory(category), PassedBytesRow);
    FitsRowByRow(all, window, BlockedDomainKeyOf, BlockShare, BlockPlus, BlockCountsFit, AtBlockedDomain, BlockRow);
    FitsRowByRow(all, window, BlockedClientKeyOf, BlockShare, BlockPlus, BlockCountsFit, AtBlockedClient, BlockRow);
  }

  /**
   * A flush of parsed events goes through if and only if, for each event, its
   * own row fits, the sums of its minute and of its hour do, and so does every
   * proxy list written.
   */
  lemma TakenIffSumsFit(category: string -> string, s: Store, done: seq<ParsedEvent>, events: seq<ParsedEvent>)
    requires IsBatch(category, s, done) && ListsWithin(s.client)
    requires forall e :: e in done ==> LogParser.Sanitized(e)
    requires forall e :: e in events ==> LogParser.Sanitized(e) && SourceFits(e)
    ensures Takes(category, s, events) <==>
            && (forall e :: e in events ==> LogParser.FitsColumns(e))
            && (forall e :: e in events ==> MinuteSumsFit(done + events, e) && HourSumsFit(done + events, e))
            && ListsFit(events)
  {
    hide IsBatch, ListsWithin, Takes, AllTotalsFit, ListsFit, SourceFits, LogParser.FitsColumns, MinuteSumsFit,
         HourSumsFit;
    TakenIff(category, s, done, events);
    var all := done + events;
    forall i | 0 <= i < |all| ensures Countable(all[i]) { SanitizedIsCountable(all[i]); }
    hide Countable, LogParser.Sanitized;
    TotalsFitIff(category, all, events);
  }
}
