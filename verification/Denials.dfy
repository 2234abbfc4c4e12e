/** The denials page: blocked requests by reason, per displayed bucket and in all. */
module Denials {
  import opened Aggregates
  import opened Events
  import opened Reconciliation
  import opened Tables

  /** Minutes with their counts of 403s, 407s and blocked requests. */
  datatype Counts = Counts(forbid: map<int, int>, auth: map<int, int>, blocked: map<int, int>)

  function Get(counts: map<int, int>, minute: int): int { if minute in counts then counts[minute] else 0 }

  function Minutes(c: Counts): set<int> { c.forbid.Keys + c.auth.Keys + c.blocked.Keys }

  function Split(c: Counts, minute: int): Reasons {
    SplitMinute(Get(c.blocked, minute), Get(c.forbid, minute), Get(c.auth, minute))
  }

  function Without(c: Counts, minute: int): Counts { Counts(c.forbid - {minute}, c.auth - {minute},
      c.blocked - {minute}) }

  function Plus(a: Reasons, b: Reasons): Reasons { Reasons(a.acl + b.acl, a.auth + b.auth, a.other + b.other) }

  const NONE := Reasons(0, 0, 0)

  function GroupAt(groups: map<int, Reasons>, g: int): Reasons { if g in groups then groups[g] else NONE }

  function Same(): int -> int { (n: int) => n }

  function InGroup(truncate: int -> int, g: int): int -> bool { (minute: int) => truncate(minute) == g }

  function Anywhere(): int -> bool { (minute: int) => true }

  function Only(m: int): int -> bool { (minute: int) => minute == m }

  function Acl(): Reasons -> int { (r: Reasons) => r.acl }
  function Auth(): Reasons -> int { (r: Reasons) => r.auth }
  function Other(): Reasons -> int { (r: Reasons) => r.other }

  /** Every minute's split. */
  function Splits(c: Counts): map<int, Reasons> { map minute | minute in Minutes(c) :: Split(c, minute) }

  /** The splits of the minutes satisfying `p`, reason by reason. */
  ghost function Sum(c: Counts, p: int -> bool): Reasons {
    Reasons(Total(Splits(c), p, Acl()), Total(Splits(c), p, Auth()), Total(Splits(c), p, Other()))
  }

  lemma SplitsWithout(c: Counts, minute: int)
    ensures Splits(Without(c, minute)) == Splits(c) - {minute} && Minutes(Without(c, minute)) == Minutes(c) - {minute}
    ensures forall m :: m != minute ==> Split(Without(c, minute), m) == Split(c, m)
  {
    hide Split;
    forall m | m != minute ensures Split(Without(c, minute), m) == Split(c, m) { SplitWithout(c, minute, m); }
    assert Minutes(Without(c, minute)) == Minutes(c) - {minute};
    hide Minutes, Without;
  }

  lemma SplitWithout(c: Counts, minute: int, m: int)
    requires m != minute
    ensures Split(Without(c, minute), m) == Split(c, m)
  {
    hide SplitMinute;
  }

  lemma DropMinute(c: Counts, minute: int, p: int -> bool)
    requires minute in Minutes(c)
    ensures Sum(c, p) == Plus(Sum(Without(c, minute), p), if p(minute) then Split(c, minute) else NONE)
  {
    hide Total;
    SplitsWithout(c, minute);
    TotalDrop(Splits(c), p, Acl(), minute);
    TotalDrop(Splits(c), p, Auth(), minute);
    TotalDrop(Splits(c), p, Other(), minute);
  }

  /** What has been added up so far and what is left make the whole. */
  ghost predicate Halfway(groups: map<int, Reasons>, all: Reasons, left: Counts, whole: Counts, truncate: int -> int) {
    && (forall g :: Plus(GroupAt(groups, g), Sum(left, InGroup(truncate, g))) == Sum(whole, InGroup(truncate, g)))
    && Plus(all, Sum(left, Anywhere())) == Sum(whole, Anywhere())
  }

  lemma OneMinute(groups: map<int, Reasons>, all: Reasons, left: Counts, whole: Counts, truncate: int -> int,
      minute: int)
    requires Halfway(groups, all, left, whole, truncate) && minute in Minutes(left)
    ensures var key, reasons := truncate(minute), Split(left, minute);
            Halfway(groups[key := Plus(GroupAt(groups, key), reasons)], Plus(all, reasons), Without(left, minute),
                whole, truncate)
  {
    hide Sum, Split, Minutes, Without;
    var key, reasons := truncate(minute), Split(left, minute);
    var groups' := groups[key := Plus(GroupAt(groups, key), reasons)];
    DropMinute(left, minute, Anywhere());
    forall g
      ensures Plus(GroupAt(groups', g), Sum(Without(left, minute), InGroup(truncate, g)))
          == Sum(whole, InGroup(truncate, g))
    {
      DropMinute(left, minute, InGroup(truncate, g));
      assert Plus(GroupAt(groups, g), Sum(left, InGroup(truncate, g))) == Sum(whole, InGroup(truncate, g));
    }
  }

  /** Minutes in any order, each split by reason and added to its displayed bucket and to the grand totals. */
  method SplitReasons(counts: Counts, truncate: int -> int) returns (groups: map<int, Reasons>, all: Reasons)
    ensures forall g :: GroupAt(groups, g) == Sum(counts, InGroup(truncate, g))
    ensures all == Sum(counts, Anywhere())
  {
    hide Sum, Split, Minutes, Without, Halfway, GroupAt, Plus;
    groups, all := map[], NONE;
    var minutes := Minutes(counts);
    ghost var left := counts;
    NothingYet(counts, truncate);
    while minutes != {}
      invariant Minutes(left) == minutes && Halfway(groups, all, left, counts, truncate)
      invariant forall m :: m in minutes ==> Split(left, m) == Split(counts, m)
      decreases |minutes|
    {
      SomeMinute(minutes);
      var minute :| minute in minutes;
      OneMinute(groups, all, left, counts, truncate, minute);
      SplitsWithout(left, minute);
      minutes := minutes - {minute};
      left := Without(left, minute);
      var reasons, key := Split(counts, minute), truncate(minute);
      groups := groups[key := Plus(GroupAt(groups, key), reasons)];
      all := Plus(all, reasons);
    }
    NothingLeft(groups, all, left, counts, truncate);
  }

  lemma SomeMinute(minutes: set<int>)
    requires minutes != {}
    ensures exists m :: m in minutes
  {
    assert (forall m :: m !in minutes) ==> minutes == {};
  }

  lemma NothingYet(counts: Counts, truncate: int -> int)
    ensures Halfway(map[], NONE, counts, counts, truncate)
  {
    hide Sum;
  }

  lemma NothingLeft(groups: map<int, Reasons>, all: Reasons, left: Counts, whole: Counts, truncate: int -> int)
    requires Halfway(groups, all, left, whole, truncate) && Minutes(left) == {}
    ensures forall g :: GroupAt(groups, g) == Sum(whole, InGroup(truncate, g))
    ensures all == Sum(whole, Anywhere())
  {
    hide Sum, GroupAt;
    SumOfNothing(left, Anywhere());
    forall g ensures GroupAt(groups, g) == Sum(whole, InGroup(truncate, g)) {
      SumOfNothing(left, InGroup(truncate, g));
      assert Plus(GroupAt(groups, g), Sum(left, InGroup(truncate, g))) == Sum(whole, InGroup(truncate, g));
    }
  }

  lemma SumOfNothing(c: Counts, p: int -> bool)
    requires Minutes(c) == {}
    ensures Sum(c, p) == NONE && c == Counts(map[], map[], map[])
  {
    assert c.forbid.Keys == {} && c.auth.Keys == {} && c.blocked.Keys == {};
    assert Splits(c) == map[];
    TotalOfNothing<int, Reasons>(p, Acl());
    TotalOfNothing<int, Reasons>(p, Auth());
    TotalOfNothing<int, Reasons>(p, Other());
  }

  // ---- When the reasons add up ----------------------------------------------

  /** No minute has more 403s and 407s than blocked requests. */
  ghost predicate Unclipped(c: Counts) {
    forall minute :: Get(c.forbid, minute) + Get(c.auth, minute) <= Get(c.blocked, minute)
  }

  /**
   * Whichever minutes are looked at, the 403s and 407s are reported as they are; the
   * rest makes up the blocked ones if nothing is clipped.
   */
  lemma {:induction false} SumIsDirect(c: Counts, p: int -> bool)
    ensures Sum(c, p).acl == Total(c.forbid, p, Same()) && Sum(c, p).auth == Total(c.auth, p, Same())
    ensures Unclipped(c) ==> Sum(c, p).acl + Sum(c, p).auth + Sum(c, p).other == Total(c.blocked, p, Same())
    decreases |Minutes(c)|
  {
    hide Total, Sum, Split, Without, Minutes, Get, Unclipped;
    if Minutes(c) == {} {
      SumOfNothing(c, p);
      TotalOfNothing<int, int>(p, Same());
    } else {
      SomeMinute(Minutes(c));
      var minute :| minute in Minutes(c);
      SplitsWithout(c, minute);
      DropMinute(c, minute, p);
      DropCounts(c, minute, p);
      SplitWhole(c, minute);
      if Unclipped(c) { UnclippedWithout(c, minute); }
      SumIsDirect(Without(c, minute), p);
    }
  }

  lemma DropCounts(c: Counts, minute: int, p: int -> bool)
    ensures var d := Without(c, minute);
            && Total(c.forbid, p, Same())
                == Total(d.forbid, p, Same()) + (if p(minute) then Get(c.forbid, minute) else 0)
            && Total(c.auth, p, Same()) == Total(d.auth, p, Same()) + (if p(minute) then Get(c.auth, minute) else 0)
            && Total(c.blocked, p, Same())
                == Total(d.blocked, p, Same()) + (if p(minute) then Get(c.blocked, minute) else 0)
  {
    hide Total;
    TotalDrop(c.forbid, p, Same(), minute);
    TotalDrop(c.auth, p, Same(), minute);
    TotalDrop(c.blocked, p, Same(), minute);
  }

  lemma SplitWhole(c: Counts, minute: int)
    ensures var r := Split(c, minute);
            && r.acl == Get(c.forbid, minute) && r.auth == Get(c.auth, minute)
            && (Unclipped(c) ==> r.acl + r.auth + r.other == Get(c.blocked, minute))
  {}

  lemma UnclippedWithout(c: Counts, minute: int)
    requires Unclipped(c)
    ensures Unclipped(Without(c, minute)) && Get(c.forbid, minute) + Get(c.auth, minute) <= Get(c.blocked, minute)
  {
    forall m ensures Get(c.forbid - {minute}, m) + Get(c.auth - {minute}, m) <= Get(c.blocked - {minute}, m) {
      assert Get(c.forbid, m) + Get(c.auth, m) <= Get(c.blocked, m);
    }
  }

  lemma OneMinuteSum(c: Counts, m: int)
    requires m in Minutes(c)
    ensures Sum(c, Only(m)) == Split(c, m) && Total(c.blocked, Only(m), Same()) == Get(c.blocked, m)
  {
    hide Total, Split;
    TotalOne(Splits(c), m, Only(m), Acl());
    TotalOne(Splits(c), m, Only(m), Auth());
    TotalOne(Splits(c), m, Only(m), Other());
    TotalOne(c.blocked, m, Only(m), Same());
  }

  ghost predicate AddsUp(c: Counts, p: int -> bool) {
    Sum(c, p).acl + Sum(c, p).auth + Sum(c, p).other == Total(c.blocked, p, Same())
  }

  /** The reasons add up to the blocked requests, for every choice of minutes, exactly when no minute is clipped. */
  lemma AddsUpIffUnclipped(c: Counts)
    ensures Unclipped(c) <==> forall p :: AddsUp(c, p)
  {
    hide Total, Sum;
    if Unclipped(c) {
      forall p ensures AddsUp(c, p) { SumIsDirect(c, p); }
    }
    if forall p :: AddsUp(c, p) {
      forall m ensures Get(c.forbid, m) + Get(c.auth, m) <= Get(c.blocked, m) {
        if m in Minutes(c) {
          assert AddsUp(c, Only(m));
          OneMinuteSum(c, m);
        }
      }
    }
  }

  /** The page's three queries over the minutes in [since, until], for some choice of branches. */
  ghost predicate Queried(s: Store, f: string -> bool, since: int, until: int, counts: Counts) {
    forall minute :: CountsOf(s, f, since, until, counts, minute)
  }

  ghost predicate CountsOf(s: Store, f: string -> bool, since: int, until: int, counts: Counts, minute: int) {
    var shown := since <= minute <= until;
    && Get(counts.forbid, minute) == (if shown then Total(s.http, StatusRows(minute, f, 403), CountCol) else 0)
    && Get(counts.auth, minute) == (if shown then Total(s.http, StatusRows(minute, f, 407), CountCol) else 0)
    && Get(counts.blocked, minute) == (if shown then Total(s.minute, MinuteRows(minute, f), BlockedCol) else 0)
  }

  /**
   * Over the aggregates of parsed events no minute is clipped, whatever range
   * the page shows, so its reasons add up to its blocked requests.
   */
  lemma PageAddsUp(category: string -> string, s: Store, events: seq<ParsedEvent>, f: string -> bool,
      since: int, until: int, counts: Counts)
    requires IsBatch(category, s, events) && WellParsed(events) && Queried(s, f, since, until, counts)
    ensures Unclipped(counts) && forall p :: AddsUp(counts, p)
  {
    hide Total, IsBatch, WellParsed, AddsUp;
    forall minute ensures Get(counts.forbid, minute) + Get(counts.auth, minute) <= Get(counts.blocked, minute) {
      assert CountsOf(s, f, since, until, counts, minute);
      RefusalsAreBlocked(category, s, events, minute, f);
    }
    AddsUpIffUnclipped(counts);
  }
}
