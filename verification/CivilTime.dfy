/** Calendar days and zone offsets, as the standard library's datetime counts them. */
module CivilTime {

  datatype Date = Date(year: int, month: int, day: int)

  predicate IsLeap(year: int) { year % 4 == 0 && (year % 100 != 0 || year % 400 == 0) }

  function DaysInMonth(year: int, month: int): int {
    if month == 2 then (if IsLeap(year) then 29 else 28)
    else if month == 4 || month == 6 || month == 9 || month == 11 then 30
    else 31
  }

  const MIN_YEAR := 1
  const MAX_YEAR := 9999

  predicate OnCalendar(d: Date) { 1 <= d.month <= 12 && 1 <= d.day <= DaysInMonth(d.year, d.month) }

  /** The dates datetime() accepts. */
  predicate IsDate(d: Date) { MIN_YEAR <= d.year <= MAX_YEAR && OnCalendar(d) }

  function DaysBeforeYear(year: int): int {
    var y := year - 1;
    y * 365 + y / 4 - y / 100 + y / 400
  }

  function DaysBeforeMonth(year: int, month: int): int
    decreases month
  {
    if month <= 1 then 0 else DaysBeforeMonth(year, month - 1) + DaysInMonth(year, month - 1)
  }

  /** Day 1 is 1 January of year 1. */
  function Ordinal(d: Date): int { DaysBeforeYear(d.year) + DaysBeforeMonth(d.year, d.month) + d.day }

  const EPOCH_ORDINAL := 719163
  const LAST_ORDINAL := 3652059

  function Next(d: Date): Date {
    if d.day < DaysInMonth(d.year, d.month) then d.(day := d.day + 1)
    else if d.month < 12 then Date(d.year, d.month + 1, 1)
    else Date(d.year + 1, 1, 1)
  }

  function Previous(d: Date): Date {
    if d.day > 1 then d.(day := d.day - 1)
    else if d.month > 1 then Date(d.year, d.month - 1, DaysInMonth(d.year, d.month - 1))
    else Date(d.year - 1, 12, 31)
  }

  /** The `n`-th day, counted off on the calendar. */
  function DateOf(n: nat): Date
    requires n >= 1
  {
    if n == 1 then Date(1, 1, 1) else Next(DateOf(n - 1))
  }

  lemma YearLength(year: int)
    ensures DaysBeforeYear(year + 1) - DaysBeforeYear(year) == if IsLeap(year) then 366 else 365
  {
    var y := year - 1;
    QuotientStep(y, 4);
    QuotientStep(y, 100);
    QuotientStep(y, 400);
    MultipleOf(year, 4, 25);
    MultipleOf(year, 100, 4);
  }

  lemma MultipleOf(year: int, n: int, k: int)
    requires (n == 4 && k == 25) || (n == 100 && k == 4)
    ensures year % (n * k) == 0 ==> year % n == 0
  {}

  lemma QuotientStep(y: int, n: int)
    requires n == 4 || n == 100 || n == 400
    ensures (y + 1) / n == y / n + if (y + 1) % n == 0 then 1 else 0
  {}

  lemma DecemberEnds(year: int)
    ensures DaysBeforeMonth(year, 12) == if IsLeap(year) then 335 else 334
  {
    assert DaysBeforeMonth(year, 4) == if IsLeap(year) then 91 else 90 by {
      assert DaysBeforeMonth(year, 2) == 31;
      assert DaysBeforeMonth(year, 3) == 31 + DaysInMonth(year, 2);
    }
    assert DaysBeforeMonth(year, 6) == DaysBeforeMonth(year, 4) + 61 by {
      assert DaysBeforeMonth(year, 5) == DaysBeforeMonth(year, 4) + 30;
    }
    assert DaysBeforeMonth(year, 8) == DaysBeforeMonth(year, 6) + 61 by {
      assert DaysBeforeMonth(year, 7) == DaysBeforeMonth(year, 6) + 30;
    }
    assert DaysBeforeMonth(year, 10) == DaysBeforeMonth(year, 8) + 61 by {
      assert DaysBeforeMonth(year, 9) == DaysBeforeMonth(year, 8) + 31;
    }
    assert DaysBeforeMonth(year, 11) == DaysBeforeMonth(year, 10) + 31;
  }

  /** Consecutive days have consecutive numbers, over month ends, leap days and centuries. */
  lemma NextDay(d: Date)
    requires OnCalendar(d)
    ensures OnCalendar(Next(d)) && Ordinal(Next(d)) == Ordinal(d) + 1
  {
    if d.day == DaysInMonth(d.year, d.month) && d.month == 12 {
      YearLength(d.year);
      DecemberEnds(d.year);
      assert DaysBeforeMonth(d.year + 1, 1) == 0;
      hide DaysBeforeYear, DaysBeforeMonth, IsLeap;
    }
  }

  lemma PreviousDay(d: Date)
    requires OnCalendar(d) && d != Date(1, 1, 1) && d.year >= 1
    ensures OnCalendar(Previous(d)) && Next(Previous(d)) == d && Previous(d).year >= 1
  {}

  lemma FirstDay()
    ensures OnCalendar(Date(1, 1, 1)) && Ordinal(Date(1, 1, 1)) == 1
  {
    assert DaysBeforeYear(1) == 0 && DaysBeforeMonth(1, 1) == 0;
  }

  lemma EpochDay()
    ensures Ordinal(Date(1970, 1, 1)) == EPOCH_ORDINAL
  {
    assert DaysBeforeYear(1970) == 719162 && DaysBeforeMonth(1970, 1) == 0;
  }

  /** The number of a day is how many days one counts to reach it. */
  lemma {:induction false} DateOfOrdinal(n: nat)
    requires n >= 1
    ensures OnCalendar(DateOf(n)) && Ordinal(DateOf(n)) == n && DateOf(n).year >= 1
  {
    hide Ordinal, OnCalendar, Next;
    FirstDay();
    if n > 1 {
      DateOfOrdinal(n - 1);
      NextDay(DateOf(n - 1));
      NextYear(DateOf(n - 1));
    }
  }

  lemma NextYear(d: Date)
    ensures Next(d).year >= d.year
  {}

  lemma {:induction false} OrdinalPositive(d: Date)
    requires OnCalendar(d) && d.year >= 1
    ensures Ordinal(d) >= 1
  {
    hide DaysInMonth;
    MonthsNonNegative(d.year, d.month);
  }

  lemma {:induction false} MonthsNonNegative(year: int, month: int)
    requires month <= 13
    ensures DaysBeforeMonth(year, month) >= 0
    decreases month
  {
    if month > 1 { MonthsNonNegative(year, month - 1); }
  }

  /** Different days have different numbers. */
  lemma {:induction false} OrdinalIsDate(d: Date)
    requires OnCalendar(d) && d.year >= 1
    ensures Ordinal(d) >= 1 && DateOf(Ordinal(d)) == d
    decreases Ordinal(d)
  {
    hide Next, Previous, OnCalendar, Ordinal;
    OrdinalPositive(d);
    FirstDay();
    if d != Date(1, 1, 1) {
      PreviousDay(d);
      NextDay(Previous(d));
      OrdinalPositive(Previous(d));
      OrdinalIsDate(Previous(d));
    }
  }

  lemma {:induction false} YearsAscend(y: int, z: int)
    requires y <= z
    ensures DaysBeforeYear(y) <= DaysBeforeYear(z)
    decreases z - y
  {
    if y < z {
      YearsAscend(y, z - 1);
      YearLength(z - 1);
    }
  }

  /** The last day that still has a four-digit year. */
  lemma LastDate(n: nat)
    requires 1 <= n <= LAST_ORDINAL
    ensures IsDate(DateOf(n))
  {
    DateOfOrdinal(n);
    var d := DateOf(n);
    MonthsNonNegative(d.year, d.month);
    LastYearEnds();
    hide DateOf, DaysBeforeMonth, DaysInMonth, DaysBeforeYear;
    if d.year > MAX_YEAR { YearsAscend(MAX_YEAR + 1, d.year); }
  }

  lemma LastYearEnds()
    ensures DaysBeforeYear(MAX_YEAR + 1) == LAST_ORDINAL
  {}

  // ---- Readings of a wall clock ---------------------------------------------

  const SECONDS_PER_DAY := 86400

  datatype Reading = Reading(date: Date, hour: int, minute: int, second: int)

  /** What datetime() accepts; it knows no leap seconds. */
  predicate IsReading(r: Reading) { IsDate(r.date) && 0 <= r.hour < 24 && 0 <= r.minute < 60 && 0 <= r.second < 60 }

  /** Zone offsets stay strictly within a day either way. */
  predicate IsOffset(minutes: int) { -1440 < minutes < 1440 }

  /** datetime(..., tzinfo=timezone(offset)).timestamp() */
  function EpochSeconds(r: Reading, offset: int): int {
    (Ordinal(r.date) - EPOCH_ORDINAL) * SECONDS_PER_DAY + r.hour * 3600 + r.minute * 60 + r.second - offset * 60
  }

  predicate HasReading(epoch: int, offset: int) {
    1 <= (epoch + offset * 60) / SECONDS_PER_DAY + EPOCH_ORDINAL <= LAST_ORDINAL
  }

  /** What a clock in that zone shows at that instant. */
  function ReadingAt(epoch: int, offset: int): Reading
    requires HasReading(epoch, offset)
  {
    var local := epoch + offset * 60;
    var ofDay := local % SECONDS_PER_DAY;
    Reading(DateOf(local / SECONDS_PER_DAY + EPOCH_ORDINAL), ofDay / 3600, ofDay / 60 % 60, ofDay % 60)
  }

  /** A clock reading tells the instant again, in whatever zone it was taken ... */
  lemma ReadingRoundTrip(epoch: int, offset: int)
    requires HasReading(epoch, offset)
    ensures IsReading(ReadingAt(epoch, offset)) && EpochSeconds(ReadingAt(epoch, offset), offset) == epoch
  {
    var local := epoch + offset * 60;
    var n := local / SECONDS_PER_DAY + EPOCH_ORDINAL;
    DateOfOrdinal(n);
    LastDate(n);
    hide Ordinal, DateOf, IsDate;
    OfDay(local % SECONDS_PER_DAY);
  }

  /** ... and an instant in a zone tells the reading: no two readings name one instant there. */
  lemma ReadingOfInstant(r: Reading, offset: int)
    requires IsReading(r)
    ensures HasReading(EpochSeconds(r, offset), offset) && ReadingAt(EpochSeconds(r, offset), offset) == r
  {
    hide Ordinal, DateOf, OnCalendar;
    OrdinalIsDate(r.date);
    DatesInRange(r.date);
    DayAndTime(Ordinal(r.date) - EPOCH_ORDINAL, r.hour, r.minute, r.second);
  }

  lemma DayAndTime(day: int, hour: int, minute: int, second: int)
    requires 0 <= hour < 24 && 0 <= minute < 60 && 0 <= second < 60
    ensures var local := day * SECONDS_PER_DAY + hour * 3600 + minute * 60 + second;
            var ofDay := local % SECONDS_PER_DAY;
            local / SECONDS_PER_DAY == day && ofDay / 3600 == hour && ofDay / 60 % 60 == minute && ofDay % 60 == second
  {
    var ofDay := hour * 3600 + minute * 60 + second;
    assert (day * SECONDS_PER_DAY + ofDay) / SECONDS_PER_DAY == day;
  }

  lemma DatesInRange(d: Date)
    requires IsDate(d)
    ensures Ordinal(d) <= LAST_ORDINAL
  {
    hide IsLeap;
    YearsAscend(d.year + 1, MAX_YEAR + 1);
    LastYearEnds();
    YearLength(d.year);
    MonthEnds(d.year, d.month);
  }

  /** No month ends after its year does. */
  lemma {:induction false} MonthEnds(year: int, month: int)
    requires 1 <= month <= 12
    ensures DaysBeforeMonth(year, month) + DaysInMonth(year, month) <= if IsLeap(year) then 366 else 365
    decreases 12 - month
  {
    if month == 12 { DecemberEnds(year); } else { MonthEnds(year, month + 1); }
  }

  /** The epoch is midnight of 1 January 1970, UTC. */
  lemma EpochReading()
    ensures HasReading(0, 0) && ReadingAt(0, 0) == Reading(Date(1970, 1, 1), 0, 0, 0)
  {
    EpochDay();
    hide Ordinal, DateOf;
    ReadingOfInstant(Reading(Date(1970, 1, 1), 0, 0, 0), 0);
  }

  lemma OfDay(t: int)
    requires 0 <= t < SECONDS_PER_DAY
    ensures 0 <= t / 3600 < 24 && t / 3600 * 3600 + t / 60 % 60 * 60 + t % 60 == t
  {}
}
