/** Calendar dates as day numbers. Day 0 is 1970-01-01, a Thursday, so that
    `Weekday` agrees with JavaScript's `Date.prototype.getDay`: 0 is Sunday,
    6 is Saturday. */
module Days {

  type Day = int

  function Weekday(d: Day): (w: int)
    ensures 0 <= w < 7
  {
    (d + 4) % 7
  }

  predicate IsWeekend(d: Day) {
    Weekday(d) == 0 || Weekday(d) == 6
  }

  /** The day number of the Gregorian date y-m-d (proleptic calendar). */
  function DayOf(y: int, m: int, d: int): Day
    requires 1 <= m <= 12 && 1 <= d <= 31
  {
    var y' := if m <= 2 then y - 1 else y;
    var era := y' / 400;
    var yearOfEra := y' - era * 400;
    var monthFromMarch := if m > 2 then m - 3 else m + 9;
    var dayOfYear := (153 * monthFromMarch + 2) / 5 + d - 1;
    var dayOfEra := yearOfEra * 365 + yearOfEra / 4 - yearOfEra / 100 + dayOfYear;
    era * 146097 + dayOfEra - 719468
  }

  /** The next day's weekday follows this day's. */
  lemma WeekdayNext(d: Day)
    ensures Weekday(d + 1) == (Weekday(d) + 1) % 7
  {
  }

  /** How many weekend days remain before the next weekday, from `d` on. */
  function WeekendRun(d: Day): nat {
    if Weekday(d) == 6 then 2 else if Weekday(d) == 0 then 1 else 0
  }

  /** The first `count` weekdays on or after `start`, in calendar order:
      walk forward one day at a time, skip Saturday and Sunday, and stop
      once `count` days have been taken. */
  function WeekdaysFrom(start: Day, count: nat): (r: seq<Day>)
    ensures |r| == count
    ensures forall k :: 0 <= k < |r| ==> start <= r[k] && !IsWeekend(r[k])
    ensures forall j, k :: 0 <= j < k < |r| ==> r[j] < r[k]
    decreases count, WeekendRun(start)
  {
    WeekdayNext(start);
    if count == 0 then []
    else if IsWeekend(start) then WeekdaysFrom(start + 1, count)
    else [start] + WeekdaysFrom(start + 1, count - 1)
  }

  /** No weekday is skipped: every weekday from `start` up to the last day
      taken is among the days taken. */
  lemma {:induction false} WeekdaysFromComplete(start: Day, count: nat, d: Day)
    requires count > 0
    requires start <= d <= WeekdaysFrom(start, count)[count - 1] && !IsWeekend(d)
    ensures d in WeekdaysFrom(start, count)
    decreases count, WeekendRun(start)
  {
    WeekdayNext(start);
    var r := WeekdaysFrom(start, count);
    if IsWeekend(start) {
      WeekdaysFromComplete(start + 1, count, d);
    } else if d != start {
      // d lies strictly after start, so at least one more day was taken
      var rest := WeekdaysFrom(start + 1, count - 1);
      assert r[count - 1] == rest[count - 2];
      WeekdaysFromComplete(start + 1, count - 1, d);
    }
  }

  /** The day numbers of April 2024 follow on from 19813; April 1 is a Monday. */
  lemma April2024(d: int)
    requires 1 <= d <= 30
    ensures DayOf(2024, 4, d) == 19813 + d
    ensures Weekday(DayOf(2024, 4, 1)) == 1
  {
  }

  /** The first six weekdays from Monday 2024-04-01: April 1 to 5, then the
      weekend of April 6 and 7 is passed over, then April 8. */
  lemma FirstWeekOfApril2024()
    ensures WeekdaysFrom(DayOf(2024, 4, 1), 6)
            == [DayOf(2024, 4, 1), DayOf(2024, 4, 2), DayOf(2024, 4, 3),
                DayOf(2024, 4, 4), DayOf(2024, 4, 5), DayOf(2024, 4, 8)]
  {
    forall d | 1 <= d <= 30 ensures DayOf(2024, 4, d) == 19813 + d {
      April2024(d);
    }
    var d := 19814;
    assert Weekday(d) == 1;
    assert WeekdaysFrom(d + 5, 1) == [d + 7] by {
      assert IsWeekend(d + 5) && IsWeekend(d + 6);
      assert WeekdaysFrom(d + 5, 1) == WeekdaysFrom(d + 6, 1) == WeekdaysFrom(d + 7, 1);
    }
  }
}
