/** The read-only views over the store: the course filter, the upcoming
    reminders, the full session list sorted by date, the sessions of one
    calendar day (of a month view the application never shows), the sessions
    of one hour block, and the visible diary. */
module Projection {
  import opened Collections
  import opened Text
  import opened Days
  import opened Domain
  import opened Generator

  // ---- Course filter ----

  /** `shouldShowContent`: with no course selected everything shows;
      otherwise only records of the selected course. */
  predicate ShouldShowContent(selectedCourseId: string, courseId: string): (show: bool)
    ensures selectedCourseId == [] ==> show
    ensures selectedCourseId != [] ==> (show <==> courseId == selectedCourseId)
    ensures courseId == selectedCourseId ==> show
  {
    selectedCourseId == [] || courseId == selectedCourseId
  }

  function Visible(selectedCourseId: string): Session -> bool {
    (s: Session) => ShouldShowContent(selectedCourseId, s.courseId)
  }

  /** The course filter keeps everything when nothing is selected, and
      otherwise exactly the sessions of the selected course, in order. */
  lemma VisibleSessionsSpec(sessions: seq<Session>, selectedCourseId: string)
    ensures selectedCourseId == [] ==> Filter(sessions, Visible(selectedCourseId)) == sessions
    ensures selectedCourseId != [] ==>
              Filter(sessions, Visible(selectedCourseId)) == Filter(sessions, OfCourse(selectedCourseId))
  {
    if selectedCourseId == [] {
      FilterKeepsAll(sessions, Visible(selectedCourseId));
    } else {
      FilterSamePredicate(sessions, Visible(selectedCourseId), OfCourse(selectedCourseId));
    }
  }

  /** The diary notes the work-diary view lists, newest first. */
  function VisibleDiary(diary: seq<DiaryEntry>, selectedCourseId: string): (r: seq<DiaryEntry>)
    ensures forall e :: e in r <==> e in diary && ShouldShowContent(selectedCourseId, e.courseId)
    ensures selectedCourseId == [] ==> r == diary
  {
    var p := (e: DiaryEntry) => ShouldShowContent(selectedCourseId, e.courseId);
    if selectedCourseId == [] then FilterKeepsAll(diary, p); Filter(diary, p)
    else Filter(diary, p)
  }

  // ---- Stable sort by date ----

  predicate SortedByDate(sessions: seq<Session>) {
    forall j, k :: 0 <= j < k < |sessions| ==> sessions[j].date <= sessions[k].date
  }

  /** Puts `x` in front of the first session not earlier than it. */
  function InsertByDate(x: Session, sorted: seq<Session>): seq<Session> {
    if sorted == [] || x.date <= sorted[0].date then [x] + sorted
    else [sorted[0]] + InsertByDate(x, sorted[1..])
  }

  /** Insertion adds `x` and nothing else. */
  lemma {:induction false} InsertByDatePermutes(x: Session, sorted: seq<Session>)
    ensures multiset(InsertByDate(x, sorted)) == multiset(sorted) + multiset{x}
  {
    if sorted != [] && sorted[0].date < x.date {
      InsertByDatePermutes(x, sorted[1..]);
      assert sorted == [sorted[0]] + sorted[1..];
    }
  }

  /** A lower bound on the dates survives insertion of a session above it. */
  lemma {:induction false} InsertByDateBound(x: Session, sorted: seq<Session>, bound: Day)
    requires bound <= x.date
    requires forall i :: 0 <= i < |sorted| ==> bound <= sorted[i].date
    ensures forall i :: 0 <= i < |InsertByDate(x, sorted)| ==> bound <= InsertByDate(x, sorted)[i].date
  {
    if sorted != [] && sorted[0].date < x.date {
      InsertByDateBound(x, sorted[1..], bound);
    }
  }

  /** Inserting into a sorted list keeps it sorted. */
  lemma {:induction false} InsertByDateSorted(x: Session, sorted: seq<Session>)
    requires SortedByDate(sorted)
    ensures SortedByDate(InsertByDate(x, sorted))
  {
    if sorted != [] && sorted[0].date < x.date {
      var rest := InsertByDate(x, sorted[1..]);
      InsertByDateSorted(x, sorted[1..]);
      InsertByDateBound(x, sorted[1..], sorted[0].date);
      var r := [sorted[0]] + rest;
      forall j, k | 0 <= j < k < |r| ensures r[j].date <= r[k].date {
        if j > 0 {
          assert r[j] == rest[j - 1] && r[k] == rest[k - 1];
        } else {
          assert r[k] == rest[k - 1];
        }
      }
    }
  }

  /** The sessions ordered by date, keeping the input order among sessions
      of the same date: what `sort((a, b) => new Date(a.date) - new Date(b.date))`
      does, `Array.prototype.sort` being stable. */
  function SortByDate(sessions: seq<Session>): (r: seq<Session>)
    ensures SortedByDate(r)
    ensures multiset(r) == multiset(sessions)
    ensures |r| == |sessions|
  {
    if sessions == [] then []
    else
      assert sessions == [sessions[0]] + sessions[1..];
      var sortedRest := SortByDate(sessions[1..]);
      InsertByDateSorted(sessions[0], sortedRest);
      InsertByDatePermutes(sessions[0], sortedRest);
      InsertByDate(sessions[0], sortedRest)
  }

  /** Sorting neither adds nor drops a session. */
  lemma SortByDateMembers(sessions: seq<Session>)
    ensures forall s :: s in SortByDate(sessions) <==> s in sessions
  {
    var r := SortByDate(sessions);
    forall s ensures s in r <==> s in sessions {
      assert s in r <==> s in multiset(r);
      assert s in sessions <==> s in multiset(sessions);
    }
  }

  function OnDate(d: Day): Session -> bool {
    (s: Session) => s.date == d
  }

  /** Inserting `x` puts it ahead of every session of its own date. */
  lemma {:induction false} InsertByDateOnDate(x: Session, sorted: seq<Session>, d: Day)
    ensures Filter(InsertByDate(x, sorted), OnDate(d))
            == (if x.date == d then [x] else []) + Filter(sorted, OnDate(d))
  {
    if sorted == [] || x.date <= sorted[0].date {
      FilterCons(x, sorted, OnDate(d));
    } else {
      InsertByDateOnDate(x, sorted[1..], d);
      InsertPastHead(x, sorted[0], sorted[1..], d);
      assert sorted == [sorted[0]] + sorted[1..];
    }
  }

  /** The step of `InsertByDateOnDate` where `x` goes past an earlier head. */
  lemma InsertPastHead(x: Session, s0: Session, tail: seq<Session>, d: Day)
    requires s0.date < x.date
    requires Filter(InsertByDate(x, tail), OnDate(d))
             == (if x.date == d then [x] else []) + Filter(tail, OnDate(d))
    ensures Filter(InsertByDate(x, [s0] + tail), OnDate(d))
            == (if x.date == d then [x] else []) + Filter([s0] + tail, OnDate(d))
  {
    var p := OnDate(d);
    var inserted := InsertByDate(x, tail);
    assert ([s0] + tail)[1..] == tail;
    assert InsertByDate(x, [s0] + tail) == [s0] + inserted;
    var mine := if x.date == d then [x] else [];
    var front := if p(s0) then [s0] else [];
    FilterCons(s0, inserted, p);
    FilterCons(s0, tail, p);
    assert x.date == d ==> front == [];
    SwapEmpty(front, mine, Filter(tail, p));
  }

  /** Stability: among sessions of any one date, sorting keeps the order. */
  lemma {:induction false} SortByDateStable(sessions: seq<Session>, d: Day)
    ensures Filter(SortByDate(sessions), OnDate(d)) == Filter(sessions, OnDate(d))
  {
    if sessions != [] {
      InsertByDateOnDate(sessions[0], SortByDate(sessions[1..]), d);
      SortByDateStable(sessions[1..], d);
      FilterCons(sessions[0], sessions[1..], OnDate(d));
      assert sessions == [sessions[0]] + sessions[1..];
    }
  }

  // ---- Work diary: upcoming reminders and the full list ----

  /** How many upcoming sessions the reminder box shows. */
  const ReminderLimit: nat := 3

  function IsUpcoming(selectedCourseId: string, today: Day): (upcoming: Session -> bool)
    ensures forall s: Session :: upcoming(s) ==> Visible(selectedCourseId)(s)
    ensures forall s: Session :: s.status != Scheduled || s.date < today ==> !upcoming(s)
    ensures forall s: Session :: s.status == Scheduled && today <= s.date && Visible(selectedCourseId)(s) ==> upcoming(s)
  {
    (s: Session) => s.status == Scheduled && today <= s.date
                    && ShouldShowContent(selectedCourseId, s.courseId)
  }

  /** The reminder box: scheduled sessions from today on that pass the
      course filter, earliest first, at most three. */
  function UpcomingReminders(sessions: seq<Session>, selectedCourseId: string, today: Day): (r: seq<Session>)
    ensures |r| <= ReminderLimit
    ensures forall s :: s in r ==> s in sessions && s.status == Scheduled && today <= s.date
                                   && ShouldShowContent(selectedCourseId, s.courseId)
    ensures SortedByDate(r)
  {
    var q := Filter(sessions, IsUpcoming(selectedCourseId, today));
    var sorted := SortByDate(q);
    SortByDateMembers(q);
    var r := Take(sorted, ReminderLimit);
    assert forall s :: s in r ==> s in sorted;
    r
  }

  /** In a date-sorted concatenation, the front part is no later than the back. */
  lemma SortedSplit(front: seq<Session>, back: seq<Session>)
    requires SortedByDate(front + back)
    ensures forall x, y :: x in front && y in back ==> x.date <= y.date
  {
    var whole := front + back;
    forall x, y | x in front && y in back ensures x.date <= y.date {
      var j :| 0 <= j < |front| && front[j] == x;
      var k :| 0 <= k < |back| && back[k] == y;
      assert whole[j] == x && whole[|front| + k] == y;
    }
  }

  /** The first `n` of a sorted list are its earliest: what is left out is
      never earlier than what is kept. */
  lemma TakeSortedEarliest(sorted: seq<Session>, n: nat)
    requires SortedByDate(sorted)
    ensures var r := Take(sorted, n);
      multiset(r) <= multiset(sorted)
      && (|sorted| <= n ==> multiset(r) == multiset(sorted))
      && (forall x, y :: x in r && y in multiset(sorted) - multiset(r) ==> x.date <= y.date)
  {
    var r := Take(sorted, n);
    var rest := sorted[|r|..];
    assert sorted == r + rest;
    assert multiset(sorted) - multiset(r) == multiset(rest);
    SortedSplit(r, rest);
    assert forall y :: y in multiset(rest) ==> y in rest;
  }

  /** The reminders are the earliest qualifying sessions: all of them when
      there are at most three, and otherwise none left out is earlier than
      one shown. */
  lemma UpcomingRemindersEarliest(sessions: seq<Session>, selectedCourseId: string, today: Day)
    ensures var q := Filter(sessions, IsUpcoming(selectedCourseId, today));
      var r := UpcomingReminders(sessions, selectedCourseId, today);
      multiset(r) <= multiset(q)
      && |r| == (if |q| <= ReminderLimit then |q| else ReminderLimit)
      && (|q| <= ReminderLimit ==> multiset(r) == multiset(q))
      && (forall x, y :: x in r && y in multiset(q) - multiset(r) ==> x.date <= y.date)
  {
    var q := Filter(sessions, IsUpcoming(selectedCourseId, today));
    TakeSortedEarliest(SortByDate(q), ReminderLimit);
  }

  /** Ties at the cut of three go by stored order: the reminders dated `d`
      are the first of the qualifying sessions dated `d`, in stored order. */
  lemma UpcomingRemindersStable(sessions: seq<Session>, selectedCourseId: string, today: Day, d: Day)
    ensures Filter(UpcomingReminders(sessions, selectedCourseId, today), OnDate(d))
            <= Filter(Filter(sessions, IsUpcoming(selectedCourseId, today)), OnDate(d))
  {
    var q := Filter(sessions, IsUpcoming(selectedCourseId, today));
    var sorted := SortByDate(q);
    SortByDateStable(q, d);
    var r := Take(sorted, ReminderLimit);
    assert sorted == r + sorted[|r|..];
    FilterConcat(r, sorted[|r|..], OnDate(d));
  }

  /** The work-diary session list: every session passing the course filter,
      sorted by date. */
  function AllSessionsSorted(sessions: seq<Session>, selectedCourseId: string): (r: seq<Session>)
    ensures SortedByDate(r)
    ensures multiset(r) == multiset(Filter(sessions, Visible(selectedCourseId)))
  {
    SortByDate(Filter(sessions, Visible(selectedCourseId)))
  }

  /** The full list shows each visible session exactly as often as it
      occurs, and sessions of one date in their stored order. */
  lemma AllSessionsSortedSpec(sessions: seq<Session>, selectedCourseId: string, d: Day)
    ensures forall s :: s in AllSessionsSorted(sessions, selectedCourseId) <==>
                          s in sessions && ShouldShowContent(selectedCourseId, s.courseId)
    ensures Filter(AllSessionsSorted(sessions, selectedCourseId), OnDate(d))
            == Filter(Filter(sessions, Visible(selectedCourseId)), OnDate(d))
  {
    var v := Filter(sessions, Visible(selectedCourseId));
    SortByDateStable(v, d);
    forall s ensures s in AllSessionsSorted(sessions, selectedCourseId) <==> s in v {
      assert s in AllSessionsSorted(sessions, selectedCourseId) <==> s in multiset(v);
    }
  }

  // ---- Calendars ----

  /** The sessions of one day cell of the monthly calendar, in stored order.
      That calendar (`renderCalendar`) has no caller in the application, so
      this and `CalendarDayEvents` model its per-day filter as written. */
  function SessionsOnDate(sessions: seq<Session>, selectedCourseId: string, d: Day): (r: seq<Session>)
    ensures forall s :: s in r <==> s in sessions && s.date == d
                                    && ShouldShowContent(selectedCourseId, s.courseId)
  {
    Filter(sessions, (s: Session) => s.date == d && ShouldShowContent(selectedCourseId, s.courseId))
  }

  /** The events drawn in one day cell: only sessions whose course is known. */
  function CalendarDayEvents(courses: seq<Course>, sessions: seq<Session>, selectedCourseId: string,
                             d: Day): (r: seq<Session>)
    ensures forall s :: s in r <==> s in sessions && s.date == d
                                    && ShouldShowContent(selectedCourseId, s.courseId)
                                    && exists c :: c in courses && c.id == s.courseId
  {
    Filter(SessionsOnDate(sessions, selectedCourseId, d),
           (s: Session) => FindCourse(courses, s.courseId).Some?)
  }

  /** The sessions in one hour block of the study-diary calendar. */
  function SessionsAtHour(sessions: seq<Session>, selectedCourseId: string, hourLabel: string): (r: seq<Session>)
    ensures forall s :: s in r <==> s in sessions && s.time == Some(hourLabel)
                                    && ShouldShowContent(selectedCourseId, s.courseId)
  {
    Filter(sessions, (s: Session) => s.time == Some(hourLabel) && ShouldShowContent(selectedCourseId, s.courseId))
  }

  /** The hour blocks of the study-diary calendar run from 08:00 to 20:00. */
  const FirstHour: nat := 8
  const LastHour: nat := 20

  /** The label of an hour block: two digits, then `:00`. */
  function HourLabel(hour: nat): (hourLabel: string)
    requires hour < 100
    ensures |hourLabel| == 5 && hourLabel[2..] == ":00"
    ensures IsDigit(hourLabel[0]) && IsDigit(hourLabel[1])
  {
    var digits := if hour < 10 then "0" + NatToString(hour) else NatToString(hour);
    assert |digits| == 2 && IsDigit(digits[0]) && IsDigit(digits[1]) by {
      if hour < 10 {
        assert NatToString(hour) == [DigitChar(hour)];
      } else {
        assert NatToString(hour / 10) == [DigitChar(hour / 10)];
      }
    }
    digits + ":00"
  }

  /** The two digits of an hour label give back the hour, so distinct
      hours have distinct labels. */
  lemma HourLabelInjective(h1: nat, h2: nat)
    requires h1 < 100 && h2 < 100
    ensures HourLabel(h1) == HourLabel(h2) <==> h1 == h2
  {
    HourLabelDigits(h1);
    HourLabelDigits(h2);
    if HourLabel(h1) == HourLabel(h2) {
      assert HourLabel(h1)[..2] == HourLabel(h2)[..2];
    }
  }

  lemma HourLabelDigits(h: nat)
    requires h < 100
    ensures |HourLabel(h)| == 5
    ensures forall k :: 0 <= k < 2 ==> IsDigit(HourLabel(h)[k])
    ensures ParseDigits(HourLabel(h)[..2]) == h
  {
    var l := HourLabel(h);
    if h < 10 {
      assert l[..2] == ['0', DigitChar(h)];
      assert l[..2][..1] == ['0'];
      assert ParseDigits(['0']) == 0 by {
        assert ['0'][..0] == [];
      }
    } else {
      assert NatToString(h / 10) == [DigitChar(h / 10)];
      assert l[..2] == [DigitChar(h / 10), DigitChar(h % 10)];
      assert l[..2][..1] == [DigitChar(h / 10)];
      assert ParseDigits([DigitChar(h / 10)]) == h / 10 by {
        assert [DigitChar(h / 10)][..0] == [];
      }
    }
  }

  /** The hour whose block shows the `k`-th time slot. */
  function SlotHour(k: nat): nat
    requires k < |SlotLabels|
  {
    if k < 4 then FirstHour + k else FirstHour + 1 + k
  }

  /** Every time slot is the label of an hour block; noon is skipped. */
  lemma SlotLabelsAreHourLabels(k: nat)
    requires k < |SlotLabels|
    ensures FirstHour <= SlotHour(k) <= LastHour && SlotHour(k) != 12
    ensures SlotLabels[k] == HourLabel(SlotHour(k))
  {
    var h := SlotHour(k);
    if h >= 10 {
      assert NatToString(h) == [DigitChar(h / 10), DigitChar(h % 10)];
    }
  }

  /** With the slots assigned round-robin, a visible session shows in one
      hour block only: the block of its slot. */
  lemma HourBlocksPartition(sessions: seq<Session>, selectedCourseId: string, i: nat, hour: nat)
    requires i < |sessions| && sessions[i].time == Some(SlotLabels[i % |SlotLabels|])
    requires ShouldShowContent(selectedCourseId, sessions[i].courseId)
    requires hour < 100
    ensures sessions[i] in SessionsAtHour(sessions, selectedCourseId, HourLabel(hour))
            <==> hour == SlotHour(i % |SlotLabels|)
  {
    SlotLabelsAreHourLabels(i % |SlotLabels|);
    HourLabelInjective(hour, SlotHour(i % |SlotLabels|));
  }

  /** No session ever shows in the 12:00 block or in the evening blocks
      after 17:00, once the slots are assigned. */
  lemma IdleHourBlocks(sessions: seq<Session>, selectedCourseId: string, hour: nat)
    requires forall i :: 0 <= i < |sessions| ==> sessions[i].time == Some(SlotLabels[i % |SlotLabels|])
    requires hour == 12 || 17 < hour < 100
    ensures SessionsAtHour(sessions, selectedCourseId, HourLabel(hour)) == []
  {
    var r := SessionsAtHour(sessions, selectedCourseId, HourLabel(hour));
    if r != [] {
      assert r[0] in sessions;
      var i :| 0 <= i < |sessions| && sessions[i] == r[0];
      SlotLabelsAreHourLabels(i % |SlotLabels|);
      HourLabelInjective(hour, SlotHour(i % |SlotLabels|));
      assert false;
    }
  }
}
