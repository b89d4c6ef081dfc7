/** Start-up generation of the study sessions: for every course, in order,
    one scheduled session per weekday from the course's start date until the
    course's hour quota is met. */
module Generator {
  import opened Collections
  import opened Text
  import opened Days
  import opened Domain

  /** The sessions of one course, in the order they are emitted: the `k`-th
      falls on the `k`-th weekday on or after the start date. */
  function CourseSessions(c: Course): (r: seq<Session>)
    ensures |r| == c.hours
    ensures forall k :: 0 <= k < |r| ==>
              r[k].id == SessionId(c.id, k) && r[k].courseId == c.id
              && r[k].status == Scheduled && r[k].location == DefaultLocation && r[k].time == None
              && c.startDate <= r[k].date && !IsWeekend(r[k].date)
    ensures forall k :: 0 <= k < |r| ==> r[k].date == WeekdaysFrom(c.startDate, c.hours)[k]
  {
    var dates := WeekdaysFrom(c.startDate, c.hours);
    seq(c.hours, k requires 0 <= k < c.hours =>
      Session(SessionId(c.id, k), c.id, dates[k], Scheduled, DefaultLocation, None))
  }

  /** A course's sessions fall on strictly increasing dates. */
  lemma CourseSessionsAscending(c: Course)
    ensures forall j, k :: 0 <= j < k < |CourseSessions(c)| ==>
              CourseSessions(c)[j].date < CourseSessions(c)[k].date
  {
    var dates := WeekdaysFrom(c.startDate, c.hours);
    assert forall k :: 0 <= k < c.hours ==> CourseSessions(c)[k].date == dates[k];
  }

  function TotalHours(courses: seq<Course>): nat {
    if courses == [] then 0 else TotalHours(courses[..|courses| - 1]) + courses[|courses| - 1].hours
  }

  /** All generated sessions: each course's sessions, course after course. */
  function Generated(courses: seq<Course>): (r: seq<Session>)
    ensures |r| == TotalHours(courses)
  {
    if courses == [] then []
    else Generated(courses[..|courses| - 1]) + CourseSessions(courses[|courses| - 1])
  }

  /** Every generated session is scheduled, at the default location, without
      a time yet, on a weekday no earlier than its course's start, and is
      named after its course and a counter. */
  lemma {:induction false} GeneratedSessionFacts(courses: seq<Course>)
    ensures forall s :: s in Generated(courses) ==>
              s.status == Scheduled && s.location == DefaultLocation && s.time == None
              && !IsWeekend(s.date)
              && (exists c :: c in courses && s.courseId == c.id && c.startDate <= s.date)
              && (exists k: nat :: s.id == SessionId(s.courseId, k))
  {
    if courses != [] {
      var init, last := courses[..|courses| - 1], courses[|courses| - 1];
      GeneratedSessionFacts(init);
      var g, cs := Generated(init), CourseSessions(last);
      assert Generated(courses) == g + cs;
      forall s: Session | s in g + cs
        ensures s.status == Scheduled && s.location == DefaultLocation && s.time == None
        ensures !IsWeekend(s.date)
        ensures exists c :: c in courses && s.courseId == c.id && c.startDate <= s.date
        ensures exists k: nat :: s.id == SessionId(s.courseId, k)
      {
        if s in cs {
          var k :| 0 <= k < |cs| && cs[k] == s;
          assert s.id == SessionId(s.courseId, k);
          assert last in courses;
        } else {
          assert s in g;
          var c :| c in init && s.courseId == c.id && c.startDate <= s.date;
          assert c in courses;
        }
      }
    }
  }

  /** Course `i`'s sessions sit contiguously, right after the sessions of the
      courses before it. */
  lemma {:induction false} GeneratedLayout(courses: seq<Course>, i: nat, k: nat)
    requires i < |courses| && k < courses[i].hours
    ensures TotalHours(courses[..i]) + k < |Generated(courses)|
    ensures Generated(courses)[TotalHours(courses[..i]) + k] == CourseSessions(courses[i])[k]
  {
    var n := |courses| - 1;
    var init := courses[..n];
    var g, cs := Generated(init), CourseSessions(courses[n]);
    assert Generated(courses) == g + cs;
    if i == n {
      assert courses[..i] == init;
      assert (g + cs)[|g| + k] == cs[k];
    } else {
      assert courses[..i] == init[..i];
      assert courses[i] == init[i];
      GeneratedLayout(init, i, k);
      var x := TotalHours(courses[..i]) + k;
      assert x < |g|;
      assert (g + cs)[x] == g[x];
    }
  }

  /** The sessions of the course with a given identifier. */
  function OfCourse(id: string): Session -> bool {
    (s: Session) => s.courseId == id
  }

  /** A course's own sessions all belong to it. */
  lemma CourseSessionsOfCourse(c: Course, id: string)
    ensures Filter(CourseSessions(c), OfCourse(id)) == if id == c.id then CourseSessions(c) else []
  {
    var cs := CourseSessions(c);
    if id == c.id {
      FilterKeepsAll(cs, OfCourse(id));
    } else {
      FilterDropsAll(cs, OfCourse(id));
    }
  }

  /** Generation yields no session for an identifier no course has. */
  lemma GeneratedForeignCourse(courses: seq<Course>, id: string)
    requires forall c :: c in courses ==> c.id != id
    ensures Filter(Generated(courses), OfCourse(id)) == []
  {
    GeneratedSessionFacts(courses);
    forall s | s in Generated(courses) ensures !OfCourse(id)(s) {
      var c :| c in courses && s.courseId == c.id && c.startDate <= s.date;
    }
    FilterDropsAll(Generated(courses), OfCourse(id));
  }

  /** With distinct course identifiers, the sessions of course `i` in the
      whole generated list are exactly its own `hours` sessions, in order. */
  lemma {:induction false} GeneratedPerCourse(courses: seq<Course>, i: nat)
    requires DistinctCourseIds(courses) && i < |courses|
    ensures Filter(Generated(courses), OfCourse(courses[i].id)) == CourseSessions(courses[i])
    ensures |Filter(Generated(courses), OfCourse(courses[i].id))| == courses[i].hours
  {
    var n := |courses| - 1;
    var init := courses[..n];
    var id := courses[i].id;
    DistinctCourseIdsInit(courses);
    if i == n {
      GeneratedLastCourse(courses);
    } else {
      GeneratedFilterSnoc(courses, id);
      assert id != courses[n].id;
      assert courses[i] == init[i];
      GeneratedPerCourse(init, i);
    }
    assert |CourseSessions(courses[i])| == courses[i].hours;
  }

  /** The last course's sessions, when no earlier course shares its identifier. */
  lemma GeneratedLastCourse(courses: seq<Course>)
    requires courses != []
    requires forall c :: c in courses[..|courses| - 1] ==> c.id != courses[|courses| - 1].id
    ensures Filter(Generated(courses), OfCourse(courses[|courses| - 1].id))
            == CourseSessions(courses[|courses| - 1])
  {
    var n := |courses| - 1;
    var id, cs := courses[n].id, CourseSessions(courses[n]);
    GeneratedFilterSnoc(courses, id);
    GeneratedForeignCourse(courses[..n], id);
    assert Filter(Generated(courses), OfCourse(id)) == [] + cs;
  }

  /** One course's sessions in the generated list: those generated for the
      courses before the last, then the last course's own when it is that course. */
  lemma GeneratedFilterSnoc(courses: seq<Course>, id: string)
    requires courses != []
    ensures var n := |courses| - 1;
      Filter(Generated(courses), OfCourse(id))
      == Filter(Generated(courses[..n]), OfCourse(id))
         + (if id == courses[n].id then CourseSessions(courses[n]) else [])
  {
    var n := |courses| - 1;
    var init, last := courses[..n], courses[n];
    assert Generated(courses) == Generated(init) + CourseSessions(last);
    FilterConcat(Generated(init), CourseSessions(last), OfCourse(id));
    CourseSessionsOfCourse(last, id);
  }

  /** Two sessions of the same course never share a date. */
  predicate SameCourseDistinctDays(sessions: seq<Session>) {
    forall a, b :: 0 <= a < b < |sessions| && sessions[a].courseId == sessions[b].courseId
      ==> sessions[a].date != sessions[b].date
  }

  /** No two sessions share an identifier. */
  predicate DistinctSessionIds(sessions: seq<Session>) {
    forall a, b :: 0 <= a < b < |sessions| ==> sessions[a].id != sessions[b].id
  }

  /** With distinct course identifiers, generation yields distinct session
      identifiers, and no course has two sessions on one day. */
  lemma {:induction false} GeneratedWellFormed(courses: seq<Course>)
    requires DistinctCourseIds(courses)
    ensures DistinctSessionIds(Generated(courses))
    ensures SameCourseDistinctDays(Generated(courses))
  {
    if courses != [] {
      var n := |courses| - 1;
      var init, last := courses[..n], courses[n];
      DistinctCourseIdsInit(courses);
      GeneratedWellFormed(init);
      var g, cs := Generated(init), CourseSessions(last);
      var r := g + cs;
      assert Generated(courses) == r;
      forall a, b | 0 <= a < b < |r|
        ensures r[a].id != r[b].id
        ensures r[a].courseId == r[b].courseId ==> r[a].date != r[b].date
      {
        if a >= |g| {
          SessionIdInjective(last.id, a - |g|, last.id, b - |g|);
          CourseSessionsAscending(last);
        } else if b >= |g| {
          EarlierCourseSession(init, last, r[a], b - |g|);
        }
      }
    }
  }

  /** A session generated for earlier courses, none of which shares the
      last course's identifier, belongs to another course and has another
      identifier than any of the last course's sessions. */
  lemma EarlierCourseSession(init: seq<Course>, last: Course, s: Session, k: nat)
    requires forall c :: c in init ==> c.id != last.id
    requires s in Generated(init)
    ensures s.courseId != last.id && s.id != SessionId(last.id, k)
  {
    GeneratedSessionFacts(init);
    var c :| c in init && s.courseId == c.id && c.startDate <= s.date;
    var m: nat :| s.id == SessionId(s.courseId, m);
    SessionIdInjective(s.courseId, m, last.id, k);
  }

  /** Where the walk of `AppendCourseSessions` stands: `added` sessions of
      course `c` are appended to `before`, and `start` is the next day to
      look at. */
  ghost predicate WalkInvariant(c: Course, before: seq<Session>, sessions: seq<Session>,
                                added: nat, start: Day)
  {
    added <= c.hours
    && WeekdaysFrom(c.startDate, c.hours)[added..] == WeekdaysFrom(start, c.hours - added)
    && sessions == before + CourseSessions(c)[..added]
  }

  /** One step of the walk: a weekend `start` is passed over, and a weekday
      `start` is the date of the next session. */
  lemma WalkStep(c: Course, before: seq<Session>, sessions: seq<Session>, added: nat, start: Day)
    requires added < c.hours && WalkInvariant(c, before, sessions, added, start)
    ensures IsWeekend(start) ==> WalkInvariant(c, before, sessions, added, start + 1)
    ensures !IsWeekend(start) ==>
              WalkInvariant(c, before, sessions + [Session(SessionId(c.id, added), c.id, start,
                                                           Scheduled, DefaultLocation, None)],
                            added + 1, start + 1)
  {
    var dates := WeekdaysFrom(c.startDate, c.hours);
    assert dates[added + 1..] == dates[added..][1..];
    assert dates[added] == dates[added..][0];
    var cs := CourseSessions(c);
    assert cs[..added + 1] == cs[..added] + [cs[added]];
  }

  /** The walk ends once all of the course's sessions are appended. */
  lemma WalkDone(c: Course, before: seq<Session>, sessions: seq<Session>, start: Day)
    requires WalkInvariant(c, before, sessions, c.hours, start)
    ensures sessions == before + CourseSessions(c)
  {
    assert CourseSessions(c)[..c.hours] == CourseSessions(c);
  }

  /** Generating one more course appends that course's sessions. */
  lemma GeneratedSnoc(courses: seq<Course>, i: nat)
    requires i < |courses|
    ensures Generated(courses[..i + 1]) == Generated(courses[..i]) + CourseSessions(courses[i])
  {
    assert courses[..i + 1][..i] == courses[..i];
  }

  /** The `courses.forEach` callback of `generateStudySessions`: walk
      forward from the course's start date one day at a time, appending a
      session on every weekday until the course's hours are used up. */
  method AppendCourseSessions(course: Course, before: seq<Session>) returns (sessions: seq<Session>)
    ensures sessions == before + CourseSessions(course)
  {
    sessions := before;
    var start := course.startDate;
    var countSessions := course.hours;
    var addedSessions := 0;
    while addedSessions < countSessions
      invariant WalkInvariant(course, before, sessions, addedSessions, start)
      decreases countSessions - addedSessions, WeekendRun(start)
    {
      WeekdayNext(start);
      WalkStep(course, before, sessions, addedSessions, start);
      var dayOfWeek := Weekday(start);
      if dayOfWeek != 0 && dayOfWeek != 6 {
        sessions := sessions + [Session(SessionId(course.id, addedSessions), course.id, start,
                                        Scheduled, DefaultLocation, None)];
        addedSessions := addedSessions + 1;
      }
      start := start + 1;
    }
    WalkDone(course, before, sessions, start);
  }

  /** `generateStudySessions`: every course's sessions, course after course. */
  method GenerateStudySessions(courses: seq<Course>) returns (sessions: seq<Session>)
    ensures sessions == Generated(courses)
  {
    sessions := [];
    for i := 0 to |courses|
      invariant sessions == Generated(courses[..i])
    {
      sessions := AppendCourseSessions(courses[i], sessions);
      GeneratedSnoc(courses, i);
    }
    assert courses[..|courses|] == courses;
  }

  /** Course `six-sigma-yellow` (6 hours from Monday 2024-04-01) meets on
      April 1 to 5 and 8, skipping the weekend of April 6 and 7. */
  lemma SixSigmaYellowScenario()
    ensures |Generated(SeedCourses)| >= 6
    ensures forall k :: 0 <= k < 6 ==>
              Generated(SeedCourses)[k].courseId == "six-sigma-yellow"
              && Generated(SeedCourses)[k].date ==
                 [DayOf(2024, 4, 1), DayOf(2024, 4, 2), DayOf(2024, 4, 3),
                  DayOf(2024, 4, 4), DayOf(2024, 4, 5), DayOf(2024, 4, 8)][k]
  {
    var c := SeedCourses[0];
    assert c.startDate == DayOf(2024, 4, 1) && c.hours == 6 && c.id == "six-sigma-yellow";
    FirstWeekOfApril2024();
    var cs := CourseSessions(c);
    assert SeedCourses[..0] == [];
    forall k | 0 <= k < 6
      ensures Generated(SeedCourses)[k] == cs[k]
    {
      GeneratedLayout(SeedCourses, 0, k);
    }
  }
}
