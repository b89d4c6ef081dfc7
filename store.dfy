/** The application's in-memory state: the static course list, the study
    sessions, the work diary, the study partners and the selected course
    filter, with the operations the user interface invokes on it. */
module AppStore {
  import opened Collections
  import opened Text
  import opened Days
  import opened Domain
  import opened Generator
  import opened Engine

  datatype RescheduleOutcome = Rescheduled | Conflict

  /** Assigning time slots to the generated sessions keeps their
      identifiers, courses and dates, so the generated list's guarantees
      carry over. */
  lemma TimedSessionsWellFormed(courses: seq<Course>, generated: seq<Session>, timed: seq<Session>)
    requires DistinctCourseIds(courses) && generated == Generated(courses)
    requires |timed| == |generated|
    requires forall i :: 0 <= i < |timed| ==>
               timed[i] == generated[i].(time := Some(SlotLabels[i % |SlotLabels|]))
    ensures DistinctSessionIds(timed) && SameCourseDistinctDays(timed)
  {
    GeneratedWellFormed(courses);
    assert forall i :: 0 <= i < |timed| ==>
             timed[i].id == generated[i].id && timed[i].courseId == generated[i].courseId
             && timed[i].date == generated[i].date;
  }

  class Store {
    const courses: seq<Course>
    var sessions: seq<Session>
    var diary: seq<DiaryEntry>
    var connections: seq<Connection>
    /** The course filter; empty means all courses. */
    var selectedCourseId: string

    /** Sessions are never created or deleted after start-up: position `i`
        keeps the identifier and course of the `i`-th generated session and
        its round-robin time slot; no course has two sessions on one day. */
    ghost predicate Valid()
      reads this
    {
      DistinctCourseIds(courses)
      && |sessions| == |Generated(courses)|
      && (forall i :: 0 <= i < |sessions| ==>
            sessions[i].id == Generated(courses)[i].id
            && sessions[i].courseId == Generated(courses)[i].courseId
            && sessions[i].time == Some(SlotLabels[i % |SlotLabels|]))
      && DistinctSessionIds(sessions)
      && SameCourseDistinctDays(sessions)
      && DistinctConnectionIds(connections)
    }

    /** Start-up from the given reference data: the sessions generated from
        the courses, then the time slots assigned over the combined list. */
    constructor (initialCourses: seq<Course>, initialConnections: seq<Connection>,
                 initialDiary: seq<DiaryEntry>)
      requires DistinctCourseIds(initialCourses) && DistinctConnectionIds(initialConnections)
      ensures Valid()
      ensures courses == initialCourses && diary == initialDiary && connections == initialConnections
      ensures selectedCourseId == []
      ensures |sessions| == |Generated(courses)|
      ensures forall i :: 0 <= i < |sessions| ==>
                sessions[i] == Generated(courses)[i].(time := Some(SlotLabels[i % |SlotLabels|]))
    {
      courses := initialCourses;
      var generated := GenerateStudySessions(initialCourses);
      sessions := generated;
      diary := initialDiary;
      connections := initialConnections;
      selectedCourseId := [];
      new;
      AssignSessionTimes();
      TimedSessionsWellFormed(courses, generated, sessions);
    }

    /** `assignSessionTimes`: session `i` of the whole list gets the time
        label `i mod 9`; nothing else changes. */
    method AssignSessionTimes()
      modifies this`sessions
      ensures |sessions| == |old(sessions)|
      ensures forall i :: 0 <= i < |sessions| ==>
                sessions[i] == old(sessions)[i].(time := Some(SlotLabels[i % |SlotLabels|]))
    {
      var times := SlotLabels;
      var index := 0;
      while index < |sessions|
        invariant 0 <= index <= |sessions| == |old(sessions)|
        invariant forall i :: 0 <= i < index ==>
                    sessions[i] == old(sessions)[i].(time := Some(times[i % |times|]))
        invariant forall i :: index <= i < |sessions| ==> sessions[i] == old(sessions)[i]
      {
        sessions := sessions[index := sessions[index].(time := Some(times[index % |times|]))];
        index := index + 1;
      }
    }

    /** The "Complete" button: the session's status becomes `completed`. */
    method MarkCompleted(i: nat)
      requires Valid() && i < |sessions|
      modifies this`sessions
      ensures Valid()
      ensures sessions == WithStatus(old(sessions), i, Completed)
    {
      WithStatusKeepsShape(sessions, i, Completed);
      sessions := sessions[i := sessions[i].(status := Completed)];
    }

    /** The "Missed" button: the session's status becomes `missed`. */
    method MarkMissed(i: nat)
      requires Valid() && i < |sessions|
      modifies this`sessions
      ensures Valid()
      ensures sessions == WithStatus(old(sessions), i, Missed)
    {
      WithStatusKeepsShape(sessions, i, Missed);
      sessions := sessions[i := sessions[i].(status := Missed)];
    }

    /** `rescheduleMissedSession`: refuse when another session of the same
        course already falls on the new date; otherwise move the session
        there, at the new location, and schedule it again. */
    method RescheduleMissedSession(i: nat, newDate: Day, newLocation: string)
      returns (outcome: RescheduleOutcome)
      requires Valid() && i < |sessions|
      modifies this`sessions
      ensures Valid()
      ensures outcome == Conflict <==>
                exists j :: 0 <= j < |old(sessions)| && Conflicts(old(sessions), i, j, newDate)
      ensures sessions == Reschedule(old(sessions), i, newDate, newLocation)
    {
      RescheduleKeepsDistinctDays(sessions, i, newDate, newLocation);
      var conflictingSession := FindConflict(sessions, i, newDate);
      if conflictingSession.Some? {
        return Conflict;
      }
      sessions := sessions[i := sessions[i].(date := newDate, location := newLocation, status := Scheduled)];
      outcome := Rescheduled;
    }

    /** Submitting the add-entry form: when date, course and trimmed content
        are all filled in, the new entry goes to the front of the diary. */
    method AddDiaryEntry(date: Option<Day>, courseId: string, rawContent: string, freshId: string)
      returns (added: bool)
      requires Valid()
      modifies this`diary
      ensures Valid()
      ensures added == DiaryInputComplete(date, courseId, rawContent)
      ensures diary == Engine.AddDiaryEntry(old(diary), date, courseId, rawContent, freshId)
    {
      TrimEmptyIff(rawContent);
      var content := Trim(rawContent);
      added := date.Some? && courseId != [] && content != [];
      if added {
        diary := [DiaryEntry(freshId, date.value, courseId, content)] + diary;
      }
    }

    /** The "Remove" button on a study partner (after confirmation). */
    method RemoveConnection(id: string)
      requires Valid()
      modifies this`connections
      ensures Valid()
      ensures connections == Engine.RemoveConnection(old(connections), id)
      ensures forall k :: 0 <= k < |old(connections)| && old(connections)[k].id == id ==>
                connections == old(connections)[..k] + old(connections)[k + 1..]
    {
      RemoveConnectionKeepsDistinct(connections, id);
      forall k | 0 <= k < |connections| && connections[k].id == id
        ensures Engine.RemoveConnection(connections, id) == connections[..k] + connections[k + 1..]
      {
        RemoveConnectionAt(connections, k);
      }
      connections := Filter(connections, NotConnection(id));
    }

    /** `filterContent`: select a course, or the empty string for all courses. */
    method FilterContent(courseId: string)
      requires Valid()
      modifies this`selectedCourseId
      ensures Valid()
      ensures selectedCourseId == courseId
    {
      selectedCourseId := courseId;
    }
  }

  /** The application as it starts: the seed courses, study partners and
      diary notes, with every course shown. */
  method Launch() returns (store: Store)
    ensures fresh(store) && store.Valid()
    ensures store.courses == SeedCourses && store.connections == SeedConnections
    ensures store.diary == SeedDiary && store.selectedCourseId == []
    ensures |store.sessions| == |Generated(SeedCourses)|
    ensures forall i :: 0 <= i < |store.sessions| ==>
              store.sessions[i] == Generated(SeedCourses)[i].(time := Some(SlotLabels[i % |SlotLabels|]))
  {
    SeedCourseIdsDistinct();
    SeedConnectionIdsDistinct();
    store := new Store(SeedCourses, SeedConnections, SeedDiary);
  }
}
