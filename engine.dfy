/** The mutation rules: marking a session completed or missed, moving a
    session to a new date and place unless that clashes with another
    session of the same course, adding a diary note, removing a study
    partner. Each rule is a function from the old collection to the new
    one; the store's methods apply them in place. */
module Engine {
  import opened Collections
  import opened Text
  import opened Days
  import opened Domain
  import opened Generator

  // ---- Status marks ----

  /** The sessions after the status of session `target` is set to `status`. */
  function WithStatus(sessions: seq<Session>, target: nat, status: Status): (r: seq<Session>)
    requires target < |sessions|
    ensures |r| == |sessions| && r[target].status == status
    ensures forall j :: 0 <= j < |r| && j != target ==> r[j] == sessions[j]
  {
    sessions[target := sessions[target].(status := status)]
  }

  /** A mark sets the status whatever it was before, touches no other field
      and no other session, and marking twice is marking once. */
  lemma WithStatusSpec(sessions: seq<Session>, target: nat, status: Status)
    requires target < |sessions|
    ensures var r := WithStatus(sessions, target, status);
      |r| == |sessions| && r[target].status == status
      && r[target] == sessions[target].(status := status)
      && (forall j :: 0 <= j < |r| && j != target ==> r[j] == sessions[j])
      && WithStatus(r, target, status) == r
  {
  }

  /** Marks keep every session's identifier and date, so each course keeps
      its sessions on distinct days. */
  lemma WithStatusKeepsShape(sessions: seq<Session>, target: nat, status: Status)
    requires target < |sessions|
    requires SameCourseDistinctDays(sessions)
    ensures SameCourseDistinctDays(WithStatus(sessions, target, status))
    ensures forall j :: 0 <= j < |sessions| ==>
              WithStatus(sessions, target, status)[j].id == sessions[j].id
              && WithStatus(sessions, target, status)[j].date == sessions[j].date
  {
    var r := WithStatus(sessions, target, status);
    assert forall j :: 0 <= j < |r| ==> r[j].courseId == sessions[j].courseId && r[j].date == sessions[j].date;
  }

  // ---- Rescheduling ----

  /** Session `other` is a different session of the same course as `target`
      that already falls on `newDate`. */
  predicate Conflicts(sessions: seq<Session>, target: nat, other: nat, newDate: Day)
    requires target < |sessions| && other < |sessions|
  {
    other != target && sessions[other].courseId == sessions[target].courseId
    && sessions[other].date == newDate
  }

  /** The first conflicting session at index `from` or later, if any. */
  function FindConflictFrom(sessions: seq<Session>, target: nat, newDate: Day, from: nat): (r: Option<nat>)
    requires target < |sessions| && from <= |sessions|
    ensures r.Some? ==> from <= r.value < |sessions| && Conflicts(sessions, target, r.value, newDate)
                        && forall j :: from <= j < r.value ==> !Conflicts(sessions, target, j, newDate)
    ensures r.None? ==> forall j :: from <= j < |sessions| ==> !Conflicts(sessions, target, j, newDate)
    decreases |sessions| - from
  {
    if from == |sessions| then None
    else if Conflicts(sessions, target, from, newDate) then Some(from)
    else FindConflictFrom(sessions, target, newDate, from + 1)
  }

  /** `studySessions.find(...)` in `rescheduleMissedSession`: the first
      session, other than the target, of the target's course on `newDate`. */
  function FindConflict(sessions: seq<Session>, target: nat, newDate: Day): (r: Option<nat>)
    requires target < |sessions|
    ensures r.Some? ==> r.value < |sessions| && Conflicts(sessions, target, r.value, newDate)
                        && forall j :: 0 <= j < r.value ==> !Conflicts(sessions, target, j, newDate)
    ensures r.None? <==> forall j :: 0 <= j < |sessions| ==> !Conflicts(sessions, target, j, newDate)
  {
    FindConflictFrom(sessions, target, newDate, 0)
  }

  /** The sessions after `rescheduleMissedSession(target, newDate, newLocation)`:
      unchanged on a conflict, otherwise the target takes the new date and
      place and is scheduled again. No check that the date lies ahead. */
  function Reschedule(sessions: seq<Session>, target: nat, newDate: Day, newLocation: string): (r: seq<Session>)
    requires target < |sessions|
    ensures |r| == |sessions|
    ensures forall j :: 0 <= j < |r| && j != target ==> r[j] == sessions[j]
    ensures r[target] == sessions[target]
            || r[target] == sessions[target].(date := newDate, location := newLocation, status := Scheduled)
  {
    if FindConflict(sessions, target, newDate).Some? then sessions
    else sessions[target := sessions[target].(date := newDate, location := newLocation, status := Scheduled)]
  }

  /** On a conflict nothing changes; otherwise exactly the target's date,
      location and status change, whatever its prior status and whatever
      the new date. */
  lemma RescheduleSpec(sessions: seq<Session>, target: nat, newDate: Day, newLocation: string)
    requires target < |sessions|
    ensures var r := Reschedule(sessions, target, newDate, newLocation);
      |r| == |sessions|
      && ((exists j :: 0 <= j < |sessions| && Conflicts(sessions, target, j, newDate)) ==> r == sessions)
      && ((forall j :: 0 <= j < |sessions| ==> !Conflicts(sessions, target, j, newDate)) ==>
            r[target] == sessions[target].(date := newDate, location := newLocation, status := Scheduled)
            && forall j :: 0 <= j < |r| && j != target ==> r[j] == sessions[j])
  {
    var f := FindConflict(sessions, target, newDate);
    if f.None? {
      assert forall j :: 0 <= j < |sessions| ==> !Conflicts(sessions, target, j, newDate);
    }
  }

  /** Because of the conflict check, rescheduling never puts two sessions
      of one course on the same day. */
  lemma RescheduleKeepsDistinctDays(sessions: seq<Session>, target: nat, newDate: Day, newLocation: string)
    requires target < |sessions|
    requires SameCourseDistinctDays(sessions)
    ensures SameCourseDistinctDays(Reschedule(sessions, target, newDate, newLocation))
  {
    var r := Reschedule(sessions, target, newDate, newLocation);
    if FindConflict(sessions, target, newDate).None? {
      forall a, b | 0 <= a < b < |r| && r[a].courseId == r[b].courseId
        ensures r[a].date != r[b].date
      {
        if a == target {
          assert !Conflicts(sessions, target, b, newDate);
        } else if b == target {
          assert !Conflicts(sessions, target, a, newDate);
        }
      }
    }
  }

  // ---- Work diary ----

  /** The form's three fields are filled in: a date, a course, and some
      content that is not only white space. */
  predicate DiaryInputComplete(date: Option<Day>, courseId: string, rawContent: string) {
    date.Some? && courseId != [] && !AllSpace(rawContent)
  }

  /** The diary after submitting the add-entry form: the trimmed entry goes
      to the front when date, course and trimmed content are all non-empty. */
  function AddDiaryEntry(diary: seq<DiaryEntry>, date: Option<Day>, courseId: string,
                         rawContent: string, freshId: string): (r: seq<DiaryEntry>)
    ensures r == diary
            || (|r| == |diary| + 1 && r[1..] == diary && r[0].id == freshId && r[0].content != [])
  {
    var content := Trim(rawContent);
    if date.Some? && courseId != [] && content != [] then
      [DiaryEntry(freshId, date.value, courseId, content)] + diary
    else diary
  }

  /** A complete form prepends exactly one entry (newest first) and keeps
      the rest in order; an incomplete one leaves the diary as it was. */
  lemma AddDiaryEntrySpec(diary: seq<DiaryEntry>, date: Option<Day>, courseId: string,
                          rawContent: string, freshId: string)
    ensures var r := AddDiaryEntry(diary, date, courseId, rawContent, freshId);
      if DiaryInputComplete(date, courseId, rawContent) then
        |r| == |diary| + 1 && r[1..] == diary
        && r[0] == DiaryEntry(freshId, date.value, courseId, Trim(rawContent))
        && r[0].content != []
      else r == diary
  {
    TrimEmptyIff(rawContent);
  }

  /** Adding `"notes"` for course `lean-green-belt` on 2024-04-10 to the
      three seed entries gives four entries with the new one first. */
  lemma AddDiaryEntryScenario(freshId: string)
    ensures var r := AddDiaryEntry(SeedDiary, Some(DayOf(2024, 4, 10)), "lean-green-belt", "notes", freshId);
      |r| == 4 && r[0] == DiaryEntry(freshId, DayOf(2024, 4, 10), "lean-green-belt", "notes")
      && r[1..] == SeedDiary
  {
    var s := "notes";
    assert !IsSpace(s[0]) && !IsSpace(s[4]);
    assert TrimStart(s) == s;
    assert TrimEnd(s) == s;
  }

  // ---- Study partners ----

  function NotConnection(id: string): Connection -> bool {
    (c: Connection) => c.id != id
  }

  /** The partners left after removing the one with identifier `id`. */
  function RemoveConnection(connections: seq<Connection>, id: string): (r: seq<Connection>)
    ensures |r| <= |connections|
    ensures forall c :: c in r ==> c in connections && c.id != id
  {
    Filter(connections, NotConnection(id))
  }

  /** Removal drops every partner with that identifier and only those; an
      absent identifier changes nothing. */
  lemma RemoveConnectionSpec(connections: seq<Connection>, id: string)
    ensures var r := RemoveConnection(connections, id);
      (forall c :: c in r <==> c in connections && c.id != id)
      && ((forall c :: c in connections ==> c.id != id) ==> r == connections)
  {
    if forall c :: c in connections ==> c.id != id {
      FilterKeepsAll(connections, NotConnection(id));
    }
  }

  /** Removal keeps the remaining partners' identifiers distinct. */
  lemma {:induction false} RemoveConnectionKeepsDistinct(connections: seq<Connection>, id: string)
    requires DistinctConnectionIds(connections)
    ensures DistinctConnectionIds(RemoveConnection(connections, id))
  {
    if connections != [] {
      var x, tail := connections[0], connections[1..];
      var p := NotConnection(id);
      assert connections == [x] + tail;
      RemoveConnectionKeepsDistinct(tail, id);
      var rest := Filter(tail, p);
      forall c | c in rest ensures c.id != x.id {
        var m :| 0 <= m < |tail| && tail[m] == c;
        assert connections[1 + m] == c;
      }
      FilterCons(x, tail, p);
      if p(x) {
        DistinctConnectionIdsCons(x, rest);
      }
    }
  }

  /** With distinct identifiers, removing the partner at position `k` leaves
      the others in their original order. */
  lemma RemoveConnectionAt(connections: seq<Connection>, k: nat)
    requires DistinctConnectionIds(connections) && k < |connections|
    ensures RemoveConnection(connections, connections[k].id) == connections[..k] + connections[k + 1..]
  {
    var id := connections[k].id;
    var p := NotConnection(id);
    var x, pre, post := connections[k], connections[..k], connections[k + 1..];
    forall c | c in pre ensures p(c) {
      var j :| 0 <= j < k && pre[j] == c;
      assert connections[j].id != connections[k].id;
    }
    forall c | c in post ensures p(c) {
      var j :| 0 <= j < |post| && post[j] == c;
      assert connections[k + 1 + j] == c;
      assert connections[k].id != connections[k + 1 + j].id;
    }
    assert connections == pre + [x] + post;
    FilterDropsOne(pre, x, post, p);
  }
}
