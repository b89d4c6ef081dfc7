/** The records of the course tracker: courses (static reference data),
    study sessions, work-diary entries and study partners, with the
    constants the application fixes and its seed data. */
module Domain {
  import opened Collections
  import opened Text
  import opened Days

  datatype Status = Scheduled | Completed | Missed

  datatype Course = Course(id: string, title: string, duration: nat, hours: nat,
                           startDate: Day, description: string)

  /** A study session; `time` is absent until the time slots are assigned. */
  datatype Session = Session(id: string, courseId: string, date: Day, status: Status,
                             location: string, time: Option<string>)

  datatype DiaryEntry = DiaryEntry(id: string, date: Day, courseId: string, content: string)

  datatype Connection = Connection(id: string, name: string, initials: string)

  /** Where every generated session takes place. */
  const DefaultLocation: string := "Training Room 4"

  /** The time-of-day labels handed out in rotation; noon is not among them. */
  const SlotLabels: seq<string> :=
    ["08:00", "09:00", "10:00", "11:00", "13:00", "14:00", "15:00", "16:00", "17:00"]

  const SessionIdSeparator: string := "-sess-"

  /** The identifier of the `n`-th session (counting from 0) of a course. */
  function SessionId(courseId: string, n: nat): (id: string)
    ensures |id| > |courseId| + |SessionIdSeparator|
    ensures id[..|courseId|] == courseId
    ensures id[|courseId|..|courseId| + |SessionIdSeparator|] == SessionIdSeparator
    ensures forall k :: |courseId| + |SessionIdSeparator| <= k < |id| ==> IsDigit(id[k])
  {
    courseId + SessionIdSeparator + NatToString(n)
  }

  /** Two identifiers `c + "-sess-" + digits` that are equal end in digit
      runs of the same length: the separator's final `-` sits right before
      each run and is not a digit. */
  lemma DigitRunsAlign(c1: string, d1: string, c2: string, d2: string)
    requires forall k :: 0 <= k < |d1| ==> IsDigit(d1[k])
    requires c1 + SessionIdSeparator + d1 == c2 + SessionIdSeparator + d2
    ensures |d1| <= |d2|
  {
    var id := c2 + SessionIdSeparator + d2;
    var p := |id| - |d2| - 1;
    assert forall k :: |id| - |d1| <= k < |id| ==> id[k] == d1[k - (|id| - |d1|)];
    assert id[p] == '-';
  }

  /** A session identifier determines both the course and the counter, for
      any course identifiers whatsoever: the counter is the run of digits
      after the last `-`, and the course identifier is what precedes the
      separator. */
  lemma SessionIdInjective(c1: string, n1: nat, c2: string, n2: nat)
    ensures SessionId(c1, n1) == SessionId(c2, n2) <==> c1 == c2 && n1 == n2
  {
    var d1, d2 := NatToString(n1), NatToString(n2);
    var id1, id2 := SessionId(c1, n1), SessionId(c2, n2);
    if id1 == id2 {
      DigitRunsAlign(c1, d1, c2, d2);
      DigitRunsAlign(c2, d2, c1, d1);
      assert d1 == id1[|id1| - |d1|..] == d2;
      assert c1 == id1[..|c1|] == c2;
      NatToStringInjective(n1, n2);
    }
  }

  /** The course with the given identifier, if any: `courses.find(c => c.id === id)`. */
  function FindCourse(courses: seq<Course>, id: string): (r: Option<Course>)
    ensures r.None? <==> forall c :: c in courses ==> c.id != id
    ensures r.Some? ==> exists k :: 0 <= k < |courses| && courses[k] == r.value
                                   && r.value.id == id
                                   && forall j :: 0 <= j < k ==> courses[j].id != id
  {
    if courses == [] then None
    else if courses[0].id == id then Some(courses[0])
    else
      var r := FindCourse(courses[1..], id);
      assert forall c :: c in courses[1..] ==> c in courses;
      if r.Some? then
        var k :| 0 <= k < |courses[1..]| && courses[1..][k] == r.value && r.value.id == id
                 && forall j :: 0 <= j < k ==> courses[1..][j].id != id;
        assert courses[k + 1] == r.value;
        r
      else r
  }

  /** The course title shown beside a record, or the placeholder when the
      record's course identifier matches no course. The views of this model
      return the records themselves, so this lookup stands alone: it is the
      title each view prints beside a reminder, a listed session or a note. */
  function CourseTitle(courses: seq<Course>, id: string, placeholder: string): (t: string)
    ensures (forall c :: c in courses ==> c.id != id) ==> t == placeholder
    ensures (exists c :: c in courses && c.id == id) ==>
              exists c :: c in courses && c.id == id && t == c.title
  {
    match FindCourse(courses, id)
    case Some(c) => c.title
    case None => placeholder
  }

  /** No two courses share an identifier. */
  predicate DistinctCourseIds(courses: seq<Course>) {
    forall j, k :: 0 <= j < k < |courses| ==> courses[j].id != courses[k].id
  }

  /** Dropping the last course keeps the identifiers distinct, and no
      earlier course shares the last one's identifier. */
  lemma DistinctCourseIdsInit(courses: seq<Course>)
    requires DistinctCourseIds(courses) && courses != []
    ensures DistinctCourseIds(courses[..|courses| - 1])
    ensures forall c :: c in courses[..|courses| - 1] ==> c.id != courses[|courses| - 1].id
  {
    var n := |courses| - 1;
    forall c | c in courses[..n] ensures c.id != courses[n].id {
      var j :| 0 <= j < n && courses[..n][j] == c;
    }
  }

  // Seed data the application starts with.

  const SeedCourses: seq<Course> := [
    Course("six-sigma-yellow", "Six Sigma Yellow Belt Certification", 30, 6, DayOf(2024, 4, 1),
           "This course introduces core Six Sigma concepts focused on process improvement and quality control."),
    Course("lean-green-belt", "Lean Six Sigma Green Belt Certification", 180, 40, DayOf(2024, 3, 1),
           "Deeper dive into Lean and Six Sigma principles for data-driven decision-making."),
    Course("lean-black-belt", "Lean Six Sigma Black Belt Certification", 180, 40, DayOf(2024, 3, 1),
           "Advanced problem-solving and leadership for process improvements."),
    Course("agile-master", "Agile Master Certification", 180, 40, DayOf(2024, 4, 1),
           "Master Agile methodologies with focus on team dynamics and execution.")
  ]

  const SeedConnections: seq<Connection> := [
    Connection("c1", "Alice Johnson", "AJ"),
    Connection("c2", "Brian Lee", "BL"),
    Connection("c3", "Christopher Smith", "CS")
  ]

  const SeedDiary: seq<DiaryEntry> := [
    DiaryEntry("d1", DayOf(2024, 4, 14), "six-sigma-yellow", "Reviewed DMAIC methodology and core tools."),
    DiaryEntry("d2", DayOf(2024, 4, 13), "lean-green-belt", "Completed exercises on process mapping."),
    DiaryEntry("d3", DayOf(2024, 4, 25), "agile-master", "Upcoming: Review Agile ceremonies and practices.")
  ]

  /** The seed courses have distinct identifiers. */
  lemma SeedCourseIdsDistinct()
    ensures DistinctCourseIds(SeedCourses)
  {
    assert SeedCourses[0].id[0] == 's' && SeedCourses[3].id[0] == 'a';
    assert SeedCourses[1].id[5] == 'g' && SeedCourses[2].id[5] == 'b';
  }

  /** No two partners share an identifier. */
  predicate DistinctConnectionIds(connections: seq<Connection>) {
    forall j, k :: 0 <= j < k < |connections| ==> connections[j].id != connections[k].id
  }

  /** A partner whose identifier no other has can go in front. */
  lemma DistinctConnectionIdsCons(x: Connection, rest: seq<Connection>)
    requires DistinctConnectionIds(rest)
    requires forall c :: c in rest ==> c.id != x.id
    ensures DistinctConnectionIds([x] + rest)
  {
    var r := [x] + rest;
    forall j, k | 0 <= j < k < |r| ensures r[j].id != r[k].id {
      assert r[k] == rest[k - 1];
      if j > 0 {
        assert r[j] == rest[j - 1];
      }
    }
  }

  /** The seed partners have distinct identifiers. */
  lemma SeedConnectionIdsDistinct()
    ensures DistinctConnectionIds(SeedConnections)
  {
    assert SeedConnections[0].id == "c1" && SeedConnections[1].id == "c2" && SeedConnections[2].id == "c3";
  }
}
