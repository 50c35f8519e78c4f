/**
 * The operations of the schedule manager in PST5/app/schedule.py on its
 * whole state, as values: the three `add_*` operations, `check_in` and
 * `record_payment`. The removals and the enrolments change only the
 * entities and are the directory operations of module Registry. Also the
 * invariant a well-used manager keeps, and the end-to-end cases of
 * PST5/tests/test_scheduale_manager.py.
 */
module Schedule {
  import opened Outcomes
  import opened Seqs
  import opened Text
  import opened Json
  import opened Users
  import opened Students
  import opened Teachers
  import R = Registry
  import opened Logs
  import opened Queries
  import opened Store

  // ---------------------------------------------------------------------
  // Creation

  /**
   * `add_student`: the name check raises before anything changes; otherwise
   * one student is appended under the current student counter, with the
   * given course list copied in, and only that counter moves, by one.
   */
  function AddStudent(st: State, rawName: string, ids: seq<int>): (r: Result<State>)
    ensures r.Ok? <==> CheckName(rawName).Ok?
    ensures r.Err? ==> r.error == CheckName(rawName).error
    ensures r.Ok? ==> r.value == st.(dir := st.dir.(students := st.dir.students + [StudentRec(st.nextStudentId, Strip(rawName), ids)]),
                                     nextStudentId := st.nextStudentId + 1)
  {
    match CheckName(rawName)
    case Err(e) => Err(e)
    case Ok(name) =>
      Ok(st.(dir := st.dir.(students := st.dir.students + [StudentRec(st.nextStudentId, name, ids)]),
             nextStudentId := st.nextStudentId + 1))
  }

  /**
   * `add_teacher`: the name check of the user base, then one teacher with no
   * courses, stamped `now`, under the current teacher counter, which alone
   * moves. The speciality is stored as given.
   */
  function AddTeacher(st: State, rawName: string, speciality: string, now: string): (r: Result<State>)
    ensures r.Ok? <==> CheckName(rawName).Ok?
    ensures r.Err? ==> r.error == CheckName(rawName).error
    ensures r.Ok? ==> r.value == st.(dir := st.dir.(teachers := st.dir.teachers + [TeacherRec(st.nextTeacherId, Strip(rawName), speciality, [], now)]),
                                     nextTeacherId := st.nextTeacherId + 1)
  {
    match CheckName(rawName)
    case Err(e) => Err(e)
    case Ok(name) =>
      Ok(st.(dir := st.dir.(teachers := st.dir.teachers + [TeacherRec(st.nextTeacherId, name, speciality, [], now)]),
             nextTeacherId := st.nextTeacherId + 1))
  }

  /**
   * `add_course`: one course with an empty roster under the current course
   * counter, which alone moves. The teacher reference is not checked.
   */
  function AddCourse(st: State, name: string, instrument: Value, teacherId: Value): (r: State)
    ensures r.dir.courses == st.dir.courses + [CourseRec(st.nextCourseId, name, teacherId, instrument, [])]
    ensures r.nextCourseId == st.nextCourseId + 1
    ensures r.(dir := st.dir, nextCourseId := st.nextCourseId) == st
  {
    st.(dir := st.dir.(courses := st.dir.courses + [CourseRec(st.nextCourseId, name, teacherId, instrument, [])]),
        nextCourseId := st.nextCourseId + 1)
  }

  // ---------------------------------------------------------------------
  // The logs

  /**
   * `check_in`: None (the source's False) unless both the student and the
   * course exist; otherwise one record at the end of the attendance log,
   * with the earlier records and everything else unchanged.
   */
  function CheckIn(st: State, sid: int, cid: int, now: string): (r: Option<State>)
    ensures r.Some? <==> sid in R.StudentIds(st.dir.students) && cid in R.CourseIds(st.dir.courses)
    ensures r.Some? ==> r.value.attendance == st.attendance + [CheckInRecord(sid, cid, now)]
    ensures r.Some? ==> r.value.(attendance := st.attendance) == st
  {
    if R.Find(R.StudentIds(st.dir.students), sid).None? || R.Find(R.CourseIds(st.dir.courses), cid).None? then None
    else Some(st.(attendance := st.attendance + [CheckInRecord(sid, cid, now)]))
  }

  /** `CheckIn` once both IDs are known to exist. */
  lemma CheckInFound(st: State, sid: int, cid: int, now: string)
    requires sid in R.StudentIds(st.dir.students) && cid in R.CourseIds(st.dir.courses)
    ensures CheckIn(st, sid, cid, now) == Some(st.(attendance := st.attendance + [CheckInRecord(sid, cid, now)]))
  {
  }

  /**
   * `record_payment`, with `amount` the result of `float(amount)` (None when
   * it raises). The checks run in order: an unknown student, then an
   * amount that is not a number, then a negative amount; each fails with
   * nothing appended. Otherwise one payment record at the end of the
   * finance log.
   */
  function RecordPayment(st: State, sid: int, amount: Option<real>, means: string, now: string): (r: Result<State>)
    ensures sid !in R.StudentIds(st.dir.students) ==> r == Err(UnknownStudent(sid))
    ensures sid in R.StudentIds(st.dir.students) && amount.None? ==> r == Err(NonNumericAmount)
    ensures sid in R.StudentIds(st.dir.students) && amount.Some? && amount.value < 0.0 ==> r == Err(NegativeAmount)
    ensures r.Ok? <==> sid in R.StudentIds(st.dir.students) && amount.Some? && amount.value >= 0.0
    ensures r.Ok? ==> r.value.finance == st.finance + [PaymentRecord(sid, amount.value, means, now)]
    ensures r.Ok? ==> r.value.(finance := st.finance) == st
  {
    if sid !in R.StudentIds(st.dir.students) then Err(UnknownStudent(sid))
    else if amount.None? then Err(NonNumericAmount)
    else if amount.value < 0.0 then Err(NegativeAmount)
    else Ok(st.(finance := st.finance + [PaymentRecord(sid, amount.value, means, now)]))
  }

  /**
   * After a check-in the student's and the course's attendance each end
   * with the new record, and the attendance of every other student and
   * course is as before.
   */
  lemma CheckInRecorded(st: State, sid: int, cid: int, now: string, other: int)
    requires CheckIn(st, sid, cid, now).Some?
    ensures var log := CheckIn(st, sid, cid, now).value.attendance;
            RecordsFor(log, "student_id", sid) == RecordsFor(st.attendance, "student_id", sid) + [CheckInRecord(sid, cid, now)] &&
            RecordsFor(log, "course_id", cid) == RecordsFor(st.attendance, "course_id", cid) + [CheckInRecord(sid, cid, now)]
    ensures other != sid ==>
              RecordsFor(CheckIn(st, sid, cid, now).value.attendance, "student_id", other) == RecordsFor(st.attendance, "student_id", other)
    ensures other != cid ==>
              RecordsFor(CheckIn(st, sid, cid, now).value.attendance, "course_id", other) == RecordsFor(st.attendance, "course_id", other)
  {
    var rec := CheckInRecord(sid, cid, now);
    RecordsForAppend(st.attendance, rec, "student_id", sid);
    RecordsForAppend(st.attendance, rec, "course_id", cid);
    RecordsForAppend(st.attendance, rec, "student_id", other);
    RecordsForAppend(st.attendance, rec, "course_id", other);
    MatchesIntField(rec, "student_id", sid, sid);
    MatchesIntField(rec, "course_id", cid, cid);
    MatchesIntField(rec, "student_id", sid, other);
    MatchesIntField(rec, "course_id", cid, other);
  }

  /** After a payment the student's history ends with it; every other student's history is as before. */
  lemma PaymentRecorded(st: State, sid: int, amount: Option<real>, means: string, now: string, other: int)
    requires RecordPayment(st, sid, amount, means, now).Ok?
    ensures RecordsFor(RecordPayment(st, sid, amount, means, now).value.finance, "student_id", sid)
            == RecordsFor(st.finance, "student_id", sid) + [PaymentRecord(sid, amount.value, means, now)]
    ensures other != sid ==>
              RecordsFor(RecordPayment(st, sid, amount, means, now).value.finance, "student_id", other)
              == RecordsFor(st.finance, "student_id", other)
  {
    var rec := PaymentRecord(sid, amount.value, means, now);
    RecordsForAppend(st.finance, rec, "student_id", sid);
    RecordsForAppend(st.finance, rec, "student_id", other);
    MatchesIntField(rec, "student_id", sid, sid);
    MatchesIntField(rec, "student_id", sid, other);
  }

  // ---------------------------------------------------------------------
  // The invariant of a well-used manager

  /** Every counter is above every ID of its kind, so the next one is fresh. */
  predicate CountersAhead(st: State)
  {
    && (forall i :: 0 <= i < |st.dir.students| ==> st.dir.students[i].id < st.nextStudentId)
    && (forall i :: 0 <= i < |st.dir.teachers| ==> st.dir.teachers[i].id < st.nextTeacherId)
    && (forall j :: 0 <= j < |st.dir.courses| ==> st.dir.courses[j].id < st.nextCourseId)
  }

  /** Linked entities with valid names and counters that hand out fresh IDs. */
  predicate Consistent(st: State)
  {
    R.Linked(st.dir) && NamesStored(st.dir) && CountersAhead(st)
  }

  lemma DefaultConsistent()
    ensures Consistent(DefaultState)
  {
    assert R.StudentIds([]) == [] && R.TeacherIds([]) == [] && R.CourseIds([]) == [];
  }

  /** A counter above every ID is not among the IDs. */
  lemma CounterFresh(st: State)
    requires CountersAhead(st)
    ensures st.nextStudentId !in R.StudentIds(st.dir.students)
    ensures st.nextTeacherId !in R.TeacherIds(st.dir.teachers)
    ensures st.nextCourseId !in R.CourseIds(st.dir.courses)
  {
  }

  /** `add_student` without an initial course list keeps the manager consistent. */
  lemma AddStudentConsistent(st: State, rawName: string)
    requires Consistent(st) && CheckName(rawName).Ok?
    ensures Consistent(AddStudent(st, rawName, []).value)
  {
    var s := StudentRec(st.nextStudentId, Strip(rawName), []);
    CounterFresh(st);
    R.AddStudentLinked(st.dir, s);
    StudentAppended(st, s);
  }

  /** Appending a student with a valid name under the counter, and moving the counter, keeps names and counters valid. */
  lemma StudentAppended(st: State, s: StudentRec)
    requires NamesStored(st.dir) && CountersAhead(st)
    requires IsStoredName(s.name) && s.id == st.nextStudentId
    ensures var r := st.(dir := st.dir.(students := st.dir.students + [s]), nextStudentId := st.nextStudentId + 1);
            NamesStored(r.dir) && CountersAhead(r)
  {
  }

  /**
   * `add_student` with an initial list naming an existing course leaves the
   * course's roster without the student: the enrolment is one-sided.
   */
  lemma AddStudentWithCoursesOneSided(st: State, rawName: string, ids: seq<int>)
    requires Consistent(st) && CheckName(rawName).Ok?
    requires ids != [] && ids[0] in R.CourseIds(st.dir.courses)
    ensures !R.Symmetric(AddStudent(st, rawName, ids).value.dir)
  {
    CounterFresh(st);
    R.AddStudentWithCoursesUnlinked(st.dir, StudentRec(st.nextStudentId, Strip(rawName), ids));
  }

  lemma AddTeacherConsistent(st: State, rawName: string, speciality: string, now: string)
    requires Consistent(st) && CheckName(rawName).Ok?
    ensures Consistent(AddTeacher(st, rawName, speciality, now).value)
  {
    var t := TeacherRec(st.nextTeacherId, Strip(rawName), speciality, [], now);
    CounterFresh(st);
    R.AddTeacherLinked(st.dir, t);
    TeacherAppended(st, t);
  }

  /** Appending a teacher with a valid name under the counter, and moving the counter, keeps names and counters valid. */
  lemma TeacherAppended(st: State, t: TeacherRec)
    requires NamesStored(st.dir) && CountersAhead(st)
    requires IsStoredName(t.name) && t.id == st.nextTeacherId
    ensures var r := st.(dir := st.dir.(teachers := st.dir.teachers + [t]), nextTeacherId := st.nextTeacherId + 1);
            NamesStored(r.dir) && CountersAhead(r)
  {
  }

  lemma AddCourseConsistent(st: State, name: string, instrument: Value, teacherId: Value)
    requires Consistent(st)
    ensures Consistent(AddCourse(st, name, instrument, teacherId))
  {
    CounterFresh(st);
    R.AddCourseLinked(st.dir, CourseRec(st.nextCourseId, name, teacherId, instrument, []));
  }

  /** Removing a student keeps every remaining name valid and every remaining ID under its counter. */
  lemma WithoutStudentInherits(st: State, sid: int)
    requires NamesStored(st.dir) && CountersAhead(st)
    ensures var d := R.WithoutStudent(st.dir, sid); NamesStored(d) && CountersAhead(st.(dir := d))
  {
    var d := R.WithoutStudent(st.dir, sid);
    KeepMeaning(st.dir.students, R.StudentNot(sid));
    forall i | 0 <= i < |d.students|
      ensures d.students[i].id < st.nextStudentId && IsStoredName(d.students[i].name)
    {
      var i0 :| 0 <= i0 < |st.dir.students| && st.dir.students[i0] == d.students[i];
    }
  }

  lemma RemoveStudentConsistent(st: State, sid: int)
    requires Consistent(st) && R.RemoveStudent(st.dir, sid).Some?
    ensures Consistent(st.(dir := R.RemoveStudent(st.dir, sid).value))
  {
    R.RemoveStudentFound(st.dir, sid);
    R.RemoveStudentLinked(st.dir, sid);
    WithoutStudentInherits(st, sid);
  }

  /** Removing a course keeps every name valid and every remaining ID under its counter. */
  lemma WithoutCourseInherits(st: State, cid: int)
    requires NamesStored(st.dir) && CountersAhead(st)
    ensures var d := R.WithoutCourse(st.dir, cid); NamesStored(d) && CountersAhead(st.(dir := d))
  {
    var d := R.WithoutCourse(st.dir, cid);
    KeepMeaning(st.dir.courses, R.CourseNot(cid));
    forall j | 0 <= j < |d.courses|
      ensures d.courses[j].id < st.nextCourseId
    {
      var j0 :| 0 <= j0 < |st.dir.courses| && st.dir.courses[j0] == d.courses[j];
    }
    forall i | 0 <= i < |d.students|
      ensures d.students[i].id < st.nextStudentId && IsStoredName(d.students[i].name)
    {
      assert d.students[i].name == st.dir.students[i].name && d.students[i].id == st.dir.students[i].id;
    }
  }

  lemma RemoveCourseConsistent(st: State, cid: int)
    requires Consistent(st) && R.RemoveCourse(st.dir, cid).Some?
    ensures Consistent(st.(dir := R.RemoveCourse(st.dir, cid).value))
  {
    R.RemoveCourseFound(st.dir, cid);
    R.RemoveCourseLinked(st.dir, cid);
    WithoutCourseInherits(st, cid);
  }

  /** Removing a teacher keeps every name valid and every remaining ID under its counter. */
  lemma WithoutTeacherInherits(st: State, tid: int)
    requires NamesStored(st.dir) && CountersAhead(st)
    ensures var d := R.Directory(st.dir.students, Keep(st.dir.teachers, R.TeacherNot(tid)), R.NullTeacher(st.dir.courses, tid));
            NamesStored(d) && CountersAhead(st.(dir := d))
  {
    var ts := Keep(st.dir.teachers, R.TeacherNot(tid));
    KeepMeaning(st.dir.teachers, R.TeacherNot(tid));
    forall i | 0 <= i < |ts|
      ensures ts[i].id < st.nextTeacherId && IsStoredName(ts[i].name)
    {
      var i0 :| 0 <= i0 < |st.dir.teachers| && st.dir.teachers[i0] == ts[i];
    }
  }

  lemma RemoveTeacherConsistent(st: State, tid: int)
    requires Consistent(st) && R.RemoveTeacher(st.dir, tid).Some?
    ensures Consistent(st.(dir := R.RemoveTeacher(st.dir, tid).value))
  {
    R.RemoveTeacherFound(st.dir, tid);
    R.RemoveTeacherLinked(st.dir, tid);
    WithoutTeacherInherits(st, tid);
  }

  /**
   * Replacing one student's course list and one course's roster keeps every
   * entity's place, ID and name, so names stay valid and counters ahead.
   */
  lemma RelistedInherits(st: State, si: nat, ci: nat, sl: seq<int>, cl: seq<int>)
    requires NamesStored(st.dir) && CountersAhead(st)
    requires si < |st.dir.students| && ci < |st.dir.courses|
    ensures var d := st.dir.(students := st.dir.students[si := st.dir.students[si].(courseIds := sl)],
                             courses := st.dir.courses[ci := st.dir.courses[ci].(studentIds := cl)]);
            NamesStored(d) && CountersAhead(st.(dir := d))
  {
  }

  lemma EnrolConsistent(st: State, sid: int, cid: int)
    requires Consistent(st) && R.Enrol(st.dir, sid, cid).Some?
    ensures Consistent(st.(dir := R.Enrol(st.dir, sid, cid).value))
  {
    var si := R.Find(R.StudentIds(st.dir.students), sid).value;
    var ci := R.Find(R.CourseIds(st.dir.courses), cid).value;
    R.EnrolAt(st.dir, sid, cid, si, ci);
    R.EnrolLinked(st.dir, sid, cid);
    RelistedInherits(st, si, ci, AddIfAbsent(st.dir.students[si].courseIds, cid),
                     AddIfAbsent(st.dir.courses[ci].studentIds, sid));
  }

  lemma UnenrolConsistent(st: State, sid: int, cid: int)
    requires Consistent(st) && R.Unenrol(st.dir, sid, cid).Some?
    ensures Consistent(st.(dir := R.Unenrol(st.dir, sid, cid).value))
  {
    var si := R.Find(R.StudentIds(st.dir.students), sid).value;
    var ci := R.Find(R.CourseIds(st.dir.courses), cid).value;
    R.UnenrolAt(st.dir, sid, cid, si, ci);
    R.UnenrolLinked(st.dir, sid, cid);
    RelistedInherits(st, si, ci, Discard(st.dir.students[si].courseIds, cid),
                     Discard(st.dir.courses[ci].studentIds, sid));
  }

  // ---------------------------------------------------------------------
  // The end-to-end cases of PST5/tests/test_scheduale_manager.py

  /** The three additions of the first case, from an empty manager. */
  lemma ThreeAdded(student: string, teacher: string, speciality: string, course: string, now: string)
    requires student != [] && forall i :: 0 <= i < |student| ==> IsAsciiLetter(student[i])
    requires teacher != [] && forall i :: 0 <= i < |teacher| ==> IsAsciiLetter(teacher[i])
    ensures AddStudent(DefaultState, student, []).Ok?
    ensures AddTeacher(AddStudent(DefaultState, student, []).value, teacher, speciality, now).Ok?
    ensures AddCourse(AddTeacher(AddStudent(DefaultState, student, []).value, teacher, speciality, now).value,
                      course, JStr(speciality), JInt(1))
            == State(R.Directory([StudentRec(1, student, [])], [TeacherRec(1, teacher, speciality, [], now)],
                                 [CourseRec(1, course, JInt(1), JStr(speciality), [])]), [], [], 2, 2, 2)
  {
    LetterNamePasses(student);
    LetterNamePasses(teacher);
  }

  /**
   * The first case (Alice, Bob teaching piano, and "Piano 101" added to an
   * empty manager) for any letter names: after a save and a load there is
   * one of each, under ID 1 and with the names given; only the course's
   * instrument is lost.
   */
  lemma AddAndPersist(student: string, teacher: string, speciality: string, course: string, now: string, later: string)
    requires student != [] && forall i :: 0 <= i < |student| ==> IsAsciiLetter(student[i])
    requires teacher != [] && forall i :: 0 <= i < |teacher| ==> IsAsciiLetter(teacher[i])
    ensures AddStudent(DefaultState, student, []).Ok? &&
            var s1 := AddStudent(DefaultState, student, []).value;
            AddTeacher(s1, teacher, speciality, now).Ok? &&
            var st := AddCourse(AddTeacher(s1, teacher, speciality, now).value, course, JStr(speciality), JInt(1));
            var back := LoadState(Parsed(Image(st)), later);
            back.dir == R.Directory([StudentRec(1, student, [])], [TeacherRec(1, teacher, speciality, [], now)],
                                    [CourseRec(1, course, JInt(1), JNull, [])])
  {
    ThreeAdded(student, teacher, speciality, course, now);
    LetterNamePasses(student);
    LetterNamePasses(teacher);
    var st := State(R.Directory([StudentRec(1, student, [])], [TeacherRec(1, teacher, speciality, [], now)],
                                [CourseRec(1, course, JInt(1), JStr(speciality), [])]), [], [], 2, 2, 2);
    ReloadImage(st, later);
    assert Reloaded(st).dir.courses[0] == CourseRec(1, course, JInt(1), JNull, []);
  }

  /** Enrolling the only student in the only course, as the second case does, links the two. */
  lemma EnrolSole(s: StudentRec, ts: seq<TeacherRec>, c: CourseRec)
    requires s.courseIds == [] && c.studentIds == []
    ensures R.Enrol(R.Directory([s], ts, [c]), s.id, c.id) ==
            Some(R.Directory([s.(courseIds := [c.id])], ts, [c.(studentIds := [s.id])]))
  {
    var d := R.Directory([s], ts, [c]);
    assert R.StudentIds(d.students) == [s.id];
    assert R.CourseIds(d.courses) == [c.id];
    R.EnrolAt(d, s.id, c.id, 0, 0);
    var s2 := s.(courseIds := AddIfAbsent(s.courseIds, c.id));
    var c2 := c.(studentIds := AddIfAbsent(c.studentIds, s.id));
    assert s2 == s.(courseIds := [c.id]);
    assert c2 == c.(studentIds := [s.id]);
    assert d.students[0 := s2] == [s2];
    assert d.courses[0 := c2] == [c2];
  }

  /** The enrolled student checks in and pays 120.0 in cash; both reports have one row. */
  lemma AttendAndPay(now: string, t1: string, t2: string)
    ensures var st := State(R.Directory([StudentRec(1, "Charlie", [1])], [TeacherRec(1, "Dora", "Guitar", [], now)],
                                        [CourseRec(1, "Guitar 101", JInt(1), JStr("Guitar"), [1])]), [], [], 2, 2, 2);
            var s5 := CheckIn(st, 1, 1, t1);
            s5.Some? &&
            |RecordsFor(s5.value.attendance, "student_id", 1)| == 1 &&
            var s6 := RecordPayment(s5.value, 1, Some(120.0), "Cash", t2);
            s6.Ok? &&
            var hist := RecordsFor(s6.value.finance, "student_id", 1);
            |hist| == 1 && hist[0]["amount"] == JReal(120.0) &&
            ExportReport("finance", s6.value.attendance, s6.value.finance).value.headers == FinanceHeaders &&
            |ExportReport("finance", s6.value.attendance, s6.value.finance).value.rows| == 1 &&
            ExportReport("attendance", s6.value.attendance, s6.value.finance).value.headers == AttendanceHeaders &&
            |ExportReport("attendance", s6.value.attendance, s6.value.finance).value.rows| == 1
  {
    var st := State(R.Directory([StudentRec(1, "Charlie", [1])], [TeacherRec(1, "Dora", "Guitar", [], now)],
                                [CourseRec(1, "Guitar 101", JInt(1), JStr("Guitar"), [1])]), [], [], 2, 2, 2);
    assert R.StudentIds(st.dir.students) == [1];
    assert R.CourseIds(st.dir.courses) == [1];
    var s5 := CheckIn(st, 1, 1, t1).value;
    CheckInRecorded(st, 1, 1, t1, 1);
    assert RecordsFor([], "student_id", 1) == [];
    var s6 := RecordPayment(s5, 1, Some(120.0), "Cash", t2).value;
    PaymentRecorded(s5, 1, Some(120.0), "Cash", t2, 1);
  }

  /** An empty data file gives a manager whose three listings are empty. */
  lemma EmptyFileListsNothing(now: string)
    ensures var st := LoadState(EmptyFile, now);
            StudentListings(st.dir.students) == [] && TeacherListings(st.dir.teachers) == [] &&
            CourseListings(st.dir.courses) == []
  {
  }
}
