/**
 * `ScheduleManager` of PST5/app/schedule.py as a class over live entity
 * objects. Every operation is proved to move the manager's abstract state
 * (`Model`) exactly as the value-level operation of module Schedule or
 * Registry describes; a successful operation ends with `_save_data`, so
 * the ghost `saved` state is then the new state, and a failed one saves
 * nothing.
 */
module Manager {
  import opened Outcomes
  import opened Seqs
  import opened Json
  import opened Users
  import opened Students
  import opened Teachers
  import R = Registry
  import opened Views
  import opened Logs
  import opened Queries
  import opened Store
  import S = Schedule

  /** `[StudentUser.from_dict(s) for s in ...]` once the records are read: one new object per record. */
  method BuildStudents(recs: seq<StudentRec>) returns (ss: seq<StudentUser>)
    requires forall i :: 0 <= i < |recs| ==> IsStoredName(recs[i].name)
    ensures |ss| == |recs| && NoDup(ss)
    ensures forall i :: 0 <= i < |ss| ==> fresh(ss[i]) && ss[i].View() == recs[i]
    ensures StudentViews(ss) == recs
  {
    ss := [];
    for i := 0 to |recs|
      invariant |ss| == i && NoDup(ss)
      invariant forall k :: 0 <= k < i ==> fresh(ss[k]) && ss[k].View() == recs[k]
    {
      var s := new StudentUser(recs[i].id, recs[i].name, recs[i].courseIds);
      ss := ss + [s];
    }
  }

  method BuildTeachers(recs: seq<TeacherRec>) returns (ts: seq<TeacherUser>)
    requires forall i :: 0 <= i < |recs| ==> IsStoredName(recs[i].name)
    ensures |ts| == |recs| && NoDup(ts)
    ensures forall i :: 0 <= i < |ts| ==> fresh(ts[i]) && ts[i].View() == recs[i]
    ensures TeacherViews(ts) == recs
  {
    ts := [];
    for i := 0 to |recs|
      invariant |ts| == i && NoDup(ts)
      invariant forall k :: 0 <= k < i ==> fresh(ts[k]) && ts[k].View() == recs[k]
    {
      var t := new TeacherUser(recs[i]);
      ts := ts + [t];
    }
  }

  method BuildCourses(recs: seq<CourseRec>) returns (cs: seq<Course>)
    ensures |cs| == |recs| && NoDup(cs)
    ensures forall i :: 0 <= i < |cs| ==> fresh(cs[i]) && cs[i].View() == recs[i]
    ensures CourseViews(cs) == recs
  {
    cs := [];
    for i := 0 to |recs|
      invariant |cs| == i && NoDup(cs)
      invariant forall k :: 0 <= k < i ==> fresh(cs[k]) && cs[k].View() == recs[k]
    {
      var c := new Course.FromRec(recs[i]);
      cs := cs + [c];
    }
  }

  class ScheduleManager {
    var students: seq<StudentUser>
    var teachers: seq<TeacherUser>
    var courses: seq<Course>
    var attendanceLog: seq<Record>
    var financeLog: seq<Record>
    var nextStudentId: int
    var nextTeacherId: int
    var nextCourseId: int
    /**
     * The state the last `_save_data` wrote; the data file holds
     * `Image(saved)`, which `Store.ReloadImage` reads back.
     */
    ghost var saved: State

    /** The manager as a value. */
    ghost function Model(): State
      reads this, students, teachers, courses
    {
      State(R.Directory(StudentViews(students), TeacherViews(teachers), CourseViews(courses)),
            attendanceLog, financeLog, nextStudentId, nextTeacherId, nextCourseId)
    }

    /** Each entity object appears once in its list. */
    ghost predicate Valid()
      reads this
    {
      NoDup(students) && NoDup(teachers) && NoDup(courses)
    }

    /** The data file holds the current state: what `_save_data` leaves behind. */
    ghost predicate Saved()
      reads this, students, teachers, courses
    {
      saved == Model()
    }

    /**
     * `__init__` with `_load_data`: the manager starts from what the data
     * file reads as, and `_load_data` ends by saving it.
     */
    static method Open(file: StoreFile, now: string) returns (m: ScheduleManager)
      ensures fresh(m) && m.Valid() && m.Saved() && m.Model() == LoadState(file, now)
    {
      m := new ScheduleManager.FromState(LoadState(file, now));
    }

    /** The manager holding one new object per record of `st`, saved. */
    constructor FromState(st: State)
      requires NamesStored(st.dir)
      ensures Valid() && Saved() && Model() == st
    {
      var ss := BuildStudents(st.dir.students);
      var ts := BuildTeachers(st.dir.teachers);
      var cs := BuildCourses(st.dir.courses);
      students := ss;
      teachers := ts;
      courses := cs;
      attendanceLog := st.attendance;
      financeLog := st.finance;
      nextStudentId := st.nextStudentId;
      nextTeacherId := st.nextTeacherId;
      nextCourseId := st.nextCourseId;
      new;
      assert StudentViews(students) == st.dir.students;
      assert TeacherViews(teachers) == st.dir.teachers;
      assert CourseViews(courses) == st.dir.courses;
      Save();
    }

    /** `_save_data`: the data file now holds the current state. */
    method Save()
      requires Valid()
      modifies this`saved
      ensures Valid()
      ensures Saved() && Model() == old(Model())
    {
      saved := Model();
    }

    /** `_find` over the students: the first student with that ID, if any. */
    function FindStudentById(sid: int): (r: Option<StudentUser>)
      reads this
      ensures r.Some? <==> sid in StudentObjIds(students)
      ensures r.Some? ==> r.value in students && r.value.id == sid
    {
      match R.Find(StudentObjIds(students), sid)
      case None => None
      case Some(k) => Some(students[k])
    }

    function FindTeacherById(tid: int): (r: Option<TeacherUser>)
      reads this
      ensures r.Some? <==> tid in TeacherObjIds(teachers)
      ensures r.Some? ==> r.value in teachers && r.value.id == tid
    {
      match R.Find(TeacherObjIds(teachers), tid)
      case None => None
      case Some(k) => Some(teachers[k])
    }

    function FindCourseById(cid: int): (r: Option<Course>)
      reads this
      ensures r.Some? <==> cid in CourseObjIds(courses)
      ensures r.Some? ==> r.value in courses && r.value.id == cid
    {
      match R.Find(CourseObjIds(courses), cid)
      case None => None
      case Some(k) => Some(courses[k])
    }

    // -------------------------------------------------------------------
    // The steps the operations are made of, each with its effect on Model

    /** `self.students.append(s)` and `self.next_student_id += 1`. */
    method AppendStudent(s: StudentUser)
      requires Valid() && s !in students
      modifies this`students, this`nextStudentId
      ensures Valid()
      ensures Model() == old(Model()).(dir := old(Model()).dir.(students := old(Model()).dir.students + [s.View()]),
                                       nextStudentId := old(nextStudentId) + 1)
    {
      students := students + [s];
      nextStudentId := nextStudentId + 1;
      assert StudentViews(students) == old(StudentViews(students)) + [s.View()];
      assert TeacherViews(teachers) == old(TeacherViews(teachers));
      assert CourseViews(courses) == old(CourseViews(courses));
    }

    /** `self.teachers.append(t)` and `self.next_teacher_id += 1`. */
    method AppendTeacher(t: TeacherUser)
      requires Valid() && t !in teachers
      modifies this`teachers, this`nextTeacherId
      ensures Valid()
      ensures Model() == old(Model()).(dir := old(Model()).dir.(teachers := old(Model()).dir.teachers + [t.View()]),
                                       nextTeacherId := old(nextTeacherId) + 1)
    {
      teachers := teachers + [t];
      nextTeacherId := nextTeacherId + 1;
      assert TeacherViews(teachers) == old(TeacherViews(teachers)) + [t.View()];
      assert StudentViews(students) == old(StudentViews(students));
      assert CourseViews(courses) == old(CourseViews(courses));
    }

    /** `self.courses.append(c)` and `self.next_course_id += 1`. */
    method AppendCourse(c: Course)
      requires Valid() && c !in courses
      modifies this`courses, this`nextCourseId
      ensures Valid()
      ensures Model() == old(Model()).(dir := old(Model()).dir.(courses := old(Model()).dir.courses + [c.View()]),
                                       nextCourseId := old(nextCourseId) + 1)
    {
      courses := courses + [c];
      nextCourseId := nextCourseId + 1;
      assert CourseViews(courses) == old(CourseViews(courses)) + [c.View()];
      assert StudentViews(students) == old(StudentViews(students));
      assert TeacherViews(teachers) == old(TeacherViews(teachers));
    }

    /** `self.attendance_log.append(rec)`. */
    method AppendAttendance(rec: Record)
      requires Valid()
      modifies this`attendanceLog
      ensures Valid()
      ensures Model() == old(Model()).(attendance := old(Model()).attendance + [rec])
    {
      attendanceLog := attendanceLog + [rec];
    }

    /** `self.finance_log.append(rec)`. */
    method AppendFinance(rec: Record)
      requires Valid()
      modifies this`financeLog
      ensures Valid()
      ensures Model() == old(Model()).(finance := old(Model()).finance + [rec])
    {
      financeLog := financeLog + [rec];
    }

    /** `self.students = [s for s in self.students if s.id != sid]`. */
    method KeepStudentsOtherThan(sid: int)
      requires Valid()
      modifies this`students
      ensures Valid()
      ensures Model() == old(Model()).(dir := old(Model()).dir.(students := Keep(old(Model()).dir.students, R.StudentNot(sid))))
    {
      students := Keep(students, StudentUserNot(sid));
      KeptStudentViews(old(students), sid);
      KeepNoDup(old(students), StudentUserNot(sid));
      assert StudentViews(old(students)) == old(StudentViews(students));
      assert TeacherViews(teachers) == old(TeacherViews(teachers));
      assert CourseViews(courses) == old(CourseViews(courses));
    }

    /** `self.teachers = [t for t in self.teachers if t.id != tid]`. */
    method KeepTeachersOtherThan(tid: int)
      requires Valid()
      modifies this`teachers
      ensures Valid()
      ensures Model() == old(Model()).(dir := old(Model()).dir.(teachers := Keep(old(Model()).dir.teachers, R.TeacherNot(tid))))
    {
      teachers := Keep(teachers, TeacherUserNot(tid));
      KeptTeacherViews(old(teachers), tid);
      KeepNoDup(old(teachers), TeacherUserNot(tid));
      assert TeacherViews(old(teachers)) == old(TeacherViews(teachers));
      assert StudentViews(students) == old(StudentViews(students));
      assert CourseViews(courses) == old(CourseViews(courses));
    }

    /** `self.courses = [c for c in self.courses if c.id != cid]`. */
    method KeepCoursesOtherThan(cid: int)
      requires Valid()
      modifies this`courses
      ensures Valid()
      ensures Model() == old(Model()).(dir := old(Model()).dir.(courses := Keep(old(Model()).dir.courses, R.CourseNot(cid))))
    {
      courses := Keep(courses, CourseObjNot(cid));
      KeptCourseViews(old(courses), cid);
      KeepNoDup(old(courses), CourseObjNot(cid));
      assert CourseViews(old(courses)) == old(CourseViews(courses));
      assert StudentViews(students) == old(StudentViews(students));
      assert TeacherViews(teachers) == old(TeacherViews(teachers));
    }

    /** The roster loop of `remove_student`. */
    method StripRosters(sid: int)
      requires Valid()
      modifies courses
      ensures Valid()
      ensures Model() == old(Model()).(dir := old(Model()).dir.(courses := R.StripStudent(old(Model()).dir.courses, sid)))
    {
      StripStudentFromRosters(courses, sid);
      assert StudentViews(students) == old(StudentViews(students));
      assert TeacherViews(teachers) == old(TeacherViews(teachers));
    }

    /** The course-list loop of `remove_course`. */
    method StripCourseLists(cid: int)
      requires Valid()
      modifies students
      ensures Valid()
      ensures Model() == old(Model()).(dir := old(Model()).dir.(students := R.StripCourse(old(Model()).dir.students, cid)))
    {
      StripCourseFromStudents(students, cid);
      assert TeacherViews(teachers) == old(TeacherViews(teachers));
      assert CourseViews(courses) == old(CourseViews(courses));
    }

    /** The teacher-reference loop of `remove_teacher`. */
    method NullTeacher(tid: int)
      requires Valid()
      modifies courses
      ensures Valid()
      ensures Model() == old(Model()).(dir := old(Model()).dir.(courses := R.NullTeacher(old(Model()).dir.courses, tid)))
    {
      NullTeacherRefs(courses, tid);
      assert StudentViews(students) == old(StudentViews(students));
      assert TeacherViews(teachers) == old(TeacherViews(teachers));
    }

    /** `course.enroll_student(sid)` and `student.enroll_course(cid)` for the objects at `si` and `ci`. */
    method EnrolObjects(si: nat, ci: nat, sid: int, cid: int)
      requires Valid() && si < |students| && ci < |courses|
      modifies students[si], courses[ci]
      ensures Valid()
      ensures Model() == old(Model()).(dir := R.EnrolledAt(old(Model()).dir, sid, cid, si, ci))
    {
      ghost var d := Model().dir;
      EnrolCourseAt(courses, ci, sid);
      assert CourseViews(courses) == R.EnrolledAt(d, sid, cid, si, ci).courses;
      EnrolStudentAt(students, si, cid);
      assert StudentViews(students) == R.EnrolledAt(d, sid, cid, si, ci).students;
      assert CourseViews(courses) == R.EnrolledAt(d, sid, cid, si, ci).courses;
      assert TeacherViews(teachers) == d.teachers;
    }

    /** `course.remove_student(sid)` and `student.drop_course(cid)` for the objects at `si` and `ci`. */
    method UnenrolObjects(si: nat, ci: nat, sid: int, cid: int)
      requires Valid() && si < |students| && ci < |courses|
      modifies students[si], courses[ci]
      ensures Valid()
      ensures Model() == old(Model()).(dir := R.UnenrolledAt(old(Model()).dir, sid, cid, si, ci))
    {
      ghost var d := Model().dir;
      UnenrolCourseAt(courses, ci, sid);
      assert CourseViews(courses) == R.UnenrolledAt(d, sid, cid, si, ci).courses;
      UnenrolStudentAt(students, si, cid);
      assert StudentViews(students) == R.UnenrolledAt(d, sid, cid, si, ci).students;
      assert CourseViews(courses) == R.UnenrolledAt(d, sid, cid, si, ci).courses;
      assert TeacherViews(teachers) == d.teachers;
    }

    // -------------------------------------------------------------------
    // The operations

    /** The part of `add_student` after the constructor has accepted the name. */
    method InsertStudent(s: StudentUser)
      requires Valid() && s !in students
      modifies this
      ensures Valid() && Saved()
      ensures Model() == old(Model()).(dir := old(Model()).dir.(students := old(Model()).dir.students + [s.View()]),
                                       nextStudentId := old(nextStudentId) + 1)
    {
      AppendStudent(s);
      Save();
    }

    /** `add_student`: see `Schedule.AddStudent`; nothing changes when the name is rejected. */
    method AddStudent(rawName: string, ids: seq<int>) returns (r: Result<()>)
      requires Valid()
      modifies this
      ensures Valid()
      ensures match S.AddStudent(old(Model()), rawName, ids)
              case Ok(next) => r == Ok(()) && Model() == next && Saved()
              case Err(e) => r == Err(e) && Model() == old(Model()) && saved == old(saved)
    {
      var created := StudentUser.New(nextStudentId, rawName, ids);
      if created.Err? {
        return Err(created.error);
      }
      InsertStudent(created.value);
      r := Ok(());
    }

    /** The part of `add_teacher` after the constructor has accepted the name. */
    method InsertTeacher(t: TeacherUser)
      requires Valid() && t !in teachers
      modifies this
      ensures Valid() && Saved()
      ensures Model() == old(Model()).(dir := old(Model()).dir.(teachers := old(Model()).dir.teachers + [t.View()]),
                                       nextTeacherId := old(nextTeacherId) + 1)
    {
      AppendTeacher(t);
      Save();
    }

    /** `add_teacher`, stamped `now`: see `Schedule.AddTeacher`; nothing changes when the name is rejected. */
    method AddTeacher(rawName: string, speciality: string, now: string) returns (r: Result<()>)
      requires Valid()
      modifies this
      ensures Valid()
      ensures match S.AddTeacher(old(Model()), rawName, speciality, now)
              case Ok(next) => r == Ok(()) && Model() == next && Saved()
              case Err(e) => r == Err(e) && Model() == old(Model()) && saved == old(saved)
    {
      var created := TeacherUser.New(nextTeacherId, rawName, speciality, now);
      if created.Err? {
        return Err(created.error);
      }
      InsertTeacher(created.value);
      r := Ok(());
    }

    /** `add_course`: see `Schedule.AddCourse`. */
    method AddCourse(name: string, instrument: Value, teacherId: Value)
      requires Valid()
      modifies this
      ensures Valid() && Saved()
      ensures Model() == S.AddCourse(old(Model()), name, instrument, teacherId)
    {
      var c := new Course(nextCourseId, name, teacherId, instrument);
      AppendCourse(c);
      Save();
    }

    /**
     * `remove_student`: False with nothing changed for an unknown ID;
     * otherwise the rosters lose the student in place and the student list
     * is filtered, as `Registry.RemoveStudent` describes.
     */
    method RemoveStudent(sid: int) returns (ok: bool)
      requires Valid()
      modifies this, courses
      ensures Valid()
      ensures ok ==> Saved()
      ensures !ok ==> saved == old(saved)
      ensures ok <==> sid in R.StudentIds(old(Model()).dir.students)
      ensures ok ==> Model() == old(Model()).(dir := R.RemoveStudent(old(Model()).dir, sid).value)
      ensures !ok ==> Model() == old(Model())
    {
      ObjIdsAreViewIds(students, teachers, courses);
      if FindStudentById(sid).None? {
        return false;
      }
      R.RemoveStudentFound(Model().dir, sid);
      StripRosters(sid);
      KeepStudentsOtherThan(sid);
      Save();
      ok := true;
    }

    /**
     * `remove_teacher`: False with nothing changed for an unknown ID;
     * otherwise the courses taught lose their teacher in place and the
     * teacher list is filtered, as `Registry.RemoveTeacher` describes.
     */
    method RemoveTeacher(tid: int) returns (ok: bool)
      requires Valid()
      modifies this, courses
      ensures Valid()
      ensures ok ==> Saved()
      ensures !ok ==> saved == old(saved)
      ensures ok <==> tid in R.TeacherIds(old(Model()).dir.teachers)
      ensures ok ==> Model() == old(Model()).(dir := R.RemoveTeacher(old(Model()).dir, tid).value)
      ensures !ok ==> Model() == old(Model())
    {
      ObjIdsAreViewIds(students, teachers, courses);
      if FindTeacherById(tid).None? {
        return false;
      }
      R.RemoveTeacherFound(Model().dir, tid);
      NullTeacher(tid);
      KeepTeachersOtherThan(tid);
      Save();
      ok := true;
    }

    /**
     * `remove_course`: False with nothing changed for an unknown ID;
     * otherwise the students' lists lose the course in place and the course
     * list is filtered, as `Registry.RemoveCourse` describes.
     */
    method RemoveCourse(cid: int) returns (ok: bool)
      requires Valid()
      modifies this, students
      ensures Valid()
      ensures ok ==> Saved()
      ensures !ok ==> saved == old(saved)
      ensures ok <==> cid in R.CourseIds(old(Model()).dir.courses)
      ensures ok ==> Model() == old(Model()).(dir := R.RemoveCourse(old(Model()).dir, cid).value)
      ensures !ok ==> Model() == old(Model())
    {
      ObjIdsAreViewIds(students, teachers, courses);
      if FindCourseById(cid).None? {
        return false;
      }
      R.RemoveCourseFound(Model().dir, cid);
      StripCourseLists(cid);
      KeepCoursesOtherThan(cid);
      Save();
      ok := true;
    }

    /**
     * `enrol_student_in_course`: False with nothing changed when either ID
     * is unknown; otherwise the course's roster and the student's list each
     * gain the other if absent, as `Registry.Enrol` describes.
     */
    method Enrol(sid: int, cid: int) returns (ok: bool)
      requires Valid()
      modifies this, students, courses
      ensures Valid()
      ensures ok ==> Saved()
      ensures !ok ==> saved == old(saved)
      ensures ok <==> sid in R.StudentIds(old(Model()).dir.students) && cid in R.CourseIds(old(Model()).dir.courses)
      ensures ok ==> Model() == old(Model()).(dir := R.Enrol(old(Model()).dir, sid, cid).value)
      ensures !ok ==> Model() == old(Model())
    {
      ObjIdsAreViewIds(students, teachers, courses);
      var si := R.Find(StudentObjIds(students), sid);
      var ci := R.Find(CourseObjIds(courses), cid);
      if si.None? || ci.None? {
        return false;
      }
      R.EnrolAt(Model().dir, sid, cid, si.value, ci.value);
      EnrolObjects(si.value, ci.value, sid, cid);
      Save();
      ok := true;
    }

    /**
     * `unenrol_student_from_course`: False with nothing changed when either
     * ID is unknown; otherwise both sides drop the other if present, as
     * `Registry.Unenrol` describes, and the result is True even for a pair
     * that was not enrolled.
     */
    method Unenrol(sid: int, cid: int) returns (ok: bool)
      requires Valid()
      modifies this, students, courses
      ensures Valid()
      ensures ok ==> Saved()
      ensures !ok ==> saved == old(saved)
      ensures ok <==> sid in R.StudentIds(old(Model()).dir.students) && cid in R.CourseIds(old(Model()).dir.courses)
      ensures ok ==> Model() == old(Model()).(dir := R.Unenrol(old(Model()).dir, sid, cid).value)
      ensures !ok ==> Model() == old(Model())
    {
      ObjIdsAreViewIds(students, teachers, courses);
      var si := R.Find(StudentObjIds(students), sid);
      var ci := R.Find(CourseObjIds(courses), cid);
      if si.None? || ci.None? {
        return false;
      }
      R.UnenrolAt(Model().dir, sid, cid, si.value, ci.value);
      UnenrolObjects(si.value, ci.value, sid, cid);
      Save();
      ok := true;
    }

    /** `check_in`: see `Schedule.CheckIn`. */
    method CheckIn(sid: int, cid: int, now: string) returns (ok: bool)
      requires Valid()
      modifies this
      ensures Valid()
      ensures ok ==> Saved()
      ensures !ok ==> saved == old(saved)
      ensures ok <==> S.CheckIn(old(Model()), sid, cid, now).Some?
      ensures ok ==> Model() == S.CheckIn(old(Model()), sid, cid, now).value
      ensures !ok ==> Model() == old(Model())
    {
      ObjIdsAreViewIds(students, teachers, courses);
      if FindStudentById(sid).None? || FindCourseById(cid).None? {
        return false;
      }
      S.CheckInFound(Model(), sid, cid, now);
      AppendAttendance(CheckInRecord(sid, cid, now));
      Save();
      ok := true;
    }

    /** `record_payment`: see `Schedule.RecordPayment`; a failed check appends nothing. */
    method RecordPayment(sid: int, amount: Option<real>, means: string, now: string) returns (r: Result<()>)
      requires Valid()
      modifies this
      ensures Valid()
      ensures r.Ok? ==> Saved()
      ensures r.Err? ==> saved == old(saved)
      ensures r.Ok? <==> S.RecordPayment(old(Model()), sid, amount, means, now).Ok?
      ensures r.Ok? ==> Model() == S.RecordPayment(old(Model()), sid, amount, means, now).value
      ensures r.Err? ==> r.error == S.RecordPayment(old(Model()), sid, amount, means, now).error && Model() == old(Model())
    {
      ObjIdsAreViewIds(students, teachers, courses);
      if sid !in StudentObjIds(students) {
        return Err(UnknownStudent(sid));
      }
      if amount.None? {
        return Err(NonNumericAmount);
      }
      if amount.value < 0.0 {
        return Err(NegativeAmount);
      }
      AppendFinance(PaymentRecord(sid, amount.value, means, now));
      Save();
      r := Ok(());
    }

    /** `list_students`: one row per student in order, built by a loop. */
    method ListStudents() returns (out: seq<StudentListing>)
      requires Valid()
      ensures out == StudentListings(Model().dir.students)
    {
      out := [];
      for i := 0 to |students|
        invariant |out| == i
        invariant forall k :: 0 <= k < i ==>
                    out[k] == StudentListing(students[k].id, students[k].name, |students[k].enrolledCourseIds|)
      {
        var s := students[i];
        out := out + [StudentListing(s.id, s.name, |s.enrolledCourseIds|)];
      }
    }

    /** `list_teachers`. */
    method ListTeachers() returns (out: seq<TeacherListing>)
      requires Valid()
      ensures out == TeacherListings(Model().dir.teachers)
    {
      out := [];
      for i := 0 to |teachers|
        invariant |out| == i
        invariant forall k :: 0 <= k < i ==>
                    out[k] == TeacherListing(teachers[k].id, teachers[k].name, teachers[k].speciality)
      {
        var t := teachers[i];
        out := out + [TeacherListing(t.id, t.name, t.speciality)];
      }
    }

    /** `list_courses`. */
    method ListCourses() returns (out: seq<CourseListing>)
      requires Valid()
      ensures out == CourseListings(Model().dir.courses)
    {
      out := [];
      for i := 0 to |courses|
        invariant |out| == i
        invariant forall k :: 0 <= k < i ==>
                    out[k] == CourseListing(courses[k].id, courses[k].name, courses[k].instrument, courses[k].teacherId)
      {
        var c := courses[i];
        out := out + [CourseListing(c.id, c.name, c.instrument, c.teacherId)];
      }
    }
  }
}
