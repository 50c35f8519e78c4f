/**
 * `ScheduleManager` of PST4/app/schedule.py as a class over live entity
 * objects: the earlier manager, with one log (attendance) and no
 * payments. Its abstract state is a `Store.State` whose finance log is
 * always empty. Each operation is proved to move that state exactly as
 * the value-level operation of module Registry, Schedule or ScheduleV4
 * describes; an operation that ends with `_save_data` leaves the ghost
 * `saved` state equal to the new state.
 */
module ManagerV4 {
  import opened Outcomes
  import opened Seqs
  import opened Text
  import opened Json
  import opened Students
  import opened Teachers
  import R = Registry
  import opened Views
  import opened Logs
  import opened Store
  import S = Schedule
  import V = ScheduleV4
  import M = Manager

  class ScheduleManager {
    var students: seq<StudentUser>
    var teachers: seq<TeacherUser>
    var courses: seq<Course>
    var attendanceLog: seq<Record>
    var nextStudentId: int
    var nextTeacherId: int
    var nextCourseId: int
    /**
     * The state the data file holds: the one last written by `_save_data`,
     * or the one it was loaded from.
     */
    ghost var saved: State

    /** The manager as a value; it keeps no finance log. */
    ghost function Model(): State
      reads this, students, teachers, courses
    {
      State(R.Directory(StudentViews(students), TeacherViews(teachers), CourseViews(courses)),
            attendanceLog, [], nextStudentId, nextTeacherId, nextCourseId)
    }

    /** Each entity object appears once in its list. */
    ghost predicate Valid()
      reads this
    {
      NoDup(students) && NoDup(teachers) && NoDup(courses)
    }

    /** The data file holds the current state. */
    ghost predicate Saved()
      reads this, students, teachers, courses
    {
      saved == Model()
    }

    /**
     * `__init__` with `_load_data`: the manager starts from what the data
     * file holds (a missing file is created holding the empty structure);
     * a file that cannot be loaded raises, as `ScheduleV4.Load` describes.
     */
    static method Open(file: StoreFile, now: string) returns (r: Result<ScheduleManager>)
      ensures r.Ok? <==> V.Load(file, now).Ok?
      ensures r.Err? ==> r.error == V.Load(file, now).error
      ensures r.Ok? ==> fresh(r.value) && r.value.Valid() && r.value.Saved() &&
                        r.value.Model() == V.Load(file, now).value
    {
      var loaded := V.Load(file, now);
      if loaded.Err? {
        return Err(loaded.error);
      }
      var m := new ScheduleManager.FromState(loaded.value);
      r := Ok(m);
    }

    /** The manager holding one new object per record of `st`, whose finance log is empty. */
    constructor FromState(st: State)
      requires NamesStored(st.dir) && st.finance == []
      ensures Valid() && Saved() && Model() == st
    {
      var ss := M.BuildStudents(st.dir.students);
      var ts := M.BuildTeachers(st.dir.teachers);
      var cs := M.BuildCourses(st.dir.courses);
      students := ss;
      teachers := ts;
      courses := cs;
      attendanceLog := st.attendance;
      nextStudentId := st.nextStudentId;
      nextTeacherId := st.nextTeacherId;
      nextCourseId := st.nextCourseId;
      new;
      assert StudentViews(students) == st.dir.students;
      assert TeacherViews(teachers) == st.dir.teachers;
      assert CourseViews(courses) == st.dir.courses;
      Save();
    }

    /** `_save_data`: the data file now holds the current state. */
    method Save()
      requires Valid()
      modifies this`saved
      ensures Valid()
      ensures Saved() && Model() == old(Model())
    {
      saved := Model();
    }

    // -------------------------------------------------------------------
    // The steps the operations are made of, each with its effect on Model

    /** `self.students.append(s)` and `self.next_student_id += 1`. */
    method AppendStudent(s: StudentUser)
      requires Valid() && s !in students
      modifies this`students, this`nextStudentId
      ensures Valid()
      ensures Model() == old(Model()).(dir := old(Model()).dir.(students := old(Model()).dir.students + [s.View()]),
                                       nextStudentId := old(nextStudentId) + 1)
    {
      students := students + [s];
      nextStudentId := nextStudentId + 1;
      assert StudentViews(students) == old(StudentViews(students)) + [s.View()];
      assert TeacherViews(teachers) == old(TeacherViews(teachers));
      assert CourseViews(courses) == old(CourseViews(courses));
    }

    /** `self.teachers.append(t)` and `self.next_teacher_id += 1`. */
    method AppendTeacher(t: TeacherUser)
      requires Valid() && t !in teachers
      modifies this`teachers, this`nextTeacherId
      ensures Valid()
      ensures Model() == old(Model()).(dir := old(Model()).dir.(teachers := old(Model()).dir.teachers + [t.View()]),
                                       nextTeacherId := old(nextTeacherId) + 1)
    {
      teachers := teachers + [t];
      nextTeacherId := nextTeacherId + 1;
      assert TeacherViews(teachers) == old(TeacherViews(teachers)) + [t.View()];
      assert StudentViews(students) == old(StudentViews(students));
      assert CourseViews(courses) == old(CourseViews(courses));
    }

    /** `self.courses.append(c)` and `self.next_course_id += 1`. */
    method AppendCourse(c: Course)
      requires Valid() && c !in courses
      modifies this`courses, this`nextCourseId
      ensures Valid()
      ensures Model() == old(Model()).(dir := old(Model()).dir.(courses := old(Model()).dir.courses + [c.View()]),
                                       nextCourseId := old(nextCourseId) + 1)
    {
      courses := courses + [c];
      nextCourseId := nextCourseId + 1;
      assert CourseViews(courses) == old(CourseViews(courses)) + [c.View()];
      assert StudentViews(students) == old(StudentViews(students));
      assert TeacherViews(teachers) == old(TeacherViews(teachers));
    }

    /** `self.attendance_log.append(rec)`. */
    method AppendAttendance(rec: Record)
      requires Valid()
      modifies this`attendanceLog
      ensures Valid()
      ensures Model() == old(Model()).(attendance := old(Model()).attendance + [rec])
    {
      attendanceLog := attendanceLog + [rec];
    }

    /** `self.students = [s for s in self.students if s.id != sid]`. */
    method KeepStudentsOtherThan(sid: int)
      requires Valid()
      modifies this`students
      ensures Valid()
      ensures Model() == old(Model()).(dir := old(Model()).dir.(students := Keep(old(Model()).dir.students, R.StudentNot(sid))))
    {
      students := Keep(students, StudentUserNot(sid));
      KeptStudentViews(old(students), sid);
      KeepNoDup(old(students), StudentUserNot(sid));
      assert StudentViews(old(students)) == old(StudentViews(students));
      assert TeacherViews(teachers) == old(TeacherViews(teachers));
      assert CourseViews(courses) == old(CourseViews(courses));
    }

    /** `self.teachers = [t for t in self.teachers if t.id != tid]`. */
    method KeepTeachersOtherThan(tid: int)
      requires Valid()
      modifies this`teachers
      ensures Valid()
      ensures Model() == old(Model()).(dir := old(Model()).dir.(teachers := Keep(old(Model()).dir.teachers, R.TeacherNot(tid))))
    {
      teachers := Keep(teachers, TeacherUserNot(tid));
      KeptTeacherViews(old(teachers), tid);
      KeepNoDup(old(teachers), TeacherUserNot(tid));
      assert TeacherViews(old(teachers)) == old(TeacherViews(teachers));
      assert StudentViews(students) == old(StudentViews(students));
      assert CourseViews(courses) == old(CourseViews(courses));
    }

    /** `self.courses = [c for c in self.courses if c.id != cid]`. */
    method KeepCoursesOtherThan(cid: int)
      requires Valid()
      modifies this`courses
      ensures Valid()
      ensures Model() == old(Model()).(dir := old(Model()).dir.(courses := Keep(old(Model()).dir.courses, R.CourseNot(cid))))
    {
      courses := Keep(courses, CourseObjNot(cid));
      KeptCourseViews(old(courses), cid);
      KeepNoDup(old(courses), CourseObjNot(cid));
      assert CourseViews(old(courses)) == old(CourseViews(courses));
      assert StudentViews(students) == old(StudentViews(students));
      assert TeacherViews(teachers) == old(TeacherViews(teachers));
    }

    /** The roster loop of `remove_student`. */
    method StripRosters(sid: int)
      requires Valid()
      modifies courses
      ensures Valid()
      ensures Model() == old(Model()).(dir := old(Model()).dir.(courses := R.StripStudent(old(Model()).dir.courses, sid)))
    {
      StripStudentFromRosters(courses, sid);
      assert StudentViews(students) == old(StudentViews(students));
      assert TeacherViews(teachers) == old(TeacherViews(teachers));
    }

    /** The course-list loop of `remove_course`. */
    method StripCourseLists(cid: int)
      requires Valid()
      modifies students
      ensures Valid()
      ensures Model() == old(Model()).(dir := old(Model()).dir.(students := R.StripCourse(old(Model()).dir.students, cid)))
    {
      StripCourseFromStudents(students, cid);
      assert TeacherViews(teachers) == old(TeacherViews(teachers));
      assert CourseViews(courses) == old(CourseViews(courses));
    }

    /** The teacher-reference loop of `remove_teacher`. */
    method NullTeacher(tid: int)
      requires Valid()
      modifies courses
      ensures Valid()
      ensures Model() == old(Model()).(dir := old(Model()).dir.(courses := R.NullTeacher(old(Model()).dir.courses, tid)))
    {
      NullTeacherRefs(courses, tid);
      assert StudentViews(students) == old(StudentViews(students));
      assert TeacherViews(teachers) == old(TeacherViews(teachers));
    }

    /** The two appends of `enrol_student_in_course` for the objects at `si` and `ci`. */
    method EnrolObjects(si: nat, ci: nat, sid: int, cid: int)
      requires Valid() && si < |students| && ci < |courses|
      modifies students[si], courses[ci]
      ensures Valid()
      ensures Model() == old(Model()).(dir := R.EnrolledAt(old(Model()).dir, sid, cid, si, ci))
    {
      ghost var d := Model().dir;
      EnrolCourseAt(courses, ci, sid);
      assert CourseViews(courses) == R.EnrolledAt(d, sid, cid, si, ci).courses;
      EnrolStudentAt(students, si, cid);
      assert StudentViews(students) == R.EnrolledAt(d, sid, cid, si, ci).students;
      assert CourseViews(courses) == R.EnrolledAt(d, sid, cid, si, ci).courses;
      assert TeacherViews(teachers) == d.teachers;
    }

    /** The two removals of `unenrol_student_from_course` for the objects at `si` and `ci`. */
    method UnenrolObjects(si: nat, ci: nat, sid: int, cid: int)
      requires Valid() && si < |students| && ci < |courses|
      modifies students[si], courses[ci]
      ensures Valid()
      ensures Model() == old(Model()).(dir := R.UnenrolledAt(old(Model()).dir, sid, cid, si, ci))
    {
      ghost var d := Model().dir;
      UnenrolCourseAt(courses, ci, sid);
      assert CourseViews(courses) == R.UnenrolledAt(d, sid, cid, si, ci).courses;
      UnenrolStudentAt(students, si, cid);
      assert StudentViews(students) == R.UnenrolledAt(d, sid, cid, si, ci).students;
      assert CourseViews(courses) == R.UnenrolledAt(d, sid, cid, si, ci).courses;
      assert TeacherViews(teachers) == d.teachers;
    }

    // -------------------------------------------------------------------
    // The operations

    /** The part of `add_student` after the constructor has accepted the name. */
    method InsertStudent(s: StudentUser)
      requires Valid() && s !in students
      modifies this
      ensures Valid() && Saved()
      ensures Model() == old(Model()).(dir := old(Model()).dir.(students := old(Model()).dir.students + [s.View()]),
                                       nextStudentId := old(nextStudentId) + 1)
    {
      AppendStudent(s);
      Save();
    }

    /** The part of `add_teacher` after the constructor has accepted the name. */
    method InsertTeacher(t: TeacherUser)
      requires Valid() && t !in teachers
      modifies this
      ensures Valid() && Saved()
      ensures Model() == old(Model()).(dir := old(Model()).dir.(teachers := old(Model()).dir.teachers + [t.View()]),
                                       nextTeacherId := old(nextTeacherId) + 1)
    {
      AppendTeacher(t);
      Save();
    }

    /** `add_student`: as in the later manager, see `Schedule.AddStudent`. */
    method AddStudent(rawName: string, ids: seq<int>) returns (r: Result<()>)
      requires Valid()
      modifies this
      ensures Valid()
      ensures match S.AddStudent(old(Model()), rawName, ids)
              case Ok(next) => r == Ok(()) && Model() == next && Saved()
              case Err(e) => r == Err(e) && Model() == old(Model()) && saved == old(saved)
    {
      var created := StudentUser.New(nextStudentId, rawName, ids);
      if created.Err? {
        return Err(created.error);
      }
      InsertStudent(created.value);
      r := Ok(());
    }

    /** `add_teacher`, stamped `now`: see `Schedule.AddTeacher`. */
    method AddTeacher(rawName: string, speciality: string, now: string) returns (r: Result<()>)
      requires Valid()
      modifies this
      ensures Valid()
      ensures match S.AddTeacher(old(Model()), rawName, speciality, now)
              case Ok(next) => r == Ok(()) && Model() == next && Saved()
              case Err(e) => r == Err(e) && Model() == old(Model()) && saved == old(saved)
    {
      var created := TeacherUser.New(nextTeacherId, rawName, speciality, now);
      if created.Err? {
        return Err(created.error);
      }
      InsertTeacher(created.value);
      r := Ok(());
    }

    /**
     * `add_course(name, instrument, teacher_id)`, which passes its last two
     * arguments to `Course` in the wrong order: the new course refers to
     * the instrument as its teacher and holds the teacher as its
     * instrument (`ScheduleV4.AddCourseAsWritten`).
     */
    method AddCourse(name: string, instrument: Value, teacherId: Value)
      requires Valid()
      modifies this
      ensures Valid() && Saved()
      ensures Model() == V.AddCourseAsWritten(old(Model()), name, instrument, teacherId)
      ensures Model().dir.courses[|old(Model()).dir.courses|] ==
              CourseRec(old(nextCourseId), name, instrument, teacherId, [])
    {
      var c := new Course(nextCourseId, name, instrument, teacherId);
      AppendCourse(c);
      Save();
    }

    /** `remove_student`: as in the later manager, see `Registry.RemoveStudent`. */
    method RemoveStudent(sid: int) returns (ok: bool)
      requires Valid()
      modifies this, courses
      ensures Valid()
      ensures ok ==> Saved()
      ensures !ok ==> saved == old(saved)
      ensures ok <==> sid in R.StudentIds(old(Model()).dir.students)
      ensures ok ==> Model() == old(Model()).(dir := R.RemoveStudent(old(Model()).dir, sid).value)
      ensures !ok ==> Model() == old(Model())
    {
      ObjIdsAreViewIds(students, teachers, courses);
      if R.Find(StudentObjIds(students), sid).None? {
        return false;
      }
      R.RemoveStudentFound(Model().dir, sid);
      StripRosters(sid);
      KeepStudentsOtherThan(sid);
      Save();
      ok := true;
    }

    /** `remove_teacher`: see `Registry.RemoveTeacher`. */
    method RemoveTeacher(tid: int) returns (ok: bool)
      requires Valid()
      modifies this, courses
      ensures Valid()
      ensures ok ==> Saved()
      ensures !ok ==> saved == old(saved)
      ensures ok <==> tid in R.TeacherIds(old(Model()).dir.teachers)
      ensures ok ==> Model() == old(Model()).(dir := R.RemoveTeacher(old(Model()).dir, tid).value)
      ensures !ok ==> Model() == old(Model())
    {
      ObjIdsAreViewIds(students, teachers, courses);
      if R.Find(TeacherObjIds(teachers), tid).None? {
        return false;
      }
      R.RemoveTeacherFound(Model().dir, tid);
      NullTeacher(tid);
      KeepTeachersOtherThan(tid);
      Save();
      ok := true;
    }

    /** `remove_course`: see `Registry.RemoveCourse`. */
    method RemoveCourse(cid: int) returns (ok: bool)
      requires Valid()
      modifies this, students
      ensures Valid()
      ensures ok ==> Saved()
      ensures !ok ==> saved == old(saved)
      ensures ok <==> cid in R.CourseIds(old(Model()).dir.courses)
      ensures ok ==> Model() == old(Model()).(dir := R.RemoveCourse(old(Model()).dir, cid).value)
      ensures !ok ==> Model() == old(Model())
    {
      ObjIdsAreViewIds(students, teachers, courses);
      if R.Find(CourseObjIds(courses), cid).None? {
        return false;
      }
      R.RemoveCourseFound(Model().dir, cid);
      StripCourseLists(cid);
      KeepCoursesOtherThan(cid);
      Save();
      ok := true;
    }

    /** `enrol_student_in_course`: see `Registry.Enrol`. */
    method Enrol(sid: int, cid: int) returns (ok: bool)
      requires Valid()
      modifies this, students, courses
      ensures Valid()
      ensures ok ==> Saved()
      ensures !ok ==> saved == old(saved)
      ensures ok <==> R.Enrol(old(Model()).dir, sid, cid).Some?
      ensures students == old(students) && courses == old(courses)
      ensures ok ==> Model() == old(Model()).(dir := R.Enrol(old(Model()).dir, sid, cid).value)
      ensures !ok ==> Model() == old(Model())
    {
      ObjIdsAreViewIds(students, teachers, courses);
      var si := R.Find(StudentObjIds(students), sid);
      var ci := R.Find(CourseObjIds(courses), cid);
      if si.None? || ci.None? {
        return false;
      }
      R.EnrolAt(Model().dir, sid, cid, si.value, ci.value);
      EnrolObjects(si.value, ci.value, sid, cid);
      Save();
      ok := true;
    }

    /** `unenrol_student_from_course`: see `Registry.Unenrol`. */
    method Unenrol(sid: int, cid: int) returns (ok: bool)
      requires Valid()
      modifies this, students, courses
      ensures Valid()
      ensures ok ==> Saved()
      ensures !ok ==> saved == old(saved)
      ensures ok <==> R.Unenrol(old(Model()).dir, sid, cid).Some?
      ensures students == old(students) && courses == old(courses)
      ensures ok ==> Model() == old(Model()).(dir := R.Unenrol(old(Model()).dir, sid, cid).value)
      ensures !ok ==> Model() == old(Model())
    {
      ObjIdsAreViewIds(students, teachers, courses);
      var si := R.Find(StudentObjIds(students), sid);
      var ci := R.Find(CourseObjIds(courses), cid);
      if si.None? || ci.None? {
        return false;
      }
      R.UnenrolAt(Model().dir, sid, cid, si.value, ci.value);
      UnenrolObjects(si.value, ci.value, sid, cid);
      Save();
      ok := true;
    }

    /**
     * `switch_student_course`: the unenrolment, then the enrolment when the
     * unenrolment succeeded, as `ScheduleV4.Switch` describes. Each step
     * that succeeds saves, so a failed enrolment leaves the unenrolment
     * both in effect and saved.
     */
    method SwitchCourse(sid: int, from: int, to: int) returns (ok: bool)
      requires Valid()
      modifies this, students, courses
      ensures Valid()
      ensures ok == V.Switch(old(Model()).dir, sid, from, to).0
      ensures Model() == old(Model()).(dir := V.Switch(old(Model()).dir, sid, from, to).1)
      ensures R.Unenrol(old(Model()).dir, sid, from).Some? ==> Saved()
      ensures R.Unenrol(old(Model()).dir, sid, from).None? ==> saved == old(saved)
    {
      ghost var d0 := Model().dir;
      var left := Unenrol(sid, from);
      if !left {
        return false;
      }
      ghost var d1 := Model().dir;
      assert d1 == R.Unenrol(d0, sid, from).value;
      ok := Enrol(sid, to);
      assert ok == V.Switch(d0, sid, from, to).0 && Model().dir == V.Switch(d0, sid, from, to).1;
    }

    /** `check_in`, stamped `now`: see `Schedule.CheckIn`. */
    method CheckIn(sid: int, cid: int, now: string) returns (ok: bool)
      requires Valid()
      modifies this
      ensures Valid()
      ensures ok ==> Saved()
      ensures !ok ==> saved == old(saved)
      ensures ok <==> S.CheckIn(old(Model()), sid, cid, now).Some?
      ensures ok ==> Model() == S.CheckIn(old(Model()), sid, cid, now).value
      ensures !ok ==> Model() == old(Model())
    {
      ObjIdsAreViewIds(students, teachers, courses);
      if R.Find(StudentObjIds(students), sid).None? || R.Find(CourseObjIds(courses), cid).None? {
        return false;
      }
      S.CheckInFound(Model(), sid, cid, now);
      AppendAttendance(CheckInRecord(sid, cid, now));
      Save();
      ok := true;
    }

    /**
     * `reset_data`: every collection emptied and every counter back at 1.
     * It does not call `_save_data`, so the data file keeps what it held.
     */
    method ResetData()
      requires Valid()
      modifies this
      ensures Valid()
      ensures Model() == DefaultState
      ensures saved == old(saved)
    {
      students := [];
      teachers := [];
      courses := [];
      attendanceLog := [];
      nextStudentId := 1;
      nextTeacherId := 1;
      nextCourseId := 1;
    }

    /** The entries of `get_lessons_by_day` for the course at position `j`, whose lessons are `ls`. */
    method CourseLessonsOn(j: nat, ls: seq<Record>, day: string) returns (es: seq<V.LessonEntry>)
      requires Valid() && j < |courses|
      ensures es == V.CourseEntries(Model().dir, Model().dir.courses[j], ls, day)
    {
      ghost var d := Model().dir;
      var c := courses[j];
      assert c.View() == d.courses[j];
      es := [];
      for k := 0 to |ls|
        invariant es == V.CourseEntries(d, d.courses[j], ls[..k], day)
      {
        assert ls[..k + 1][..k] == ls[..k];
        var v := Get(ls[k], "day", JStr(""));
        if v.JStr? && Lower(v.s) == Lower(day) {
          var t := V.TeacherOf(TeacherViews(teachers), c.teacherId);
          var names := V.RosterNames(StudentViews(students), c.enrolledStudentIds);
          es := es + [V.LessonEntry(c.id, c.name, if t.Some? then t.value.name else "Unknown", names)];
        }
      }
      assert ls[..|ls|] == ls;
    }

    /**
     * `get_lessons_by_day`, the course at position `j` holding the lessons
     * `lessons[j]` (the source reads them with `getattr(course, "lessons", [])`):
     * course by course and lesson by lesson, one entry per lesson on `day`,
     * as `ScheduleV4.LessonsOn` describes.
     */
    method LessonsByDay(day: string, lessons: seq<seq<Record>>) returns (out: seq<V.LessonEntry>)
      requires Valid() && |lessons| == |courses|
      ensures out == V.LessonsOn(Model().dir, Model().dir.courses, lessons, day)
    {
      ghost var d := Model().dir;
      out := [];
      for j := 0 to |courses|
        invariant out == V.LessonsOn(d, d.courses[..j], lessons[..j], day)
      {
        var es := CourseLessonsOn(j, lessons[j], day);
        V.LessonsOnExtend(d, d.courses, lessons, day, j);
        out := out + es;
      }
      assert d.courses[..|courses|] == d.courses && lessons[..|courses|] == lessons;
    }
  }
}
