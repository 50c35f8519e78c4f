/**
 * The schedule manager's live entity objects seen as values, and the
 * in-place loops its removals run over them (`for c in self.courses: ...`
 * in PST5/app/schedule.py and PST4/app/schedule.py). Each loop is proved
 * to leave the objects exactly as the corresponding value-level cascade
 * of module Registry describes.
 */
module Views {
  import opened Seqs
  import opened Json
  import opened Students
  import opened Teachers
  import opened Registry

  function StudentViews(ss: seq<StudentUser>): (r: seq<StudentRec>)
    reads ss
    ensures |r| == |ss| && forall i :: 0 <= i < |ss| ==> r[i] == ss[i].View()
  {
    seq(|ss|, i requires 0 <= i < |ss| reads ss => ss[i].View())
  }

  function TeacherViews(ts: seq<TeacherUser>): (r: seq<TeacherRec>)
    reads ts
    ensures |r| == |ts| && forall i :: 0 <= i < |ts| ==> r[i] == ts[i].View()
  {
    seq(|ts|, i requires 0 <= i < |ts| reads ts => ts[i].View())
  }

  function CourseViews(cs: seq<Course>): (r: seq<CourseRec>)
    reads cs
    ensures |r| == |cs| && forall i :: 0 <= i < |cs| ==> r[i] == cs[i].View()
  {
    seq(|cs|, i requires 0 <= i < |cs| reads cs => cs[i].View())
  }

  /** The IDs of live objects; an ID never changes, so reading it needs no frame. */
  function StudentObjIds(ss: seq<StudentUser>): (r: seq<int>)
    ensures |r| == |ss| && forall i :: 0 <= i < |ss| ==> r[i] == ss[i].id
  {
    seq(|ss|, i requires 0 <= i < |ss| => ss[i].id)
  }

  function TeacherObjIds(ts: seq<TeacherUser>): (r: seq<int>)
    ensures |r| == |ts| && forall i :: 0 <= i < |ts| ==> r[i] == ts[i].id
  {
    seq(|ts|, i requires 0 <= i < |ts| => ts[i].id)
  }

  function CourseObjIds(cs: seq<Course>): (r: seq<int>)
    ensures |r| == |cs| && forall i :: 0 <= i < |cs| ==> r[i] == cs[i].id
  {
    seq(|cs|, i requires 0 <= i < |cs| => cs[i].id)
  }

  lemma ObjIdsAreViewIds(ss: seq<StudentUser>, ts: seq<TeacherUser>, cs: seq<Course>)
    ensures StudentIds(StudentViews(ss)) == StudentObjIds(ss)
    ensures TeacherIds(TeacherViews(ts)) == TeacherObjIds(ts)
    ensures CourseIds(CourseViews(cs)) == CourseObjIds(cs)
  {
  }

  /** The comprehensions `[s for s in self.students if s.id != sid]` and the like, on objects. */
  function StudentUserNot(sid: int): StudentUser -> bool
  {
    (s: StudentUser) => s.id != sid
  }

  function TeacherUserNot(tid: int): TeacherUser -> bool
  {
    (t: TeacherUser) => t.id != tid
  }

  function CourseObjNot(cid: int): Course -> bool
  {
    (c: Course) => c.id != cid
  }

  /** Filtering the objects by ID and then viewing them is viewing them and then filtering. */
  lemma {:induction false} KeptStudentViews(ss: seq<StudentUser>, sid: int)
    ensures StudentViews(Keep(ss, StudentUserNot(sid))) == Keep(StudentViews(ss), StudentNot(sid))
    decreases |ss|
  {
    if ss != [] {
      KeptStudentViews(ss[1..], sid);
      assert StudentViews(ss)[1..] == StudentViews(ss[1..]);
      var rest := Keep(ss[1..], StudentUserNot(sid));
      if ss[0].id != sid {
        assert StudentViews([ss[0]] + rest) == [ss[0].View()] + StudentViews(rest);
      }
    }
  }

  lemma {:induction false} KeptTeacherViews(ts: seq<TeacherUser>, tid: int)
    ensures TeacherViews(Keep(ts, TeacherUserNot(tid))) == Keep(TeacherViews(ts), TeacherNot(tid))
    decreases |ts|
  {
    if ts != [] {
      KeptTeacherViews(ts[1..], tid);
      assert TeacherViews(ts)[1..] == TeacherViews(ts[1..]);
      var rest := Keep(ts[1..], TeacherUserNot(tid));
      if ts[0].id != tid {
        assert TeacherViews([ts[0]] + rest) == [ts[0].View()] + TeacherViews(rest);
      }
    }
  }

  lemma {:induction false} KeptCourseViews(cs: seq<Course>, cid: int)
    ensures CourseViews(Keep(cs, CourseObjNot(cid))) == Keep(CourseViews(cs), CourseNot(cid))
    decreases |cs|
  {
    if cs != [] {
      KeptCourseViews(cs[1..], cid);
      assert CourseViews(cs)[1..] == CourseViews(cs[1..]);
      var rest := Keep(cs[1..], CourseObjNot(cid));
      if cs[0].id != cid {
        assert CourseViews([cs[0]] + rest) == [cs[0].View()] + CourseViews(rest);
      }
    }
  }

  /** `student.enroll_course(cid)` on the student at `si`; the other students are untouched. */
  method EnrolStudentAt(ss: seq<StudentUser>, si: nat, cid: int)
    requires NoDup(ss) && si < |ss|
    modifies ss[si]
    ensures StudentViews(ss) ==
            old(StudentViews(ss))[si := old(ss[si].View()).(courseIds := AddIfAbsent(old(ss[si].enrolledCourseIds), cid))]
  {
    ss[si].EnrollCourse(cid);
    assert forall k :: 0 <= k < |ss| && k != si ==> ss[k] != ss[si];
  }

  /** `student.drop_course(cid)` on the student at `si`; the other students are untouched. */
  method UnenrolStudentAt(ss: seq<StudentUser>, si: nat, cid: int)
    requires NoDup(ss) && si < |ss|
    modifies ss[si]
    ensures StudentViews(ss) ==
            old(StudentViews(ss))[si := old(ss[si].View()).(courseIds := Discard(old(ss[si].enrolledCourseIds), cid))]
  {
    ss[si].DropCourse(cid);
    assert forall k :: 0 <= k < |ss| && k != si ==> ss[k] != ss[si];
  }

  /** `course.enroll_student(sid)` on the course at `ci`; the other courses are untouched. */
  method EnrolCourseAt(cs: seq<Course>, ci: nat, sid: int)
    requires NoDup(cs) && ci < |cs|
    modifies cs[ci]
    ensures CourseViews(cs) ==
            old(CourseViews(cs))[ci := old(cs[ci].View()).(studentIds := AddIfAbsent(old(cs[ci].enrolledStudentIds), sid))]
  {
    cs[ci].EnrollStudent(sid);
    assert forall k :: 0 <= k < |cs| && k != ci ==> cs[k] != cs[ci];
  }

  /** `course.remove_student(sid)` on the course at `ci`; the other courses are untouched. */
  method UnenrolCourseAt(cs: seq<Course>, ci: nat, sid: int)
    requires NoDup(cs) && ci < |cs|
    modifies cs[ci]
    ensures CourseViews(cs) ==
            old(CourseViews(cs))[ci := old(cs[ci].View()).(studentIds := Discard(old(cs[ci].enrolledStudentIds), sid))]
  {
    cs[ci].RemoveStudent(sid);
    assert forall k :: 0 <= k < |cs| && k != ci ==> cs[k] != cs[ci];
  }

  /** `for c in self.courses: if sid in c.enrolled_student_ids: c.enrolled_student_ids.remove(sid)`. */
  method StripStudentFromRosters(cs: seq<Course>, sid: int)
    requires NoDup(cs)
    modifies cs
    ensures CourseViews(cs) == StripStudent(old(CourseViews(cs)), sid)
  {
    for i := 0 to |cs|
      invariant forall j :: 0 <= j < i ==>
        cs[j].View() == old(cs[j].View()).(studentIds := Discard(old(cs[j].enrolledStudentIds), sid))
      invariant forall j :: i <= j < |cs| ==> cs[j].View() == old(cs[j].View())
    {
      var c := cs[i];
      if sid in c.enrolledStudentIds {
        c.enrolledStudentIds := RemoveFirst(c.enrolledStudentIds, sid);
      }
    }
  }

  /** `for s in self.students: if cid in s.enrolled_course_ids: s.enrolled_course_ids.remove(cid)`. */
  method StripCourseFromStudents(ss: seq<StudentUser>, cid: int)
    requires NoDup(ss)
    modifies ss
    ensures StudentViews(ss) == StripCourse(old(StudentViews(ss)), cid)
  {
    for i := 0 to |ss|
      invariant forall j :: 0 <= j < i ==>
        ss[j].View() == old(ss[j].View()).(courseIds := Discard(old(ss[j].enrolledCourseIds), cid))
      invariant forall j :: i <= j < |ss| ==> ss[j].View() == old(ss[j].View())
    {
      var s := ss[i];
      if cid in s.enrolledCourseIds {
        s.enrolledCourseIds := RemoveFirst(s.enrolledCourseIds, cid);
      }
    }
  }

  /** `for c in self.courses: if c.teacher_id == tid: c.teacher_id = None`. */
  method NullTeacherRefs(cs: seq<Course>, tid: int)
    requires NoDup(cs)
    modifies cs
    ensures CourseViews(cs) == NullTeacher(old(CourseViews(cs)), tid)
  {
    for i := 0 to |cs|
      invariant forall j :: 0 <= j < i ==>
        cs[j].View() == (if PyEqualsInt(old(cs[j].teacherId), tid) then old(cs[j].View()).(teacherId := JNull)
                         else old(cs[j].View()))
      invariant forall j :: i <= j < |cs| ==> cs[j].View() == old(cs[j].View())
    {
      var c := cs[i];
      if PyEqualsInt(c.teacherId, tid) {
        c.teacherId := JNull;
      }
    }
  }
}
