/**
 * The relationships the schedule manager keeps between students, teachers
 * and courses, on values: lookup by ID, the cascades of the three
 * removals, enrolment and unenrolment, and the invariant they keep, that
 * each student's course list and each course's roster mirror each other.
 * Both versions of the manager (PST5/app/schedule.py and
 * PST4/app/schedule.py) share this logic.
 */
module Registry {
  import opened Outcomes
  import opened Seqs
  import opened Text
  import opened Json
  import opened Students
  import opened Teachers

  /** The three entity collections, in their list order. */
  datatype Directory = Directory(students: seq<StudentRec>, teachers: seq<TeacherRec>, courses: seq<CourseRec>)

  function StudentIds(ss: seq<StudentRec>): (r: seq<int>)
    ensures |r| == |ss| && forall i :: 0 <= i < |ss| ==> r[i] == ss[i].id
  {
    seq(|ss|, i requires 0 <= i < |ss| => ss[i].id)
  }

  function TeacherIds(ts: seq<TeacherRec>): (r: seq<int>)
    ensures |r| == |ts| && forall i :: 0 <= i < |ts| ==> r[i] == ts[i].id
  {
    seq(|ts|, i requires 0 <= i < |ts| => ts[i].id)
  }

  function CourseIds(cs: seq<CourseRec>): (r: seq<int>)
    ensures |r| == |cs| && forall i :: 0 <= i < |cs| ==> r[i] == cs[i].id
  {
    seq(|cs|, i requires 0 <= i < |cs| => cs[i].id)
  }

  /**
   * `_find`: the position of the first entity whose `str(id)` equals
   * `str(target)`. With integer IDs that is the first entity with that ID,
   * and there is none exactly when the ID is not present.
   */
  function Find(ids: seq<int>, target: int): (r: Option<nat>)
    ensures r.None? <==> target !in ids
    ensures r.Some? ==> r.value < |ids| && ids[r.value] == target
    ensures r.Some? ==> forall j :: 0 <= j < r.value ==> ids[j] != target
  {
    FindFrom(ids, target, 0)
  }

  /** The search of `Find` from position `k` on. */
  function FindFrom(ids: seq<int>, target: int, k: nat): (r: Option<nat>)
    requires k <= |ids|
    ensures r.None? <==> forall j :: k <= j < |ids| ==> ids[j] != target
    ensures r.Some? ==> k <= r.value < |ids| && ids[r.value] == target
    ensures r.Some? ==> forall j :: k <= j < r.value ==> ids[j] != target
    decreases |ids| - k
  {
    if k == |ids| then None
    else
      DecimalInjective(ids[k], target);
      if Decimal(ids[k]) == Decimal(target) then Some(k)
      else FindFrom(ids, target, k + 1)
  }

  /** The filters `s.id != sid`, `t.id != tid` and `c.id != cid` of the removals. */
  function StudentNot(sid: int): StudentRec -> bool
  {
    (s: StudentRec) => s.id != sid
  }

  function TeacherNot(tid: int): TeacherRec -> bool
  {
    (t: TeacherRec) => t.id != tid
  }

  function CourseNot(cid: int): CourseRec -> bool
  {
    (c: CourseRec) => c.id != cid
  }

  function IdNot(x: int): int -> bool
  {
    (y: int) => y != x
  }

  /** Filtering the students by ID filters their IDs the same way. */
  lemma {:induction false} KeptStudentIds(ss: seq<StudentRec>, sid: int)
    ensures StudentIds(Keep(ss, StudentNot(sid))) == Keep(StudentIds(ss), IdNot(sid))
    decreases |ss|
  {
    if ss != [] {
      KeptStudentIds(ss[1..], sid);
      assert StudentIds(ss[1..]) == StudentIds(ss)[1..];
      var rest := Keep(ss[1..], StudentNot(sid));
      if ss[0].id != sid {
        assert StudentIds([ss[0]] + rest) == [ss[0].id] + StudentIds(rest);
      }
    }
  }

  lemma {:induction false} KeptTeacherIds(ts: seq<TeacherRec>, tid: int)
    ensures TeacherIds(Keep(ts, TeacherNot(tid))) == Keep(TeacherIds(ts), IdNot(tid))
    decreases |ts|
  {
    if ts != [] {
      KeptTeacherIds(ts[1..], tid);
      assert TeacherIds(ts[1..]) == TeacherIds(ts)[1..];
      var rest := Keep(ts[1..], TeacherNot(tid));
      if ts[0].id != tid {
        assert TeacherIds([ts[0]] + rest) == [ts[0].id] + TeacherIds(rest);
      }
    }
  }

  lemma {:induction false} KeptCourseIds(cs: seq<CourseRec>, cid: int)
    ensures CourseIds(Keep(cs, CourseNot(cid))) == Keep(CourseIds(cs), IdNot(cid))
    decreases |cs|
  {
    if cs != [] {
      KeptCourseIds(cs[1..], cid);
      assert CourseIds(cs[1..]) == CourseIds(cs)[1..];
      var rest := Keep(cs[1..], CourseNot(cid));
      if cs[0].id != cid {
        assert CourseIds([cs[0]] + rest) == [cs[0].id] + CourseIds(rest);
      }
    }
  }

  /** The loop of `remove_student` over the courses: each roster loses the student. */
  function StripStudent(cs: seq<CourseRec>, sid: int): (r: seq<CourseRec>)
    ensures |r| == |cs|
    ensures forall j :: 0 <= j < |cs| ==> r[j] == cs[j].(studentIds := Discard(cs[j].studentIds, sid))
  {
    seq(|cs|, j requires 0 <= j < |cs| => cs[j].(studentIds := Discard(cs[j].studentIds, sid)))
  }

  /** The loop of `remove_course` over the students: each course list loses the course. */
  function StripCourse(ss: seq<StudentRec>, cid: int): (r: seq<StudentRec>)
    ensures |r| == |ss|
    ensures forall i :: 0 <= i < |ss| ==> r[i] == ss[i].(courseIds := Discard(ss[i].courseIds, cid))
  {
    seq(|ss|, i requires 0 <= i < |ss| => ss[i].(courseIds := Discard(ss[i].courseIds, cid)))
  }

  /** The loop of `remove_teacher`: every course whose `teacher_id == tid` gets None. */
  function NullTeacher(cs: seq<CourseRec>, tid: int): (r: seq<CourseRec>)
    ensures |r| == |cs|
    ensures forall j :: 0 <= j < |cs| ==>
              r[j] == if PyEqualsInt(cs[j].teacherId, tid) then cs[j].(teacherId := JNull) else cs[j]
  {
    seq(|cs|, j requires 0 <= j < |cs| =>
      if PyEqualsInt(cs[j].teacherId, tid) then cs[j].(teacherId := JNull) else cs[j])
  }

  /**
   * `remove_student`: None (the source's False) for an unknown ID;
   * otherwise every student with that ID is gone, the courses keep their
   * order and IDs with the student stripped from their rosters, and the
   * teachers are untouched.
   */
  function RemoveStudent(d: Directory, sid: int): (r: Option<Directory>)
    ensures r.Some? <==> sid in StudentIds(d.students)
    ensures r.Some? ==> sid !in StudentIds(r.value.students) && r.value.teachers == d.teachers
    ensures r.Some? ==> CourseIds(r.value.courses) == CourseIds(d.courses)
  {
    if Find(StudentIds(d.students), sid).None? then None
    else
      var r := WithoutStudent(d, sid);
      KeepMeaning(d.students, StudentNot(sid));
      KeptStudentIds(d.students, sid);
      KeepMeaning(StudentIds(d.students), IdNot(sid));
      assert CourseIds(r.courses) == CourseIds(d.courses);
      Some(r)
  }

  /**
   * `remove_course`: None for an unknown ID; otherwise every course with
   * that ID is gone and every student's list has lost it.
   */
  function RemoveCourse(d: Directory, cid: int): (r: Option<Directory>)
    ensures r.Some? <==> cid in CourseIds(d.courses)
    ensures r.Some? ==> cid !in CourseIds(r.value.courses) && r.value.teachers == d.teachers
    ensures r.Some? ==> StudentIds(r.value.students) == StudentIds(d.students)
  {
    if Find(CourseIds(d.courses), cid).None? then None
    else
      var r := WithoutCourse(d, cid);
      KeepMeaning(d.courses, CourseNot(cid));
      KeptCourseIds(d.courses, cid);
      KeepMeaning(CourseIds(d.courses), IdNot(cid));
      assert StudentIds(r.students) == StudentIds(d.students);
      Some(r)
  }

  /**
   * `remove_teacher`: None for an unknown ID; otherwise the teacher is gone
   * and no course refers to it any more, while the students, the number and
   * order of courses and everything else about them are unchanged.
   */
  function RemoveTeacher(d: Directory, tid: int): (r: Option<Directory>)
    ensures r.Some? <==> tid in TeacherIds(d.teachers)
    ensures r.Some? ==> tid !in TeacherIds(r.value.teachers) && r.value.students == d.students
    ensures r.Some? ==> |r.value.courses| == |d.courses|
    ensures r.Some? ==> forall j :: 0 <= j < |d.courses| ==>
              !PyEqualsInt(r.value.courses[j].teacherId, tid) &&
              r.value.courses[j].(teacherId := d.courses[j].teacherId) == d.courses[j]
  {
    if Find(TeacherIds(d.teachers), tid).None? then None
    else
      KeptTeacherIds(d.teachers, tid);
      KeepMeaning(TeacherIds(d.teachers), IdNot(tid));
      Some(Directory(d.students, Keep(d.teachers, TeacherNot(tid)), NullTeacher(d.courses, tid)))
  }

  /**
   * `enrol_student_in_course`: None when either ID is unknown; otherwise the
   * student's list gains the course and the course's roster gains the
   * student, each only if absent.
   */
  function Enrol(d: Directory, sid: int, cid: int): (r: Option<Directory>)
    ensures r.Some? <==> sid in StudentIds(d.students) && cid in CourseIds(d.courses)
  {
    var si := Find(StudentIds(d.students), sid);
    var ci := Find(CourseIds(d.courses), cid);
    if si.None? || ci.None? then None
    else Some(EnrolledAt(d, sid, cid, si.value, ci.value))
  }

  /** The directory `Enrol` gives once the student is at `si` and the course at `ci`. */
  function EnrolledAt(d: Directory, sid: int, cid: int, si: nat, ci: nat): Directory
    requires si < |d.students| && ci < |d.courses|
  {
    d.(students := d.students[si := d.students[si].(courseIds := AddIfAbsent(d.students[si].courseIds, cid))],
       courses := d.courses[ci := d.courses[ci].(studentIds := AddIfAbsent(d.courses[ci].studentIds, sid))])
  }

  /**
   * `unenrol_student_from_course`: None when either ID is unknown; otherwise
   * both sides drop the other if present, which succeeds even for a pair
   * that was never enrolled.
   */
  function Unenrol(d: Directory, sid: int, cid: int): (r: Option<Directory>)
    ensures r.Some? <==> sid in StudentIds(d.students) && cid in CourseIds(d.courses)
  {
    var si := Find(StudentIds(d.students), sid);
    var ci := Find(CourseIds(d.courses), cid);
    if si.None? || ci.None? then None
    else Some(UnenrolledAt(d, sid, cid, si.value, ci.value))
  }

  /** The directory `Unenrol` gives once the student is at `si` and the course at `ci`. */
  function UnenrolledAt(d: Directory, sid: int, cid: int, si: nat, ci: nat): Directory
    requires si < |d.students| && ci < |d.courses|
  {
    d.(students := d.students[si := d.students[si].(courseIds := Discard(d.students[si].courseIds, cid))],
       courses := d.courses[ci := d.courses[ci].(studentIds := Discard(d.courses[ci].studentIds, sid))])
  }

  // ---------------------------------------------------------------------
  // The linked-directory invariant

  /** No two entities of one kind share an ID. */
  predicate DistinctIds(d: Directory)
  {
    NoDup(StudentIds(d.students)) && NoDup(TeacherIds(d.teachers)) && NoDup(CourseIds(d.courses))
  }

  /** No course list and no roster holds an ID twice. */
  predicate ListsDistinct(d: Directory)
  {
    && (forall i :: 0 <= i < |d.students| ==> NoDup(d.students[i].courseIds))
    && (forall j :: 0 <= j < |d.courses| ==> NoDup(d.courses[j].studentIds))
  }

  /** A student lists a course exactly when the course's roster lists the student. */
  predicate Symmetric(d: Directory)
  {
    forall i, j :: 0 <= i < |d.students| && 0 <= j < |d.courses| ==>
      (d.courses[j].id in d.students[i].courseIds <==> d.students[i].id in d.courses[j].studentIds)
  }

  /** Course lists name only existing courses and rosters only existing students. */
  predicate Closed(d: Directory)
  {
    && (forall i, k :: 0 <= i < |d.students| && 0 <= k < |d.students[i].courseIds| ==>
          d.students[i].courseIds[k] in CourseIds(d.courses))
    && (forall j, k :: 0 <= j < |d.courses| && 0 <= k < |d.courses[j].studentIds| ==>
          d.courses[j].studentIds[k] in StudentIds(d.students))
  }

  predicate Linked(d: Directory)
  {
    DistinctIds(d) && ListsDistinct(d) && Symmetric(d) && Closed(d)
  }

  /** In a directory with distinct IDs, the entity `Find` returns is the only one with that ID. */
  lemma FindUnique(ids: seq<int>, target: int, k: nat)
    requires NoDup(ids) && k < |ids| && ids[k] == target
    ensures Find(ids, target) == Some(k)
  {
  }

  /** `x` is in a roster or list after `Discard(_, y)` exactly when it was before, for `x != y`. */
  lemma DiscardOther(xs: seq<int>, y: int, x: int)
    requires x != y
    ensures x in Discard(xs, y) <==> x in xs
  {
    if x in xs {
      var k :| 0 <= k < |xs| && xs[k] == x;
    }
  }

  lemma AddOther(xs: seq<int>, y: int, x: int)
    requires x != y
    ensures x in AddIfAbsent(xs, y) <==> x in xs
  {
  }

  /** The directory `remove_student` leaves behind once the student is found. */
  function WithoutStudent(d: Directory, sid: int): Directory
  {
    Directory(Keep(d.students, StudentNot(sid)), d.teachers, StripStudent(d.courses, sid))
  }

  /** The directory `remove_course` leaves behind once the course is found. */
  function WithoutCourse(d: Directory, cid: int): Directory
  {
    Directory(StripCourse(d.students, cid), d.teachers, Keep(d.courses, CourseNot(cid)))
  }

  lemma WithoutStudentSymmetric(d: Directory, sid: int)
    requires Symmetric(d)
    ensures Symmetric(WithoutStudent(d, sid))
  {
    var r := WithoutStudent(d, sid);
      KeepMeaning(d.students, StudentNot(sid));
    forall i, j | 0 <= i < |r.students| && 0 <= j < |r.courses|
      ensures r.courses[j].id in r.students[i].courseIds <==> r.students[i].id in r.courses[j].studentIds
    {
      var i0 :| 0 <= i0 < |d.students| && d.students[i0] == r.students[i];
      assert StudentNot(sid)(r.students[i]);
      DiscardOther(d.courses[j].studentIds, sid, r.students[i].id);
    }
  }

  lemma WithoutStudentClosed(d: Directory, sid: int)
    requires Closed(d) && ListsDistinct(d)
    ensures Closed(WithoutStudent(d, sid))
  {
    WithoutStudentRostersClosed(d, sid);
    WithoutStudentListsClosed(d, sid);
  }

  lemma WithoutStudentRostersClosed(d: Directory, sid: int)
    requires Closed(d) && ListsDistinct(d)
    ensures var r := WithoutStudent(d, sid);
            forall j, k :: 0 <= j < |r.courses| && 0 <= k < |r.courses[j].studentIds| ==>
              r.courses[j].studentIds[k] in StudentIds(r.students)
  {
    var r := WithoutStudent(d, sid);
      KeepMeaning(d.students, StudentNot(sid));
    forall j, k | 0 <= j < |r.courses| && 0 <= k < |r.courses[j].studentIds|
      ensures r.courses[j].studentIds[k] in StudentIds(r.students)
    {
      var x := r.courses[j].studentIds[k];
      assert x in d.courses[j].studentIds && x != sid;
      var i0 :| 0 <= i0 < |d.students| && d.students[i0].id == x;
      assert StudentNot(sid)(d.students[i0]);
      var i1 :| 0 <= i1 < |r.students| && r.students[i1] == d.students[i0];
      assert StudentIds(r.students)[i1] == x;
    }
  }

  lemma WithoutStudentListsClosed(d: Directory, sid: int)
    requires Closed(d)
    ensures var r := WithoutStudent(d, sid);
            forall i, k :: 0 <= i < |r.students| && 0 <= k < |r.students[i].courseIds| ==>
              r.students[i].courseIds[k] in CourseIds(r.courses)
  {
    var r := WithoutStudent(d, sid);
      KeepMeaning(d.students, StudentNot(sid));
    assert CourseIds(r.courses) == CourseIds(d.courses);
    forall i, k | 0 <= i < |r.students| && 0 <= k < |r.students[i].courseIds|
      ensures r.students[i].courseIds[k] in CourseIds(r.courses)
    {
      var i0 :| 0 <= i0 < |d.students| && d.students[i0] == r.students[i];
      assert r.students[i].courseIds[k] in CourseIds(d.courses);
    }
  }

  /** Removing a student keeps the directory linked and leaves no roster naming it. */
  lemma RemoveStudentLinked(d: Directory, sid: int)
    requires Linked(d) && RemoveStudent(d, sid).Some?
    ensures Linked(RemoveStudent(d, sid).value)
    ensures forall j :: 0 <= j < |RemoveStudent(d, sid).value.courses| ==>
              sid !in RemoveStudent(d, sid).value.courses[j].studentIds
  {
    var r := WithoutStudent(d, sid);
      KeepMeaning(d.students, StudentNot(sid));
    assert RemoveStudent(d, sid) == Some(r);
    KeptStudentIds(d.students, sid);
    KeepNoDup(StudentIds(d.students), IdNot(sid));
    assert CourseIds(r.courses) == CourseIds(d.courses);
    assert ListsDistinct(r) by {
      forall i | 0 <= i < |r.students|
        ensures NoDup(r.students[i].courseIds)
      {
        var i0 :| 0 <= i0 < |d.students| && d.students[i0] == r.students[i];
      }
    }
    WithoutStudentSymmetric(d, sid);
    WithoutStudentClosed(d, sid);
  }

  lemma WithoutCourseSymmetric(d: Directory, cid: int)
    requires Symmetric(d)
    ensures Symmetric(WithoutCourse(d, cid))
  {
    var r := WithoutCourse(d, cid);
      KeepMeaning(d.courses, CourseNot(cid));
    forall i, j | 0 <= i < |r.students| && 0 <= j < |r.courses|
      ensures r.courses[j].id in r.students[i].courseIds <==> r.students[i].id in r.courses[j].studentIds
    {
      var j0 :| 0 <= j0 < |d.courses| && d.courses[j0] == r.courses[j];
      assert CourseNot(cid)(r.courses[j]);
      DiscardOther(d.students[i].courseIds, cid, r.courses[j].id);
    }
  }

  lemma WithoutCourseClosed(d: Directory, cid: int)
    requires Closed(d) && ListsDistinct(d)
    ensures Closed(WithoutCourse(d, cid))
  {
    WithoutCourseListsClosed(d, cid);
    WithoutCourseRostersClosed(d, cid);
  }

  lemma WithoutCourseListsClosed(d: Directory, cid: int)
    requires Closed(d) && ListsDistinct(d)
    ensures var r := WithoutCourse(d, cid);
            forall i, k :: 0 <= i < |r.students| && 0 <= k < |r.students[i].courseIds| ==>
              r.students[i].courseIds[k] in CourseIds(r.courses)
  {
    var r := WithoutCourse(d, cid);
      KeepMeaning(d.courses, CourseNot(cid));
    forall i, k | 0 <= i < |r.students| && 0 <= k < |r.students[i].courseIds|
      ensures r.students[i].courseIds[k] in CourseIds(r.courses)
    {
      var x := r.students[i].courseIds[k];
      assert x in d.students[i].courseIds && x != cid;
      var j0 :| 0 <= j0 < |d.courses| && d.courses[j0].id == x;
      assert CourseNot(cid)(d.courses[j0]);
      var j1 :| 0 <= j1 < |r.courses| && r.courses[j1] == d.courses[j0];
      assert CourseIds(r.courses)[j1] == x;
    }
  }

  lemma WithoutCourseRostersClosed(d: Directory, cid: int)
    requires Closed(d)
    ensures var r := WithoutCourse(d, cid);
            forall j, k :: 0 <= j < |r.courses| && 0 <= k < |r.courses[j].studentIds| ==>
              r.courses[j].studentIds[k] in StudentIds(r.students)
  {
    var r := WithoutCourse(d, cid);
      KeepMeaning(d.courses, CourseNot(cid));
    assert StudentIds(r.students) == StudentIds(d.students);
    forall j, k | 0 <= j < |r.courses| && 0 <= k < |r.courses[j].studentIds|
      ensures r.courses[j].studentIds[k] in StudentIds(r.students)
    {
      var j0 :| 0 <= j0 < |d.courses| && d.courses[j0] == r.courses[j];
      assert r.courses[j].studentIds[k] in StudentIds(d.students);
    }
  }

  /** Removing a course keeps the directory linked and leaves no student listing it. */
  lemma RemoveCourseLinked(d: Directory, cid: int)
    requires Linked(d) && RemoveCourse(d, cid).Some?
    ensures Linked(RemoveCourse(d, cid).value)
    ensures forall i :: 0 <= i < |RemoveCourse(d, cid).value.students| ==>
              cid !in RemoveCourse(d, cid).value.students[i].courseIds
  {
    var r := WithoutCourse(d, cid);
      KeepMeaning(d.courses, CourseNot(cid));
    assert RemoveCourse(d, cid) == Some(r);
    KeptCourseIds(d.courses, cid);
    KeepNoDup(CourseIds(d.courses), IdNot(cid));
    assert StudentIds(r.students) == StudentIds(d.students);
    assert ListsDistinct(r) by {
      forall j | 0 <= j < |r.courses|
        ensures NoDup(r.courses[j].studentIds)
      {
        var j0 :| 0 <= j0 < |d.courses| && d.courses[j0] == r.courses[j];
      }
    }
    WithoutCourseSymmetric(d, cid);
    WithoutCourseClosed(d, cid);
  }

  /** Removing a teacher touches neither enrolment side, so the directory stays linked. */
  lemma RemoveTeacherLinked(d: Directory, tid: int)
    requires Linked(d) && RemoveTeacher(d, tid).Some?
    ensures Linked(RemoveTeacher(d, tid).value)
  {
    var r := RemoveTeacher(d, tid).value;
    KeptTeacherIds(d.teachers, tid);
    KeepNoDup(TeacherIds(d.teachers), IdNot(tid));
    assert CourseIds(r.courses) == CourseIds(d.courses);
    assert forall j :: 0 <= j < |r.courses| ==>
      r.courses[j].id == d.courses[j].id && r.courses[j].studentIds == d.courses[j].studentIds;
  }

  /**
   * After a successful enrolment the student lists the course and the
   * course lists the student, and the directory stays linked.
   */
  lemma EnrolLinked(d: Directory, sid: int, cid: int)
    requires Linked(d) && Enrol(d, sid, cid).Some?
    ensures Linked(Enrol(d, sid, cid).value)
    ensures Enrolled(Enrol(d, sid, cid).value, sid, cid)
  {
    var si := Find(StudentIds(d.students), sid).value;
    var ci := Find(CourseIds(d.courses), cid).value;
    EnrolAt(d, sid, cid, si, ci);
    var r := EnrolledAt(d, sid, cid, si, ci);
    OthersDiffer(d, si, ci);
    EnrolledAtSymmetric(d, sid, cid, si, ci);
    Relisted(d, si, ci, r.students[si].courseIds, r.courses[ci].studentIds);
    FindUnique(StudentIds(r.students), sid, si);
    FindUnique(CourseIds(r.courses), cid, ci);
  }

  /** With distinct IDs, no other student or course shares the IDs at `si` and `ci`. */
  lemma OthersDiffer(d: Directory, si: nat, ci: nat)
    requires DistinctIds(d) && si < |d.students| && ci < |d.courses|
    ensures forall i :: 0 <= i < |d.students| && i != si ==> d.students[i].id != d.students[si].id
    ensures forall j :: 0 <= j < |d.courses| && j != ci ==> d.courses[j].id != d.courses[ci].id
  {
    assert forall i :: 0 <= i < |d.students| ==> StudentIds(d.students)[i] == d.students[i].id;
    assert forall j :: 0 <= j < |d.courses| ==> CourseIds(d.courses)[j] == d.courses[j].id;
  }

  lemma EnrolledAtSymmetric(d: Directory, sid: int, cid: int, si: nat, ci: nat)
    requires si < |d.students| && ci < |d.courses|
    requires d.students[si].id == sid && d.courses[ci].id == cid
    requires forall i :: 0 <= i < |d.students| && i != si ==> d.students[i].id != sid
    requires forall j :: 0 <= j < |d.courses| && j != ci ==> d.courses[j].id != cid
    requires Symmetric(d)
    ensures Symmetric(EnrolledAt(d, sid, cid, si, ci))
  {
    var r := EnrolledAt(d, sid, cid, si, ci);
    forall i, j | 0 <= i < |r.students| && 0 <= j < |r.courses|
      ensures r.courses[j].id in r.students[i].courseIds <==> r.students[i].id in r.courses[j].studentIds
    {
      if i == si && j != ci {
        AddOther(d.students[i].courseIds, cid, d.courses[j].id);
      } else if i != si && j == ci {
        AddOther(d.courses[j].studentIds, sid, d.students[i].id);
      }
    }
  }

  /**
   * Replacing the course list at `si` and the roster at `ci` by lists that
   * hold no repeats and only existing IDs keeps every part of `Linked` but
   * symmetry.
   */
  lemma Relisted(d: Directory, si: nat, ci: nat, sl: seq<int>, cl: seq<int>)
    requires si < |d.students| && ci < |d.courses|
    requires DistinctIds(d) && ListsDistinct(d) && Closed(d)
    requires NoDup(sl) && NoDup(cl)
    requires forall k :: 0 <= k < |sl| ==> sl[k] in CourseIds(d.courses)
    requires forall k :: 0 <= k < |cl| ==> cl[k] in StudentIds(d.students)
    ensures var r := d.(students := d.students[si := d.students[si].(courseIds := sl)],
                        courses := d.courses[ci := d.courses[ci].(studentIds := cl)]);
            StudentIds(r.students) == StudentIds(d.students) && CourseIds(r.courses) == CourseIds(d.courses) &&
            DistinctIds(r) && ListsDistinct(r) && Closed(r)
  {
    StudentIdsUpdate(d.students, si, d.students[si].(courseIds := sl));
    CourseIdsUpdate(d.courses, ci, d.courses[ci].(studentIds := cl));
  }

  /** `sid` and `cid` name a student and a course that list each other. */
  predicate Enrolled(d: Directory, sid: int, cid: int)
  {
    var si := Find(StudentIds(d.students), sid);
    var ci := Find(CourseIds(d.courses), cid);
    si.Some? && ci.Some? &&
    cid in d.students[si.value].courseIds && sid in d.courses[ci.value].studentIds
  }

  /** A repeated enrolment changes nothing. */
  lemma EnrolIdempotent(d: Directory, sid: int, cid: int)
    requires Enrol(d, sid, cid).Some?
    ensures Enrol(Enrol(d, sid, cid).value, sid, cid) == Enrol(d, sid, cid)
  {
    var r := Enrol(d, sid, cid).value;
    var si := Find(StudentIds(d.students), sid).value;
    var ci := Find(CourseIds(d.courses), cid).value;
    assert StudentIds(r.students) == StudentIds(d.students);
    assert CourseIds(r.courses) == CourseIds(d.courses);
    AddIfAbsentIdempotent(d.students[si].courseIds, cid);
    AddIfAbsentIdempotent(d.courses[ci].studentIds, sid);
    assert r.students[si := r.students[si]] == r.students;
    assert r.courses[ci := r.courses[ci]] == r.courses;
  }

  /**
   * After a successful unenrolment neither side lists the other, and the
   * directory stays linked.
   */
  lemma UnenrolLinked(d: Directory, sid: int, cid: int)
    requires Linked(d) && Unenrol(d, sid, cid).Some?
    ensures Linked(Unenrol(d, sid, cid).value)
    ensures !Enrolled(Unenrol(d, sid, cid).value, sid, cid)
  {
    var si := Find(StudentIds(d.students), sid).value;
    var ci := Find(CourseIds(d.courses), cid).value;
    UnenrolAt(d, sid, cid, si, ci);
    var r := UnenrolledAt(d, sid, cid, si, ci);
    OthersDiffer(d, si, ci);
    UnenrolledAtSymmetric(d, sid, cid, si, ci);
    Relisted(d, si, ci, r.students[si].courseIds, r.courses[ci].studentIds);
    FindUnique(StudentIds(r.students), sid, si);
    FindUnique(CourseIds(r.courses), cid, ci);
  }

  lemma UnenrolledAtSymmetric(d: Directory, sid: int, cid: int, si: nat, ci: nat)
    requires si < |d.students| && ci < |d.courses|
    requires d.students[si].id == sid && d.courses[ci].id == cid
    requires forall i :: 0 <= i < |d.students| && i != si ==> d.students[i].id != sid
    requires forall j :: 0 <= j < |d.courses| && j != ci ==> d.courses[j].id != cid
    requires Symmetric(d) && NoDup(d.students[si].courseIds) && NoDup(d.courses[ci].studentIds)
    ensures Symmetric(UnenrolledAt(d, sid, cid, si, ci))
  {
    var r := UnenrolledAt(d, sid, cid, si, ci);
    forall i, j | 0 <= i < |r.students| && 0 <= j < |r.courses|
      ensures r.courses[j].id in r.students[i].courseIds <==> r.students[i].id in r.courses[j].studentIds
    {
      if i == si && j != ci {
        DiscardOther(d.students[i].courseIds, cid, d.courses[j].id);
      } else if i != si && j == ci {
        DiscardOther(d.courses[j].studentIds, sid, d.students[i].id);
      }
    }
  }

  /** Unenrolling a pair that was just enrolled, and was not before, restores the directory. */
  lemma EnrolThenUnenrol(d: Directory, sid: int, cid: int)
    requires Symmetric(d) && Enrol(d, sid, cid).Some? && !Enrolled(d, sid, cid)
    ensures Unenrol(Enrol(d, sid, cid).value, sid, cid) == Some(d)
  {
    var si := Find(StudentIds(d.students), sid).value;
    var ci := Find(CourseIds(d.courses), cid).value;
    NotEnrolledEitherSide(d, sid, cid, si, ci);
    EnrolThenUnenrolAt(d, sid, cid, si, ci);
  }

  lemma EnrolThenUnenrolAt(d: Directory, sid: int, cid: int, si: nat, ci: nat)
    requires Find(StudentIds(d.students), sid) == Some(si) && Find(CourseIds(d.courses), cid) == Some(ci)
    requires cid !in d.students[si].courseIds && sid !in d.courses[ci].studentIds
    ensures Enrol(d, sid, cid).Some? && Unenrol(Enrol(d, sid, cid).value, sid, cid) == Some(d)
  {
    var s := d.students[si];
    var c := d.courses[ci];
    var s2 := s.(courseIds := AddIfAbsent(s.courseIds, cid));
    var c2 := c.(studentIds := AddIfAbsent(c.studentIds, sid));
    var r := d.(students := d.students[si := s2], courses := d.courses[ci := c2]);
    EnrolAt(d, sid, cid, si, ci);
    StudentIdsUpdate(d.students, si, s2);
    CourseIdsUpdate(d.courses, ci, c2);
    UnenrolAt(r, sid, cid, si, ci);
    StudentRestored(d.students, si, cid);
    CourseRestored(d.courses, ci, sid);
  }

  lemma StudentIdsUpdate(ss: seq<StudentRec>, i: nat, s: StudentRec)
    requires i < |ss| && s.id == ss[i].id
    ensures StudentIds(ss[i := s]) == StudentIds(ss)
  {
  }

  lemma CourseIdsUpdate(cs: seq<CourseRec>, j: nat, c: CourseRec)
    requires j < |cs| && c.id == cs[j].id
    ensures CourseIds(cs[j := c]) == CourseIds(cs)
  {
  }

  lemma StudentRestored(ss: seq<StudentRec>, i: nat, cid: int)
    requires i < |ss| && cid !in ss[i].courseIds
    ensures var s2 := ss[i].(courseIds := AddIfAbsent(ss[i].courseIds, cid));
            ss[i := s2][i := s2.(courseIds := Discard(s2.courseIds, cid))] == ss
  {
    EnrollThenDrop(ss[i].courseIds, cid);
  }

  lemma CourseRestored(cs: seq<CourseRec>, j: nat, sid: int)
    requires j < |cs| && sid !in cs[j].studentIds
    ensures var c2 := cs[j].(studentIds := AddIfAbsent(cs[j].studentIds, sid));
            cs[j := c2][j := c2.(studentIds := Discard(c2.studentIds, sid))] == cs
  {
    EnrollThenDrop(cs[j].studentIds, sid);
  }

  /** In a symmetric directory, a pair that is not enrolled appears on neither side. */
  lemma NotEnrolledEitherSide(d: Directory, sid: int, cid: int, si: nat, ci: nat)
    requires Symmetric(d) && !Enrolled(d, sid, cid)
    requires Find(StudentIds(d.students), sid) == Some(si) && Find(CourseIds(d.courses), cid) == Some(ci)
    ensures cid !in d.students[si].courseIds && sid !in d.courses[ci].studentIds
  {
    assert d.courses[ci].id in d.students[si].courseIds <==> d.students[si].id in d.courses[ci].studentIds;
  }

  /** `Enrol` once the two positions are known. */
  lemma EnrolAt(d: Directory, sid: int, cid: int, si: nat, ci: nat)
    requires Find(StudentIds(d.students), sid) == Some(si) && Find(CourseIds(d.courses), cid) == Some(ci)
    ensures si < |d.students| && ci < |d.courses|
    ensures Enrol(d, sid, cid) == Some(EnrolledAt(d, sid, cid, si, ci))
  {
  }

  /** `Unenrol` once the two positions are known. */
  lemma UnenrolAt(d: Directory, sid: int, cid: int, si: nat, ci: nat)
    requires Find(StudentIds(d.students), sid) == Some(si) && Find(CourseIds(d.courses), cid) == Some(ci)
    ensures si < |d.students| && ci < |d.courses|
    ensures Unenrol(d, sid, cid) == Some(UnenrolledAt(d, sid, cid, si, ci))
  {
  }

  /** `RemoveStudent` once the student is known to exist. */
  lemma RemoveStudentFound(d: Directory, sid: int)
    requires sid in StudentIds(d.students)
    ensures RemoveStudent(d, sid) == Some(WithoutStudent(d, sid))
  {
  }

  /** `RemoveTeacher` once the teacher is known to exist. */
  lemma RemoveTeacherFound(d: Directory, tid: int)
    requires tid in TeacherIds(d.teachers)
    ensures RemoveTeacher(d, tid) == Some(Directory(d.students, Keep(d.teachers, TeacherNot(tid)), NullTeacher(d.courses, tid)))
  {
  }

  /** `RemoveCourse` once the course is known to exist. */
  lemma RemoveCourseFound(d: Directory, cid: int)
    requires cid in CourseIds(d.courses)
    ensures RemoveCourse(d, cid) == Some(WithoutCourse(d, cid))
  {
  }

  /** A new student without courses, under a fresh ID, keeps the directory linked. */
  lemma AddStudentLinked(d: Directory, s: StudentRec)
    requires Linked(d) && s.id !in StudentIds(d.students) && s.courseIds == []
    ensures Linked(d.(students := d.students + [s]))
  {
    var r := d.(students := d.students + [s]);
    assert StudentIds(r.students) == StudentIds(d.students) + [s.id];
    forall j, k | 0 <= j < |r.courses| && 0 <= k < |r.courses[j].studentIds|
      ensures r.courses[j].studentIds[k] in StudentIds(r.students)
    {
      assert r.courses[j].studentIds[k] in StudentIds(d.students);
    }
    forall i, j | 0 <= i < |r.students| && 0 <= j < |r.courses|
      ensures r.courses[j].id in r.students[i].courseIds <==> r.students[i].id in r.courses[j].studentIds
    {
      if i == |d.students| {
        assert s.id !in r.courses[j].studentIds;
      }
    }
  }

  /**
   * A new student created with a list naming an existing course is not on
   * that course's roster: `add_student` with an initial list breaks the
   * symmetry.
   */
  lemma AddStudentWithCoursesUnlinked(d: Directory, s: StudentRec)
    requires Closed(d) && s.id !in StudentIds(d.students)
    requires s.courseIds != [] && s.courseIds[0] in CourseIds(d.courses)
    ensures !Symmetric(d.(students := d.students + [s]))
  {
    var r := d.(students := d.students + [s]);
    var j :| 0 <= j < |d.courses| && d.courses[j].id == s.courseIds[0];
    assert s.id !in d.courses[j].studentIds;
    assert r.students[|d.students|] == s;
  }

  /** A new teacher under a fresh ID keeps the directory linked. */
  lemma AddTeacherLinked(d: Directory, t: TeacherRec)
    requires Linked(d) && t.id !in TeacherIds(d.teachers)
    ensures Linked(d.(teachers := d.teachers + [t]))
  {
    assert TeacherIds(d.teachers + [t]) == TeacherIds(d.teachers) + [t.id];
  }

  /** A new course, whose roster is empty, under a fresh ID keeps the directory linked. */
  lemma AddCourseLinked(d: Directory, c: CourseRec)
    requires Linked(d) && c.id !in CourseIds(d.courses) && c.studentIds == []
    ensures Linked(d.(courses := d.courses + [c]))
  {
    var r := d.(courses := d.courses + [c]);
    assert CourseIds(r.courses) == CourseIds(d.courses) + [c.id];
    forall i, k | 0 <= i < |r.students| && 0 <= k < |r.students[i].courseIds|
      ensures r.students[i].courseIds[k] in CourseIds(r.courses)
    {
      assert r.students[i].courseIds[k] in CourseIds(d.courses);
    }
    forall i, j | 0 <= i < |r.students| && 0 <= j < |r.courses|
      ensures r.courses[j].id in r.students[i].courseIds <==> r.students[i].id in r.courses[j].studentIds
    {
      if j == |d.courses| {
        assert c.id !in r.students[i].courseIds;
      }
    }
  }
}
