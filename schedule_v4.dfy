/**
 * The earlier schedule manager of PST4/app/schedule.py on values: how it
 * loads its data file, `add_course` with its arguments in the wrong
 * order, `switch_student_course` and `get_lessons_by_day`. Its state is a
 * `Store.State` whose finance log stays empty, since this manager keeps
 * no payments; the operations it shares with the later manager are those
 * of modules Registry and Schedule.
 */
module ScheduleV4 {
  import opened Outcomes
  import opened Text
  import opened Json
  import opened Users
  import opened Students
  import opened Teachers
  import R = Registry
  import opened Store
  import S = Schedule

  // ---------------------------------------------------------------------
  // Loading

  /**
   * `[from_dict(x) for x in items]`: every element parsed, in order, or the
   * error of the first element that raises.
   */
  function ParseList<T>(items: seq<Value>, parse: Value -> Result<T>): (r: Result<seq<T>>)
    ensures r.Ok? <==> forall i :: 0 <= i < |items| ==> parse(items[i]).Ok?
    ensures r.Ok? ==> |r.value| == |items| && forall i :: 0 <= i < |items| ==> r.value[i] == parse(items[i]).value
    ensures r.Err? ==> exists k :: 0 <= k < |items| && parse(items[k]) == Err(r.error) &&
                                  forall i :: 0 <= i < k ==> parse(items[i]).Ok?
  {
    if items == [] then Ok([])
    else
      assert forall i :: 1 <= i < |items| ==> items[i] == items[1..][i - 1];
      match parse(items[0])
      case Err(e) => Err(e)
      case Ok(x) =>
        match ParseList(items[1..], parse)
        case Err(e) =>
          assert exists k :: 0 <= k < |items[1..]| && parse(items[1..][k]) == Err(e) &&
                             forall i :: 0 <= i < k ==> parse(items[1..][i]).Ok?;
          var k :| 0 <= k < |items[1..]| && parse(items[1..][k]) == Err(e) &&
                   forall i :: 0 <= i < k ==> parse(items[1..][i]).Ok?;
          assert parse(items[k + 1]) == Err(e);
          Err(e)
        case Ok(xs) => Ok([x] + xs)
  }

  /**
   * `for x in data.get(key, [])` as far as a `from_dict` can accept the
   * elements (see `Store.Iterated`); any other stored value ends the load.
   */
  function ItemsAt(data: Record, key: string): (r: Result<seq<Value>>)
    ensures key !in data ==> r == Ok([])
    ensures key in data && data[key].JArr? ==> r == Ok(data[key].items)
  {
    match Iterated(Get(data, key, JArr([])))
    case Some(items) => Ok(items)
    case None => Err(MalformedField(key))
  }

  /** `data.get(key, 1)` for an ID counter. */
  function CounterAt(data: Record, key: string): (r: Result<int>)
    ensures key !in data ==> r == Ok(1)
  {
    match ReadCounter(Get(data, key, JInt(1)))
    case Some(n) => Ok(n)
    case None => Err(MalformedField(key))
  }

  /** `data.get("attendance", [])`. */
  function AttendanceAt(data: Record): (r: Result<seq<Record>>)
    ensures "attendance" !in data ==> r == Ok([])
  {
    match ReadLog(Get(data, "attendance", JArr([])))
    case Some(log) => Ok(log)
    case None => Err(MalformedField("attendance"))
  }

  /** Every student `from_dict` accepts carries a name a user can hold. */
  lemma ParsedStudentsStored(ss: seq<Value>)
    requires ParseList(ss, ParseStudent).Ok?
    ensures forall i :: 0 <= i < |ss| ==> IsStoredName(ParseList(ss, ParseStudent).value[i].name)
  {
    forall i | 0 <= i < |ss|
      ensures IsStoredName(ParseList(ss, ParseStudent).value[i].name)
    {
      assert ParseStudent(ss[i]).Ok?;
    }
  }

  /** Every teacher `from_dict` accepts carries a name a user can hold. */
  lemma ParsedTeachersStored(ts: seq<Value>, now: string)
    requires ParseList(ts, ParseTeacherAt(now)).Ok?
    ensures forall i :: 0 <= i < |ts| ==> IsStoredName(ParseList(ts, ParseTeacherAt(now)).value[i].name)
  {
    forall i | 0 <= i < |ts|
      ensures IsStoredName(ParseList(ts, ParseTeacherAt(now)).value[i].name)
    {
      assert ParseTeacher(ts[i], now).Ok?;
    }
  }

  /**
   * The first part of `_load_data` once the file has been read as a
   * dictionary: the students, the teachers and the courses through their
   * `from_dict`, in that order, a missing key reading as no entities. The
   * first error raised ends the load.
   */
  function LoadEntities(data: Record, now: string): (r: Result<R.Directory>)
    ensures r.Ok? ==> NamesStored(r.value)
  {
    match ItemsAt(data, "students")
    case Err(e) => Err(e)
    case Ok(ss) =>
      match ParseList(ss, ParseStudent)
      case Err(e) => Err(e)
      case Ok(students) =>
        match ItemsAt(data, "teachers")
        case Err(e) => Err(e)
        case Ok(ts) =>
          match ParseList(ts, ParseTeacherAt(now))
          case Err(e) => Err(e)
          case Ok(teachers) =>
            match ItemsAt(data, "courses")
            case Err(e) => Err(e)
            case Ok(cs) =>
              match ParseList(cs, ParseCourse)
              case Err(e) => Err(e)
              case Ok(courses) =>
                ParsedStudentsStored(ss);
                ParsedTeachersStored(ts, now);
                Ok(R.Directory(students, teachers, courses))
  }

  /**
   * The rest of `_load_data`: the attendance log and the three counters,
   * a missing key reading as empty or 1.
   */
  function LoadFields(data: Record, now: string): (r: Result<State>)
    ensures r.Ok? ==> NamesStored(r.value.dir) && r.value.finance == []
  {
    match LoadEntities(data, now)
    case Err(e) => Err(e)
    case Ok(dir) =>
      match AttendanceAt(data)
      case Err(e) => Err(e)
      case Ok(log) =>
        match CounterAt(data, "next_student_id")
        case Err(e) => Err(e)
        case Ok(ns) =>
          match CounterAt(data, "next_teacher_id")
          case Err(e) => Err(e)
          case Ok(nt) =>
            match CounterAt(data, "next_course_id")
            case Err(e) => Err(e)
            case Ok(nc) => Ok(State(dir, log, [], ns, nt, nc))
  }

  /**
   * `__init__` with `_load_data`: a missing file gives the empty structure,
   * which is written out; a file that is not JSON raises, and so does one
   * holding anything but a dictionary (`data.get` fails); otherwise the
   * fields are read as `LoadFields` describes. Unlike the later manager,
   * nothing falls back to the defaults once a file exists.
   */
  function Load(file: StoreFile, now: string): (r: Result<State>)
    ensures r.Ok? ==> NamesStored(r.value.dir) && r.value.finance == []
  {
    match file
    case Missing => Ok(DefaultState)
    case EmptyFile => Err(CorruptStore)
    case Unparseable => Err(CorruptStore)
    case Parsed(v) => if v.JObj? then LoadFields(v.fields, now) else Err(NotADict)
  }

  /**
   * A missing file starts the manager empty, with every counter at 1, and
   * a file that is empty, not JSON, or not a dictionary raises.
   */
  lemma LoadOutcomes(file: StoreFile, now: string)
    ensures file.Missing? ==> Load(file, now) == Ok(State(R.Directory([], [], []), [], [], 1, 1, 1))
    ensures file.EmptyFile? || file.Unparseable? ==> Load(file, now) == Err(CorruptStore)
    ensures file.Parsed? && !file.content.JObj? ==> Load(file, now) == Err(NotADict)
  {
  }

  /** A stored dictionary without any of the keys loads as the empty structure. */
  lemma EmptyDictionaryLoadsEmpty(now: string)
    ensures Load(Parsed(JObj(map[])), now) == Ok(DefaultState)
  {
    var m: Record := map[];
    assert ItemsAt(m, "students") == Ok([]);
    assert ParseList([], ParseStudent) == Ok([]);
    assert ParseList([], ParseTeacherAt(now)) == Ok([]);
    assert ParseList([], ParseCourse) == Ok([]);
  }

  /** A student record that `from_dict` rejects makes the whole load raise its error. */
  lemma BadStudentFailsLoad(data: Record, now: string, k: nat)
    requires "students" in data && data["students"].JArr? && k < |data["students"].items|
    requires ParseStudent(data["students"].items[k]).Err?
    ensures Load(Parsed(JObj(data)), now).Err?
  {
  }

  // ---------------------------------------------------------------------
  // Saving and reloading

  /** `_save_data`: the later manager's dictionary without the finance log, which this version does not keep. */
  function SavedImage(st: State): (v: Value)
    ensures v.JObj? && v.fields.Keys == DefaultStore.Keys - {"finance"}
    ensures forall k :: k in v.fields ==> v.fields[k] == Image(st).fields[k]
  {
    JObj(Image(st).fields - {"finance"})
  }

  /** Parsing every element of a list succeeds with the same entities either way it is written. */
  lemma ParseListEach<T>(items: seq<Value>, parse: Value -> Result<T>)
    requires ParseEach(items, parse).Some?
    ensures ParseList(items, parse) == Ok(ParseEach(items, parse).value)
  {
    var r := ParseList(items, parse);
    assert r.Ok?;
    assert r.value == ParseEach(items, parse).value;
  }

  /** The entity lists of a saved state are found where `_load_data` looks for them. */
  lemma SavedItems(st: State)
    ensures ItemsAt(SavedImage(st).fields, "students") == Ok(StudentsImage(st.dir.students).items)
    ensures ItemsAt(SavedImage(st).fields, "teachers") == Ok(TeachersImage(st.dir.teachers).items)
    ensures ItemsAt(SavedImage(st).fields, "courses") == Ok(CoursesImage(st.dir.courses).items)
  {
    var m := SavedImage(st).fields;
    var image := Image(st).fields;
    assert m["students"] == image["students"] && m["teachers"] == image["teachers"];
    assert m["courses"] == image["courses"];
  }

  /** The attendance log and the counters of a saved state read back unchanged. */
  lemma SavedFields(st: State)
    ensures AttendanceAt(SavedImage(st).fields) == Ok(st.attendance)
    ensures CounterAt(SavedImage(st).fields, "next_student_id") == Ok(st.nextStudentId)
    ensures CounterAt(SavedImage(st).fields, "next_teacher_id") == Ok(st.nextTeacherId)
    ensures CounterAt(SavedImage(st).fields, "next_course_id") == Ok(st.nextCourseId)
  {
    var m := SavedImage(st).fields;
    var image := Image(st).fields;
    assert m["attendance"] == image["attendance"];
    assert m["next_student_id"] == image["next_student_id"];
    assert m["next_teacher_id"] == image["next_teacher_id"];
    assert m["next_course_id"] == image["next_course_id"];
    LogReload(st.attendance);
  }

  /** The entities of a saved state load back, the courses without their instruments. */
  lemma SavedEntities(st: State, now: string)
    requires NamesStored(st.dir)
    ensures LoadEntities(SavedImage(st).fields, now) == Ok(Reloaded(st).dir)
  {
    SavedItems(st);
    StudentsReload(st.dir.students);
    ParseListEach(StudentsImage(st.dir.students).items, ParseStudent);
    TeachersReload(st.dir.teachers, now);
    ParseListEach(TeachersImage(st.dir.teachers).items, ParseTeacherAt(now));
    CoursesReload(st.dir.courses);
    ParseListEach(CoursesImage(st.dir.courses).items, ParseCourse);
    assert Reloaded(State(R.Directory([], [], st.dir.courses), [], [], 1, 1, 1)).dir.courses
        == Reloaded(st).dir.courses;
  }

  /**
   * A saved state loads back as itself, apart from the instruments, which
   * are not written.
   */
  lemma LoadImage(st: State, now: string)
    requires NamesStored(st.dir) && st.finance == []
    ensures Load(Parsed(SavedImage(st)), now) == Ok(Reloaded(st))
  {
    SavedEntities(st, now);
    SavedFields(st);
  }

  // ---------------------------------------------------------------------
  // add_course as written

  /**
   * `add_course(name, instrument, teacher_id)` of PST4 builds
   * `Course(id, name, instrument, teacher_id)`, whose third parameter is
   * the teacher and fourth the instrument: the two are stored swapped.
   */
  function AddCourseAsWritten(st: State, name: string, instrument: Value, teacherId: Value): (r: State)
    ensures |r.dir.courses| == |st.dir.courses| + 1 && r.dir.courses[..|st.dir.courses|] == st.dir.courses
    ensures var c := r.dir.courses[|st.dir.courses|];
            c.id == st.nextCourseId && c.name == name && c.teacherId == instrument && c.instrument == teacherId
    ensures r.nextCourseId == st.nextCourseId + 1
    ensures r.(dir := st.dir, nextCourseId := st.nextCourseId) == st
  {
    S.AddCourse(st, name, teacherId, instrument)
  }

  /** `find_teacher_by_id(ref)`: the first teacher whose ID reads as `ref`. */
  function TeacherOf(ts: seq<TeacherRec>, ref: Value): (r: Option<TeacherRec>)
    ensures r.Some? ==> r.value in ts && StrMatchesId(ref, r.value.id)
    ensures r.None? <==> forall i :: 0 <= i < |ts| ==> !StrMatchesId(ref, ts[i].id)
  {
    if ts == [] then None
    else if StrMatchesId(ref, ts[0].id) then Some(ts[0])
    else
      assert forall i :: 1 <= i < |ts| ==> ts[i] == ts[1..][i - 1];
      TeacherOf(ts[1..], ref)
  }

  /**
   * As written, a course added with an existing teacher and the instrument
   * "Piano" refers to the teacher "Piano", which no teacher ID reads as:
   * the teacher is never found, and the teacher's ID sits in `instrument`.
   */
  lemma AddCourseAsWrittenLosesTeacher(st: State, name: string, tid: int)
    requires tid in R.TeacherIds(st.dir.teachers)
    ensures var c := AddCourseAsWritten(st, name, JStr("Piano"), JInt(tid)).dir.courses[|st.dir.courses|];
            c.teacherId == JStr("Piano") && c.instrument == JInt(tid) &&
            TeacherOf(st.dir.teachers, c.teacherId).None?
  {
    forall i | 0 <= i < |st.dir.teachers|
      ensures !StrMatchesId(JStr("Piano"), st.dir.teachers[i].id)
    {
      var d := Decimal(st.dir.teachers[i].id);
      assert d[0] == '-' || IsDigit(d[0]);
      assert "Piano"[0] == 'P';
    }
  }

  /**
   * With the arguments in the constructor's order, as the later manager
   * passes them, the course refers to the teacher, who is then found.
   */
  lemma AddCourseFindsTeacher(st: State, name: string, instrument: Value, tid: int)
    requires tid in R.TeacherIds(st.dir.teachers)
    ensures var c := S.AddCourse(st, name, instrument, JInt(tid)).dir.courses[|st.dir.courses|];
            c.teacherId == JInt(tid) && c.instrument == instrument &&
            TeacherOf(st.dir.teachers, c.teacherId).Some? &&
            TeacherOf(st.dir.teachers, c.teacherId).value.id == tid
  {
    var k :| 0 <= k < |st.dir.teachers| && R.TeacherIds(st.dir.teachers)[k] == tid;
    StrMatchesIdIff(JInt(tid), st.dir.teachers[k].id);
    var t := TeacherOf(st.dir.teachers, JInt(tid)).value;
    StrMatchesIdIff(JInt(tid), t.id);
  }

  // ---------------------------------------------------------------------
  // switch_student_course

  /**
   * `switch_student_course`: when the unenrolment from `from` fails (an
   * unknown student or course) nothing changes and the answer is False;
   * otherwise the enrolment in `to` follows and gives the answer, so an
   * unknown `to` leaves the student unenrolled from `from` with False.
   */
  function Switch(d: R.Directory, sid: int, from: int, to: int): (r: (bool, R.Directory))
    ensures R.Unenrol(d, sid, from).None? ==> r == (false, d)
    ensures R.Unenrol(d, sid, from).Some? ==>
              var d1 := R.Unenrol(d, sid, from).value;
              r == if R.Enrol(d1, sid, to).Some? then (true, R.Enrol(d1, sid, to).value) else (false, d1)
  {
    match R.Unenrol(d, sid, from)
    case None => (false, d)
    case Some(d1) =>
      match R.Enrol(d1, sid, to)
      case None => (false, d1)
      case Some(d2) => (true, d2)
  }

  /** Enrolling in one course leaves the enrolment in any other course as it was. */
  lemma EnrolKeepsOthers(d: R.Directory, sid: int, cid: int, other: int)
    requires R.Enrol(d, sid, cid).Some? && other != cid
    ensures R.Enrolled(R.Enrol(d, sid, cid).value, sid, other) <==> R.Enrolled(d, sid, other)
  {
    var si := R.Find(R.StudentIds(d.students), sid).value;
    var ci := R.Find(R.CourseIds(d.courses), cid).value;
    R.EnrolAt(d, sid, cid, si, ci);
    var r := R.EnrolledAt(d, sid, cid, si, ci);
    R.StudentIdsUpdate(d.students, si, r.students[si]);
    R.CourseIdsUpdate(d.courses, ci, r.courses[ci]);
    R.AddOther(d.students[si].courseIds, cid, other);
    var co := R.Find(R.CourseIds(d.courses), other);
    if co.Some? {
      assert co.value != ci;
    }
  }

  /**
   * In a linked directory a switch keeps the directory linked. A
   * successful switch leaves the student in `to` and, when the two
   * courses differ, out of `from`; a failed one changes nothing when the
   * student or `from` is unknown, and otherwise leaves the student out of
   * `from` and `to` unknown.
   */
  lemma SwitchOutcome(d: R.Directory, sid: int, from: int, to: int)
    requires R.Linked(d)
    ensures R.Linked(Switch(d, sid, from, to).1)
    ensures Switch(d, sid, from, to).0 ==>
              R.Enrolled(Switch(d, sid, from, to).1, sid, to) &&
              (from != to ==> !R.Enrolled(Switch(d, sid, from, to).1, sid, from))
    ensures !Switch(d, sid, from, to).0 ==>
              if sid in R.StudentIds(d.students) && from in R.CourseIds(d.courses) then
                Switch(d, sid, from, to).1 == R.Unenrol(d, sid, from).value &&
                !R.Enrolled(Switch(d, sid, from, to).1, sid, from) && to !in R.CourseIds(d.courses)
              else Switch(d, sid, from, to).1 == d
  {
    if R.Unenrol(d, sid, from).Some? {
      var d1 := R.Unenrol(d, sid, from).value;
      R.UnenrolLinked(d, sid, from);
      var si := R.Find(R.StudentIds(d.students), sid).value;
      var ci := R.Find(R.CourseIds(d.courses), from).value;
      R.UnenrolAt(d, sid, from, si, ci);
      R.StudentIdsUpdate(d.students, si, d1.students[si]);
      R.CourseIdsUpdate(d.courses, ci, d1.courses[ci]);
      if R.Enrol(d1, sid, to).Some? {
        R.EnrolLinked(d1, sid, to);
        if from != to {
          EnrolKeepsOthers(d1, sid, to, from);
        }
      }
    }
  }

  // ---------------------------------------------------------------------
  // get_lessons_by_day

  /** One entry of `get_lessons_by_day`. */
  datatype LessonEntry = LessonEntry(courseId: int, courseName: string, teacher: string, students: seq<string>)

  /** `lesson.get("day", "").lower() == day.lower()`, for a lesson whose day is text. */
  predicate OnDay(lesson: Record, day: string)
  {
    var v := Get(lesson, "day", JStr(""));
    v.JStr? && Lower(v.s) == Lower(day)
  }

  /**
   * `[find_student_by_id(sid).name for sid in roster if find_student_by_id(sid)]`:
   * the names of the roster's students that exist, in roster order.
   */
  function RosterNames(ss: seq<StudentRec>, roster: seq<int>): (r: seq<string>)
    ensures |r| <= |roster|
  {
    if roster == [] then []
    else
      var rest := RosterNames(ss, roster[1..]);
      match R.Find(R.StudentIds(ss), roster[0])
      case None => rest
      case Some(i) => [ss[i].name] + rest
  }

  /** The name of the student `find_student_by_id(sid)` finds. */
  function NameOf(ss: seq<StudentRec>, sid: int): string
  {
    match R.Find(R.StudentIds(ss), sid)
    case Some(i) => ss[i].name
    case None => ""
  }

  /**
   * When every ID of the roster names a student, as in a linked directory,
   * the names are exactly those of the roster's students, one per ID.
   */
  lemma {:induction false} RosterNamesClosed(ss: seq<StudentRec>, roster: seq<int>)
    requires forall k :: 0 <= k < |roster| ==> roster[k] in R.StudentIds(ss)
    ensures |RosterNames(ss, roster)| == |roster|
    ensures forall k :: 0 <= k < |roster| ==> RosterNames(ss, roster)[k] == NameOf(ss, roster[k])
  {
    if roster != [] {
      RosterNamesClosed(ss, roster[1..]);
      assert roster[0] in R.StudentIds(ss);
      RosterNamesFirst(ss, roster);
      ConsShifted(roster, RosterNames(ss, roster[1..]), sid => NameOf(ss, sid));
    }
  }

  /** The roster's first ID, naming a student, contributes that student's name first. */
  lemma RosterNamesFirst(ss: seq<StudentRec>, roster: seq<int>)
    requires roster != [] && roster[0] in R.StudentIds(ss)
    ensures RosterNames(ss, roster) == [NameOf(ss, roster[0])] + RosterNames(ss, roster[1..])
  {
  }

  /** Values of `f` over a sequence's tail, behind `f` of its head, are `f` over the whole sequence. */
  lemma ConsShifted<T>(xs: seq<int>, rest: seq<T>, f: int -> T)
    requires xs != [] && |rest| == |xs| - 1
    requires forall k :: 0 <= k < |rest| ==> rest[k] == f(xs[k + 1])
    ensures forall k :: 0 <= k < |xs| ==> ([f(xs[0])] + rest)[k] == f(xs[k])
  {
  }

  /** A roster naming no existing student contributes no names. */
  lemma {:induction false} RosterNamesUnknown(ss: seq<StudentRec>, roster: seq<int>)
    requires forall k :: 0 <= k < |roster| ==> roster[k] !in R.StudentIds(ss)
    ensures RosterNames(ss, roster) == []
  {
    if roster != [] {
      assert roster[0] !in R.StudentIds(ss);
      RosterNamesUnknown(ss, roster[1..]);
    }
  }

  /** The entry of one course: the teacher's name, or "Unknown" when the reference finds nobody. */
  function Entry(d: R.Directory, c: CourseRec): (e: LessonEntry)
    ensures e.courseId == c.id && e.courseName == c.name
    ensures e.teacher == if TeacherOf(d.teachers, c.teacherId).Some? then TeacherOf(d.teachers, c.teacherId).value.name else "Unknown"
    ensures e.students == RosterNames(d.students, c.studentIds)
  {
    var t := TeacherOf(d.teachers, c.teacherId);
    LessonEntry(c.id, c.name, if t.Some? then t.value.name else "Unknown", RosterNames(d.students, c.studentIds))
  }

  /** The entries one course contributes: one per lesson on `day`, in lesson order. */
  function CourseEntries(d: R.Directory, c: CourseRec, lessons: seq<Record>, day: string): seq<LessonEntry>
  {
    if lessons == [] then []
    else CourseEntries(d, c, lessons[..|lessons| - 1], day) +
         (if OnDay(lessons[|lessons| - 1], day) then [Entry(d, c)] else [])
  }

  /**
   * What `get_lessons_by_day` returns for the courses `cs`, the course at
   * position `j` holding the lessons `lessons[j]`: course by course, one
   * entry per lesson on that day.
   */
  function LessonsOn(d: R.Directory, cs: seq<CourseRec>, lessons: seq<seq<Record>>, day: string): seq<LessonEntry>
    requires |lessons| == |cs|
  {
    if cs == [] then []
    else LessonsOn(d, cs[..|cs| - 1], lessons[..|cs| - 1], day) +
         CourseEntries(d, cs[|cs| - 1], lessons[|cs| - 1], day)
  }

  /** Taking one more course adds that course's entries at the end. */
  lemma LessonsOnExtend(d: R.Directory, cs: seq<CourseRec>, lessons: seq<seq<Record>>, day: string, j: nat)
    requires |lessons| == |cs| && j < |cs|
    ensures LessonsOn(d, cs[..j + 1], lessons[..j + 1], day) ==
            LessonsOn(d, cs[..j], lessons[..j], day) + CourseEntries(d, cs[j], lessons[j], day)
  {
    assert cs[..j + 1][..j] == cs[..j] && lessons[..j + 1][..j] == lessons[..j];
  }

  /** Some lesson of `lessons` is on `day`. */
  predicate HasLessonOn(lessons: seq<Record>, day: string)
  {
    exists l :: l in lessons && OnDay(l, day)
  }

  /** Each entry a course contributes is that course's entry. */
  lemma {:induction false} CourseEntriesAreEntry(d: R.Directory, c: CourseRec, lessons: seq<Record>, day: string)
    ensures forall k :: 0 <= k < |CourseEntries(d, c, lessons, day)| ==> CourseEntries(d, c, lessons, day)[k] == Entry(d, c)
  {
    if lessons != [] {
      var init := lessons[..|lessons| - 1];
      CourseEntriesAreEntry(d, c, init, day);
      var e := CourseEntries(d, c, init, day);
      assert CourseEntries(d, c, lessons, day) == e + (if OnDay(lessons[|lessons| - 1], day) then [Entry(d, c)] else []);
    }
  }

  /** A course contributes an entry exactly when it has a lesson on the day. */
  lemma {:induction false} CourseEntriesPresent(d: R.Directory, c: CourseRec, lessons: seq<Record>, day: string)
    ensures HasLessonOn(lessons, day) <==> CourseEntries(d, c, lessons, day) != []
  {
    if lessons != [] {
      var init := lessons[..|lessons| - 1];
      CourseEntriesPresent(d, c, init, day);
      assert forall l :: l in init ==> l in lessons;
      if HasLessonOn(lessons, day) {
        var l :| l in lessons && OnDay(l, day);
        if l !in init {
          assert l == lessons[|lessons| - 1];
        }
      }
    }
  }

  /** Each entry of a course is that course's entry, and there is one exactly when it has a lesson on the day. */
  lemma CourseEntriesMeaning(d: R.Directory, c: CourseRec, lessons: seq<Record>, day: string)
    ensures forall k :: 0 <= k < |CourseEntries(d, c, lessons, day)| ==> CourseEntries(d, c, lessons, day)[k] == Entry(d, c)
    ensures HasLessonOn(lessons, day) <==> CourseEntries(d, c, lessons, day) != []
  {
    CourseEntriesAreEntry(d, c, lessons, day);
    CourseEntriesPresent(d, c, lessons, day);
  }

  /** Every entry is the entry of a course with a lesson on `day`. */
  lemma {:induction false} EntriesHaveLessons(d: R.Directory, cs: seq<CourseRec>, lessons: seq<seq<Record>>, day: string)
    requires |lessons| == |cs|
    ensures forall k :: 0 <= k < |LessonsOn(d, cs, lessons, day)| ==>
              exists j :: 0 <= j < |cs| && LessonsOn(d, cs, lessons, day)[k] == Entry(d, cs[j]) && HasLessonOn(lessons[j], day)
  {
    if cs != [] {
      var n := |cs| - 1;
      var r := LessonsOn(d, cs, lessons, day);
      var front := LessonsOn(d, cs[..n], lessons[..n], day);
      var last := CourseEntries(d, cs[n], lessons[n], day);
      EntriesHaveLessons(d, cs[..n], lessons[..n], day);
      CourseEntriesMeaning(d, cs[n], lessons[n], day);
      assert r == front + last;
      forall k | 0 <= k < |r|
        ensures exists j :: 0 <= j < |cs| && r[k] == Entry(d, cs[j]) && HasLessonOn(lessons[j], day)
      {
        if k < |front| {
          assert r[k] == front[k];
          var j :| 0 <= j < n && front[k] == Entry(d, cs[..n][j]) && HasLessonOn(lessons[..n][j], day);
          assert cs[..n][j] == cs[j] && lessons[..n][j] == lessons[j];
        } else {
          assert r[k] == last[k - |front|] == Entry(d, cs[n]);
          assert last != [];
          assert HasLessonOn(lessons[n], day);
        }
      }
      assert forall k :: 0 <= k < |r| ==> exists j :: 0 <= j < |cs| && r[k] == Entry(d, cs[j]) && HasLessonOn(lessons[j], day);
    } else {
      assert LessonsOn(d, cs, lessons, day) == [];
    }
  }

  /** Every course with a lesson on `day` has its entry among the results. */
  lemma {:induction false} LessonsHaveEntries(d: R.Directory, cs: seq<CourseRec>, lessons: seq<seq<Record>>, day: string)
    requires |lessons| == |cs|
    ensures forall j :: 0 <= j < |cs| && HasLessonOn(lessons[j], day) ==> Entry(d, cs[j]) in LessonsOn(d, cs, lessons, day)
  {
    if cs != [] {
      var n := |cs| - 1;
      var r := LessonsOn(d, cs, lessons, day);
      var front := LessonsOn(d, cs[..n], lessons[..n], day);
      var last := CourseEntries(d, cs[n], lessons[n], day);
      LessonsHaveEntries(d, cs[..n], lessons[..n], day);
      CourseEntriesMeaning(d, cs[n], lessons[n], day);
      assert r == front + last;
      forall j | 0 <= j < |cs| && HasLessonOn(lessons[j], day)
        ensures Entry(d, cs[j]) in r
      {
        if j < n {
          assert cs[..n][j] == cs[j] && lessons[..n][j] == lessons[j];
          assert Entry(d, cs[j]) in front;
        } else {
          assert last[0] == Entry(d, cs[n]);
        }
      }
    }
  }

  /** As written, no `Course` ever has a `lessons` attribute, so no day has any lesson. */
  lemma {:induction false} NoLessonsNoEntries(d: R.Directory, cs: seq<CourseRec>, day: string)
    ensures LessonsOn(d, cs, seq(|cs|, j => []), day) == []
  {
    if cs != [] {
      var n := |cs| - 1;
      var none: seq<seq<Record>> := seq(|cs|, j => []);
      assert none[..n] == seq(n, j => []);
      NoLessonsNoEntries(d, cs[..n], day);
    }
  }

  /** The day argument is compared ignoring case: its lower-cased form gives the same entries. */
  lemma {:induction false} LessonsIgnoreDayCase(d: R.Directory, cs: seq<CourseRec>, lessons: seq<seq<Record>>, day: string)
    requires |lessons| == |cs|
    ensures LessonsOn(d, cs, lessons, Lower(day)) == LessonsOn(d, cs, lessons, day)
  {
    if cs != [] {
      var n := |cs| - 1;
      LessonsIgnoreDayCase(d, cs[..n], lessons[..n], day);
      CourseEntriesIgnoreDayCase(d, cs[n], lessons[n], day);
    }
  }

  lemma {:induction false} CourseEntriesIgnoreDayCase(d: R.Directory, c: CourseRec, lessons: seq<Record>, day: string)
    ensures CourseEntries(d, c, lessons, Lower(day)) == CourseEntries(d, c, lessons, day)
  {
    if lessons != [] {
      CourseEntriesIgnoreDayCase(d, c, lessons[..|lessons| - 1], day);
      LowerIdempotent(day);
    }
  }
}
