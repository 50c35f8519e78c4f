/**
 * Teachers and courses (PST4/app/teacher.py). A teacher is a user with a
 * speciality, the IDs of the courses assigned to them and the time of the
 * last change. A course names its teacher by a weak reference that may
 * be None and keeps a roster of enrolled student IDs.
 */
module Teachers {
  import opened Outcomes
  import opened Text
  import opened Seqs
  import opened Json
  import Users
  import Students

  datatype TeacherRec = TeacherRec(id: int, name: string, speciality: string,
                                   courseIds: seq<int>, lastUpdated: string)

  /**
   * A course as a value. `teacherId` and `instrument` are whatever value the
   * caller passed, as in the source: an integer ID, None, or something else.
   */
  datatype CourseRec = CourseRec(id: int, name: string, teacherId: Value,
                                 instrument: Value, studentIds: seq<int>)

  datatype TeacherRow = TeacherRow(id: int, name: string, speciality: string,
                                   courses: string, lastUpdated: string)

  datatype CourseRow = CourseRow(id: int, name: string, teacherId: Value, students: string)

  /**
   * `update_name` of a teacher first tests the raw argument against
   * `^[A-Za-z\s]+$` and only then runs the user base's check.
   */
  function TeacherNameCheck(raw: string): (r: Result<string>)
    ensures r.Ok? ==> r.value == Strip(raw) && Users.MatchesNamePattern(r.value)
    ensures !Users.MatchesNamePattern(raw) ==> r == Err(InvalidNameChars)
  {
    if !Users.MatchesNamePattern(raw) then Err(InvalidNameChars) else Users.CheckName(raw)
  }

  /**
   * The extra pattern test rejects no name the user base accepts and
   * accepts none it rejects; the two differ only in the error raised for
   * the empty string.
   */
  lemma TeacherNameCheckAgrees(raw: string)
    ensures TeacherNameCheck(raw).Ok? <==> Users.CheckName(raw).Ok?
    ensures raw != "" ==> TeacherNameCheck(raw) == Users.CheckName(raw)
    ensures TeacherNameCheck("") == Err(InvalidNameChars) && Users.CheckName("") == Err(EmptyName)
  {
    if raw != "" && !Users.MatchesNamePattern(raw) {
      var i :| 0 <= i < |raw| && Users.IsForbidden(raw[i]);
      assert !AllSpace(raw);
      assert Users.HasForbiddenChar(raw);
    }
  }

  class TeacherUser {
    const id: int
    var name: string
    var speciality: string
    var courseIds: seq<int>
    var lastUpdated: string

    function View(): TeacherRec
      reads this
    {
      TeacherRec(id, name, speciality, courseIds, lastUpdated)
    }

    constructor (r: TeacherRec)
      requires Users.IsStoredName(r.name)
      ensures View() == r
    {
      id := r.id;
      name := r.name;
      speciality := r.speciality;
      courseIds := r.courseIds;
      lastUpdated := r.lastUpdated;
    }

    /**
     * `TeacherUser(teacher_id, name, speciality)`: the user base's name
     * check; the speciality is stored unchecked, the course list starts
     * empty and the timestamp is `now`.
     */
    static method New(id: int, rawName: string, speciality: string, now: string) returns (r: Result<TeacherUser>)
      ensures r.Ok? <==> Users.CheckName(rawName).Ok?
      ensures r.Err? ==> r.error == Users.CheckName(rawName).error
      ensures r.Ok? ==> fresh(r.value) &&
                        r.value.View() == TeacherRec(id, Strip(rawName), speciality, [], now)
    {
      var checked := Users.CheckName(rawName);
      if checked.Err? {
        return Err(checked.error);
      }
      Users.CheckNameMeaning(rawName);
      var t := new TeacherUser(TeacherRec(id, checked.value, speciality, [], now));
      r := Ok(t);
    }

    /** `assign_course`: add-if-absent; the timestamp moves only when the list changes. */
    method AssignCourse(cid: int, now: string)
      modifies this`courseIds, this`lastUpdated
      ensures courseIds == AddIfAbsent(old(courseIds), cid)
      ensures lastUpdated == if cid in old(courseIds) then old(lastUpdated) else now
    {
      if cid !in courseIds {
        courseIds := courseIds + [cid];
        lastUpdated := now;
      }
    }

    /** `remove_course`: remove-if-present; the timestamp moves only when the list changes. */
    method RemoveCourse(cid: int, now: string)
      modifies this`courseIds, this`lastUpdated
      ensures courseIds == Discard(old(courseIds), cid)
      ensures lastUpdated == if cid in old(courseIds) then now else old(lastUpdated)
    {
      if cid in courseIds {
        courseIds := RemoveFirst(courseIds, cid);
        lastUpdated := now;
      }
    }

    /** `update_name`: on rejection nothing changes; on success the stripped name and a new timestamp. */
    method UpdateName(rawName: string, now: string) returns (r: Result<()>)
      modifies this`name, this`lastUpdated
      ensures r.Ok? <==> TeacherNameCheck(rawName).Ok?
      ensures r.Err? ==> r.error == TeacherNameCheck(rawName).error &&
                         name == old(name) && lastUpdated == old(lastUpdated)
      ensures r.Ok? ==> name == Strip(rawName) && lastUpdated == now
    {
      var checked := TeacherNameCheck(rawName);
      if checked.Err? {
        return Err(checked.error);
      }
      name := checked.value;
      lastUpdated := now;
      r := Ok(());
    }

    /**
     * `update_speciality`: a value that is empty after stripping is refused
     * and nothing changes; otherwise the argument is stored as given,
     * unstripped, with a new timestamp.
     */
    method UpdateSpeciality(value: string, now: string) returns (r: Result<()>)
      modifies this`speciality, this`lastUpdated
      ensures r.Err? <==> AllSpace(value)
      ensures r.Err? ==> r.error == EmptySpeciality &&
                         speciality == old(speciality) && lastUpdated == old(lastUpdated)
      ensures r.Ok? ==> speciality == value && lastUpdated == now
    {
      if Strip(value) == [] {
        return Err(EmptySpeciality);
      }
      speciality := value;
      lastUpdated := now;
      r := Ok(());
    }
  }

  class Course {
    const id: int
    var name: string
    var teacherId: Value
    var instrument: Value
    var enrolledStudentIds: seq<int>

    function View(): CourseRec
      reads this
    {
      CourseRec(id, name, teacherId, instrument, enrolledStudentIds)
    }

    /** `Course(course_id, name, teacher_id, instrument)`: a new course has an empty roster. */
    constructor (id: int, name: string, teacherId: Value, instrument: Value)
      ensures View() == CourseRec(id, name, teacherId, instrument, [])
    {
      this.id := id;
      this.name := name;
      this.teacherId := teacherId;
      this.instrument := instrument;
      this.enrolledStudentIds := [];
    }

    /** A course rebuilt from its stored record. */
    constructor FromRec(r: CourseRec)
      ensures View() == r
    {
      id := r.id;
      name := r.name;
      teacherId := r.teacherId;
      instrument := r.instrument;
      enrolledStudentIds := r.studentIds;
    }

    /** `enroll_student`: add-if-absent on the roster. */
    method EnrollStudent(sid: int)
      modifies this`enrolledStudentIds
      ensures enrolledStudentIds == AddIfAbsent(old(enrolledStudentIds), sid)
    {
      if sid !in enrolledStudentIds {
        enrolledStudentIds := enrolledStudentIds + [sid];
      }
    }

    /** `remove_student`: remove-if-present on the roster. */
    method RemoveStudent(sid: int)
      modifies this`enrolledStudentIds
      ensures enrolledStudentIds == Discard(old(enrolledStudentIds), sid)
    {
      if sid in enrolledStudentIds {
        enrolledStudentIds := RemoveFirst(enrolledStudentIds, sid);
      }
    }
  }

  /** `TeacherUser.to_dict`. */
  function TeacherDict(t: TeacherRec): (v: Value)
    ensures v.JObj? && v.fields.Keys == {"id", "name", "speciality", "course_ids", "last_updated"}
    ensures v.fields["id"] == JInt(t.id) && v.fields["name"] == JStr(t.name)
    ensures v.fields["speciality"] == JStr(t.speciality) && v.fields["course_ids"] == IntList(t.courseIds)
    ensures v.fields["last_updated"] == JStr(t.lastUpdated)
  {
    JObj(map["id" := JInt(t.id), "name" := JStr(t.name), "speciality" := JStr(t.speciality),
             "course_ids" := IntList(t.courseIds), "last_updated" := JStr(t.lastUpdated)])
  }

  /**
   * `TeacherUser.from_dict`: `id`, `name` and `speciality` are required, in
   * that order; then the name check; `course_ids` defaults to [] and
   * `last_updated` to the current time `now`.
   */
  function ParseTeacher(data: Value, now: string): (r: Result<TeacherRec>)
    ensures !data.JObj? ==> r == Err(NotADict)
    ensures data.JObj? && "id" !in data.fields ==> r == Err(MissingKey("id"))
    ensures r.Ok? ==> Users.IsStoredName(r.value.name)
  {
    if !data.JObj? then Err(NotADict)
    else
      var m := data.fields;
      if "id" !in m then Err(MissingKey("id"))
      else if "name" !in m then Err(MissingKey("name"))
      else if "speciality" !in m then Err(MissingKey("speciality"))
      else match Users.CheckStoredName(m["name"], "name")
        case Err(e) => Err(e)
        case Ok(name) =>
          var ids := ReadIntList(Get(m, "course_ids", JArr([])));
          var stamp := Get(m, "last_updated", JStr(now));
          if !m["id"].JInt? then Err(MalformedField("id"))
          else if !m["speciality"].JStr? then Err(MalformedField("speciality"))
          else if ids.None? then Err(MalformedField("course_ids"))
          else if !stamp.JStr? then Err(MalformedField("last_updated"))
          else Ok(TeacherRec(m["id"].i, name, m["speciality"].s, ids.value, stamp.s))
  }

  /** `from_dict(to_dict(t))` keeps ID, name, speciality, course list and timestamp. */
  lemma TeacherRoundTrip(t: TeacherRec, now: string)
    requires Users.IsStoredName(t.name)
    ensures ParseTeacher(TeacherDict(t), now) == Ok(t)
  {
    var m := TeacherDict(t).fields;
    Users.StoredNamePasses(t.name);
    assert Users.CheckStoredName(m["name"], "name") == Ok(t.name);
    IntListRoundTrip(t.courseIds);
    assert ReadIntList(Get(m, "course_ids", JArr([]))) == Some(t.courseIds);
    assert Get(m, "last_updated", JStr(now)) == JStr(t.lastUpdated);
  }

  /** A stored teacher without `last_updated` gets the load time. */
  lemma TeacherStampDefault(id: int, name: string, speciality: string, now: string)
    requires Users.IsStoredName(name)
    ensures ParseTeacher(JObj(map["id" := JInt(id), "name" := JStr(name), "speciality" := JStr(speciality)]), now)
            == Ok(TeacherRec(id, name, speciality, [], now))
  {
    Users.StoredNamePasses(name);
    var m := map["id" := JInt(id), "name" := JStr(name), "speciality" := JStr(speciality)];
    assert "course_ids" !in m && "last_updated" !in m;
    assert ReadIntList(JArr([])) == Some([]);
  }

  /** `Course.to_dict`: the instrument is not written. */
  function CourseDict(c: CourseRec): (v: Value)
    ensures v.JObj? && v.fields.Keys == {"id", "name", "teacher_id", "enrolled_student_ids"}
    ensures "instrument" !in v.fields
    ensures v.fields["id"] == JInt(c.id) && v.fields["name"] == JStr(c.name)
    ensures v.fields["teacher_id"] == c.teacherId && v.fields["enrolled_student_ids"] == IntList(c.studentIds)
  {
    JObj(map["id" := JInt(c.id), "name" := JStr(c.name), "teacher_id" := c.teacherId,
             "enrolled_student_ids" := IntList(c.studentIds)])
  }

  /**
   * `Course.from_dict`: `id`, `name` and `teacher_id` are required, in that
   * order; the roster defaults to []; the instrument is always None.
   */
  function ParseCourse(data: Value): (r: Result<CourseRec>)
    ensures !data.JObj? ==> r == Err(NotADict)
    ensures r.Ok? ==> r.value.instrument == JNull
  {
    if !data.JObj? then Err(NotADict)
    else
      var m := data.fields;
      if "id" !in m then Err(MissingKey("id"))
      else if "name" !in m then Err(MissingKey("name"))
      else if "teacher_id" !in m then Err(MissingKey("teacher_id"))
      else
        var ids := ReadIntList(Get(m, "enrolled_student_ids", JArr([])));
        if !m["id"].JInt? then Err(MalformedField("id"))
        else if !m["name"].JStr? then Err(MalformedField("name"))
        else if ids.None? then Err(MalformedField("enrolled_student_ids"))
        else Ok(CourseRec(m["id"].i, m["name"].s, m["teacher_id"], JNull, ids.value))
  }

  /** `from_dict(to_dict(c))` keeps ID, name, teacher and roster; the instrument comes back as None. */
  lemma CourseRoundTrip(c: CourseRec)
    ensures ParseCourse(CourseDict(c)) == Ok(c.(instrument := JNull))
  {
    IntListRoundTrip(c.studentIds);
  }

  /**
   * `TeacherUser.to_table` as written: `", ".join(self.course_ids)` raises
   * TypeError as soon as the list holds an integer.
   */
  function TeacherTableAsWritten(t: TeacherRec): (r: Result<TeacherRow>)
    ensures r.Ok? <==> t.courseIds == []
    ensures r.Err? ==> r.error == NonTextJoin
  {
    if t.courseIds == [] then Ok(TeacherRow(t.id, t.name, t.speciality, "-", t.lastUpdated))
    else Err(NonTextJoin)
  }

  /** A teacher with one assigned course cannot be shown as a table row. */
  lemma TeacherTableAsWrittenFails()
    ensures TeacherTableAsWritten(TeacherRec(1, "Bob", "Piano", [1], "2025-01-01 10:00:00")) == Err(NonTextJoin)
  {
  }

  /** `TeacherUser.to_table` with the IDs converted to text, as the student table does. */
  function TeacherTable(t: TeacherRec): (row: TeacherRow)
    ensures row.id == t.id && row.name == t.name && row.speciality == t.speciality
    ensures row.lastUpdated == t.lastUpdated
    ensures row.courses == "-" <==> t.courseIds == []
    ensures |t.courseIds| == 1 ==> row.courses == Decimal(t.courseIds[0])
    ensures TeacherTableAsWritten(t).Ok? ==> TeacherTableAsWritten(t).value == row
  {
    TeacherRow(t.id, t.name, t.speciality, Students.IdsText(t.courseIds), t.lastUpdated)
  }

  /** A teacher assigned one more course shows that course's ID after a comma. */
  lemma TeacherTableAppend(t: TeacherRec, x: int)
    requires t.courseIds != []
    ensures TeacherTable(t.(courseIds := t.courseIds + [x])).courses
         == TeacherTable(t).courses + ", " + Decimal(x)
  {
    Students.IdsTextAppend(t.courseIds, x);
  }

  /** `Course.to_table` as written: the roster join raises TypeError once a student is enrolled. */
  function CourseTableAsWritten(c: CourseRec): (r: Result<CourseRow>)
    ensures r.Ok? <==> c.studentIds == []
    ensures r.Err? ==> r.error == NonTextJoin
  {
    if c.studentIds == [] then Ok(CourseRow(c.id, c.name, c.teacherId, "-"))
    else Err(NonTextJoin)
  }

  /** A course with one enrolled student cannot be shown as a table row. */
  lemma CourseTableAsWrittenFails()
    ensures CourseTableAsWritten(CourseRec(1, "Piano", JInt(1), JNull, [1])) == Err(NonTextJoin)
  {
  }

  /** `Course.to_table` with the student IDs converted to text. */
  function CourseTable(c: CourseRec): (row: CourseRow)
    ensures row.id == c.id && row.name == c.name && row.teacherId == c.teacherId
    ensures row.students == "-" <==> c.studentIds == []
    ensures |c.studentIds| == 1 ==> row.students == Decimal(c.studentIds[0])
    ensures CourseTableAsWritten(c).Ok? ==> CourseTableAsWritten(c).value == row
  {
    CourseRow(c.id, c.name, c.teacherId, Students.IdsText(c.studentIds))
  }

  /** A course with one more enrolled student shows that student's ID after a comma. */
  lemma CourseTableAppend(c: CourseRec, x: int)
    requires c.studentIds != []
    ensures CourseTable(c.(studentIds := c.studentIds + [x])).students
         == CourseTable(c).students + ", " + Decimal(x)
  {
    Students.IdsTextAppend(c.studentIds, x);
  }
}
