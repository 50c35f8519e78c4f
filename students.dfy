/**
 * A student (PST5/app/student.py): a user with an ordered list of the
 * course IDs they are enrolled in, kept free of duplicates by
 * add-if-absent and remove-if-present.
 */
module Students {
  import opened Outcomes
  import opened Text
  import opened Seqs
  import opened Json
  import Users

  /** A student as a value: what `to_dict` stores and the schedule manager reasons about. */
  datatype StudentRec = StudentRec(id: int, name: string, courseIds: seq<int>)

  /** One row of the student table: ID, name, and the course IDs as text. */
  datatype StudentRow = StudentRow(id: int, name: string, courses: string)

  class StudentUser {
    /** Both `id` and `user_id` of the source; they are always the constructor's ID. */
    const id: int
    var name: string
    var enrolledCourseIds: seq<int>

    function View(): StudentRec
      reads this
    {
      StudentRec(id, name, enrolledCourseIds)
    }

    constructor (id: int, name: string, courseIds: seq<int>)
      requires Users.IsStoredName(name)
      ensures View() == StudentRec(id, name, courseIds)
    {
      this.id := id;
      this.name := name;
      this.enrolledCourseIds := courseIds;
    }

    /**
     * `StudentUser(user_id, name, enrolled_course_ids)`: the name check of
     * the user base, then a copy of the given list (a sequence is a value,
     * so later changes to the caller's list cannot reach the student).
     */
    static method New(id: int, rawName: string, courseIds: seq<int>) returns (r: Result<StudentUser>)
      ensures r.Ok? <==> Users.CheckName(rawName).Ok?
      ensures r.Err? ==> r.error == Users.CheckName(rawName).error
      ensures r.Ok? ==> fresh(r.value) && r.value.View() == StudentRec(id, Strip(rawName), courseIds)
    {
      var checked := Users.CheckName(rawName);
      if checked.Err? {
        return Err(checked.error);
      }
      Users.CheckNameMeaning(rawName);
      var s := new StudentUser(id, checked.value, courseIds);
      r := Ok(s);
    }

    /** `enroll_course`: appends the course unless it is already listed. */
    method EnrollCourse(cid: int)
      modifies this`enrolledCourseIds
      ensures enrolledCourseIds == AddIfAbsent(old(enrolledCourseIds), cid)
    {
      if cid !in enrolledCourseIds {
        enrolledCourseIds := enrolledCourseIds + [cid];
      }
    }

    /** `drop_course`: removes the course if it is listed. */
    method DropCourse(cid: int)
      modifies this`enrolledCourseIds
      ensures enrolledCourseIds == Discard(old(enrolledCourseIds), cid)
    {
      if cid in enrolledCourseIds {
        enrolledCourseIds := RemoveFirst(enrolledCourseIds, cid);
      }
    }

    /** `update_name`: the user base's rename. */
    method UpdateName(rawName: string) returns (r: Result<()>)
      modifies this`name
      ensures r.Ok? <==> Users.CheckName(rawName).Ok?
      ensures r.Err? ==> r.error == Users.CheckName(rawName).error && name == old(name)
      ensures r.Ok? ==> name == Strip(rawName)
    {
      var checked := Users.CheckName(rawName);
      if checked.Err? {
        return Err(checked.error);
      }
      name := checked.value;
      r := Ok(());
    }
  }

  /** Enrolling twice in the same course is the same as enrolling once. */
  lemma EnrollIdempotent(ids: seq<int>, cid: int)
    ensures AddIfAbsent(AddIfAbsent(ids, cid), cid) == AddIfAbsent(ids, cid)
  {
    AddIfAbsentIdempotent(ids, cid);
  }

  /** Enrolling then dropping a course the student did not have restores the list. */
  lemma {:induction false} EnrollThenDrop(ids: seq<int>, cid: int)
    requires cid !in ids
    ensures Discard(AddIfAbsent(ids, cid), cid) == ids
  {
    var added := ids + [cid];
    var k := IndexOf(added, cid);
    assert added[..|ids|] == ids;
    assert k == |ids|;
  }

  /** `to_dict`: the keys `user_id`, `name` and `enrolled_course_ids`. */
  function StudentDict(s: StudentRec): (v: Value)
    ensures v.JObj? && v.fields.Keys == {"user_id", "name", "enrolled_course_ids"}
  {
    JObj(map["user_id" := JInt(s.id), "name" := JStr(s.name),
             "enrolled_course_ids" := IntList(s.courseIds)])
  }

  /**
   * `list(enrolled) if enrolled else []` for a stored value: a falsy value
   * gives the empty list, a list of integers is copied, anything else lies
   * outside the typed model.
   */
  function ReadEnrolment(v: Value, key: string): (r: Result<seq<int>>)
    ensures v.JArr? && v.items == [] ==> r == Ok([])
  {
    if !Truthy(v) then Ok([])
    else match ReadIntList(v)
      case None => Err(MalformedField(key))
      case Some(ids) => Ok(ids)
  }

  /**
   * `StudentUser.from_dict`: the ID from `user_id`, falling back to `id`; the
   * name (default "") through the user check; the enrolment list (default []).
   */
  function ParseStudent(data: Value): (r: Result<StudentRec>)
    ensures !data.JObj? ==> r == Err(NotADict)
    ensures r.Ok? ==> Users.IsStoredName(r.value.name)
  {
    if !data.JObj? then Err(NotADict)
    else
      var m := data.fields;
      var uid := Get(m, "user_id", Get(m, "id", JNull));
      match Users.CheckStoredName(Get(m, "name", JStr("")), "name")
      case Err(e) => Err(e)
      case Ok(name) =>
        match ReadEnrolment(Get(m, "enrolled_course_ids", JArr([])), "enrolled_course_ids")
        case Err(e) => Err(e)
        case Ok(ids) =>
          if uid.JInt? then Ok(StudentRec(uid.i, name, ids)) else Err(MalformedField("user_id"))
  }

  /** `from_dict(to_dict(s))` gives back the same ID, name and enrolment list in order. */
  lemma StudentRoundTrip(s: StudentRec)
    requires Users.IsStoredName(s.name)
    ensures ParseStudent(StudentDict(s)) == Ok(s)
  {
    var m := StudentDict(s).fields;
    Users.StoredNamePasses(s.name);
    assert Users.CheckStoredName(Get(m, "name", JStr("")), "name") == Ok(s.name);
    EnrolmentRoundTrip(s.courseIds);
    assert Get(m, "user_id", Get(m, "id", JNull)) == JInt(s.id);
  }

  /** A stored enrolment list reads back as the same IDs in the same order. */
  lemma EnrolmentRoundTrip(ids: seq<int>)
    ensures ReadEnrolment(IntList(ids), "enrolled_course_ids") == Ok(ids)
  {
    IntListRoundTrip(ids);
    if ids == [] {
      assert IntList(ids).items == [];
    } else {
      assert Truthy(IntList(ids));
    }
  }

  /** `from_dict` reads the ID under `id` when the record has no `user_id`. */
  lemma ParseStudentIdFallback(id: int, name: string)
    requires Users.IsStoredName(name)
    ensures ParseStudent(JObj(map["id" := JInt(id), "name" := JStr(name)])) == Ok(StudentRec(id, name, []))
  {
    Users.StoredNamePasses(name);
    var m := map["id" := JInt(id), "name" := JStr(name)];
    assert "user_id" !in m && "enrolled_course_ids" !in m;
    assert Get(m, "user_id", Get(m, "id", JNull)) == JInt(id);
    assert Users.CheckStoredName(Get(m, "name", JStr("")), "name") == Ok(name);
    assert ReadEnrolment(Get(m, "enrolled_course_ids", JArr([])), "enrolled_course_ids") == Ok([]);
  }

  /**
   * The text of an ID column in a table: "-" exactly when there are no IDs,
   * otherwise their decimals joined by ", " (a single ID is its own decimal).
   */
  function IdsText(ids: seq<int>): (t: string)
    ensures t == "-" <==> ids == []
    ensures |ids| == 1 ==> t == Decimal(ids[0])
  {
    if ids == [] then "-"
    else
      JoinedDecimals(ids);
      Join(DecimalsOf(ids), ", ")
  }

  /** `map(str, ids)`. */
  function DecimalsOf(ids: seq<int>): (r: seq<string>)
    ensures |r| == |ids| && forall i :: 0 <= i < |ids| ==> r[i] == Decimal(ids[i])
  {
    seq(|ids|, i requires 0 <= i < |ids| => Decimal(ids[i]))
  }

  /**
   * `to_table`: the student's ID and name, and the course column, which is
   * "-" exactly when the student has no courses.
   */
  function StudentTable(s: StudentRec): (row: StudentRow)
    ensures row.id == s.id && row.name == s.name
    ensures row.courses == "-" <==> s.courseIds == []
    ensures |s.courseIds| == 1 ==> row.courses == Decimal(s.courseIds[0])
  {
    StudentRow(s.id, s.name, IdsText(s.courseIds))
  }

  /**
   * With one more ID the column text grows by ", " and that ID's decimal;
   * with the single-ID case above this fixes the text of every list.
   */
  lemma IdsTextAppend(ids: seq<int>, x: int)
    requires ids != []
    ensures IdsText(ids + [x]) == IdsText(ids) + ", " + Decimal(x)
  {
    assert DecimalsOf(ids + [x]) == DecimalsOf(ids) + [Decimal(x)];
    JoinAppend(DecimalsOf(ids), Decimal(x), ", ");
  }

  /** A student enrolled in one more course shows that course's ID after a comma. */
  lemma StudentTableAppend(s: StudentRec, x: int)
    requires s.courseIds != []
    ensures StudentTable(s.(courseIds := s.courseIds + [x])).courses
         == StudentTable(s).courses + ", " + Decimal(x)
  {
    IdsTextAppend(s.courseIds, x);
  }

  /** A decimal always holds at least one digit. */
  lemma DecimalHasDigit(n: int)
    ensures |Decimal(n)| >= 1 && exists i :: 0 <= i < |Decimal(n)| && IsDigit(Decimal(n)[i])
  {
    if n < 0 {
      assert IsDigit(Decimal(n)[1]);
    } else {
      assert IsDigit(Decimal(n)[0]);
    }
  }

  /** A join is at least as long as its first part, and longer when a separator follows it. */
  lemma {:induction false} JoinLength(parts: seq<string>, sep: string)
    requires |parts| >= 1
    ensures |Join(parts, sep)| >= |parts[0]|
    ensures |parts| >= 2 ==> |Join(parts, sep)| >= |parts[0]| + |sep| + |parts[1]|
  {
    if |parts| >= 2 {
      JoinLength(parts[1..], sep);
    }
  }

  /** The joined decimals of one or more IDs are never the text "-". */
  lemma JoinedDecimals(ids: seq<int>)
    requires ids != []
    ensures Join(DecimalsOf(ids), ", ") != "-"
    ensures |ids| == 1 ==> Join(DecimalsOf(ids), ", ") == Decimal(ids[0])
  {
    var parts := DecimalsOf(ids);
    var text := Join(parts, ", ");
    JoinLength(parts, ", ");
    DecimalHasDigit(ids[0]);
    if |ids| == 1 {
      assert text == Decimal(ids[0]);
      var i :| 0 <= i < |text| && IsDigit(text[i]);
      assert text != "-" by {
        if |text| == 1 {
          assert text[0] != '-';
        }
      }
    } else {
      DecimalHasDigit(ids[1]);
      assert |text| >= 3;
    }
  }
}
