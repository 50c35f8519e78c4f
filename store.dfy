/**
 * The data file of the schedule manager in PST5/app/schedule.py: its
 * default structure, how a load falls back to it and back-fills missing
 * keys, how the entities are rebuilt from it, and the image `_save_data`
 * writes. The file itself is abstract: what a read finds is a `StoreFile`.
 */
module Store {
  import opened Outcomes
  import opened Json
  import opened Users
  import opened Students
  import opened Teachers
  import opened Registry

  /** Everything the manager holds: the entities, the two logs and the three ID counters. */
  datatype State = State(dir: Directory, attendance: seq<Record>, finance: seq<Record>,
                         nextStudentId: int, nextTeacherId: int, nextCourseId: int)

  /** `_DEFAULT`: empty collections and logs, every counter at 1. */
  const DefaultStore: Record :=
    map["students" := JArr([]), "teachers" := JArr([]), "courses" := JArr([]),
        "attendance" := JArr([]), "finance" := JArr([]),
        "next_student_id" := JInt(1), "next_teacher_id" := JInt(1), "next_course_id" := JInt(1)]

  const DefaultState: State := State(Directory([], [], []), [], [], 1, 1, 1)

  /** The entries of `_DEFAULT`, key by key. */
  lemma DefaultStoreEntries()
    ensures "students" in DefaultStore && DefaultStore["students"] == JArr([])
    ensures "teachers" in DefaultStore && DefaultStore["teachers"] == JArr([])
    ensures "courses" in DefaultStore && DefaultStore["courses"] == JArr([])
    ensures "attendance" in DefaultStore && DefaultStore["attendance"] == JArr([])
    ensures "finance" in DefaultStore && DefaultStore["finance"] == JArr([])
    ensures "next_student_id" in DefaultStore && DefaultStore["next_student_id"] == JInt(1)
    ensures "next_teacher_id" in DefaultStore && DefaultStore["next_teacher_id"] == JInt(1)
    ensures "next_course_id" in DefaultStore && DefaultStore["next_course_id"] == JInt(1)
  {
  }

  /**
   * What reading the data file finds: no file, an empty file, text that is
   * not JSON (including a ciphertext read in plain mode), or a JSON value.
   */
  datatype StoreFile = Missing | EmptyFile | Unparseable | Parsed(content: Value)

  /** `data.setdefault(k, _DEFAULT[k])` for every default key. */
  function Backfill(m: Record): (r: Record)
    ensures r.Keys == m.Keys + DefaultStore.Keys
    ensures forall k :: k in m ==> r[k] == m[k]
    ensures forall k :: k in DefaultStore && k !in m ==> r[k] == DefaultStore[k]
  {
    map k | k in m.Keys + DefaultStore.Keys :: if k in m then m[k] else DefaultStore[k]
  }

  /**
   * `_read_store`: a missing, empty or unparseable file, or one holding
   * something other than a dictionary, reads as the defaults; a dictionary
   * is kept with the missing default keys added.
   */
  function ReadStore(file: StoreFile): (data: Record)
    ensures DefaultStore.Keys <= data.Keys
    ensures !(file.Parsed? && file.content.JObj?) ==> data == DefaultStore
    ensures file.Parsed? && file.content.JObj? ==>
              forall k :: k in file.content.fields ==> k in data && data[k] == file.content.fields[k]
    ensures file.Parsed? && file.content.JObj? ==>
              data.Keys == file.content.fields.Keys + DefaultStore.Keys &&
              forall k :: k in DefaultStore && k !in file.content.fields ==> data[k] == DefaultStore[k]
  {
    if file.Parsed? && file.content.JObj? then Backfill(file.content.fields) else DefaultStore
  }

  /**
   * `for x in v` over a loaded value, as far as a `from_dict` can accept the
   * elements: a list gives its items and an empty string or dictionary gives
   * nothing. A non-empty string or dictionary gives strings, which every
   * `from_dict` rejects, and the other values are not iterable: both end
   * the deserialisation, shown as None.
   */
  function Iterated(v: Value): (r: Option<seq<Value>>)
    ensures v.JArr? ==> r == Some(v.items)
    ensures r.Some? ==> Truthy(v) ==> v.JArr?
  {
    match v
    case JArr(items) => Some(items)
    case JStr(s) => if s == "" then Some([]) else None
    case JObj(m) => if m == map[] then Some([]) else None
    case _ => None
  }

  /** `[from_dict(x) for x in items]`: None as soon as one element raises. */
  function ParseEach<T>(items: seq<Value>, parse: Value -> Result<T>): (r: Option<seq<T>>)
    ensures r.Some? <==> forall i :: 0 <= i < |items| ==> parse(items[i]).Ok?
    ensures r.Some? ==> |r.value| == |items| &&
                        forall i :: 0 <= i < |items| ==> r.value[i] == parse(items[i]).value
  {
    if forall i :: 0 <= i < |items| ==> parse(items[i]).Ok? then
      Some(seq(|items|, i requires 0 <= i < |items| => parse(items[i]).value))
    else None
  }

  /** A stored log: a list of dictionary records. */
  function ReadLog(v: Value): (r: Option<seq<Record>>)
    ensures r.Some? ==> v.JArr? && |r.value| == |v.items| &&
                        forall i :: 0 <= i < |r.value| ==> v.items[i] == JObj(r.value[i])
  {
    if v.JArr? && forall i :: 0 <= i < |v.items| ==> v.items[i].JObj? then
      Some(seq(|v.items|, i requires 0 <= i < |v.items| => v.items[i].fields))
    else None
  }

  function ReadCounter(v: Value): Option<int>
  {
    if v.JInt? then Some(v.i) else None
  }

  function ParseTeacherAt(now: string): Value -> Result<TeacherRec>
  {
    (v: Value) => ParseTeacher(v, now)
  }

  /** The three entity lists of a loaded store through their `from_dict`. */
  function ParseEntities(data: Record, now: string): (r: Option<Directory>)
    ensures r.Some? ==> NamesStored(r.value)
  {
    var ss := Iterated(Get(data, "students", JArr([])));
    var ts := Iterated(Get(data, "teachers", JArr([])));
    var cs := Iterated(Get(data, "courses", JArr([])));
    if ss.None? || ts.None? || cs.None? then None
    else
      var students := ParseEach(ss.value, ParseStudent);
      var teachers := ParseEach(ts.value, ParseTeacherAt(now));
      var courses := ParseEach(cs.value, ParseCourse);
      if students.None? || teachers.None? || courses.None? then None
      else
        ParsedNamesStored(ss.value, ts.value, now);
        Some(Directory(students.value, teachers.value, courses.value))
  }

  /** Every student and teacher `from_dict` accepts carries a name a user can hold. */
  lemma ParsedNamesStored(ss: seq<Value>, ts: seq<Value>, now: string)
    ensures ParseEach(ss, ParseStudent).Some? ==>
              forall i :: 0 <= i < |ss| ==> IsStoredName(ParseEach(ss, ParseStudent).value[i].name)
    ensures ParseEach(ts, ParseTeacherAt(now)).Some? ==>
              forall i :: 0 <= i < |ts| ==> IsStoredName(ParseEach(ts, ParseTeacherAt(now)).value[i].name)
  {
    if ParseEach(ss, ParseStudent).Some? {
      forall i | 0 <= i < |ss|
        ensures IsStoredName(ParseEach(ss, ParseStudent).value[i].name)
      {
        assert ParseStudent(ss[i]).Ok?;
      }
    }
    if ParseEach(ts, ParseTeacherAt(now)).Some? {
      forall i | 0 <= i < |ts|
        ensures IsStoredName(ParseEach(ts, ParseTeacherAt(now)).value[i].name)
      {
        assert ParseTeacher(ts[i], now).Ok?;
      }
    }
  }

  /**
   * The body of `_load_data` after the read: the entities, then the logs
   * and counters as stored. None when a step fails.
   */
  function ParseAll(data: Record, now: string): (r: Option<State>)
    ensures r.Some? ==> NamesStored(r.value.dir)
  {
    var dir := ParseEntities(data, now);
    var attendance := ReadLog(Get(data, "attendance", JArr([])));
    var finance := ReadLog(Get(data, "finance", JArr([])));
    var ns := ReadCounter(Get(data, "next_student_id", JInt(1)));
    var nt := ReadCounter(Get(data, "next_teacher_id", JInt(1)));
    var nc := ReadCounter(Get(data, "next_course_id", JInt(1)));
    if dir.None? || attendance.None? || finance.None? || ns.None? || nt.None? || nc.None? then None
    else Some(State(dir.value, attendance.value, finance.value, ns.value, nt.value, nc.value))
  }

  /** The defaults themselves load as the default state. */
  lemma DefaultsParse(now: string)
    ensures ParseAll(DefaultStore, now) == Some(DefaultState)
  {
    DefaultStoreEntries();
    assert ParseEach([], ParseStudent) == Some([]);
    assert ParseEach([], ParseTeacherAt(now)) == Some([]);
    assert ParseEach([], ParseCourse) == Some([]);
    assert ReadLog(JArr([])) == Some([]);
  }

  /** Every student and teacher name is one a user can hold. */
  predicate NamesStored(d: Directory)
  {
    && (forall i :: 0 <= i < |d.students| ==> IsStoredName(d.students[i].name))
    && (forall i :: 0 <= i < |d.teachers| ==> IsStoredName(d.teachers[i].name))
  }

  /**
   * `__init__` and `_load_data`: the state a new manager starts from. Any
   * failure along the way resets everything to the defaults.
   */
  function LoadState(file: StoreFile, now: string): (st: State)
    ensures NamesStored(st.dir)
    ensures !(file.Parsed? && file.content.JObj?) ==> st == DefaultState
  {
    DefaultsParse(now);
    match ParseAll(ReadStore(file), now)
    case Some(st) => st
    case None => DefaultState
  }

  function LogImage(log: seq<Record>): (v: Value)
    ensures v.JArr? && |v.items| == |log| && forall i :: 0 <= i < |log| ==> v.items[i] == JObj(log[i])
  {
    JArr(seq(|log|, i requires 0 <= i < |log| => JObj(log[i])))
  }

  function StudentsImage(ss: seq<StudentRec>): (v: Value)
    ensures v.JArr? && |v.items| == |ss| && forall i :: 0 <= i < |ss| ==> v.items[i] == StudentDict(ss[i])
  {
    JArr(seq(|ss|, i requires 0 <= i < |ss| => StudentDict(ss[i])))
  }

  function TeachersImage(ts: seq<TeacherRec>): (v: Value)
    ensures v.JArr? && |v.items| == |ts| && forall i :: 0 <= i < |ts| ==> v.items[i] == TeacherDict(ts[i])
  {
    JArr(seq(|ts|, i requires 0 <= i < |ts| => TeacherDict(ts[i])))
  }

  function CoursesImage(cs: seq<CourseRec>): (v: Value)
    ensures v.JArr? && |v.items| == |cs| && forall i :: 0 <= i < |cs| ==> v.items[i] == CourseDict(cs[i])
  {
    JArr(seq(|cs|, i requires 0 <= i < |cs| => CourseDict(cs[i])))
  }

  /** `_save_data`: the dictionary written back, with exactly the keys of the defaults. */
  function Image(st: State): (v: Value)
    ensures v.JObj? && v.fields.Keys == DefaultStore.Keys
    ensures "students" in v.fields && v.fields["students"] == StudentsImage(st.dir.students)
    ensures "teachers" in v.fields && v.fields["teachers"] == TeachersImage(st.dir.teachers)
    ensures "courses" in v.fields && v.fields["courses"] == CoursesImage(st.dir.courses)
    ensures "attendance" in v.fields && v.fields["attendance"] == LogImage(st.attendance)
    ensures "finance" in v.fields && v.fields["finance"] == LogImage(st.finance)
    ensures "next_student_id" in v.fields && v.fields["next_student_id"] == JInt(st.nextStudentId)
    ensures "next_teacher_id" in v.fields && v.fields["next_teacher_id"] == JInt(st.nextTeacherId)
    ensures "next_course_id" in v.fields && v.fields["next_course_id"] == JInt(st.nextCourseId)
  {
    JObj(map["students" := StudentsImage(st.dir.students),
             "teachers" := TeachersImage(st.dir.teachers),
             "courses" := CoursesImage(st.dir.courses),
             "attendance" := LogImage(st.attendance),
             "finance" := LogImage(st.finance),
             "next_student_id" := JInt(st.nextStudentId),
             "next_teacher_id" := JInt(st.nextTeacherId),
             "next_course_id" := JInt(st.nextCourseId)])
  }

  /** What survives a save and a load: everything except the instruments, which are not written. */
  function Reloaded(st: State): (r: State)
    ensures |r.dir.courses| == |st.dir.courses|
    ensures forall j :: 0 <= j < |st.dir.courses| ==> r.dir.courses[j] == st.dir.courses[j].(instrument := JNull)
  {
    st.(dir := st.dir.(courses := seq(|st.dir.courses|, j requires 0 <= j < |st.dir.courses| =>
                                      st.dir.courses[j].(instrument := JNull))))
  }

  lemma StudentsReload(ss: seq<StudentRec>)
    requires forall i :: 0 <= i < |ss| ==> IsStoredName(ss[i].name)
    ensures ParseEach(StudentsImage(ss).items, ParseStudent) == Some(ss)
  {
    var items := StudentsImage(ss).items;
    forall i | 0 <= i < |ss|
      ensures ParseStudent(items[i]) == Ok(ss[i])
    {
      StudentRoundTrip(ss[i]);
    }
    var r := ParseEach(items, ParseStudent);
    assert r.Some?;
    assert r.value == ss;
  }

  lemma TeachersReload(ts: seq<TeacherRec>, now: string)
    requires forall i :: 0 <= i < |ts| ==> IsStoredName(ts[i].name)
    ensures ParseEach(TeachersImage(ts).items, ParseTeacherAt(now)) == Some(ts)
  {
    var items := TeachersImage(ts).items;
    forall i | 0 <= i < |ts|
      ensures ParseTeacherAt(now)(items[i]) == Ok(ts[i])
    {
      TeacherRoundTrip(ts[i], now);
    }
    var r := ParseEach(items, ParseTeacherAt(now));
    assert r.Some?;
    assert r.value == ts;
  }

  lemma CoursesReload(cs: seq<CourseRec>)
    ensures ParseEach(CoursesImage(cs).items, ParseCourse) == Some(Reloaded(State(Directory([], [], cs), [], [], 1, 1, 1)).dir.courses)
  {
    var items := CoursesImage(cs).items;
    forall j | 0 <= j < |cs|
      ensures ParseCourse(items[j]) == Ok(cs[j].(instrument := JNull))
    {
      CourseRoundTrip(cs[j]);
    }
    var r := ParseEach(items, ParseCourse);
    assert r.Some?;
    assert r.value == Reloaded(State(Directory([], [], cs), [], [], 1, 1, 1)).dir.courses;
  }

  lemma LogReload(log: seq<Record>)
    ensures ReadLog(LogImage(log)) == Some(log)
  {
    var r := ReadLog(LogImage(log));
    assert r.Some?;
    assert r.value == log;
  }

  /** Back-filling a dictionary that already has every default key changes nothing. */
  lemma BackfillComplete(m: Record)
    requires DefaultStore.Keys <= m.Keys
    ensures Backfill(m) == m
  {
  }

  /** The entity lists of a saved state parse back as the reloaded directory. */
  lemma ImageEntities(st: State, now: string)
    requires NamesStored(st.dir)
    ensures ParseEntities(Image(st).fields, now) == Some(Reloaded(st).dir)
  {
    var m := Image(st).fields;
    StudentsReload(st.dir.students);
    TeachersReload(st.dir.teachers, now);
    CoursesReload(st.dir.courses);
    assert Get(m, "students", JArr([])) == StudentsImage(st.dir.students);
    assert Get(m, "teachers", JArr([])) == TeachersImage(st.dir.teachers);
    assert Get(m, "courses", JArr([])) == CoursesImage(st.dir.courses);
  }

  /**
   * Saving and loading again gives back the same state except for the
   * instruments of the courses, which come back as None; the load time
   * does not matter, since every teacher carries its own timestamp.
   */
  lemma ReloadImage(st: State, now: string)
    requires NamesStored(st.dir)
    ensures LoadState(Parsed(Image(st)), now) == Reloaded(st)
  {
    var m := Image(st).fields;
    BackfillComplete(m);
    assert ReadStore(Parsed(Image(st))) == m;
    ImageEntities(st, now);
    LogReload(st.attendance);
    LogReload(st.finance);
    assert Get(m, "attendance", JArr([])) == LogImage(st.attendance);
    assert Get(m, "finance", JArr([])) == LogImage(st.finance);
  }

  /**
   * An empty dictionary loads as the default state: `_read_store` fills in
   * every key with its default (the key-by-key rule is `ReadStore`'s contract).
   */
  lemma EmptyDictionaryLoadsDefaults(now: string)
    ensures LoadState(Parsed(JObj(map[])), now) == DefaultState
  {
    var data := ReadStore(Parsed(JObj(map[])));
    assert data == DefaultStore;
    DefaultsParse(now);
  }

  /** A data file whose entity lists do not deserialise loads as the defaults, logs and counters included. */
  lemma FailedDeserialisationResets(file: StoreFile, now: string)
    requires ParseAll(ReadStore(file), now).None?
    ensures LoadState(file, now) == DefaultState
  {
  }
}
