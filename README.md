# MSMS record keeper in Dafny

A model of the domain layer of MSMS, the record keeper of a music school, with proofs about it. It covers:

- the user base record and its name rule (PST4/app/user.py);
- students (PST5/app/student.py);
- teachers and courses (PST4/app/teacher.py);
- both versions of the `ScheduleManager` hub: the later one with attendance and finance logs (PST5/app/schedule.py) and the earlier one with `switch_student_course`, `reset_data` and `get_lessons_by_day` (PST4/app/schedule.py);
- the credential registry `UserAuth` (PST5/app/auth.py).

Entities whose fields the source updates in place are classes: `Users.User`, `Students.StudentUser`, `Teachers.TeacherUser`, `Teachers.Course`, `Manager.ScheduleManager`, `ManagerV4.ScheduleManager` and `Auth.UserAuth`. Each entity class has a value view (`StudentRec`, `TeacherRec`, `CourseRec`). The dictionary form is a JSON `Value`, and `to_dict`/`from_dict` are pure functions between the two.

Each manager class holds sequences of live entity objects, the logs and the three ID counters. Every method is proved to move the manager's abstract state (`Model()`) exactly as a value-level operation describes:

- module `Registry`: lookups, removals with their cascades, enrolment;
- module `Schedule`: adds, check-in, payments;
- module `ScheduleV4`: the earlier manager's load, `add_course`, switch and lessons;
- module `Store`: the data file, its defaults and back-fill.

The source's in-place `for` loops over courses and students (module `Views`) are proved against the value-level cascades.

The properties proved about the value-level operations include:

- the student/course relation stays symmetric and closed across `add_student` without an initial course list, `add_teacher`, `add_course`, removals, enrolment and unenrolment. `add_student` with an initial course list is the exception: it is proved to leave a one-sided enrolment, since no course roster gains the student and the course IDs are not checked (`Schedule.AddStudentWithCoursesOneSided`, `Registry.AddStudentWithCoursesUnlinked`);
- a removal cascades as stated;
- unknown IDs change nothing;
- payments are validated in order;
- log filters keep record order;
- load falls back to the defaults and back-fills missing keys;
- what is saved loads back;
- registration and login agree.

Persistence is a ghost `saved` state. After every operation that ends in `_save_data` it equals the new abstract state; an operation that fails leaves it unchanged.

## Model

| member | source | states |
|---|---|---|
| Users.CheckName | PST4/app/user.py:15-21 | an accepted name is the stripped input |
| Users.CheckNameMeaning | PST4/app/user.py:12-21 | a name is accepted iff, stripped, it is non-empty and contains only ASCII letters and whitespace; an all-whitespace name fails with "empty", any other character with "letters and spaces only"; an accepted name is one a user can hold |
| Users.StoredNamePasses | PST4/app/user.py:16-24 | a name a user already holds passes the check unchanged |
| Users.LetterNamePasses | PST4/app/user.py:12-21 | a non-empty name of ASCII letters is accepted as given |
| Users.CheckStoredName | PST4/app/user.py:16-21 | a stored string goes through the same check; `None` reads as the empty name and is refused |
| Users.User.constructor | PST4/app/user.py:14-24 | a user holding an already valid name keeps the id and name given |
| Users.User.New | PST4/app/user.py:14-24 | construction succeeds exactly when the name check does; the stored name is the stripped name and the id is the argument; otherwise it raises the check's error |
| Users.User.UpdateName | PST4/app/user.py:26-33 | rename applies the same check; on refusal the name is unchanged, on success it is the stripped new name; the id is never touched |
| Users.UserDict | PST4/app/user.py:35-40 | `to_dict` has exactly the keys `user_id` and `name`, holding the id and the name |
| Users.User.ToDict | PST4/app/user.py:35-40 | `to_dict` of a user has exactly the keys `user_id` and `name`, holding its current id and name |
| Users.ParseUser | PST4/app/user.py:42-49 | `from_dict` on a non-dictionary raises TypeError |
| Users.ParseUserStored | PST4/app/user.py:43-49 | every user `from_dict` builds holds a valid name |
| Users.UserRoundTrip | PST4/app/user.py:35-49 | `from_dict(to_dict(u))` has u's id and name |
| Users.ParseUserIdKey | PST4/app/user.py:47 | `from_dict` takes the id from `user_id` when present and falls back to `id` |
| Users.FromDict | PST4/app/user.py:42-49 | the class method builds a user exactly when `ParseUser` accepts, with its id and name, and raises its error otherwise |
| Students.StudentUser.constructor | PST5/app/student.py:7-15 | a new student holds the id, the valid name and the given enrolment list |
| Students.StudentUser.New | PST5/app/student.py:7-15 | construction succeeds iff the name check does; the student then holds the id, the stripped name and a copy of the enrolment list |
| Students.StudentUser.EnrollCourse | PST5/app/student.py:17-20 | the course list becomes the old list with the ID appended if absent |
| Students.StudentUser.DropCourse | PST5/app/student.py:22-25 | the course list loses its first occurrence of the ID and is unchanged when the ID is absent |
| Students.StudentUser.UpdateName | PST5/app/student.py:27-29 | rename applies the user check; on refusal the name is unchanged |
| Seqs.AddIfAbsent | PST5/app/student.py:17-20 | the ID is afterwards in the list; nothing else is added; the old list is a prefix; a duplicate-free list stays duplicate-free |
| Seqs.AddIfAbsentIdempotent | PST5/app/student.py:17-20 | a second identical add-if-absent changes nothing |
| Seqs.RemoveFirst | PST5/app/student.py:22-25 | `list.remove` drops exactly one occurrence of the value: the multiset loses one copy |
| Seqs.RemoveFirstAt | PST5/app/student.py:22-25 | the occurrence dropped is the first one: the elements before it stay in place and those after it move up by one |
| Seqs.RemoveFirstKeepsOthers | PST5/app/student.py:22-25 | after `list.remove` the others keep their relative order and every other value is still present |
| Seqs.RemoveFirstNoDup | PST5/app/student.py:22-25 | on a duplicate-free list `list.remove` leaves no copy of the value |
| Seqs.Discard | PST5/app/student.py:22-25 | remove-if-present: a no-op for an absent value, otherwise an order-keeping sub-list that keeps every other value; a duplicate-free list ends without the value |
| Seqs.Keep | PST5/app/schedule.py:175 | a filtering comprehension is never longer than its input |
| Seqs.KeepMeaning | PST5/app/schedule.py:175 | a filtering comprehension keeps exactly the elements that satisfy the condition, in order |
| Seqs.KeepAppend | PST5/app/schedule.py:255 | filtering a log with one more record filters the old log and then the new record |
| Seqs.KeepNoDup | PST5/app/schedule.py:175 | filtering a duplicate-free list leaves it duplicate-free |
| Seqs.KeepCounts | PST5/app/schedule.py:342 | a filter comprehension keeps every copy of an element that passes and none of one that fails |
| Seqs.KeepAll | PST5/app/schedule.py:342 | a filter every element passes returns the whole list |
| Students.EnrollIdempotent | PST5/app/student.py:17-20 | enrolling twice in the same course is the same as once |
| Students.EnrollThenDrop | PST5/app/student.py:17-25 | enrolling in a new course and dropping it restores the list |
| Students.StudentDict | PST5/app/student.py:31-37 | `to_dict` has exactly the keys `user_id`, `name` and `enrolled_course_ids` |
| Students.ReadEnrolment | PST5/app/student.py:15 | an empty stored enrolment list reads as an empty list |
| Students.ParseStudent | PST5/app/student.py:39-45 | `from_dict` refuses a non-dictionary; every student it builds holds a valid name |
| Students.StudentRoundTrip | PST5/app/student.py:31-45 | `from_dict(to_dict(s))` gives back the id, the name and the enrolment list in order |
| Students.EnrolmentRoundTrip | PST5/app/student.py:15 | a stored list of course IDs reads back as the same list |
| Students.ParseStudentIdFallback | PST5/app/student.py:41-45 | without `user_id` the id comes from `id`; without an enrolment list the student has none |
| Students.IdsText | PST5/app/student.py:52 | the course column is `-` exactly for an empty list; a single ID shows as its decimal text |
| Students.DecimalsOf | PST5/app/student.py:52 | `map(str, ids)` gives the decimal text of each ID in order |
| Students.IdsTextAppend | PST5/app/student.py:52 | one more ID adds `, ` and its decimal to the text of a non-empty list, so with the single-ID case the column of every list is its decimals joined by `, ` |
| Students.StudentTable | PST5/app/student.py:47-53 | the table row shows the id and the name; the course column is `-` exactly when there are no courses, and a single course shows as its ID in decimal |
| Students.StudentTableAppend | PST5/app/student.py:52 | a student enrolled in one more course shows `, ` and that course's ID after the existing course column |
| Students.JoinedDecimals | PST5/app/student.py:52 | joining the decimals of a non-empty ID list never yields `-` |
| Text.Strip | PST4/app/user.py:16 | `strip()` is empty exactly for all-whitespace input, starts and ends on non-whitespace, and keeps every non-whitespace character |
| Text.StripUnchanged | PST4/app/user.py:16 | a string with no leading or trailing whitespace is its own strip |
| Text.StripIdempotent | PST4/app/user.py:28 | stripping twice is stripping once |
| Text.Lower | PST5/app/schedule.py:341 | the model's `lower()`, which maps ASCII letters only, keeps the length |
| Text.LowerAt | PST5/app/schedule.py:341 | the model's `lower()` maps each character on its own: `A`-`Z` to `a`-`z`, every other character to itself |
| Text.LowerIdempotent | PST5/app/schedule.py:345 | lowering twice is lowering once |
| Text.ContainsIffOccurs | PST5/app/schedule.py:342 | the substring test holds iff the needle occurs at some position |
| Text.NatDigits | PST5/app/schedule.py:333 | `str()` of a natural number is a non-empty run of digits, one digit exactly below ten |
| Text.NatDigitsInjective | PST5/app/schedule.py:333 | distinct natural numbers have distinct decimal texts |
| Text.DecimalInjective | PST5/app/schedule.py:333 | `str(a) == str(b)` for integers iff `a == b` |
| Text.Decimal | PST5/app/schedule.py:333 | `str(n)` is never empty and starts with `-` exactly when n is negative |
| Text.IsSpace | PST4/app/user.py:16 | definition only: the characters `str.isspace()` accepts, which `strip()` removes; its use is stated by `Text.Strip` |
| Text.Contains | PST5/app/schedule.py:342 | `needle in haystack` holds only for a needle no longer than the haystack; its meaning is `Text.ContainsIffOccurs` |
| Text.Join | PST5/app/student.py:52 | definition only: `sep.join(parts)`; what one more part adds is `Text.JoinAppend` |
| Text.JoinAppend | PST5/app/student.py:52 | joining one more part onto a non-empty list adds the separator and that part at the end |
| Json.IntList | PST5/app/student.py:35 | a list of IDs is stored as a JSON array of the same integers in order |
| Json.ReadIntList | PST5/app/student.py:43 | a stored value reads as an ID list exactly when it is an array of integers, item for item |
| Json.IntListRoundTrip | PST5/app/student.py:35-43 | an ID list stored and read back is the same list |
| Json.StrMatchesIdIff | PST5/app/schedule.py:333 | `str(v) == str(id)` holds iff v is the integer id or the string of its decimal text |
| Json.StrMatchesId | PST5/app/schedule.py:333 | definition only: the rendered text of v equals the decimal text of id; its meaning is `Json.StrMatchesIdIff` |
| Json.PyEqualsInt | PST5/app/schedule.py:191 | definition only: Python's `==` between a stored teacher reference and an integer ID, true for the same integer, a float of the same value or a boolean read as 0 or 1, and false for any other value |
| Teachers.TeacherNameCheckAgrees | PST4/app/teacher.py:31-35 | the teacher's extra regex pass refuses exactly what the user check refuses, with the same error for non-empty input, but reports "letters and spaces only" for the empty name |
| Teachers.TeacherNameCheck | PST4/app/teacher.py:31-35 | a raw name that is not all letters and whitespace is refused as `InvalidNameChars`; an accepted name is the stripped input and all letters and whitespace |
| Teachers.TeacherUser.constructor | PST4/app/teacher.py:12-17 | a teacher built from a record with a valid name is that record |
| Teachers.TeacherUser.New | PST4/app/teacher.py:12-17 | construction succeeds iff the name check does; the teacher has the stripped name, the speciality, no courses and the current time stamp |
| Teachers.TeacherUser.AssignCourse | PST4/app/teacher.py:19-23 | the course list becomes add-if-absent of the ID; the time stamp moves only when the ID was new |
| Teachers.TeacherUser.RemoveCourse | PST4/app/teacher.py:25-29 | the course list becomes remove-if-present of the ID; the time stamp moves only when the ID was there |
| Teachers.TeacherUser.UpdateName | PST4/app/teacher.py:31-36 | a refused name leaves name and time stamp unchanged; an accepted one stores the stripped name and the current time |
| Teachers.TeacherUser.UpdateSpeciality | PST4/app/teacher.py:38-43 | an empty or whitespace-only speciality raises and changes nothing; otherwise the argument is stored as given, with the current time |
| Teachers.Course.constructor | PST4/app/teacher.py:85-90 | a new course has the id, name, teacher reference and instrument given, and an empty roster |
| Teachers.Course.FromRec | PST4/app/teacher.py:111-116 | a course rebuilt from a record is that record |
| Teachers.Course.EnrollStudent | PST4/app/teacher.py:92-95 | the roster becomes add-if-absent of the student ID |
| Teachers.Course.RemoveStudent | PST4/app/teacher.py:97-100 | the roster becomes remove-if-present of the student ID |
| Teachers.TeacherDict | PST4/app/teacher.py:49-57 | `to_dict` has exactly the five keys, holding id, name, speciality, course IDs and time stamp |
| Teachers.ParseTeacher | PST4/app/teacher.py:59-65 | `from_dict` refuses a non-dictionary and raises KeyError without `id`; every teacher it builds holds a valid name |
| Teachers.TeacherRoundTrip | PST4/app/teacher.py:49-65 | `from_dict(to_dict(t))` gives back id, name, speciality, course IDs and time stamp |
| Teachers.TeacherStampDefault | PST4/app/teacher.py:62-64 | without `course_ids` and `last_updated` the teacher has no courses and the current time |
| Teachers.CourseDict | PST4/app/teacher.py:102-109 | `to_dict` has exactly the keys id, name, teacher_id and enrolled_student_ids; the instrument is not written |
| Teachers.ParseCourse | PST4/app/teacher.py:111-116 | `from_dict` refuses a non-dictionary; a rebuilt course has no instrument |
| Teachers.CourseRoundTrip | PST4/app/teacher.py:102-116 | `from_dict(to_dict(c))` is c with its instrument reset to None |
| Teachers.TeacherTableAsWrittenFails | PST4/app/teacher.py:73 | the table row of a teacher with an integer course ID raises a TypeError |
| Teachers.TeacherTableAsWritten | PST4/app/teacher.py:67-75 | as written, the row exists exactly for a teacher without courses, and otherwise the join raises a TypeError |
| Teachers.TeacherTable | PST4/app/teacher.py:67-75 | the corrected row shows id, name, speciality and time stamp, with `-` exactly for no courses; it agrees with the row as written wherever that does not raise |
| Teachers.TeacherTableAppend | PST4/app/teacher.py:73 | in the corrected row, one more assigned course adds `, ` and its ID to the course column |
| Teachers.CourseTableAsWrittenFails | PST4/app/teacher.py:124 | the table row of a course with an enrolled student raises a TypeError |
| Teachers.CourseTableAsWritten | PST4/app/teacher.py:118-125 | as written, the row exists exactly for a course with an empty roster, and otherwise the join raises a TypeError |
| Teachers.CourseTable | PST4/app/teacher.py:118-125 | the corrected row shows id, name and teacher, with `-` exactly for an empty roster; it agrees with the row as written wherever that does not raise |
| Teachers.CourseTableAppend | PST4/app/teacher.py:124 | in the corrected row, one more enrolled student adds `, ` and its ID to the roster column |
| Registry.StudentIds | PST5/app/schedule.py:335 | the IDs of the students, position by position |
| Registry.Find | PST5/app/schedule.py:332-337 | `_find` finds nothing iff the ID is absent, and otherwise the first position holding it |
| Registry.FindFrom | PST5/app/schedule.py:333 | the search from a position finds nothing iff no later entry holds the ID, and otherwise the first one that does |
| Registry.StripStudent | PST5/app/schedule.py:172-174 | every course keeps its fields but loses the student from its roster, in course order |
| Registry.StripCourse | PST5/app/schedule.py:208-210 | every student keeps its fields but loses the course from its list |
| Registry.NullTeacher | PST5/app/schedule.py:190-192 | every course referring to the teacher gets a None teacher; the others are untouched |
| Registry.RemoveStudent | PST5/app/schedule.py:168-178 | succeeds iff the student exists; afterwards the ID is gone, teachers are untouched and the course IDs are the same |
| Registry.RemoveCourse | PST5/app/schedule.py:204-214 | succeeds iff the course exists; afterwards the ID is gone, teachers are untouched and the student IDs are the same |
| Registry.RemoveTeacher | PST5/app/schedule.py:186-196 | succeeds iff the teacher exists; afterwards the teacher is gone, students are untouched, the number of courses is the same, and no course refers to the teacher while each keeps all its other fields |
| Registry.Enrol | PST5/app/schedule.py:217-227 | succeeds iff both the student and the course exist |
| Registry.Unenrol | PST5/app/schedule.py:229-239 | succeeds iff both the student and the course exist, whether or not the pair was enrolled |
| Registry.RemoveStudentLinked | PST5/app/schedule.py:168-178 | on a linked directory (both sides mirror each other, every reference resolves, no duplicates) removing a student keeps it linked and no roster names the student |
| Registry.RemoveCourseLinked | PST5/app/schedule.py:204-214 | removing a course keeps the directory linked and no student lists the course |
| Registry.RemoveTeacherLinked | PST5/app/schedule.py:186-196 | removing a teacher keeps the directory linked |
| Registry.EnrolLinked | PST5/app/schedule.py:217-227 | enrolment keeps the directory linked, and afterwards the student lists the course and the course lists the student |
| Registry.EnrolIdempotent | PST5/tests/test_scheduale_manager.py:43 | a repeated enrolment changes nothing |
| Registry.UnenrolLinked | PST5/app/schedule.py:229-239 | unenrolment keeps the directory linked and leaves the pair unenrolled on both sides |
| Registry.EnrolThenUnenrol | PST5/app/schedule.py:217-239 | on a symmetric directory, enrolling a pair that was not enrolled and unenrolling it restores the directory |
| Registry.EnrolAt | PST5/app/schedule.py:217-224 | when the lookups find positions si and ci, enrolment adds the ID to exactly those two lists |
| Registry.UnenrolAt | PST5/app/schedule.py:229-236 | when the lookups find positions si and ci, unenrolment removes the ID from exactly those two lists |
| Registry.RemoveStudentFound | PST5/app/schedule.py:172-175 | removing an existing student strips the rosters and filters the students |
| Registry.RemoveTeacherFound | PST5/app/schedule.py:190-193 | removing an existing teacher filters the teachers and nulls the courses' references |
| Registry.RemoveCourseFound | PST5/app/schedule.py:208-211 | removing an existing course strips the students' lists and filters the courses |
| Registry.AddStudentLinked | PST5/app/schedule.py:162-165 | adding a student with a fresh ID and no courses keeps the directory linked |
| Registry.AddStudentWithCoursesUnlinked | PST5/app/schedule.py:162-163 | adding a student with an initial course list breaks the symmetry, because no roster is updated |
| Registry.AddTeacherLinked | PST5/app/schedule.py:180-183 | adding a teacher with a fresh ID keeps the directory linked |
| Registry.AddCourseLinked | PST5/app/schedule.py:198-201 | adding a course with a fresh ID and an empty roster keeps the directory linked, whatever its teacher reference |
| Views.StudentViews | PST5/app/schedule.py:42 | the value view of each student object, in order |
| Views.ObjIdsAreViewIds | PST5/app/schedule.py:335-337 | looking up IDs among the objects is looking them up among their views |
| Views.KeptStudentViews | PST5/app/schedule.py:175 | filtering the student objects by ID filters their views the same way |
| Views.KeptTeacherViews | PST5/app/schedule.py:193 | filtering the teacher objects by ID filters their views the same way |
| Views.KeptCourseViews | PST5/app/schedule.py:211 | filtering the course objects by ID filters their views the same way |
| Views.EnrolStudentAt | PST5/app/schedule.py:223-224 | add-if-absent on one student's list changes that student only |
| Views.UnenrolStudentAt | PST5/app/schedule.py:235-236 | remove-if-present on one student's list changes that student only |
| Views.EnrolCourseAt | PST5/app/schedule.py:221-222 | add-if-absent on one course's roster changes that course only |
| Views.UnenrolCourseAt | PST5/app/schedule.py:233-234 | remove-if-present on one course's roster changes that course only |
| Views.StripStudentFromRosters | PST5/app/schedule.py:172-174 | the in-place loop over the courses leaves them exactly as `StripStudent` says |
| Views.StripCourseFromStudents | PST5/app/schedule.py:208-210 | the in-place loop over the students leaves them exactly as `StripCourse` says |
| Views.NullTeacherRefs | PST5/app/schedule.py:190-192 | the in-place loop over the courses leaves them exactly as `NullTeacher` says |
| Store.DefaultStoreEntries | PST5/app/schedule.py:8-17 | the default structure has empty entity lists and logs and counters of 1 |
| Store.Backfill | PST5/app/schedule.py:107-108 | back-fill keeps every stored key's value and adds exactly the missing default keys with their defaults |
| Store.ReadStore | PST5/app/schedule.py:88-109 | a missing, empty, unreadable or non-dictionary file reads as the defaults; a dictionary keeps every stored entry, gains exactly the missing default keys with their default values, and nothing else |
| Store.Iterated | PST5/app/schedule.py:128-130 | iterating a stored list gives its items |
| Store.ParseEach | PST5/app/schedule.py:128-130 | a comprehension over `from_dict` succeeds iff every item parses, and then gives each item's result in order |
| Store.ReadLog | PST5/app/schedule.py:136-137 | a log read back is the stored array of records, item for item |
| Store.ParseEntities | PST5/app/schedule.py:128-130 | every rebuilt student and teacher holds a valid name |
| Store.ParsedNamesStored | PST5/app/schedule.py:128-129 | every student and teacher a comprehension of `from_dict` builds holds a valid name |
| Store.ParseAll | PST5/app/schedule.py:123-140 | every state the load builds has valid names |
| Store.DefaultsParse | PST5/app/schedule.py:131-140 | the default structure loads as the empty state with counters of 1 |
| Store.LoadState | PST5/app/schedule.py:123-140 | a new manager's state has valid names, and a missing, empty, unreadable or non-dictionary file gives the empty state with counters of 1 |
| Store.Image | PST5/app/schedule.py:148-159 | `_save_data` writes exactly the eight default keys, holding each entity's `to_dict`, the logs and the counters |
| Store.LogImage | PST5/app/schedule.py:153-154 | each log is written record by record |
| Store.StudentsImage | PST5/app/schedule.py:150 | the students are written as their `to_dict`, in order |
| Store.TeachersImage | PST5/app/schedule.py:151 | the teachers are written as their `to_dict`, in order |
| Store.CoursesImage | PST5/app/schedule.py:152 | the courses are written as their `to_dict`, in order |
| Store.Reloaded | PST4/app/teacher.py:102-116 | what a save and reload keeps: the same courses with their instrument reset |
| Store.StudentsReload | PST5/app/schedule.py:128 | saved students load back unchanged |
| Store.TeachersReload | PST5/app/schedule.py:129 | saved teachers load back unchanged |
| Store.CoursesReload | PST5/app/schedule.py:130 | saved courses load back without their instrument |
| Store.LogReload | PST5/app/schedule.py:136 | a saved log loads back unchanged |
| Store.BackfillComplete | PST5/app/schedule.py:107-108 | back-fill leaves a complete store as it is |
| Store.ImageEntities | PST5/app/schedule.py:128-130 | the entities of a saved state load back, courses without their instrument |
| Store.ReloadImage | PST5/app/schedule.py:123-159 | loading what `_save_data` wrote gives back the saved state, courses without their instrument |
| Store.EmptyDictionaryLoadsDefaults | PST5/app/schedule.py:107-109 | a stored empty dictionary is back-filled into the default state: no entities, empty logs, counters of 1 |
| Store.FailedDeserialisationResets | PST5/app/schedule.py:131-134 | when deserialisation fails the manager starts from the defaults |
| Logs.CheckInRecord | PST5/app/schedule.py:245-249 | a check-in record has exactly the keys student_id, course_id and timestamp |
| Logs.PaymentRecord | PST5/app/schedule.py:271-276 | a payment record has exactly the keys student_id, amount, method and timestamp |
| Logs.RecordsFor | PST5/app/schedule.py:254-258 | the log queries return exactly the records whose field matches the ID under `str`, in log order |
| Logs.RecordsForAppend | PST5/app/schedule.py:281-282 | querying a log with one more record gives the old answer plus that record if it matches |
| Logs.MatchesIntField | PST5/app/schedule.py:255 | a record holding an integer ID matches exactly that ID |
| Logs.Project | PST5/app/schedule.py:299 | a CSV row has one cell per header: the record's field, or "" when it is missing |
| Logs.ExportReport | PST5/app/schedule.py:284-300 | any kind other than finance or attendance raises before any row is produced; otherwise the chosen log gives its headers and one row per record, with missing fields written as "" |
| Queries.StudentListings | PST5/app/schedule.py:303-310 | one row per student, in order, with id, name and the number of enrolled courses |
| Queries.TeacherListings | PST5/app/schedule.py:312-319 | one row per teacher, in order, with id, name and speciality |
| Queries.CourseListings | PST5/app/schedule.py:321-329 | one row per course, in order, with id, name, instrument and teacher reference |
| Queries.StudentsByName | PST5/app/schedule.py:340-342 | exactly the students whose name contains the keyword ignoring ASCII case, in order |
| Queries.TeachersByKeyword | PST5/app/schedule.py:344-346 | exactly the teachers whose name or speciality contains the keyword ignoring ASCII case, in order |
| Queries.SearchesKeepEveryCopy | PST5/app/schedule.py:340-346 | both searches keep every copy of a matching record and no copy of any other, so the result is determined up to order, and the order is that of the input |
| Queries.EmptyKeywordKeepsAll | PST5/app/schedule.py:341 | an empty (or missing) keyword finds everyone |
| Queries.SearchIgnoresKeywordCase | PST4/app/schedule.py:93-94 | the searches give the same answer for a keyword and its lower-case form |
| Schedule.AddStudent | PST5/app/schedule.py:162-165 | succeeds iff the name check does, appending one student with the old counter as ID and the given course list and moving only that counter; a refused name raises before anything changes |
| Schedule.AddTeacher | PST5/app/schedule.py:180-183 | succeeds iff the name check does, appending one teacher with the old counter as ID and moving only that counter |
| Schedule.AddCourse | PST5/app/schedule.py:198-201 | appends one course with the old counter as ID, the given teacher reference (unchecked) and instrument and an empty roster; only that counter moves |
| Schedule.CheckIn | PST5/app/schedule.py:242-252 | succeeds iff both IDs exist; then exactly one record is appended to the attendance log and nothing else changes |
| Schedule.CheckInFound | PST5/app/schedule.py:245-250 | for existing IDs the check-in record is appended |
| Schedule.RecordPayment | PST5/app/schedule.py:261-279 | checks in order: an unknown student, then a non-numeric amount, then a negative amount; on success exactly one payment is appended and nothing else changes |
| Schedule.CheckInRecorded | PST5/app/schedule.py:254-258 | after a check-in both attendance queries return their old answers plus the new record, and the queries for other IDs are unchanged |
| Schedule.PaymentRecorded | PST5/app/schedule.py:281-282 | after a payment the student's history is the old one plus the new record, and other students' histories are unchanged |
| Schedule.DefaultConsistent | PST5/app/schedule.py:8-17 | the default state is consistent (linked, valid names, counters ahead of every ID) |
| Schedule.CounterFresh | PST5/app/schedule.py:163 | while the counters are ahead, each counter is an unused ID |
| Schedule.AddStudentConsistent | PST5/app/schedule.py:162-165 | `add_student` without an initial course list keeps the state consistent |
| Schedule.AddStudentWithCoursesOneSided | PST5/app/schedule.py:162-163 | `add_student` with an initial course list leaves a one-sided enrolment |
| Schedule.AddTeacherConsistent | PST5/app/schedule.py:180-183 | `add_teacher` keeps the state consistent |
| Schedule.AddCourseConsistent | PST5/app/schedule.py:198-201 | `add_course` keeps the state consistent |
| Schedule.RemoveStudentConsistent | PST5/app/schedule.py:168-178 | `remove_student` keeps the state consistent |
| Schedule.RemoveCourseConsistent | PST5/app/schedule.py:204-214 | `remove_course` keeps the state consistent |
| Schedule.RemoveTeacherConsistent | PST5/app/schedule.py:186-196 | `remove_teacher` keeps the state consistent |
| Schedule.EnrolConsistent | PST5/app/schedule.py:217-227 | enrolment keeps the state consistent |
| Schedule.UnenrolConsistent | PST5/app/schedule.py:229-239 | unenrolment keeps the state consistent |
| Schedule.ThreeAdded | PST5/tests/test_scheduale_manager.py:13-23 | adding a student, a teacher and a course to a new manager gives one of each, with IDs 1 and counters 2 |
| Schedule.AddAndPersist | PST5/tests/test_scheduale_manager.py:25-33 | after those adds, a fresh manager loading the saved file finds the same student, teacher and course |
| Schedule.EnrolSole | PST5/tests/test_scheduale_manager.py:43 | enrolling the only student in the only course links both sides |
| Schedule.AttendAndPay | PST5/tests/test_scheduale_manager.py:35-67 | a check-in gives one attendance record; a payment of 120.0 gives one history entry of 120.0; both reports have their headers and one row |
| Schedule.EmptyFileListsNothing | PST5/tests/test_scheduale_manager.py:69-77 | a manager opened on an empty file lists no students, teachers or courses |
| Manager.BuildStudents | PST5/app/schedule.py:128 | the rebuilt student objects are fresh, distinct and view as the loaded records |
| Manager.BuildTeachers | PST5/app/schedule.py:129 | the rebuilt teacher objects are fresh, distinct and view as the loaded records |
| Manager.BuildCourses | PST5/app/schedule.py:130 | the rebuilt course objects are fresh, distinct and view as the loaded records |
| Manager.ScheduleManager.Open | PST5/app/schedule.py:34-49 | a new manager holds the loaded state, and the healing save leaves that state saved |
| Manager.ScheduleManager.FromState | PST5/app/schedule.py:123-140 | a manager built from a state with valid names holds that state |
| Manager.ScheduleManager.Save | PST5/app/schedule.py:148-159 | `_save_data` leaves the saved image equal to the current state and changes nothing else |
| Manager.ScheduleManager.FindStudentById | PST5/app/schedule.py:335 | finds a student iff one has the ID, and then one with that ID |
| Manager.ScheduleManager.FindTeacherById | PST5/app/schedule.py:336 | finds a teacher iff one has the ID, and then one with that ID |
| Manager.ScheduleManager.FindCourseById | PST5/app/schedule.py:337 | finds a course iff one has the ID, and then one with that ID |
| Manager.ScheduleManager.KeepStudentsOtherThan | PST5/app/schedule.py:175 | the student list becomes the filtered list |
| Manager.ScheduleManager.KeepTeachersOtherThan | PST5/app/schedule.py:193 | the teacher list becomes the filtered list |
| Manager.ScheduleManager.KeepCoursesOtherThan | PST5/app/schedule.py:211 | the course list becomes the filtered list |
| Manager.ScheduleManager.AppendStudent | PST5/app/schedule.py:163-164 | the student list gains the new student's record at the end and only the student counter moves, by one |
| Manager.ScheduleManager.AppendTeacher | PST5/app/schedule.py:181-182 | the teacher list gains the new teacher's record at the end and only the teacher counter moves, by one |
| Manager.ScheduleManager.AppendCourse | PST5/app/schedule.py:199-200 | the course list gains the new course's record at the end and only the course counter moves, by one |
| Manager.ScheduleManager.AppendAttendance | PST5/app/schedule.py:245-249 | the attendance log gains the record at the end and nothing else changes |
| Manager.ScheduleManager.AppendFinance | PST5/app/schedule.py:271-276 | the finance log gains the record at the end and nothing else changes |
| Manager.ScheduleManager.StripRosters | PST5/app/schedule.py:172-174 | the loop over the course objects leaves the courses as `Registry.StripStudent` and nothing else changes |
| Manager.ScheduleManager.StripCourseLists | PST5/app/schedule.py:208-210 | the loop over the student objects leaves the students as `Registry.StripCourse` and nothing else changes |
| Manager.ScheduleManager.NullTeacher | PST5/app/schedule.py:190-192 | the loop over the course objects leaves the courses as `Registry.NullTeacher` and nothing else changes |
| Manager.ScheduleManager.EnrolObjects | PST5/app/schedule.py:221-224 | add-if-absent on the found course's roster and the found student's list, and nothing else changes |
| Manager.ScheduleManager.UnenrolObjects | PST5/app/schedule.py:233-236 | remove-if-present on the found course's roster and the found student's list, and nothing else changes |
| Manager.ScheduleManager.InsertStudent | PST5/app/schedule.py:163-165 | appends the student, moves its counter and saves the new state |
| Manager.ScheduleManager.InsertTeacher | PST5/app/schedule.py:181-183 | appends the teacher, moves its counter and saves the new state |
| Manager.ScheduleManager.AddStudent | PST5/app/schedule.py:162-166 | moves the state as `Schedule.AddStudent` and saves it; a refused name raises with state and saved image unchanged |
| Manager.ScheduleManager.AddTeacher | PST5/app/schedule.py:180-184 | moves the state as `Schedule.AddTeacher` and saves it; a refused name raises with nothing changed |
| Manager.ScheduleManager.AddCourse | PST5/app/schedule.py:198-202 | moves the state as `Schedule.AddCourse` and saves it |
| Manager.ScheduleManager.RemoveStudent | PST5/app/schedule.py:168-178 | returns True iff the student exists; then the state moves as `Registry.RemoveStudent` and is saved; on False nothing changes and nothing is saved |
| Manager.ScheduleManager.RemoveTeacher | PST5/app/schedule.py:186-196 | returns True iff the teacher exists; then the state moves as `Registry.RemoveTeacher` and is saved; on False nothing changes |
| Manager.ScheduleManager.RemoveCourse | PST5/app/schedule.py:204-214 | returns True iff the course exists; then the state moves as `Registry.RemoveCourse` and is saved; on False nothing changes |
| Manager.ScheduleManager.Enrol | PST5/app/schedule.py:217-227 | returns True iff both exist; then the state moves as `Registry.Enrol` and is saved; on False nothing changes |
| Manager.ScheduleManager.Unenrol | PST5/app/schedule.py:229-239 | returns True iff both exist; then the state moves as `Registry.Unenrol` and is saved; on False nothing changes |
| Manager.ScheduleManager.CheckIn | PST5/app/schedule.py:242-252 | returns True iff `Schedule.CheckIn` succeeds, then holds and saves its state; on False nothing changes |
| Manager.ScheduleManager.RecordPayment | PST5/app/schedule.py:261-279 | succeeds iff `Schedule.RecordPayment` does and then holds and saves its state; otherwise raises its error with nothing changed or saved |
| Manager.ScheduleManager.ListStudents | PST5/app/schedule.py:303-310 | the loop builds exactly `Queries.StudentListings` of the students |
| Manager.ScheduleManager.ListTeachers | PST5/app/schedule.py:312-319 | the loop builds exactly `Queries.TeacherListings` of the teachers |
| Manager.ScheduleManager.ListCourses | PST5/app/schedule.py:321-329 | the loop builds exactly `Queries.CourseListings` of the courses |
| ScheduleV4.ParseList | PST4/app/schedule.py:43-45 | a comprehension over `from_dict` succeeds iff every item parses, giving each result in order; otherwise it raises the error of the first failing item |
| ScheduleV4.ItemsAt | PST4/app/schedule.py:43-45 | a missing entity key reads as no entities, a stored list as its items |
| ScheduleV4.CounterAt | PST4/app/schedule.py:47-49 | a missing counter reads as 1 |
| ScheduleV4.AttendanceAt | PST4/app/schedule.py:46 | a missing attendance log reads as empty |
| ScheduleV4.ParsedStudentsStored | PST4/app/schedule.py:43 | every loaded student holds a valid name |
| ScheduleV4.ParsedTeachersStored | PST4/app/schedule.py:44 | every loaded teacher holds a valid name |
| ScheduleV4.LoadEntities | PST4/app/schedule.py:43-45 | the loaded entities have valid names |
| ScheduleV4.LoadFields | PST4/app/schedule.py:43-49 | the loaded state has valid names and no payments |
| ScheduleV4.Load | PST4/app/schedule.py:22-49 | every state the earlier manager loads has valid names and no payments |
| ScheduleV4.LoadOutcomes | PST4/app/schedule.py:22-42 | a missing file gives the empty state with counters of 1; an empty or non-JSON file raises; a file holding a non-dictionary raises |
| ScheduleV4.EmptyDictionaryLoadsEmpty | PST4/app/schedule.py:43-49 | a stored empty dictionary loads as the empty state with counters of 1 |
| ScheduleV4.BadStudentFailsLoad | PST4/app/schedule.py:43 | a student entry `from_dict` refuses makes the whole load raise |
| ScheduleV4.SavedImage | PST4/app/schedule.py:51-62 | `_save_data` writes exactly the later manager's keys other than `finance`, each with the same value |
| ScheduleV4.ParseListEach | PST4/app/schedule.py:43-45 | a list whose every element parses gives the same entities through the comprehension as through `Store.ParseEach` |
| ScheduleV4.SavedItems | PST4/app/schedule.py:43-57 | the loader finds the saved student, teacher and course lists under their keys |
| ScheduleV4.SavedFields | PST4/app/schedule.py:46-61 | the saved attendance log and the three counters read back unchanged |
| ScheduleV4.SavedEntities | PST4/app/schedule.py:43-57 | the saved entities load back, each course without its instrument |
| ScheduleV4.LoadImage | PST4/app/schedule.py:22-64 | a saved state whose names are valid loads back as itself, except that each course loses its instrument, which `to_dict` does not write |
| ScheduleV4.TeacherOf | PST4/app/schedule.py:182 | `find_teacher_by_id` finds a teacher whose ID matches the reference under `str`, and finds none iff no teacher matches |
| ScheduleV4.AddCourseAsWritten | PST4/app/schedule.py:119-122 | as written, `add_course` appends one course with the next ID, whose teacher reference holds the instrument and whose instrument holds the teacher ID; it advances the course counter and changes nothing else |
| ScheduleV4.AddCourseAsWrittenLosesTeacher | PST4/app/schedule.py:119-122 | as written, `add_course` stores the instrument as the teacher reference and the teacher as the instrument, so the course's teacher is not found |
| ScheduleV4.AddCourseFindsTeacher | PST5/app/schedule.py:198-201 | with the arguments in constructor order, the new course's teacher reference finds that teacher |
| ScheduleV4.Switch | PST4/app/schedule.py:153-155 | if the unenrolment fails, the result is False and nothing changes; otherwise it is the enrolment's outcome applied after the unenrolment |
| ScheduleV4.EnrolKeepsOthers | PST4/app/schedule.py:137-143 | enrolling in one course leaves the student's enrolment in every other course as it was |
| ScheduleV4.SwitchOutcome | PST4/app/schedule.py:153-155 | the switch keeps the directory linked; on True the student is in the target course and, when it differs, not in the source; on False with a known student and source the student ends unenrolled from the source and the target is unknown, else nothing changed |
| ScheduleV4.RosterNames | PST4/app/schedule.py:183-187 | at most one name per roster ID |
| ScheduleV4.RosterNamesClosed | PST4/app/schedule.py:183-187 | when every roster ID names a student, the names are those students', one per ID in roster order |
| ScheduleV4.RosterNamesUnknown | PST4/app/schedule.py:186 | roster IDs that resolve to no student contribute no names |
| ScheduleV4.Entry | PST4/app/schedule.py:188-193 | a lesson entry carries the course's id and name, the teacher's name or "Unknown" when the reference does not resolve, and the roster's names |
| ScheduleV4.OnDay | PST4/app/schedule.py:181 | definition only: the lesson's `day`, `""` when absent, equals the requested day after lowering; used by `ScheduleV4.CourseEntriesPresent` |
| ScheduleV4.CourseEntries | PST4/app/schedule.py:180-193 | definition only: one course's entries for the day; its meaning is `ScheduleV4.CourseEntriesMeaning` |
| ScheduleV4.LessonsOn | PST4/app/schedule.py:176-194 | definition only: the entries of all courses for the day, course by course; its meaning is `ScheduleV4.EntriesHaveLessons` and `ScheduleV4.LessonsHaveEntries` |
| ScheduleV4.CourseEntriesMeaning | PST4/app/schedule.py:180-193 | each entry a course contributes is its entry, and it contributes one iff some lesson is on the day |
| ScheduleV4.CourseEntriesAreEntry | PST4/app/schedule.py:180-193 | every entry a course contributes is that course's entry |
| ScheduleV4.CourseEntriesPresent | PST4/app/schedule.py:180-181 | a course contributes an entry iff some lesson of it is on the day |
| ScheduleV4.EntriesHaveLessons | PST4/app/schedule.py:176-194 | every entry returned is the entry of a course that has a lesson on the day |
| ScheduleV4.LessonsHaveEntries | PST4/app/schedule.py:176-194 | every course with a lesson on the day has its entry in the result |
| ScheduleV4.NoLessonsNoEntries | PST4/app/schedule.py:180 | courses without lessons give no entries |
| ScheduleV4.LessonsIgnoreDayCase | PST4/app/schedule.py:181 | the day is matched ignoring case: asking for its lower-case form gives the same lessons |
| ScheduleV4.CourseEntriesIgnoreDayCase | PST4/app/schedule.py:181 | the same for the entries of one course |
| ManagerV4.ScheduleManager.Open | PST4/app/schedule.py:15-49 | the earlier manager opens exactly when `ScheduleV4.Load` succeeds, holding its state (saved), and raises its error otherwise |
| ManagerV4.ScheduleManager.FromState | PST4/app/schedule.py:43-49 | a manager built from a state with valid names and no payments holds that state |
| ManagerV4.ScheduleManager.Save | PST4/app/schedule.py:51-64 | `_save_data` leaves the saved image equal to the current state |
| ManagerV4.ScheduleManager.AppendStudent | PST4/app/schedule.py:76-77 | the student list gains the new student's record at the end and only the student counter moves, by one |
| ManagerV4.ScheduleManager.AppendTeacher | PST4/app/schedule.py:98-99 | the teacher list gains the new teacher's record at the end and only the teacher counter moves, by one |
| ManagerV4.ScheduleManager.AppendCourse | PST4/app/schedule.py:120-121 | the course list gains the new course's record at the end and only the course counter moves, by one |
| ManagerV4.ScheduleManager.AppendAttendance | PST4/app/schedule.py:161-165 | the attendance log gains the record at the end and nothing else changes |
| ManagerV4.ScheduleManager.KeepStudentsOtherThan | PST4/app/schedule.py:86 | the student list becomes the filtered list |
| ManagerV4.ScheduleManager.KeepTeachersOtherThan | PST4/app/schedule.py:108 | the teacher list becomes the filtered list |
| ManagerV4.ScheduleManager.KeepCoursesOtherThan | PST4/app/schedule.py:130 | the course list becomes the filtered list |
| ManagerV4.ScheduleManager.StripRosters | PST4/app/schedule.py:83-85 | the loop over the course objects leaves the courses as `Registry.StripStudent` and nothing else changes |
| ManagerV4.ScheduleManager.StripCourseLists | PST4/app/schedule.py:127-129 | the loop over the student objects leaves the students as `Registry.StripCourse` and nothing else changes |
| ManagerV4.ScheduleManager.NullTeacher | PST4/app/schedule.py:105-107 | the loop over the course objects leaves the courses as `Registry.NullTeacher` and nothing else changes |
| ManagerV4.ScheduleManager.EnrolObjects | PST4/app/schedule.py:140-141 | add-if-absent on the found course's roster and the found student's list, and nothing else changes |
| ManagerV4.ScheduleManager.UnenrolObjects | PST4/app/schedule.py:148-149 | remove-if-present on the found course's roster and the found student's list, and nothing else changes |
| ManagerV4.ScheduleManager.InsertStudent | PST4/app/schedule.py:76-78 | appends the student, moves its counter and saves the new state |
| ManagerV4.ScheduleManager.InsertTeacher | PST4/app/schedule.py:98-100 | appends the teacher, moves its counter and saves the new state |
| ManagerV4.ScheduleManager.AddStudent | PST4/app/schedule.py:75-78 | moves the state as `Schedule.AddStudent` and saves it; a refused name raises with nothing changed |
| ManagerV4.ScheduleManager.AddTeacher | PST4/app/schedule.py:97-100 | moves the state as `Schedule.AddTeacher` and saves it; a refused name raises with nothing changed |
| ManagerV4.ScheduleManager.AddCourse | PST4/app/schedule.py:119-122 | moves the state as the as-written `add_course`: the new course holds the instrument argument as its teacher reference and the teacher argument as its instrument |
| ManagerV4.ScheduleManager.RemoveStudent | PST4/app/schedule.py:80-88 | returns True iff the student exists; then the state moves as `Registry.RemoveStudent` and is saved; on False nothing changes |
| ManagerV4.ScheduleManager.RemoveTeacher | PST4/app/schedule.py:102-110 | returns True iff the teacher exists; then the state moves as `Registry.RemoveTeacher` and is saved; on False nothing changes |
| ManagerV4.ScheduleManager.RemoveCourse | PST4/app/schedule.py:124-132 | returns True iff the course exists; then the state moves as `Registry.RemoveCourse` and is saved; on False nothing changes |
| ManagerV4.ScheduleManager.Enrol | PST4/app/schedule.py:137-143 | returns True iff both exist; then the state moves as `Registry.Enrol` and is saved; on False nothing changes |
| ManagerV4.ScheduleManager.Unenrol | PST4/app/schedule.py:145-151 | returns True iff both exist; then the state moves as `Registry.Unenrol` and is saved; on False nothing changes |
| ManagerV4.ScheduleManager.SwitchCourse | PST4/app/schedule.py:153-155 | returns and moves the state exactly as `ScheduleV4.Switch`; the state is saved whenever the unenrolment succeeded |
| ManagerV4.ScheduleManager.CheckIn | PST4/app/schedule.py:158-167 | returns True iff `Schedule.CheckIn` succeeds, then holds and saves its state; on False nothing changes |
| ManagerV4.ScheduleManager.ResetData | PST4/app/schedule.py:197-203 | empties the four collections and sets every counter to 1, without saving |
| ManagerV4.ScheduleManager.CourseLessonsOn | PST4/app/schedule.py:180-193 | the inner loop builds exactly the entries of one course for the day |
| ManagerV4.ScheduleManager.LessonsByDay | PST4/app/schedule.py:176-194 | the loop builds exactly `ScheduleV4.LessonsOn` of the courses for the day |
| Auth.HashPassword | PST5/app/auth.py:13-21 | the hash records the salt and 200000 iterations, and the password it was made from verifies against it |
| Auth.VerifyPassword | PST5/app/auth.py:23-28 | definition only: the password, under the stored salt and count, derives the stored hash; `Auth.OnlyOwnPasswordVerifies` states what that means |
| Auth.OnlyOwnPasswordVerifies | PST5/app/auth.py:23-28 | with an injective key derivation, a password verifies against a hash iff it is the one the hash was made from |
| Auth.LoadDb | PST5/app/auth.py:30-32 | a dictionary with `"users"` is kept as it is, whether or not `"users"` is a list; an absent file or any other value reads as `{"users": []}` |
| Auth.Accounts | PST5/app/auth.py:30-32 | the accounts are those of the loaded user list, and there are none unless `"users"` is a list |
| Auth.HasAnyUser | PST5/app/auth.py:37-38 | `len(db["users"]) > 0`: over a user list, true iff it has an account; over a string or dictionary, true iff it is non-empty; a value without a length raises |
| Auth.SameName | PST5/app/auth.py:45 | usernames are compared after lowering, so matching names have the same length |
| Auth.FindFrom | PST5/app/auth.py:61 | the search from a position finds nothing iff no later username matches ignoring ASCII case, and otherwise the first that does |
| Auth.FindUser | PST5/app/auth.py:61 | finds nothing iff no username matches ignoring ASCII case, and otherwise the first match |
| Auth.FindUserAppend | PST5/app/auth.py:48-61 | after an append the lookup finds the earlier match if any, else the new account if it matches |
| Auth.AuthenticateMeaning | PST5/app/auth.py:59-65 | over a user list, no account matching the stripped username ignoring case gives None; otherwise only the first match counts: the answer is its username and role when the password verifies against its hash, and None when it does not |
| Auth.Register | PST5/app/auth.py:40-57 | registration raises nothing but `MissingCredentials`, `DuplicateUsername` or `NonListUsers`, and succeeds only over a user list, writing a user list back; the full outcome is `Auth.RegisterErrors` and `Auth.RegisterAppends` |
| Auth.Authenticate | PST5/app/auth.py:59-65 | a login raises exactly when `"users"` is a non-list value that is not empty, and answers only when some account has the stripped username ignoring case; `Auth.AuthenticateMeaning` gives the answer in both directions |
| Auth.RegisterErrors | PST5/app/auth.py:40-55 | registration raises iff the stripped username or the password is empty (missing credentials, checked first), `"users"` is not a list (the scan at line 45 or the `append` raises), or the username is taken ignoring case (duplicate) |
| Auth.RegisterAppends | PST5/app/auth.py:47-57 | a successful registration appends exactly one account with the stripped username, the explicit role or else admin for an empty database and staff otherwise, and the password's hash; it returns that username and role, and afterwards `has_any_user` is true |
| Auth.FirstUserIsAdmin | PST5/app/auth.py:47 | the first account registered without a role on an empty user list is an admin |
| Auth.LaterUserIsStaff | PST5/app/auth.py:47 | a new account registered without a role on a user list that has accounts is staff |
| Auth.LoginAfterRegister | PST5/app/auth.py:59-65 | right after a registration, logging in under that name ignoring case succeeds exactly when the password verifies against the new hash, returning the new identity |
| Auth.RegisterThenAuthenticate | PST5/app/auth.py:40-65 | logging in with the registered password returns the registered username and role |
| Auth.WrongPasswordRejected | PST5/app/auth.py:27-28 | with an injective key derivation, a different password is refused |
| Auth.RegisterTwiceRefused | PST5/app/auth.py:45-46 | registering the same name again, in any case, raises "already exists" |
| Auth.StrippedNonEmpty | PST5/app/auth.py:41-46 | a username matching a non-empty one ignoring case is non-empty |
| Auth.FallbackHasNoUser | PST5/app/auth.py:30-38 | an absent file, or one holding no dictionary with `"users"`, loads as `{"users": []}`: no user, and nobody gets in |
| Auth.NonListUsersRaise | PST5/app/auth.py:37-61 | for `{"users": {"a": 1}}` `has_any_user` is true, while registering and logging in raise |
| Auth.OtherLoginsKept | PST5/app/auth.py:48-65 | a registration leaves every other username's login outcome unchanged |
| Auth.UserAuth.constructor | PST5/app/auth.py:8-10 | the registry is over the given file |
| Auth.UserAuth.HasAny | PST5/app/auth.py:37-38 | over a user list, true iff the file holds an account; it raises exactly when `"users"` has no length |
| Auth.UserAuth.RegisterUser | PST5/app/auth.py:40-57 | returns and stores what `Register` describes; on refusal it raises the same error and the file is unchanged |
| Auth.UserAuth.AuthenticateUser | PST5/app/auth.py:59-65 | answers exactly as `Auth.Authenticate` on the current file; a success comes from a stored account matching the stripped username ignoring case, whose password verifies, and returns its username and role |

## Left out

- File I/O: the data files, the user database and the CSV of `export_report` are values. A read gives a `StoreFile` or a `DbFile`; a write is the ghost `saved` state or the returned `Report` rows.
- Encryption: PST5/app/security.py is not part of this model. The encrypted branch of `_read_store`, including the one-time migration from plain text, is not modelled.
- The save-after-load in `_load_data` (PST5/app/schedule.py:143-146) is the `Saved()` postcondition of `Open`. A failing save is not modelled.
- Logging calls, `StudentUser.save_card` and the startup, backup and user-interface code are not modelled.
- Timestamps (`datetime.now`, `time.strftime`) are the parameter `now`.
- `float(amount)` is an `Option<real>` parameter: None stands for a value `float` refuses. Float rounding is not modelled. NaN and the infinities cannot be written as a `real`: `float("nan")` and `float("inf")` pass the `amt < 0` check and would be recorded, and this case is missing from the model.
- PBKDF2, base64 and `secrets` are the parameter `kdf` and the `salt` argument. `hmac.compare_digest` is plain equality, since constant-time comparison is not expressible.
- `EncryptionManager.read_json` falling back on a missing or undecryptable user file is `DbFile.Absent`.
- A stored account lacking `username`, `password` or `role` raises KeyError in `authenticate_user`, and a `"users"` list holding something other than dictionaries raises in both `register_user` and `authenticate_user`. Accounts are typed records here, so neither case is modelled.
- A role of None is written `""`. A username of None is the empty string, which `(username or "").strip()` treats the same way.
- IDs are integers throughout, which is how both managers create them. A caller passing string IDs (where `str()` lookups and `==` filters would disagree) is not modelled. A stored entity whose ID is not an integer is refused as `MalformedField`.
- Store.LoadState: a stored log that is not a list of dictionaries, or a counter that is not an integer, is treated as failed deserialisation and resets to the defaults. The source keeps such values as they are.
- Store.ReadStore: the encrypted branch's `setdefault` on a non-dictionary is folded into the plain branch, which returns the defaults.
- Students.ParseStudent: `from_dict` on a non-dictionary fails with `NotADict`. The source raises AttributeError from `data.get`.
- Students.ParseStudent: a truthy `enrolled_course_ids` that is not a list of integers (a string, a dictionary, a list holding strings) is refused with `MalformedField` by `Students.ReadEnrolment`. `list(...)` in `from_dict` keeps such values (a string becomes its characters), so the later manager resets its whole state to the defaults, and the earlier one raises, where the source would load the record.
- ScheduleV4.Load: a stored value of the wrong shape (an entity list that is not a list, a non-integer counter) raises `MalformedField`. The source would keep it, or fail later.
- ScheduleV4.OnDay: a lesson whose `day` is not a string does not match. The source raises AttributeError on `.lower()`. The day is lowered in ASCII only (see Text.Lower).
- ManagerV4.ScheduleManager.LessonsByDay: `Course` never sets a `lessons` attribute, so in the source `getattr(course, "lessons", [])` is always empty. The lessons of each course are a parameter instead, one list per course.
- The shallow `_DEFAULT.copy()` (PST5/app/schedule.py:60,133,136-137) shares the default lists between loads. Values have no aliasing, so this is not reproduced.
- Aliasing between the lists a caller passes and those an entity stores is not modelled. Sequences are values, so a student's enrolment list is always its own copy.
- `StudentUser` stores its ID twice, as `id` and `user_id`. The model keeps one constant `id`, which both always equal.
- Valid names (`NamesStored`) are not part of either manager's `Valid()`, which holds only the absence of duplicate objects. They are proved on the state values instead: `Schedule.Consistent` includes them, `Store.LoadState` and `ScheduleV4.Load` establish them, and `FromState` requires them. The name check runs when an object is built.
- ManagerV4.ScheduleManager.ResetData: `reset_data` does not call `_save_data`, so the saved image stays as it was.
- The PST4 manager's `list_*`, `find_*_by_id`, `find_*_by_name*` and `get_attendance_by_*` have the same bodies as the PST5 ones. They are covered by `Queries`, `Registry.Find` and `Logs.RecordsFor`, and have no separate methods on `ManagerV4.ScheduleManager`.
- Text.Lower: only `A`-`Z` are lowered. Python's `str.lower()` also lowers non-ASCII letters (`É` to `é`), maps the Kelvin sign to `k`, and can change the length (`İ` gives two characters). Names pass `^[A-Za-z\s]+$`, so for them the two agree; keywords, specialities and usernames can differ. The affected members are Text.Lower, Text.LowerAt, Queries.StudentsByName, Queries.TeachersByKeyword, Auth.SameName, Auth.FindFrom, Auth.FindUser, ScheduleV4.OnDay and the lesson matching of `ManagerV4.ScheduleManager.CourseLessonsOn`.
- Queries.StudentsByName: the keyword is matched ignoring ASCII case only; a non-ASCII keyword such as the Kelvin sign can match in the source and not here.
- Queries.TeachersByKeyword: ignores ASCII case only, so a speciality such as `Éclat` is not found under `éclat` as the source finds it.
- Auth.FindFrom: usernames are compared ignoring ASCII case only; `JOSÉ` and `josé` are different users here and the same user in the source.
- Auth.FindUser: the same ASCII-only comparison as Auth.FindFrom, which also governs the duplicate check of `register_user`.
- Teachers.TeacherUser.UpdateName: the new name is a string. `update_name(None)` raises TypeError from `re.match` at PST4/app/teacher.py:33, and this case is not modelled.
- Teachers.ParseTeacher: refuses a record whose `speciality` or `last_updated` is not a string, or whose `course_ids` is not a list of integers. `from_dict` keeps such values as they are, so the later manager resets its whole state to the defaults, and the earlier one raises, where the source would load the record.
- Teachers.ParseCourse: refuses a record whose `name` is not a string or whose `enrolled_student_ids` is not a list of integers. `from_dict` keeps such values, with the same reset in the later manager and the same error in the earlier one.
- Users.CheckName: Python's `\s` also matches some Unicode separators. `Text.IsSpace` lists the characters `str.isspace` accepts explicitly, and the name pattern is taken to use the same set.

## Findings

| source | as written | input that shows it | evidently intended | confidence | as-written member | corrected member |
|---|---|---|---|---|---|---|
| PST4/app/teacher.py:73 | `", ".join(self.course_ids)` joins a list of integer course IDs | a teacher with `course_ids == [1]` | `", ".join(map(str, self.course_ids))`, as `StudentUser.to_table` does | not executed; follows from `str.join` refusing non-strings | Teachers.TeacherTableAsWrittenFails | Teachers.TeacherTable |
| PST4/app/teacher.py:124 | `", ".join(self.enrolled_student_ids)` joins the integer student IDs that enrolment appends | a course with one enrolled student, roster `[1]` | `", ".join(map(str, self.enrolled_student_ids))` | not executed; follows from `str.join` refusing non-strings | Teachers.CourseTableAsWrittenFails | Teachers.CourseTable |
| PST4/app/schedule.py:120 | `Course(self.next_course_id, name, instrument, teacher_id)` against the constructor `Course(course_id, name, teacher_id, instrument)` | `add_course("Piano 101", "Piano", 1)` with teacher 1 present: the course's teacher reference is "Piano" | the teacher ID in the third position, as PST5/app/schedule.py:199 does | not executed; follows from the parameter order | ScheduleV4.AddCourseAsWrittenLosesTeacher | ScheduleV4.AddCourseFindsTeacher |
