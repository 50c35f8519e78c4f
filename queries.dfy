/**
 * The read-only queries of the schedule manager over its entities: the
 * `list_*` rows the user interface shows and the case-insensitive name
 * searches (PST5/app/schedule.py and PST4/app/schedule.py).
 */
module Queries {
  import opened Seqs
  import opened Text
  import opened Json
  import opened Students
  import opened Teachers

  /** `{"id", "name", "courses"}`: the student with the number of courses taken. */
  datatype StudentListing = StudentListing(id: int, name: string, courses: nat)
  /** `{"id", "name", "speciality"}`. */
  datatype TeacherListing = TeacherListing(id: int, name: string, speciality: string)
  /** `{"id", "name", "instrument", "teacher_id"}`. */
  datatype CourseListing = CourseListing(id: int, name: string, instrument: Value, teacherId: Value)

  /** `list_students`: one row per student, in order, counting the courses the student lists. */
  function StudentListings(ss: seq<StudentRec>): (r: seq<StudentListing>)
    ensures |r| == |ss|
    ensures forall i :: 0 <= i < |ss| ==>
              r[i].id == ss[i].id && r[i].name == ss[i].name && r[i].courses == |ss[i].courseIds|
  {
    seq(|ss|, i requires 0 <= i < |ss| => StudentListing(ss[i].id, ss[i].name, |ss[i].courseIds|))
  }

  /** `list_teachers`: one row per teacher, in order. */
  function TeacherListings(ts: seq<TeacherRec>): (r: seq<TeacherListing>)
    ensures |r| == |ts|
    ensures forall i :: 0 <= i < |ts| ==>
              r[i].id == ts[i].id && r[i].name == ts[i].name && r[i].speciality == ts[i].speciality
  {
    seq(|ts|, i requires 0 <= i < |ts| => TeacherListing(ts[i].id, ts[i].name, ts[i].speciality))
  }

  /** `list_courses`: one row per course, in order, with its instrument and teacher reference. */
  function CourseListings(cs: seq<CourseRec>): (r: seq<CourseListing>)
    ensures |r| == |cs|
    ensures forall i :: 0 <= i < |cs| ==>
              r[i].id == cs[i].id && r[i].name == cs[i].name &&
              r[i].instrument == cs[i].instrument && r[i].teacherId == cs[i].teacherId
  {
    seq(|cs|, i requires 0 <= i < |cs| => CourseListing(cs[i].id, cs[i].name, cs[i].instrument, cs[i].teacherId))
  }

  /** `k in (x.name or "").lower()` for an already lower-cased keyword `k`. */
  function NameHas(k: string): StudentRec -> bool
  {
    (s: StudentRec) => Contains(Lower(s.name), k)
  }

  /** `k in name.lower() or k in speciality.lower()`. */
  function NameOrSpecialityHas(k: string): TeacherRec -> bool
  {
    (t: TeacherRec) => Contains(Lower(t.name), k) || Contains(Lower(t.speciality), k)
  }

  /**
   * `find_students_by_name`: exactly the students whose name contains the
   * keyword, ignoring case, in their original order.
   */
  function StudentsByName(ss: seq<StudentRec>, keyword: string): (r: seq<StudentRec>)
    ensures forall i :: 0 <= i < |r| ==> r[i] in ss && Contains(Lower(r[i].name), Lower(keyword))
    ensures forall i :: 0 <= i < |ss| && Contains(Lower(ss[i].name), Lower(keyword)) ==> ss[i] in r
    ensures Subsequence(r, ss)
  {
    var r := Keep(ss, NameHas(Lower(keyword)));
    KeepMeaning(ss, NameHas(Lower(keyword)));
    assert forall i :: 0 <= i < |r| ==> NameHas(Lower(keyword))(r[i]);
    r
  }

  /**
   * `find_teachers_by_name_or_speciality`: exactly the teachers whose name or
   * speciality contains the keyword, ignoring case, in their original order.
   */
  function TeachersByKeyword(ts: seq<TeacherRec>, keyword: string): (r: seq<TeacherRec>)
    ensures forall i :: 0 <= i < |r| ==>
              (r[i] in ts &&
               (Contains(Lower(r[i].name), Lower(keyword)) || Contains(Lower(r[i].speciality), Lower(keyword))))
    ensures forall i :: 0 <= i < |ts| &&
              (Contains(Lower(ts[i].name), Lower(keyword)) || Contains(Lower(ts[i].speciality), Lower(keyword)))
              ==> ts[i] in r
    ensures Subsequence(r, ts)
  {
    var r := Keep(ts, NameOrSpecialityHas(Lower(keyword)));
    KeepMeaning(ts, NameOrSpecialityHas(Lower(keyword)));
    assert forall i :: 0 <= i < |r| ==> NameOrSpecialityHas(Lower(keyword))(r[i]);
    r
  }

  /** An empty keyword is contained in every name, so both searches return everything. */
  lemma EmptyKeywordKeepsAll(ss: seq<StudentRec>, ts: seq<TeacherRec>)
    ensures StudentsByName(ss, "") == ss
    ensures TeachersByKeyword(ts, "") == ts
  {
    assert Lower("") == "";
    KeepAll(ss, NameHas(""));
    KeepAll(ts, NameOrSpecialityHas(""));
  }

  /**
   * The searches keep every copy of a matching record and none of the others,
   * so two equal records are both listed or both left out.
   */
  lemma SearchesKeepEveryCopy(ss: seq<StudentRec>, ts: seq<TeacherRec>, keyword: string, s: StudentRec, t: TeacherRec)
    ensures multiset(StudentsByName(ss, keyword))[s] ==
              if Contains(Lower(s.name), Lower(keyword)) then multiset(ss)[s] else 0
    ensures multiset(TeachersByKeyword(ts, keyword))[t] ==
              if Contains(Lower(t.name), Lower(keyword)) || Contains(Lower(t.speciality), Lower(keyword))
              then multiset(ts)[t] else 0
  {
    KeepCounts(ss, NameHas(Lower(keyword)), s);
    KeepCounts(ts, NameOrSpecialityHas(Lower(keyword)), t);
  }

  /** The searches ignore the case of the keyword: an upper- and a lower-case keyword find the same. */
  lemma SearchIgnoresKeywordCase(ss: seq<StudentRec>, ts: seq<TeacherRec>, keyword: string)
    ensures StudentsByName(ss, Lower(keyword)) == StudentsByName(ss, keyword)
    ensures TeachersByKeyword(ts, Lower(keyword)) == TeachersByKeyword(ts, keyword)
  {
    LowerIdempotent(keyword);
  }
}
