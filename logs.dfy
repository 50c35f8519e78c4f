/**
 * The two append-only logs of the schedule manager (attendance and, in
 * PST5/app/schedule.py, finance): the records `check_in` and
 * `record_payment` append, the filters that read them back, and the row
 * projection of `export_report`.
 */
module Logs {
  import opened Outcomes
  import opened Seqs
  import opened Text
  import opened Json

  /** The record `check_in` appends; `now` is the ISO timestamp of the call. */
  function CheckInRecord(sid: int, cid: int, now: string): (rec: Record)
    ensures rec.Keys == {"student_id", "course_id", "timestamp"}
  {
    map["student_id" := JInt(sid), "course_id" := JInt(cid), "timestamp" := JStr(now)]
  }

  /** The record `record_payment` appends: the amount as a float and the method as text. */
  function PaymentRecord(sid: int, amount: real, means: string, now: string): (rec: Record)
    ensures rec.Keys == {"student_id", "amount", "method", "timestamp"}
  {
    map["student_id" := JInt(sid), "amount" := JReal(amount), "method" := JStr(means),
        "timestamp" := JStr(now)]
  }

  /** `str(rec.get(key)) == str(id)`. */
  function MatchesOn(key: string, id: int): Record -> bool
  {
    (rec: Record) => StrMatchesId(Get(rec, key, JNull), id)
  }

  /**
   * `get_attendance_by_student`, `get_attendance_by_course` and
   * `get_payment_history`: exactly the records whose field `key` reads as
   * `id`, in log order.
   */
  function RecordsFor(log: seq<Record>, key: string, id: int): (r: seq<Record>)
    ensures forall i :: 0 <= i < |r| ==> r[i] in log && StrMatchesId(Get(r[i], key, JNull), id)
    ensures forall i :: 0 <= i < |log| && StrMatchesId(Get(log[i], key, JNull), id) ==> log[i] in r
    ensures Subsequence(r, log)
  {
    var r := Keep(log, MatchesOn(key, id));
    KeepMeaning(log, MatchesOn(key, id));
    assert forall i :: 0 <= i < |r| ==> MatchesOn(key, id)(r[i]);
    r
  }

  /**
   * Appending a record to a log extends every query on it by that record
   * when it matches and by nothing otherwise; earlier answers are kept.
   */
  lemma RecordsForAppend(log: seq<Record>, rec: Record, key: string, id: int)
    ensures RecordsFor(log + [rec], key, id) ==
            RecordsFor(log, key, id) + (if StrMatchesId(Get(rec, key, JNull), id) then [rec] else [])
  {
    KeepAppend(log, [rec], MatchesOn(key, id));
    assert [rec][1..] == [];
  }

  /** A record whose field holds the integer `n` is found under `id` exactly when `id == n`. */
  lemma MatchesIntField(rec: Record, key: string, n: int, id: int)
    requires key in rec && rec[key] == JInt(n)
    ensures StrMatchesId(Get(rec, key, JNull), id) <==> id == n
  {
    DecimalInjective(n, id);
  }

  /** The CSV header lines of the two reports. */
  const FinanceHeaders: seq<string> := ["student_id", "amount", "method", "timestamp"]
  const AttendanceHeaders: seq<string> := ["student_id", "course_id", "timestamp"]

  datatype Report = Report(headers: seq<string>, rows: seq<seq<Value>>)

  /** `{h: row.get(h, "") for h in headers}`, in header order. */
  function Project(rec: Record, headers: seq<string>): (row: seq<Value>)
    ensures |row| == |headers|
    ensures forall k :: 0 <= k < |headers| ==> row[k] == Get(rec, headers[k], JStr(""))
  {
    seq(|headers|, k requires 0 <= k < |headers| => Get(rec, headers[k], JStr("")))
  }

  /**
   * What `export_report` writes, before the CSV text encoding: an unknown
   * kind raises before anything is written; otherwise the header line of
   * that kind and one row per record of its log, in log order, with the
   * fields a record lacks written as "".
   */
  function ExportReport(kind: string, attendance: seq<Record>, finance: seq<Record>): (r: Result<Report>)
    ensures r.Err? <==> kind != "finance" && kind != "attendance"
    ensures r.Err? ==> r.error == UnknownReportKind
    ensures r.Ok? ==>
      var log := if kind == "finance" then finance else attendance;
      r.value.headers == (if kind == "finance" then FinanceHeaders else AttendanceHeaders) &&
      |r.value.rows| == |log| &&
      (forall i :: 0 <= i < |log| ==> |r.value.rows[i]| == |r.value.headers|) &&
      forall i, k :: 0 <= i < |log| && 0 <= k < |r.value.headers| ==>
        r.value.rows[i][k] == (if r.value.headers[k] in log[i] then log[i][r.value.headers[k]] else JStr(""))
  {
    if kind == "finance" then
      Ok(Report(FinanceHeaders, seq(|finance|, i requires 0 <= i < |finance| => Project(finance[i], FinanceHeaders))))
    else if kind == "attendance" then
      Ok(Report(AttendanceHeaders, seq(|attendance|, i requires 0 <= i < |attendance| => Project(attendance[i], AttendanceHeaders))))
    else Err(UnknownReportKind)
  }
}
