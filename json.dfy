/**
 * JSON values as the Python code sees them after `json.load`: the stored
 * form of every entity, the records of the two logs, and the whole data
 * file. Also the two Python comparisons the record keeper applies to such
 * values: `==` against an integer and `str(v) == str(id)`.
 */
module Json {
  import opened Outcomes
  import opened Text

  datatype Value =
    | JNull
    | JBool(b: bool)
    | JInt(i: int)
    | JReal(r: real)
    | JStr(s: string)
    | JArr(items: seq<Value>)
    | JObj(fields: map<string, Value>)

  /** A dictionary record, such as one entry of the attendance or finance log. */
  type Record = map<string, Value>

  /** `d.get(key, default)`. */
  function Get(d: Record, key: string, default: Value): Value
  {
    if key in d then d[key] else default
  }

  /** Python truthiness of a JSON value (`if v:`). */
  predicate Truthy(v: Value)
  {
    match v
    case JNull => false
    case JBool(b) => b
    case JInt(i) => i != 0
    case JReal(r) => r != 0.0
    case JStr(s) => s != ""
    case JArr(xs) => xs != []
    case JObj(m) => |m| != 0
  }

  /** The JSON list of a list of integer IDs. */
  function IntList(xs: seq<int>): (v: Value)
    ensures v.JArr? && |v.items| == |xs|
    ensures forall i :: 0 <= i < |xs| ==> v.items[i] == JInt(xs[i])
  {
    JArr(seq(|xs|, i requires 0 <= i < |xs| => JInt(xs[i])))
  }

  /** Reads a JSON list of integers back; any other value is outside the typed model. */
  function ReadIntList(v: Value): (r: Option<seq<int>>)
    ensures r.Some? <==> v.JArr? && forall i :: 0 <= i < |v.items| ==> v.items[i].JInt?
    ensures r.Some? ==> |r.value| == |v.items| &&
                        forall i :: 0 <= i < |r.value| ==> v.items[i] == JInt(r.value[i])
  {
    if v.JArr? && forall i :: 0 <= i < |v.items| ==> v.items[i].JInt? then
      Some(seq(|v.items|, i requires 0 <= i < |v.items| => v.items[i].i))
    else None
  }

  /** Writing an ID list and reading it back gives the same IDs in the same order. */
  lemma IntListRoundTrip(xs: seq<int>)
    ensures ReadIntList(IntList(xs)) == Some(xs)
  {
    var r := ReadIntList(IntList(xs));
    assert r.Some?;
    assert r.value == xs;
  }

  /**
   * Python's `str(v)` for the values the record keeper compares as text;
   * None for floats, lists and dicts, whose text always contains a
   * character that the text of an integer never does.
   */
  function Render(v: Value): Option<string>
  {
    match v
    case JNull => Some("None")
    case JBool(b) => Some(if b then "True" else "False")
    case JInt(i) => Some(Decimal(i))
    case JStr(s) => Some(s)
    case _ => None
  }

  /** `str(v) == str(id)`: how the source matches a stored ID against a requested one. */
  predicate StrMatchesId(v: Value, id: int)
  {
    Render(v) == Some(Decimal(id))
  }

  /**
   * The text comparison accepts exactly the integer itself and the string of
   * its digits: never None, a boolean, or a different integer.
   */
  lemma StrMatchesIdIff(v: Value, id: int)
    ensures StrMatchesId(v, id) <==> v == JInt(id) || v == JStr(Decimal(id))
  {
    var d := Decimal(id);
    assert d != "None" && d != "True" && d != "False" by {
      assert d[0] == '-' || IsDigit(d[0]);
    }
    if v.JInt? {
      DecimalInjective(v.i, id);
    }
  }

  /** Python's `v == n` for a JSON value and an integer (booleans and floats compare as numbers). */
  predicate PyEqualsInt(v: Value, n: int)
  {
    match v
    case JInt(i) => i == n
    case JReal(r) => r == n as real
    case JBool(b) => (if b then 1 else 0) == n
    case _ => false
  }
}
