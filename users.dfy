/**
 * The user base record (PST4/app/user.py): an ID and a name that, once
 * stripped, is non-empty and made only of ASCII letters and whitespace.
 * Students and teachers apply the same rule through `CheckName`.
 */
module Users {
  import opened Outcomes
  import opened Text
  import opened Json

  /** A character the pattern `[A-Za-z\s]` does not admit: a digit, punctuation, an accented letter. */
  predicate IsForbidden(c: char)
  {
    !IsAsciiLetter(c) && !IsSpace(c)
  }

  predicate HasForbiddenChar(s: string)
  {
    exists i :: 0 <= i < |s| && IsForbidden(s[i])
  }

  /** A full match of `^[A-Za-z\s]+$`. */
  predicate MatchesNamePattern(s: string)
  {
    |s| > 0 && forall i :: 0 <= i < |s| ==> !IsForbidden(s[i])
  }

  /**
   * A name as a user holds it: matching the pattern and already stripped,
   * that is, neither starting nor ending with whitespace.
   */
  predicate IsStoredName(s: string)
  {
    MatchesNamePattern(s) && !IsSpace(s[0]) && !IsSpace(s[|s| - 1])
  }

  /**
   * The check of `User.__init__` and `User.update_name`: strip the name,
   * reject it when nothing is left, reject it when it holds a forbidden
   * character, otherwise keep the stripped name. What it accepts is stated
   * by `CheckNameMeaning`.
   */
  function CheckName(raw: string): (r: Result<string>)
    ensures r.Ok? ==> r.value == Strip(raw)
  {
    var s := Strip(raw);
    if s == [] then Err(EmptyName)
    else if !MatchesNamePattern(s) then Err(InvalidNameChars)
    else Ok(s)
  }

  /**
   * A name passes exactly when it is not all whitespace and holds no
   * forbidden character, and then the kept name is one a user can hold;
   * an all-whitespace name fails as empty, any other bad one for its
   * characters.
   */
  lemma CheckNameMeaning(raw: string)
    ensures CheckName(raw).Ok? <==> !AllSpace(raw) && !HasForbiddenChar(raw)
    ensures CheckName(raw).Ok? ==> IsStoredName(CheckName(raw).value)
    ensures AllSpace(raw) ==> CheckName(raw) == Err(EmptyName)
    ensures !AllSpace(raw) && HasForbiddenChar(raw) ==> CheckName(raw) == Err(InvalidNameChars)
  {
    var s := Strip(raw);
    StripIdempotent(raw);
    if s != [] && !MatchesNamePattern(s) {
      assert HasForbiddenChar(raw) by {
        var i :| 0 <= i < |s| && IsForbidden(s[i]);
        var j :| 0 <= j < |raw| && raw[j] == s[i];
      }
    } else if s != [] {
      assert !HasForbiddenChar(raw) by {
        forall i | 0 <= i < |raw|
          ensures !IsForbidden(raw[i])
        {
          if !IsSpace(raw[i]) {
            var k :| 0 <= k < |s| && s[k] == raw[i];
          }
        }
      }
    }
  }

  /** A name the check has already produced passes it again unchanged. */
  lemma StoredNamePasses(name: string)
    requires IsStoredName(name)
    ensures CheckName(name) == Ok(name)
  {
    StripUnchanged(name);
    assert !AllSpace(name) by {
      assert !IsSpace(name[0]);
    }
    assert !HasForbiddenChar(name);
  }

  /** A non-empty name of ASCII letters only is accepted as it is. */
  lemma LetterNamePasses(name: string)
    requires name != [] && forall i :: 0 <= i < |name| ==> IsAsciiLetter(name[i])
    ensures IsStoredName(name)
    ensures CheckName(name) == Ok(name)
  {
    StripUnchanged(name);
    StoredNamePasses(name);
  }

  /**
   * `(name or "")` for a JSON value: a falsy value reads as the empty
   * string; a truthy value that is not a string has no `strip` and raises.
   */
  function NameText(v: Value): Option<string>
  {
    if !Truthy(v) then Some("")
    else if v.JStr? then Some(v.s)
    else None
  }

  /** The name check applied to a stored value, as the constructors called by `from_dict` do. */
  function CheckStoredName(v: Value, key: string): (r: Result<string>)
    ensures v.JStr? ==> r == CheckName(v.s)
    ensures v == JNull ==> r == Err(EmptyName)
    ensures r.Ok? ==> IsStoredName(r.value)
  {
    var text := NameText(v);
    assert v.JStr? ==> text == Some(v.s);
    if text.None? then Err(MalformedField(key))
    else
      CheckNameMeaning(text.value);
      CheckName(text.value)
  }

  class User {
    const id: int
    var name: string

    constructor (id: int, name: string)
      requires IsStoredName(name)
      ensures this.id == id && this.name == name
    {
      this.id := id;
      this.name := name;
    }

    /** `User(user_id, name)`: raises on an invalid name, otherwise stores the stripped name. */
    static method New(id: int, rawName: string) returns (r: Result<User>)
      ensures r.Ok? <==> CheckName(rawName).Ok?
      ensures r.Err? ==> r.error == CheckName(rawName).error
      ensures r.Ok? ==> fresh(r.value) && r.value.id == id && r.value.name == Strip(rawName)
    {
      var checked := CheckName(rawName);
      if checked.Err? {
        return Err(checked.error);
      }
      CheckNameMeaning(rawName);
      var u := new User(id, checked.value);
      r := Ok(u);
    }

    /** `update_name`: the same check; the name is kept when it fails. */
    method UpdateName(rawName: string) returns (r: Result<()>)
      modifies this`name
      ensures r.Ok? <==> CheckName(rawName).Ok?
      ensures r.Err? ==> r.error == CheckName(rawName).error && name == old(name)
      ensures r.Ok? ==> name == Strip(rawName)
    {
      var checked := CheckName(rawName);
      if checked.Err? {
        return Err(checked.error);
      }
      name := checked.value;
      r := Ok(());
    }

    /** `to_dict`. */
    function ToDict(): (v: Value)
      reads this
      ensures v.JObj? && v.fields.Keys == {"user_id", "name"}
      ensures v.fields["user_id"] == JInt(id) && v.fields["name"] == JStr(name)
    {
      UserDict(id, name)
    }
  }

  /** The dictionary `to_dict` emits: exactly the keys `user_id` and `name`. */
  function UserDict(id: int, name: string): (v: Value)
    ensures v.JObj? && v.fields.Keys == {"user_id", "name"}
    ensures v.fields["user_id"] == JInt(id) && v.fields["name"] == JStr(name)
  {
    JObj(map["user_id" := JInt(id), "name" := JStr(name)])
  }

  /**
   * What `User.from_dict` builds, as (id, name): a TypeError for a value that
   * is not a dictionary; the ID from `user_id`, falling back to `id`; the
   * name through the constructor's check.
   */
  function ParseUser(data: Value): (r: Result<(int, string)>)
    ensures !data.JObj? ==> r == Err(NotADict)
  {
    if !data.JObj? then Err(NotADict)
    else
      var m := data.fields;
      var uid := Get(m, "user_id", Get(m, "id", JNull));
      var name := Get(m, "name", JNull);
      match CheckStoredName(name, "name")
      case Err(e) => Err(e)
      case Ok(n) =>
        if uid.JInt? then Ok((uid.i, n)) else Err(MalformedField("user_id"))
  }

  /** A user read back from a dictionary holds a name the check could have produced. */
  lemma ParseUserStored(data: Value)
    ensures ParseUser(data).Ok? ==> IsStoredName(ParseUser(data).value.1)
  {
    if data.JObj? {
      var m := data.fields;
      var r := CheckStoredName(Get(m, "name", JNull), "name");
      assert r.Ok? ==> IsStoredName(r.value);
    }
  }

  /** `from_dict(to_dict(u))` has the same ID and name. */
  lemma UserRoundTrip(id: int, name: string)
    requires IsStoredName(name)
    ensures ParseUser(UserDict(id, name)) == Ok((id, name))
  {
    StoredNamePasses(name);
  }

  /** `from_dict` prefers `user_id` and falls back to `id` when `user_id` is absent. */
  lemma ParseUserIdKey(m: Record, name: string)
    requires "name" in m && m["name"] == JStr(name) && CheckName(name).Ok?
    ensures "user_id" in m && m["user_id"].JInt? ==>
              ParseUser(JObj(m)) == Ok((m["user_id"].i, Strip(name)))
    ensures "user_id" !in m && "id" in m && m["id"].JInt? ==>
              ParseUser(JObj(m)) == Ok((m["id"].i, Strip(name)))
  {
  }

  /** `User.from_dict`: builds a new user from a stored dictionary. */
  method FromDict(data: Value) returns (r: Result<User>)
    ensures r.Ok? <==> ParseUser(data).Ok?
    ensures r.Err? ==> r.error == ParseUser(data).error
    ensures r.Ok? ==> fresh(r.value) && r.value.id == ParseUser(data).value.0 &&
                      r.value.name == ParseUser(data).value.1
  {
    var parsed := ParseUser(data);
    ParseUserStored(data);
    if parsed.Err? {
      return Err(parsed.error);
    }
    var (id, name) := parsed.value;
    var u := new User(id, name);
    r := Ok(u);
  }
}
