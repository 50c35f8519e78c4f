/**
 * The parts of Python's `str` that the record keeper relies on: whitespace,
 * `strip()`, `lower()`, substring tests, `str()` of an integer and `join`.
 */
module Text {

  /** Python's `str.isspace()` for one character: what `strip()` removes and what `\s` matches. */
  predicate IsSpace(c: char)
  {
    || ('\U{0009}' <= c <= '\U{000D}')
    || ('\U{001C}' <= c <= '\U{001F}')
    || c == ' ' || c == '\U{0085}' || c == '\U{00A0}' || c == '\U{1680}'
    || ('\U{2000}' <= c <= '\U{200A}')
    || c == '\U{2028}' || c == '\U{2029}' || c == '\U{202F}' || c == '\U{205F}' || c == '\U{3000}'
  }

  /** The regular-expression class `[A-Za-z]`: ASCII letters only. */
  predicate IsAsciiLetter(c: char)
  {
    'A' <= c <= 'Z' || 'a' <= c <= 'z'
  }

  predicate AllSpace(s: string)
  {
    forall i :: 0 <= i < |s| ==> IsSpace(s[i])
  }

  /** The end of the run of whitespace that starts at position `k` of `s`. */
  function SpacesFrom(s: string, k: nat): (n: nat)
    requires k <= |s|
    ensures k <= n <= |s|
    ensures forall i :: k <= i < n ==> IsSpace(s[i])
    ensures n < |s| ==> !IsSpace(s[n])
    decreases |s| - k
  {
    if k < |s| && IsSpace(s[k]) then SpacesFrom(s, k + 1) else k
  }

  /** The start of the run of whitespace that ends just before position `k` of `s`. */
  function SpacesBefore(s: string, k: nat): (n: nat)
    requires k <= |s|
    ensures n <= k
    ensures forall i :: n <= i < k ==> IsSpace(s[i])
    ensures n > 0 ==> !IsSpace(s[n - 1])
  {
    if k > 0 && IsSpace(s[k - 1]) then SpacesBefore(s, k - 1) else k
  }

  /**
   * Cutting `s` at `a` and `e`, where the characters before `a` and from
   * `z` on are whitespace and the characters next to them are not (`e` is
   * `z`, or `a` when everything is whitespace): everything outside the cuts
   * is whitespace, a non-empty middle has non-space ends, and the middle is
   * empty exactly when `s` is all whitespace.
   */
  lemma CutsAt(s: string, a: nat, z: nat, e: nat)
    requires a <= |s| && z <= |s|
    requires forall i :: 0 <= i < a ==> IsSpace(s[i])
    requires a < |s| ==> !IsSpace(s[a])
    requires forall i :: z <= i < |s| ==> IsSpace(s[i])
    requires z > 0 ==> !IsSpace(s[z - 1])
    requires e == if a == |s| then a else z
    ensures a <= e <= |s|
    ensures forall i :: 0 <= i < |s| && !IsSpace(s[i]) ==> a <= i < e
    ensures a < e ==> !IsSpace(s[a]) && !IsSpace(s[e - 1])
    ensures a == e <==> AllSpace(s)
  {
    if a < |s| {
      assert !IsSpace(s[a]);
    }
  }

  /**
   * Python's `str.strip()`: `s` without its leading and trailing whitespace.
   * The result is empty exactly when `s` is all whitespace, otherwise it
   * starts and ends with a non-space; every non-space of `s` survives and
   * nothing is added.
   */
  function Strip(s: string): (r: string)
    ensures r == [] <==> AllSpace(s)
    ensures r != [] ==> !IsSpace(r[0]) && !IsSpace(r[|r| - 1])
    ensures forall i :: 0 <= i < |r| ==> r[i] in s
    ensures forall i :: 0 <= i < |s| && !IsSpace(s[i]) ==> s[i] in r
  {
    var a, z := SpacesFrom(s, 0), SpacesBefore(s, |s|);
    var e := if a == |s| then a else z;
    CutsAt(s, a, z, e);
    var r := s[a..e];
    assert a < e ==> r[0] == s[a] && r[|r| - 1] == s[e - 1];
    assert forall i :: 0 <= i < |r| ==> r[i] == s[a + i];
    assert forall i :: 0 <= i < |s| && !IsSpace(s[i]) ==> s[i] == r[i - a];
    r
  }

  /** A string that starts and ends with a non-space is its own strip. */
  lemma StripUnchanged(s: string)
    requires s != [] ==> !IsSpace(s[0]) && !IsSpace(s[|s| - 1])
    ensures Strip(s) == s
  {
    assert SpacesFrom(s, 0) == 0;
    assert SpacesBefore(s, |s|) == |s|;
  }

  /** `strip()` is idempotent. */
  lemma StripIdempotent(s: string)
    ensures Strip(Strip(s)) == Strip(s)
  {
    StripUnchanged(Strip(s));
  }

  /** Python's `str.lower()` on one character, for the ASCII letters. */
  function LowerChar(c: char): char
  {
    if 'A' <= c <= 'Z' then (c as int + 32) as char else c
  }

  /** Python's `str.lower()`, restricted to ASCII case mapping. */
  function Lower(s: string): (r: string)
    ensures |r| == |s|
  {
    if s == [] then [] else [LowerChar(s[0])] + Lower(s[1..])
  }

  /** `lower()` maps each character on its own. */
  lemma {:induction false} LowerAt(s: string)
    ensures forall i :: 0 <= i < |s| ==> Lower(s)[i] == LowerChar(s[i])
  {
    if s != [] {
      LowerAt(s[1..]);
      assert forall i :: 1 <= i < |s| ==> s[i] == s[1..][i - 1];
    }
  }

  /** Lower-casing twice is lower-casing once. */
  lemma LowerIdempotent(s: string)
    ensures Lower(Lower(s)) == Lower(s)
  {
    LowerAt(s);
    LowerAt(Lower(s));
  }

  predicate StartsWith(s: string, prefix: string)
  {
    |prefix| <= |s| && s[..|prefix|] == prefix
  }

  /** Python's `needle in haystack` for strings. */
  predicate Contains(haystack: string, needle: string)
    decreases |haystack|
    ensures Contains(haystack, needle) ==> |needle| <= |haystack|
  {
    StartsWith(haystack, needle) || (|haystack| > 0 && Contains(haystack[1..], needle))
  }

  /** `needle` occurs in `haystack` starting at position `k`. */
  predicate OccursAt(haystack: string, needle: string, k: int)
  {
    0 <= k <= |haystack| - |needle| && haystack[k..k + |needle|] == needle
  }

  /** `needle in haystack` holds exactly when `needle` occurs at some position of `haystack`. */
  lemma {:induction false} ContainsIffOccurs(haystack: string, needle: string)
    ensures Contains(haystack, needle) <==> exists k :: OccursAt(haystack, needle, k)
    decreases |haystack|
  {
    if StartsWith(haystack, needle) {
      assert OccursAt(haystack, needle, 0);
    } else if |haystack| > 0 {
      var h' := haystack[1..];
      ContainsIffOccurs(h', needle);
      if exists k :: OccursAt(haystack, needle, k) {
        var k :| OccursAt(haystack, needle, k);
        assert k != 0;
        assert OccursAt(h', needle, k - 1);
      }
      if Contains(h', needle) {
        var k :| OccursAt(h', needle, k);
        assert OccursAt(haystack, needle, k + 1);
      }
    } else {
    }
  }

  function DigitChar(d: int): char
    requires 0 <= d < 10
  {
    ('0' as int + d) as char
  }

  predicate IsDigit(c: char)
  {
    '0' <= c <= '9'
  }

  /** The decimal digits of a natural number, without leading zeros. */
  function NatDigits(n: nat): (r: string)
    decreases n
    ensures |r| >= 1 && forall i :: 0 <= i < |r| ==> IsDigit(r[i])
    ensures n < 10 <==> |r| == 1
  {
    if n < 10 then [DigitChar(n)] else NatDigits(n / 10) + [DigitChar(n % 10)]
  }

  /** Python's `str(n)` for an integer `n`: a leading '-' exactly for a negative number. */
  function Decimal(n: int): (r: string)
    ensures |r| >= 1 && (r[0] == '-' <==> n < 0)
  {
    if n < 0 then "-" + NatDigits(-n) else NatDigits(n)
  }

  lemma {:induction false} NatDigitsInjective(a: nat, b: nat)
    requires NatDigits(a) == NatDigits(b)
    ensures a == b
    decreases a
  {
    var da, db := NatDigits(a), NatDigits(b);
    if a >= 10 && b >= 10 {
      assert da[..|da| - 1] == NatDigits(a / 10);
      assert db[..|db| - 1] == NatDigits(b / 10);
      NatDigitsInjective(a / 10, b / 10);
      assert DigitChar(a % 10) == da[|da| - 1] == db[|db| - 1] == DigitChar(b % 10);
    }
  }

  /** `str(a) == str(b)` holds exactly when the integers are equal. */
  lemma DecimalInjective(a: int, b: int)
    ensures Decimal(a) == Decimal(b) <==> a == b
  {
    if Decimal(a) == Decimal(b) {
      assert (a < 0) == (Decimal(a)[0] == '-');
      assert (b < 0) == (Decimal(b)[0] == '-');
      if a < 0 {
        assert Decimal(a)[1..] == NatDigits(-a);
        assert Decimal(b)[1..] == NatDigits(-b);
        NatDigitsInjective(-a, -b);
      } else {
        NatDigitsInjective(a, b);
      }
    }
  }

  /** Python's `sep.join(parts)`. */
  function Join(parts: seq<string>, sep: string): string
  {
    if |parts| == 0 then ""
    else if |parts| == 1 then parts[0]
    else parts[0] + sep + Join(parts[1..], sep)
  }

  /** Joining one more part adds the separator and that part at the end. */
  lemma {:induction false} JoinAppend(parts: seq<string>, p: string, sep: string)
    requires parts != []
    ensures Join(parts + [p], sep) == Join(parts, sep) + sep + p
  {
    if |parts| == 1 {
      assert (parts + [p])[1..] == [p];
    } else {
      assert (parts + [p])[1..] == parts[1..] + [p];
      JoinAppend(parts[1..], p, sep);
    }
  }
}
