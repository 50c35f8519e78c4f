/**
 * The Python list operations the record keeper performs on ID lists and
 * record lists: guarded append, `list.remove`, and list comprehensions that
 * filter.
 */
module Seqs {

  predicate NoDup<T(==)>(xs: seq<T>)
  {
    forall i, j :: 0 <= i < j < |xs| ==> xs[i] != xs[j]
  }

  /** `a` is `b` with some elements left out, the rest in their original order. */
  predicate Subsequence<T(==)>(a: seq<T>, b: seq<T>)
    decreases |b|
  {
    a == [] || (b != [] && ((a[0] == b[0] && Subsequence(a[1..], b[1..])) || Subsequence(a, b[1..])))
  }

  /**
   * `if x not in xs: xs.append(x)`. Afterwards `x` is present, nothing else
   * is added, the old list is kept as a prefix, and no duplicate appears.
   */
  function AddIfAbsent<T(==)>(xs: seq<T>, x: T): (r: seq<T>)
    ensures x in r
    ensures forall i :: 0 <= i < |r| ==> r[i] in xs || r[i] == x
    ensures |xs| <= |r| <= |xs| + 1 && r[..|xs|] == xs
    ensures NoDup(xs) ==> NoDup(r)
  {
    if x in xs then xs else xs + [x]
  }

  /** A second identical append changes nothing. */
  lemma AddIfAbsentIdempotent<T>(xs: seq<T>, x: T)
    ensures AddIfAbsent(AddIfAbsent(xs, x), x) == AddIfAbsent(xs, x)
  {
    assert x in AddIfAbsent(xs, x);
  }

  /** The position of the first occurrence of `x`. */
  function IndexOf<T(==)>(xs: seq<T>, x: T): (k: nat)
    requires x in xs
    ensures k < |xs| && xs[k] == x && x !in xs[..k]
  {
    if xs[0] == x then 0 else 1 + IndexOf(xs[1..], x)
  }

  /**
   * `xs.remove(x)`: drops the first occurrence of `x` and keeps the others in
   * order. Python raises ValueError when `x` is absent; every caller in the
   * source checks membership first.
   */
  function RemoveFirst<T(==)>(xs: seq<T>, x: T): (r: seq<T>)
    requires x in xs
    ensures |r| == |xs| - 1
    ensures multiset(r) == multiset(xs) - multiset{x}
  {
    var k := IndexOf(xs, x);
    assert xs == xs[..k] + [x] + xs[k + 1..];
    xs[..k] + xs[k + 1..]
  }

  /**
   * The occurrence `remove` drops is the first: everything before it is
   * kept in place and everything after it moves up by one.
   */
  lemma RemoveFirstAt<T>(xs: seq<T>, x: T)
    requires x in xs
    ensures var k := IndexOf(xs, x);
            RemoveFirst(xs, x)[..k] == xs[..k] && RemoveFirst(xs, x)[k..] == xs[k + 1..]
  {
    var k := IndexOf(xs, x);
    assert RemoveFirst(xs, x) == xs[..k] + xs[k + 1..];
  }

  /**
   * `if x in xs: xs.remove(x)`. On a list without duplicates the result is
   * exactly the list without `x`, in the same order, still duplicate-free.
   */
  function Discard<T(==)>(xs: seq<T>, x: T): (r: seq<T>)
    ensures x !in xs ==> r == xs
    ensures Subsequence(r, xs)
    ensures forall i :: 0 <= i < |r| ==> r[i] in xs
    ensures forall i :: 0 <= i < |xs| && xs[i] != x ==> xs[i] in r
    ensures NoDup(xs) ==> NoDup(r) && x !in r
  {
    if x in xs then
      RemoveFirstKeepsOthers(xs, x);
      RemoveFirstNoDup(xs, x);
      RemoveFirst(xs, x)
    else
      SubsequenceRefl(xs);
      xs
  }

  /** Positions of `xs` after removing position `k`. */
  lemma SkipOneAt<T>(xs: seq<T>, k: nat, i: nat)
    requires k < |xs| && i < |xs| - 1
    ensures (xs[..k] + xs[k + 1..])[i] == xs[if i < k then i else i + 1]
  {
  }

  lemma RemoveFirstKeepsOthers<T>(xs: seq<T>, x: T)
    requires x in xs
    ensures Subsequence(RemoveFirst(xs, x), xs)
    ensures forall i :: 0 <= i < |xs| && xs[i] != x ==> xs[i] in RemoveFirst(xs, x)
  {
    var k := IndexOf(xs, x);
    assert RemoveFirst(xs, x) == xs[..k] + xs[k + 1..];
    SkipOneIsSubsequence(xs, k);
    forall j | 0 <= j < |xs| && xs[j] != x
      ensures xs[j] in xs[..k] + xs[k + 1..]
    {
      SkipOneKeeps(xs, k, j);
    }
  }

  /** Every position other than `k` survives dropping position `k`. */
  lemma SkipOneKeeps<T>(xs: seq<T>, k: nat, j: nat)
    requires k < |xs| && j < |xs| && j != k
    ensures xs[j] in xs[..k] + xs[k + 1..]
  {
    var r := xs[..k] + xs[k + 1..];
    if j < k {
      assert r[j] == xs[j];
    } else {
      assert r[j - 1] == xs[j];
    }
  }

  lemma RemoveFirstNoDup<T>(xs: seq<T>, x: T)
    requires x in xs
    ensures NoDup(xs) ==> NoDup(RemoveFirst(xs, x)) && x !in RemoveFirst(xs, x)
  {
    if !NoDup(xs) {
      return;
    }
    var k := IndexOf(xs, x);
    var r := RemoveFirst(xs, x);
    assert r == xs[..k] + xs[k + 1..];
    forall i, j | 0 <= i < j < |r|
      ensures r[i] != r[j]
    {
      SkipOneAt(xs, k, i);
      SkipOneAt(xs, k, j);
    }
    forall i | 0 <= i < |r|
      ensures r[i] != x
    {
      SkipOneAt(xs, k, i);
    }
  }

  lemma {:induction false} SubsequenceRefl<T>(xs: seq<T>)
    ensures Subsequence(xs, xs)
    decreases |xs|
  {
    if xs != [] {
      SubsequenceRefl(xs[1..]);
    }
  }

  lemma {:induction false} SkipOneIsSubsequence<T>(xs: seq<T>, k: nat)
    requires k < |xs|
    ensures Subsequence(xs[..k] + xs[k + 1..], xs)
    decreases k
  {
    var r := xs[..k] + xs[k + 1..];
    if k == 0 {
      assert r == xs[1..];
      SubsequenceRefl(xs[1..]);
    } else {
      SkipOneIsSubsequence(xs[1..], k - 1);
      assert r[0] == xs[0];
      assert r[1..] == xs[1..][..k - 1] + xs[1..][k..];
    }
  }

  /**
   * The list comprehension `[y for y in xs if p(y)]`. What it keeps is
   * stated by `KeepMeaning`.
   */
  function Keep<T(==)>(xs: seq<T>, p: T -> bool): (r: seq<T>)
    ensures |r| <= |xs|
  {
    if xs == [] then []
    else if p(xs[0]) then [xs[0]] + Keep(xs[1..], p)
    else Keep(xs[1..], p)
  }

  /** A filter keeps exactly the elements that satisfy `p`, in their original order. */
  lemma {:induction false} KeepMeaning<T>(xs: seq<T>, p: T -> bool)
    ensures forall i :: 0 <= i < |Keep(xs, p)| ==> Keep(xs, p)[i] in xs && p(Keep(xs, p)[i])
    ensures forall i :: 0 <= i < |xs| && p(xs[i]) ==> xs[i] in Keep(xs, p)
    ensures Subsequence(Keep(xs, p), xs)
    decreases |xs|
  {
    if xs != [] {
      var rest := Keep(xs[1..], p);
      KeepMeaning(xs[1..], p);
      if p(xs[0]) {
        assert ([xs[0]] + rest)[1..] == rest;
      }
      forall i | 0 <= i < |xs| && p(xs[i])
        ensures xs[i] in Keep(xs, p)
      {
        if i > 0 {
          assert xs[i] == xs[1..][i - 1];
        }
      }
    }
  }

  /** Filtering distributes over concatenation, so appended records keep their place. */
  lemma {:induction false} KeepAppend<T>(xs: seq<T>, ys: seq<T>, p: T -> bool)
    ensures Keep(xs + ys, p) == Keep(xs, p) + Keep(ys, p)
    decreases |xs|
  {
    if xs == [] {
      assert xs + ys == ys;
    } else {
      assert (xs + ys)[0] == xs[0];
      assert (xs + ys)[1..] == xs[1..] + ys;
      KeepAppend(xs[1..], ys, p);
    }
  }

  /** A filter keeps the relative order and distinctness of what it keeps. */
  lemma {:induction false} KeepNoDup<T>(xs: seq<T>, p: T -> bool)
    requires NoDup(xs)
    ensures NoDup(Keep(xs, p))
    decreases |xs|
  {
    if xs != [] {
      KeepNoDup(xs[1..], p);
      KeepMeaning(xs[1..], p);
    }
  }

  /** A filter keeps every copy of an element that passes and no copy of one that fails. */
  lemma {:induction false} KeepCounts<T>(xs: seq<T>, p: T -> bool, x: T)
    ensures multiset(Keep(xs, p))[x] == if p(x) then multiset(xs)[x] else 0
    decreases |xs|
  {
    if xs != [] {
      KeepCounts(xs[1..], p, x);
      assert xs == [xs[0]] + xs[1..];
    }
  }

  /** A filter that every element passes keeps the whole list. */
  lemma {:induction false} KeepAll<T>(xs: seq<T>, p: T -> bool)
    requires forall i :: 0 <= i < |xs| ==> p(xs[i])
    ensures Keep(xs, p) == xs
    decreases |xs|
  {
    if xs != [] {
      KeepAll(xs[1..], p);
      assert [xs[0]] + xs[1..] == xs;
    }
  }
}
