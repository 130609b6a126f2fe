/** Sequence helpers shared by the tables of the store. */
module Collections {

  /** The rows of `s` that satisfy `keep`, in their original order
      (a queryset `.filter(...)`). */
  function Filter<T(!new)>(s: seq<T>, keep: T -> bool): (r: seq<T>)
    ensures forall x :: x in r <==> x in s && keep(x)
    ensures |r| <= |s|
  {
    if s == [] then []
    else
      assert s == [s[0]] + s[1..];
      (if keep(s[0]) then [s[0]] else []) + Filter(s[1..], keep)
  }

  /** Filtering keeps every copy of a row that satisfies `keep` and no copy
      of any other. */
  lemma {:induction false} FilterCounts<T(!new)>(s: seq<T>, keep: T -> bool)
    ensures forall x :: multiset(Filter(s, keep))[x] == if keep(x) then multiset(s)[x] else 0
  {
    if s != [] {
      FilterCounts(s[1..], keep);
      assert s == [s[0]] + s[1..];
    }
  }

  /** Keys strictly increase along `s`: rows are stored in primary-key order
      and no key repeats. Stated between neighbours; `IncreasingPairs` gives
      the pairwise form. */
  ghost predicate Increasing<T>(s: seq<T>, key: T -> int)
    decreases |s|
  {
    |s| <= 1 || (key(s[0]) < key(s[1]) && Increasing(s[1..], key))
  }

  /** In an increasing sequence every earlier key is below every later one. */
  lemma {:induction false} IncreasingPairs<T>(s: seq<T>, key: T -> int)
    requires Increasing(s, key)
    ensures forall i, j :: 0 <= i < j < |s| ==> key(s[i]) < key(s[j])
    decreases |s|
  {
    if |s| > 1 {
      IncreasingPairs(s[1..], key);
      forall i, j | 0 <= i < j < |s| ensures key(s[i]) < key(s[j]) {
        if i > 0 {
          assert s[i] == s[1..][i - 1] && s[j] == s[1..][j - 1];
        } else if j > 1 {
          assert s[1] == s[1..][0] && s[j] == s[1..][j - 1];
        }
      }
    }
  }

  /** The first key of an increasing sequence is below every other key. */
  lemma HeadBelowRest<T>(s: seq<T>, key: T -> int)
    requires Increasing(s, key) && s != []
    ensures forall x :: x in s[1..] ==> key(s[0]) < key(x)
  {
    IncreasingPairs(s, key);
    forall x | x in s[1..] ensures key(s[0]) < key(x) {
      var k :| 0 <= k < |s[1..]| && s[1..][k] == x;
      assert s[k + 1] == x;
    }
  }

  /** Filtering keeps the primary-key order. */
  lemma {:induction false} FilterKeepsIncreasing<T(!new)>(s: seq<T>, keep: T -> bool, key: T -> int)
    requires Increasing(s, key)
    ensures Increasing(Filter(s, keep), key)
    decreases |s|
  {
    if s != [] {
      var tail := s[1..];
      assert Increasing(tail, key);
      FilterKeepsIncreasing(tail, keep, key);
      var rest := Filter(tail, keep);
      if keep(s[0]) {
        assert Filter(s, keep) == [s[0]] + rest;
        if rest != [] {
          HeadBelowRest(s, key);
          assert rest[0] in tail;
          assert ([s[0]] + rest)[1..] == rest;
        }
      } else {
        assert Filter(s, keep) == rest;
      }
    }
  }

  /** Appending a row whose key exceeds every stored key keeps the order. */
  lemma {:induction false} AppendKeepsIncreasing<T>(s: seq<T>, x: T, key: T -> int)
    requires Increasing(s, key)
    requires forall y :: y in s ==> key(y) < key(x)
    ensures Increasing(s + [x], key)
    decreases |s|
  {
    if s != [] {
      assert s[0] in s;
      assert (s + [x])[1..] == s[1..] + [x];
      AppendKeepsIncreasing(s[1..], x, key);
    }
  }

  /** Replacing a row by one with the same key keeps the order. */
  lemma {:induction false} UpdateKeepsIncreasing<T>(s: seq<T>, i: nat, x: T, key: T -> int)
    requires Increasing(s, key)
    requires i < |s| && key(x) == key(s[i])
    ensures Increasing(s[i := x], key)
    decreases |s|
  {
    if i > 0 {
      assert s[i := x][1..] == s[1..][i - 1 := x];
      UpdateKeepsIncreasing(s[1..], i - 1, x, key);
    } else {
      assert s[i := x][1..] == s[1..];
    }
  }

  /** The order depends only on the keys. */
  lemma {:induction false} SameKeysIncreasing<T>(s: seq<T>, t: seq<T>, key: T -> int)
    requires Increasing(s, key)
    requires |t| == |s| && forall i :: 0 <= i < |s| ==> key(t[i]) == key(s[i])
    ensures Increasing(t, key)
    decreases |s|
  {
    if |s| > 1 {
      SameKeysIncreasing(s[1..], t[1..], key);
    }
  }

  /** Deleting the row at position `i` removes one copy of it and keeps the
      others. */
  lemma RemoveAt<T>(s: seq<T>, i: nat)
    requires i < |s|
    ensures multiset(s[..i] + s[i + 1..]) == multiset(s) - multiset{s[i]}
    ensures forall x :: x in s[..i] + s[i + 1..] ==> x in s
  {
    assert s == s[..i] + [s[i]] + s[i + 1..];
    forall x | x in s[..i] + s[i + 1..] ensures x in s {
      assert x in multiset(s[..i] + s[i + 1..]);
    }
  }
}
