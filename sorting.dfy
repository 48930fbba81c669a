/** Stable sorting by a key, largest key first, as `order_by('-field')` does
    with a cursor. */
module Sorting {

  /** Each element's key is no larger than the one before. */
  predicate Descending<T>(s: seq<T>, key: T -> int) {
    |s| <= 1 || (key(s[0]) >= key(s[1]) && Descending(s[1..], key))
  }

  /** In a descending sequence no key is larger than an earlier one. */
  lemma {:induction false} DescendingAt<T>(s: seq<T>, key: T -> int, i: nat, j: nat)
    requires Descending(s, key) && i <= j < |s|
    ensures key(s[i]) >= key(s[j])
    decreases j
  {
    if 0 < i {
      DescendingAt(s[1..], key, i - 1, j - 1);
    } else if 0 < j {
      DescendingAt(s[1..], key, 0, j - 1);
    }
  }

  /** A prefix of a descending sequence is descending. */
  lemma {:induction false} DescendingPrefix<T>(s: seq<T>, key: T -> int, n: nat)
    requires Descending(s, key) && n <= |s|
    ensures Descending(s[..n], key)
  {
    if n >= 2 {
      DescendingPrefix(s[1..], key, n - 1);
      assert s[..n][1..] == s[1..][..n - 1];
    }
  }

  /** Inserts `x` before the first element whose key is not larger. */
  function Insert<T>(x: T, s: seq<T>, key: T -> int): (t: seq<T>)
    requires Descending(s, key)
    ensures Descending(t, key) && |t| == |s| + 1
    ensures t[0] == x || (s != [] && t[0] == s[0])
  {
    if s == [] || key(x) >= key(s[0]) then [x] + s
    else [s[0]] + Insert(x, s[1..], key)
  }

  lemma {:induction false} InsertPermutes<T>(x: T, s: seq<T>, key: T -> int)
    requires Descending(s, key)
    ensures multiset(Insert(x, s, key)) == multiset(s) + multiset{x}
  {
    if !(s == [] || key(x) >= key(s[0])) {
      InsertPermutes(x, s[1..], key);
      assert Insert(x, s, key) == [s[0]] + Insert(x, s[1..], key);
      assert multiset(s) == multiset{s[0]} + multiset(s[1..]) by {
        assert s == [s[0]] + s[1..];
      }
    }
  }

  /** Insertion sort, largest key first. Elements with equal keys keep their
      order, since an element is inserted before equal ones that came after it. */
  function SortDescending<T>(s: seq<T>, key: T -> int): (t: seq<T>)
    ensures Descending(t, key) && |t| == |s|
  {
    if s == [] then [] else Insert(s[0], SortDescending(s[1..], key), key)
  }

  /** Sorting neither loses nor adds an element. */
  lemma {:induction false} SortPermutes<T>(s: seq<T>, key: T -> int)
    ensures multiset(SortDescending(s, key)) == multiset(s)
  {
    if s != [] {
      var rest := SortDescending(s[1..], key);
      SortPermutes(s[1..], key);
      InsertPermutes(s[0], rest, key);
      assert SortDescending(s, key) == Insert(s[0], rest, key);
      assert multiset(s) == multiset(s[1..]) + multiset{s[0]} by {
        assert s == [s[0]] + s[1..];
      }
    }
  }
}
