/** The `ORDER BY column [ASC|DESC]` clauses of the finders, as a stable
    insertion sort on the value of one column. */
module Sorting {
  import opened Json

  /** `a` may be listed before `b` when ordering by `key`. */
  predicate InOrder<T>(a: T, b: T, key: T -> Value, descending: bool)
  {
    if descending then ValueLe(key(b), key(a)) else ValueLe(key(a), key(b))
  }

  predicate Sorted<T>(s: seq<T>, key: T -> Value, descending: bool)
  {
    forall i, j :: 0 <= i < j < |s| ==> InOrder(s[i], s[j], key, descending)
  }

  lemma InOrderTotal<T>(a: T, b: T, key: T -> Value, descending: bool)
    ensures InOrder(a, b, key, descending) || InOrder(b, a, key, descending)
  {
    ValueLeTotal(key(a), key(b));
  }

  lemma InOrderTransitive<T>(a: T, b: T, c: T, key: T -> Value, descending: bool)
    requires InOrder(a, b, key, descending) && InOrder(b, c, key, descending)
    ensures InOrder(a, c, key, descending)
  {
    if descending {
      ValueLeTransitive(key(c), key(b), key(a));
    } else {
      ValueLeTransitive(key(a), key(b), key(c));
    }
  }

  /** Places `x` before the first element it may precede. */
  function Insert<T(==)>(x: T, s: seq<T>, key: T -> Value, descending: bool): (r: seq<T>)
    requires Sorted(s, key, descending)
    ensures Sorted(r, key, descending)
    ensures multiset(r) == multiset(s) + multiset{x}
    decreases |s|
  {
    if s == [] then [x]
    else if InOrder(x, s[0], key, descending) then
      InsertFront(x, s, key, descending);
      [x] + s
    else
      var rest := Insert(x, s[1..], key, descending);
      InOrderTotal(x, s[0], key, descending);
      InsertBehind(s[0], x, s[1..], rest, key, descending);
      assert s == [s[0]] + s[1..];
      [s[0]] + rest
  }

  lemma InsertFront<T>(x: T, s: seq<T>, key: T -> Value, descending: bool)
    requires Sorted(s, key, descending) && s != [] && InOrder(x, s[0], key, descending)
    ensures Sorted([x] + s, key, descending)
  {
    forall j | 0 < j < |s| + 1
      ensures InOrder(x, ([x] + s)[j], key, descending)
    {
      if j > 1 {
        InOrderTransitive(x, s[0], s[j - 1], key, descending);
      }
    }
  }

  /** `head` precedes every element of `rest`, which holds `x` and the
      (sorted) elements of `tail`, all of which `head` precedes. */
  lemma InsertBehind<T>(head: T, x: T, tail: seq<T>, rest: seq<T>, key: T -> Value, descending: bool)
    requires Sorted([head] + tail, key, descending)
    requires InOrder(head, x, key, descending)
    requires Sorted(rest, key, descending)
    requires multiset(rest) == multiset(tail) + multiset{x}
    ensures Sorted([head] + rest, key, descending)
  {
    forall j | 0 <= j < |rest|
      ensures InOrder(head, rest[j], key, descending)
    {
      assert rest[j] in multiset(rest);
      if rest[j] != x {
        assert rest[j] in multiset(tail);
        var k :| 0 <= k < |tail| && tail[k] == rest[j];
        assert ([head] + tail)[0] == head && ([head] + tail)[k + 1] == tail[k];
      }
    }
  }

  /** `ORDER BY`: a sorted permutation of `s`. */
  function SortBy<T(==)>(s: seq<T>, key: T -> Value, descending: bool): (r: seq<T>)
    ensures Sorted(r, key, descending)
    ensures multiset(r) == multiset(s)
    decreases |s|
  {
    if s == [] then []
    else
      assert s == [s[0]] + s[1..];
      Insert(s[0], SortBy(s[1..], key, descending), key, descending)
  }
}
