/** Order-preserving filtering and sorting by an integer key: the shapes of
    SQL `WHERE … ORDER BY date` and of pandas `dropna`. */
module Sequences {

  /** Keeps the elements satisfying `p`, in their original order. */
  function Filter<T(!new)>(s: seq<T>, p: T -> bool): (r: seq<T>)
    ensures |r| <= |s|
    ensures forall i :: 0 <= i < |r| ==> p(r[i])
    ensures forall x :: multiset(r)[x] == if p(x) then multiset(s)[x] else 0
  {
    if s == [] then []
    else
      assert s == [s[0]] + s[1..];
      var rest := Filter(s[1..], p);
      if p(s[0]) then [s[0]] + rest else rest
  }

  /** Membership in a filtered sequence, read off its multiset contract. */
  lemma FilterMembers<T(!new)>(s: seq<T>, p: T -> bool)
    ensures forall x :: x in Filter(s, p) ==> x in s && p(x)
    ensures forall i :: 0 <= i < |s| && p(s[i]) ==> s[i] in Filter(s, p)
    ensures Filter(s, p) == [] <==> forall i :: 0 <= i < |s| ==> !p(s[i])
  {
    var r := Filter(s, p);
    forall x | x in r ensures x in s && p(x) {
      assert x in multiset(r);
    }
    forall i | 0 <= i < |s| && p(s[i]) ensures s[i] in r {
      assert s[i] in multiset(s);
    }
  }

  lemma {:induction false} FilterAppend<T(!new)>(a: seq<T>, b: seq<T>, p: T -> bool)
    ensures Filter(a + b, p) == Filter(a, p) + Filter(b, p)
  {
    if a == [] {
      assert a + b == b;
    } else {
      assert (a + b)[0] == a[0];
      assert (a + b)[1..] == a[1..] + b;
      FilterAppend(a[1..], b, p);
    }
  }

  lemma {:induction false} FilterKeepsAll<T(!new)>(s: seq<T>, p: T -> bool)
    requires forall i :: 0 <= i < |s| ==> p(s[i])
    ensures Filter(s, p) == s
  {
    if s != [] {
      FilterKeepsAll(s[1..], p);
    }
  }

  lemma {:induction false} FilterDropsAll<T(!new)>(s: seq<T>, p: T -> bool)
    requires forall i :: 0 <= i < |s| ==> !p(s[i])
    ensures Filter(s, p) == []
  {
    if s != [] {
      FilterDropsAll(s[1..], p);
    }
  }

  /** When exactly the elements from index d on pass, filtering drops the
      first d and keeps the rest. */
  lemma FilterSuffix<T(!new)>(s: seq<T>, p: T -> bool, d: nat)
    requires forall i :: 0 <= i < |s| ==> (p(s[i]) <==> i >= d)
    ensures Filter(s, p) == if |s| <= d then [] else s[d..]
  {
    if |s| <= d {
      FilterDropsAll(s, p);
    } else {
      var front, back := s[..d], s[d..];
      assert s == front + back;
      FilterAppend(front, back, p);
      forall i | 0 <= i < |front| ensures !p(front[i]) {
        assert front[i] == s[i];
      }
      FilterDropsAll(front, p);
      forall i | 0 <= i < |back| ensures p(back[i]) {
        assert back[i] == s[d + i];
      }
      FilterKeepsAll(back, p);
      assert Filter(s, p) == [] + back;
    }
  }

  predicate InOrder(a: int, b: int, descending: bool) {
    if descending then a >= b else a <= b
  }

  ghost predicate Ordered<T>(s: seq<T>, key: T -> int, descending: bool) {
    forall i, j :: 0 <= i < j < |s| ==> InOrder(key(s[i]), key(s[j]), descending)
  }

  function Insert<T(!new)>(x: T, s: seq<T>, key: T -> int, descending: bool): (r: seq<T>)
    requires Ordered(s, key, descending)
    ensures Ordered(r, key, descending)
    ensures multiset(r) == multiset(s) + multiset{x}
    decreases |s|, 1
  {
    if s == [] || InOrder(key(x), key(s[0]), descending) then
      [x] + s
    else
      assert s == [s[0]] + s[1..];
      InsertAfterHead(x, s, key, descending);
      [s[0]] + Insert(x, s[1..], key, descending)
  }

  /** When x does not go first, the head of s still comes before everything
      that inserting x into the tail produces. */
  lemma InsertAfterHead<T(!new)>(x: T, s: seq<T>, key: T -> int, descending: bool)
    requires Ordered(s, key, descending)
    requires s != [] && !InOrder(key(x), key(s[0]), descending)
    ensures Ordered(s[1..], key, descending)
    ensures forall k :: 0 <= k < |Insert(x, s[1..], key, descending)| ==>
      InOrder(key(s[0]), key(Insert(x, s[1..], key, descending)[k]), descending)
    decreases |s|, 0
  {
    var rest := Insert(x, s[1..], key, descending);
    forall k | 0 <= k < |rest| ensures InOrder(key(s[0]), key(rest[k]), descending) {
      var y := rest[k];
      assert y in multiset(rest);
      if y != x {
        assert y in multiset(s[1..]);
        var j :| 0 <= j < |s[1..]| && s[1..][j] == y;
        assert s[j + 1] == y;
      }
    }
  }

  /** An insertion sort by `key`; elements with equal keys may come out in
      any order, which is all the callers rely on. */
  function SortBy<T(!new)>(s: seq<T>, key: T -> int, descending: bool): (r: seq<T>)
    ensures Ordered(r, key, descending)
    ensures multiset(r) == multiset(s)
  {
    if s == [] then []
    else
      assert s == [s[0]] + s[1..];
      Insert(s[0], SortBy(s[1..], key, descending), key, descending)
  }

  /** A prefix of an ordered sequence is ordered, is part of it, and no
      element left out comes before any element taken. */
  lemma TakeOrdered<T(!new)>(s: seq<T>, n: nat, key: T -> int, descending: bool)
    requires Ordered(s, key, descending) && n <= |s|
    ensures Ordered(s[..n], key, descending)
    ensures multiset(s[..n]) <= multiset(s)
    ensures multiset(s) - multiset(s[..n]) == multiset(s[n..])
    ensures forall x, k :: x in multiset(s) - multiset(s[..n]) && 0 <= k < n ==>
              InOrder(key(s[k]), key(x), descending)
  {
    assert s == s[..n] + s[n..];
    assert multiset(s) == multiset(s[..n]) + multiset(s[n..]);
    forall x, k | x in multiset(s) - multiset(s[..n]) && 0 <= k < n
      ensures InOrder(key(s[k]), key(x), descending)
    {
      assert x in s[n..];
      var j :| 0 <= j < |s[n..]| && s[n..][j] == x;
      assert s[n + j] == x;
    }
  }
}
