/** Pointer lists as the server uses them: append at the end, take from the front,
    and remove the first occurrence of a reference. */
module Lists {

  /** `removeRef`: drop the first occurrence of `x`; a list without `x` is unchanged. */
  function RemoveFirst<T(==)>(s: seq<T>, x: T): seq<T> {
    if s == [] then []
    else if s[0] == x then s[1..]
    else [s[0]] + RemoveFirst(s[1..], x)
  }

  lemma {:induction false} RemoveAbsent<T>(s: seq<T>, x: T)
    requires x !in s
    ensures RemoveFirst(s, x) == s
  {
    if s != [] {
      RemoveAbsent(s[1..], x);
    }
  }

  /** Concatenation is associative. */
  lemma Regroup<T>(a: seq<T>, b: seq<T>, c: seq<T>)
    ensures a + (b + c) == a + b + c
  {
  }

  /** How often `x` occurs. */
  function Count<T(==)>(s: seq<T>, x: T): nat {
    if s == [] then 0 else (if s[0] == x then 1 else 0) + Count(s[1..], x)
  }

  lemma {:induction false} CountPositive<T>(s: seq<T>, x: T)
    ensures Count(s, x) > 0 <==> x in s
  {
    if s != [] {
      CountPositive(s[1..], x);
    }
  }

  lemma {:induction false} CountAppend<T>(s: seq<T>, x: T, y: T)
    ensures Count(s + [x], y) == Count(s, y) + (if x == y then 1 else 0)
  {
    if s == [] {
      assert s + [x] == [x];
    } else {
      assert (s + [x])[1..] == s[1..] + [x];
      CountAppend(s[1..], x, y);
    }
  }

  lemma {:induction false} CountRemove<T>(s: seq<T>, x: T, y: T)
    ensures Count(RemoveFirst(s, x), y)
         == if x == y && Count(s, y) > 0 then Count(s, y) - 1 else Count(s, y)
  {
    if s != [] && s[0] != x {
      CountRemove(s[1..], x, y);
      assert RemoveFirst(s, x)[1..] == RemoveFirst(s[1..], x);
    }
  }

  /** No element occurs twice. */
  ghost predicate Distinct<T>(s: seq<T>) {
    forall i, j :: 0 <= i < j < |s| ==> s[i] != s[j]
  }

  /** The elements of `s` that satisfy `p`, in order. */
  ghost function Filter<T>(s: seq<T>, p: T -> bool): (r: seq<T>)
    ensures forall x :: x in r ==> x in s && p(x)
    ensures forall x :: x in s && p(x) ==> x in r
    ensures |r| <= |s|
  {
    if s == [] then []
    else (if p(s[0]) then [s[0]] else []) + Filter(s[1..], p)
  }

  lemma {:induction false} FilterAppend<T>(s: seq<T>, x: T, p: T -> bool)
    ensures Filter(s + [x], p) == Filter(s, p) + (if p(x) then [x] else [])
  {
    if s == [] {
      assert s + [x] == [x];
    } else {
      assert (s + [x])[1..] == s[1..] + [x];
      FilterAppend(s[1..], x, p);
    }
  }

  lemma {:induction false} FilterDistinct<T>(s: seq<T>, p: T -> bool)
    requires Distinct(s)
    ensures Distinct(Filter(s, p))
  {
    if s != [] {
      FilterDistinct(s[1..], p);
      assert s[0] !in s[1..];
    }
  }

  /** Two filters that agree on the members of the list give the same list. */
  lemma {:induction false} FilterAgree<T>(s: seq<T>, p: T -> bool, q: T -> bool)
    requires forall x :: x in s ==> p(x) == q(x)
    ensures Filter(s, p) == Filter(s, q)
  {
    if s != [] {
      FilterAgree(s[1..], p, q);
    }
  }

  /** A narrower filter gives the same list only when the two agree on every member: it is never
      longer, and of equal length only then. */
  lemma {:induction false} NarrowFilter<T>(s: seq<T>, narrow: T -> bool, wide: T -> bool)
    requires forall x :: x in s && narrow(x) ==> wide(x)
    ensures |Filter(s, narrow)| <= |Filter(s, wide)|
    ensures |Filter(s, narrow)| == |Filter(s, wide)| <==> forall x :: x in s ==> narrow(x) == wide(x)
  {
    if s != [] {
      NarrowFilter(s[1..], narrow, wide);
      if forall x :: x in s ==> narrow(x) == wide(x) { FilterAgree(s, narrow, wide); }
    }
  }

  /** Removing the reference `x` from a filtered view is the same as removing it from the
      list first: the fact that lets one record be unlinked from every list that shows it. */
  lemma {:induction false} FilterRemove<T>(s: seq<T>, x: T, p: T -> bool)
    ensures Filter(RemoveFirst(s, x), p) == RemoveFirst(Filter(s, p), x)
  {
    if s != [] {
      var rest := Filter(s[1..], p);
      if s[0] == x {
        if !p(x) { RemoveAbsent(rest, x); }
        assert ([x] + rest)[1..] == rest && [] + rest == rest;
      } else {
        FilterRemove(s[1..], x, p);
        RemoveFirstCons(s[0], s[1..], x);
        RemoveFirstCons(s[0], rest, x);
        assert ([s[0]] + RemoveFirst(s[1..], x))[1..] == RemoveFirst(s[1..], x);
        assert [] + rest == rest;
      }
    }
  }

  lemma RemoveFirstCons<T>(y: T, s: seq<T>, x: T)
    requires y != x
    ensures RemoveFirst([y] + s, x) == [y] + RemoveFirst(s, x)
  {
  }

  lemma {:induction false} RemoveFirstDistinct<T>(s: seq<T>, x: T)
    requires Distinct(s)
    ensures Distinct(RemoveFirst(s, x))
    ensures forall y :: y in RemoveFirst(s, x) ==> y in s && y != x
    ensures forall y :: y in s && y != x ==> y in RemoveFirst(s, x)
  {
    if s != [] {
      assert s[0] !in s[1..];
      if s[0] != x {
        RemoveFirstDistinct(s[1..], x);
      }
    }
  }

  lemma {:induction false} RemoveShortens<T>(s: seq<T>, x: T)
    requires x in s
    ensures |RemoveFirst(s, x)| == |s| - 1
  {
    if s[0] != x { RemoveShortens(s[1..], x); }
  }

  lemma {:induction false} RemoveIsFilter<T>(s: seq<T>, x: T, keep: T -> bool)
    requires Distinct(s)
    requires forall y :: y in s ==> (keep(y) <==> y != x)
    ensures RemoveFirst(s, x) == Filter(s, keep)
  {
    if s != [] {
      if s[0] == x {
        assert x !in s[1..];
        FilterAll(s[1..], keep);
      } else {
        RemoveIsFilter(s[1..], x, keep);
      }
    }
  }

  lemma {:induction false} FilterAll<T>(s: seq<T>, p: T -> bool)
    requires forall x :: x in s ==> p(x)
    ensures Filter(s, p) == s
  {
    if s != [] {
      FilterAll(s[1..], p);
    }
  }

  lemma {:induction false} FilterTwice<T>(s: seq<T>, p: T -> bool, q: T -> bool, both: T -> bool)
    requires forall x :: x in s ==> (both(x) <==> p(x) && q(x))
    ensures Filter(Filter(s, p), q) == Filter(s, both)
  {
    if s != [] {
      FilterTwice(s[1..], p, q, both);
      var rest := Filter(s[1..], p);
      assert ([s[0]] + rest)[1..] == rest && [] + rest == rest;
    }
  }

  /** What is under and behind a cursor that moves on, or that stands still while the element
      under it is removed. */
  lemma CursorMoves<T>(s: seq<T>, i: nat)
    requires i < |s|
    ensures s[i..][0] == s[i] && s[i + 1..] == s[i..][1..]
    ensures (s[..i] + s[i + 1..])[i..] == s[i..][1..]
  {
  }

  lemma {:induction false} RemoveAtIndex<T>(s: seq<T>, i: nat)
    requires Distinct(s) && i < |s|
    ensures RemoveFirst(s, s[i]) == s[..i] + s[i + 1..]
  {
    if i > 0 {
      RemoveAtIndex(s[1..], i - 1);
      assert s[..i] == [s[0]] + s[1..][..i - 1];
    }
  }
}
