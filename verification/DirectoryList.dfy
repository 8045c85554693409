/** The directories a menu was read from, reduced to those that contain all the others. */
module DirectoryList {
  import opened Text

  ghost predicate Sorted(s: seq<string>) {
    forall i, j :: 0 <= i < j < |s| ==> AtMost(s[i], s[j])
  }

  /** Insertion into a sorted list, after equal entries. */
  function Insert(s: seq<string>, x: string): seq<string> {
    if s == [] then [x]
    else if Less(x, s[0]) then [x] + s
    else [s[0]] + Insert(s[1..], x)
  }

  function Sort(s: seq<string>): seq<string> {
    if s == [] then [] else Insert(Sort(s[1..]), s[0])
  }

  lemma {:induction false} InsertSorts(s: seq<string>, x: string)
    requires Sorted(s)
    ensures Sorted(Insert(s, x))
    ensures forall y :: y in Insert(s, x) <==> y in s || y == x
  {
    if s != [] {
      LessTotal(x, s[0]);
      assert s == [s[0]] + s[1..];
      if Less(x, s[0]) {
        forall j | 0 <= j < |s|
          ensures AtMost(x, s[j])
        {
          if s[0] != s[j] { LessTransitive(x, s[0], s[j]); }
        }
      } else {
        InsertSorts(s[1..], x);
        var rest := Insert(s[1..], x);
        forall j | 0 <= j < |rest|
          ensures AtMost(s[0], rest[j])
        {
          assert rest[j] in s[1..] || rest[j] == x;
        }
      }
    }
  }

  lemma {:induction false} SortSorts(s: seq<string>)
    ensures Sorted(Sort(s))
    ensures forall y :: y in Sort(s) <==> y in s
  {
    if s != [] {
      SortSorts(s[1..]);
      InsertSorts(Sort(s[1..]), s[0]);
      assert s == [s[0]] + s[1..];
    }
  }

  /** Every directory of `all` lies in one of `kept`. */
  ghost predicate Covers(kept: seq<string>, all: seq<string>) {
    forall d :: d in all ==> CoveredBy(d, kept)
  }

  ghost predicate CoveredBy(d: string, kept: seq<string>) {
    exists p :: p in kept && p <= d
  }

  ghost predicate PrefixFree(s: seq<string>) {
    forall i, j :: 0 <= i < |s| && 0 <= j < |s| && i != j ==> !(s[i] <= s[j])
  }

  /** In a sorted list it is enough to compare with the entry just before. */
  lemma NextIsFree(s: seq<string>, n: nat)
    requires Sorted(s) && 1 <= n < |s| && PrefixFree(s[..n]) && !(s[n - 1] <= s[n])
    ensures PrefixFree(s[..n + 1])
  {
    var t := s[..n + 1];
    forall i | 0 <= i < n
      ensures !(t[i] <= t[n]) && !(t[n] <= t[i])
    {
      assert i == n - 1 || !(s[..n][i] <= s[..n][n - 1]);
      if t[i] <= t[n] {
        PrefixBetween(s[i], s[n - 1], s[n]);
      }
      if t[n] <= t[i] {
        PrefixAtMost(s[n], s[i]);
        LessTotal(s[i], s[n]);
      }
    }
    forall i, j | 0 <= i < |t| && 0 <= j < |t| && i != j
      ensures !(t[i] <= t[j])
    {
      if i < n && j < n { assert t[i] == s[..n][i] && t[j] == s[..n][j]; }
    }
  }

  /** Dropping an entry that lies in another one keeps the cover. */
  lemma DropCovered(s: seq<string>, n: nat, all: seq<string>)
    requires 1 <= n < |s| && s[n - 1] <= s[n] && Covers(s, all)
    ensures Covers(s[..n] + s[n + 1..], all)
  {
    var t := s[..n] + s[n + 1..];
    forall d | d in all
      ensures CoveredBy(d, t)
    {
      assert CoveredBy(d, s);
      var p :| p in s && p <= d;
      var i :| 0 <= i < |s| && s[i] == p;
      if i == n {
        assert t[n - 1] == s[n - 1] && t[n - 1] in t && t[n - 1] <= d;
      } else {
        var k := if i < n then i else i - 1;
        assert t[k] == p && t[k] in t && t[k] <= d;
      }
    }
  }

  /** What the reduced list is, without reference to the loop: the directories that lie in no
      other registered directory. */
  lemma KeptAreMinimal(kept: seq<string>, all: seq<string>, d: string)
    requires PrefixFree(kept) && Covers(kept, all) && forall x :: x in kept ==> x in all
    ensures d in kept <==> d in all && forall e :: e in all && e <= d ==> e == d
  {
  }

  /** The loop has settled the first `n` entries. */
  ghost predicate Reducing(list: seq<string>, n: nat, all: seq<string>) {
    && 1 <= n <= |list| && Sorted(list) && PrefixFree(list[..n])
    && Covers(list, all) && (forall x :: x in list ==> x in all)
  }

  lemma StartReducing(all: seq<string>)
    requires all != []
    ensures Reducing(Sort(all), 1, all)
  {
    SortSorts(all);
    assert all[0] in Sort(all);
    forall d | d in all
      ensures CoveredBy(d, Sort(all))
    {
      assert d in Sort(all) && d <= d;
    }
  }

  lemma KeepNext(list: seq<string>, n: nat, all: seq<string>)
    requires Reducing(list, n, all) && n < |list| && !(list[n - 1] <= list[n])
    ensures Reducing(list, n + 1, all)
  {
    NextIsFree(list, n);
  }

  lemma DropNext(list: seq<string>, n: nat, all: seq<string>)
    requires Reducing(list, n, all) && n < |list| && list[n - 1] <= list[n]
    ensures Reducing(list[..n] + list[n + 1..], n, all)
  {
    DropCovered(list, n, all);
    assert (list[..n] + list[n + 1..])[..n] == list[..n];
  }

  class Directories {
    var allDirectories: seq<string>

    constructor ()
      ensures allDirectories == []
    {
      allDirectories := [];
    }

    /** `registerDirectory`. */
    method Register(directory: string)
      modifies this
      ensures allDirectories == old(allDirectories) + [directory]
    {
      allDirectories := allDirectories + [directory];
    }

    /** `allDirectories`: sort the list and drop entries inside an earlier one, in place. */
    method Reduce() returns (kept: seq<string>)
      modifies this
      ensures kept == allDirectories
      ensures Sorted(kept) && PrefixFree(kept)
      ensures Covers(kept, old(allDirectories)) && forall x :: x in kept ==> x in old(allDirectories)
    {
      if allDirectories == [] {
        return allDirectories;
      }
      ghost var all := allDirectories;
      StartReducing(all);
      allDirectories := Sort(allDirectories);
      var previous, it := allDirectories[0], 1;
      while it < |allDirectories|
        invariant Reducing(allDirectories, it, all) && previous == allDirectories[it - 1]
        decreases |allDirectories| - it
      {
        if previous <= allDirectories[it] {
          DropNext(allDirectories, it, all);
          allDirectories := allDirectories[..it] + allDirectories[it + 1..];
        } else {
          KeepNext(allDirectories, it, all);
          previous := allDirectories[it];
          it := it + 1;
        }
      }
      assert allDirectories[..it] == allDirectories;
      kept := allDirectories;
    }
  }
}
