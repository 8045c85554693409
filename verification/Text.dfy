/** Strings as the sources use them: searching for a character, prefixes, and the
    lexicographic order behind `strcmp` and sorted string lists. */
module Text {

  /** `isspace` in the C locale. */
  predicate IsSpace(c: char) {
    c == ' ' || '\t' <= c <= '\r'
  }

  /** The index of the first `c` at or after `from`, or -1. */
  function Find(s: string, c: char, from: nat): (i: int)
    requires from <= |s|
    ensures i == -1 || from <= i < |s|
    ensures i == -1 ==> forall k :: from <= k < |s| ==> s[k] != c
    ensures i != -1 ==> s[i] == c && forall k :: from <= k < i ==> s[k] != c
    decreases |s| - from
  {
    if from == |s| then -1
    else if s[from] == c then from
    else Find(s, c, from + 1)
  }

  /** The first `c` of `s` stands between `front` and `tail`. */
  ghost predicate Around(s: string, front: string, c: char, tail: string) {
    c !in front && s == front + [c] + tail
  }

  lemma FindCuts(s: string, front: string, c: char, tail: string)
    ensures Around(s, front, c, tail)
       <==> Find(s, c, 0) == |front| && front == s[..|front|] && tail == s[|front| + 1..]
  {
    if Around(s, front, c, tail) {
      assert s[|front|] == c && forall k :: 0 <= k < |front| ==> s[k] == front[k];
    }
  }

  /** Strict lexicographic order by character code. */
  predicate Less(a: string, b: string) {
    if b == "" then false
    else if a == "" then true
    else if a[0] != b[0] then a[0] < b[0]
    else Less(a[1..], b[1..])
  }

  predicate AtMost(a: string, b: string) {
    a == b || Less(a, b)
  }

  lemma {:induction false} LessTransitive(a: string, b: string, c: string)
    requires Less(a, b) && Less(b, c)
    ensures Less(a, c)
  {
    if a != "" && a[0] == b[0] == c[0] {
      LessTransitive(a[1..], b[1..], c[1..]);
    }
  }

  lemma {:induction false} LessTotal(a: string, b: string)
    ensures a == b || Less(a, b) || Less(b, a)
    ensures Less(a, b) ==> !Less(b, a)
    ensures !Less(a, a)
  {
    if a != "" && b != "" {
      LessTotal(a[1..], b[1..]);
      LessTotal(a[1..], a[1..]);
      assert a == [a[0]] + a[1..] && b == [b[0]] + b[1..];
    } else if a != "" {
      LessTotal(a[1..], a[1..]);
    }
  }

  /** `a` is a proper prefix of `b`, or has the smaller character where they first differ. */
  ghost predicate ComesBefore(a: string, b: string) {
    || (a < b)
    || exists k :: 0 <= k < |a| && k < |b| && a[..k] == b[..k] && a[k] < b[k]
  }

  lemma {:induction false} LessMeans(a: string, b: string)
    ensures Less(a, b) <==> ComesBefore(a, b)
  {
    if a != "" && b != "" {
      if a[0] == b[0] {
        LessMeans(a[1..], b[1..]);
        ComesBeforeCons(a[0], a[1..], b[1..]);
        assert a == [a[0]] + a[1..] && b == [b[0]] + b[1..];
      } else {
        assert a[..0] == b[..0];
      }
    }
  }

  lemma ComesBeforeCons(c: char, a: string, b: string)
    ensures ComesBefore([c] + a, [c] + b) <==> ComesBefore(a, b)
  {
    var ca, cb := [c] + a, [c] + b;
    assert ca[1..] == a && cb[1..] == b;
    if k :| 0 <= k < |a| && k < |b| && a[..k] == b[..k] && a[k] < b[k] {
      assert ca[..k + 1] == [c] + a[..k] && cb[..k + 1] == [c] + b[..k];
    }
    if k :| 0 <= k < |ca| && k < |cb| && ca[..k] == cb[..k] && ca[k] < cb[k] {
      assert k > 0 && a[..k - 1] == ca[..k][1..] && b[..k - 1] == cb[..k][1..];
    }
  }

  /** A prefix never comes after its extensions. */
  lemma {:induction false} PrefixAtMost(a: string, b: string)
    requires a <= b
    ensures AtMost(a, b)
  {
    if a != "" {
      PrefixAtMost(a[1..], b[1..]);
      assert a == [a[0]] + a[1..] && b == [b[0]] + b[1..];
    }
  }

  /** Strings between a prefix and its extension share the prefix: the fact that makes one
      pass over a sorted list enough. */
  lemma {:induction false} PrefixBetween(a: string, b: string, c: string)
    requires AtMost(a, b) && AtMost(b, c)
    requires a <= c
    ensures a <= b
  {
    LessTotal(a, b);
    LessTotal(b, c);
    if a != "" && a != b && b != c {
      assert a[0] == c[0];
      assert a[1..] <= c[1..];
      PrefixBetween(a[1..], b[1..], c[1..]);
      assert a == [a[0]] + a[1..] && b == [b[0]] + b[1..];
    }
  }
}
