/** Names for clients that ask for one already taken: `app`, else `app-2`, `app-3`, ... */
module ClientNames {

  function Digit(d: nat): char
    requires d < 10
  {
    "0123456789"[d]
  }

  /** `setNum`: the decimal digits of `n`. */
  function Decimal(n: nat): string {
    if n < 10 then [Digit(n)] else Decimal(n / 10) + [Digit(n % 10)]
  }

  lemma {:induction false} DecimalInjective(m: nat, n: nat)
    requires Decimal(m) == Decimal(n)
    ensures m == n
  {
    var s, t := Decimal(m), Decimal(n);
    assert s[|s| - 1] == Digit(m % 10) && t[|t| - 1] == Digit(n % 10);
    if m >= 10 && n >= 10 {
      assert s[..|s| - 1] == Decimal(m / 10) && t[..|t| - 1] == Decimal(n / 10);
      DecimalInjective(m / 10, n / 10);
    } else if m >= 10 {
      DecimalNonempty(m / 10);
    } else if n >= 10 {
      DecimalNonempty(n / 10);
    }
  }

  lemma DecimalNonempty(n: nat)
    ensures Decimal(n) != ""
  {
  }

  /** The number that a decimal text stands for. */
  function NumberOf(s: string): nat
    requires forall i :: 0 <= i < |s| ==> '0' <= s[i] <= '9'
  {
    if s == "" then 0 else 10 * NumberOf(s[..|s| - 1]) + (s[|s| - 1] as nat - '0' as nat)
  }

  lemma DigitMeans(d: nat)
    requires d < 10
    ensures '0' <= Digit(d) <= '9' && Digit(d) as nat == '0' as nat + d
  {
    assert "0123456789"[d] as nat == '0' as nat + d;
  }

  /** The decimal text stands for the number, without leading zeros. */
  lemma {:induction false} DecimalMeans(n: nat)
    ensures Decimal(n) != "" && forall i :: 0 <= i < |Decimal(n)| ==> '0' <= Decimal(n)[i] <= '9'
    ensures NumberOf(Decimal(n)) == n
    ensures n > 0 ==> Decimal(n)[0] != '0'
  {
    DigitMeans(n % 10);
    if n < 10 {
      assert Decimal(n)[..0] == "";
    } else {
      DecimalMeans(n / 10);
      assert Decimal(n)[..|Decimal(n)| - 1] == Decimal(n / 10);
    }
  }

  function Candidate(app: string, n: nat): string {
    app + "-" + Decimal(n)
  }

  lemma CandidateInjective(app: string, m: nat, n: nat)
    requires Candidate(app, m) == Candidate(app, n)
    ensures m == n
  {
    assert Candidate(app, m)[|app| + 1..] == Decimal(m);
    assert Candidate(app, n)[|app| + 1..] == Decimal(n);
    DecimalInjective(m, n);
  }

  /** All of `app-2` .. `app-(n-1)` are taken. */
  /** A candidate is the wanted name, a dash and the number. */
  lemma CandidateMeans(app: string, n: nat)
    ensures exists s: string :: Candidate(app, n) == app + "-" + s && IsNumber(s, n)
  {
    DecimalMeans(n);
    assert IsNumber(Decimal(n), n);
  }

  ghost predicate IsNumber(s: string, n: nat) {
    && s != "" && (forall i :: 0 <= i < |s| ==> '0' <= s[i] <= '9')
    && NumberOf(s) == n && (n > 0 ==> s[0] != '0')
  }

  ghost predicate TakenBelow(names: set<string>, app: string, n: nat) {
    forall k {:trigger Candidate(app, k)} :: 2 <= k < n ==> Candidate(app, k) in names
  }

  /** A finite dictionary cannot hold more candidates than it has names: the search ends. */
  lemma {:induction false} Pigeonhole(names: set<string>, app: string, n: nat)
    requires n >= 2 && TakenBelow(names, app, n)
    ensures n - 2 <= |names|
  {
    if n > 2 {
      var last := Candidate(app, n - 1);
      forall k | 2 <= k < n - 1
        ensures Candidate(app, k) in names - {last}
      {
        if Candidate(app, k) == last { CandidateInjective(app, k, n - 1); }
      }
      Pigeonhole(names - {last}, app, n - 1);
    }
  }

  /** The first free candidate from `n` on. */
  ghost function FirstFree(names: set<string>, app: string, n: nat): nat
    requires n >= 2 && TakenBelow(names, app, n)
    decreases |names| + 3 - n
  {
    Pigeonhole(names, app, n);
    if Candidate(app, n) !in names then n
    else
      Pigeonhole(names, app, n + 1);
      FirstFree(names, app, n + 1)
  }

  /** The name the server settles on. */
  ghost function UniqueName(names: set<string>, app: string): string {
    if app !in names then app else Candidate(app, FirstFree(names, app, 2))
  }

  lemma {:induction false} FirstFreeIsLeast(names: set<string>, app: string, n: nat)
    requires n >= 2 && TakenBelow(names, app, n)
    ensures var k := FirstFree(names, app, n);
      k >= n && Candidate(app, k) !in names && TakenBelow(names, app, k)
    decreases |names| + 3 - n
  {
    Pigeonhole(names, app, n);
    if Candidate(app, n) in names {
      Pigeonhole(names, app, n + 1);
      FirstFreeIsLeast(names, app, n + 1);
    }
  }

  /** The chosen name is free, non-empty, and is the wanted one exactly when that is free. */
  lemma UniqueNameIsFree(names: set<string>, app: string)
    requires app != ""
    ensures UniqueName(names, app) !in names && UniqueName(names, app) != ""
    ensures UniqueName(names, app) == app <==> app !in names
    ensures app in names ==>
      exists n :: n >= 2 && UniqueName(names, app) == Candidate(app, n) && TakenBelow(names, app, n)
  {
    FirstFreeIsLeast(names, app, 2);
    if app in names {
      var n := FirstFree(names, app, 2);
      assert |Candidate(app, n)| > |app|;
    }
  }

  /** The do-while search of the registration handler. */
  method Unify(names: set<string>, app: string) returns (name: string)
    ensures name == UniqueName(names, app)
  {
    name := app;
    if app in names {
      var n := 2;
      name := Candidate(app, n);
      while name in names
        invariant n >= 2 && TakenBelow(names, app, n)
        invariant name == Candidate(app, n)
        invariant FirstFree(names, app, n) == FirstFree(names, app, 2)
        decreases |names| + 3 - n
      {
        Pigeonhole(names, app, n + 1);
        n := n + 1;
        name := Candidate(app, n);
      }
    }
  }
}
