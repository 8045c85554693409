/** Function signatures in canonical form: white space goes, except for one blank between two
    identifier characters that white space kept apart. */
module SignatureForm {
  import opened Lists
  import opened Text

  predicate IsIdentChar(c: char) {
    c == '_' || '0' <= c <= '9' || 'a' <= c <= 'z' || 'A' <= c <= 'Z'
  }

  const NONE: char := '\0'

  /** A visible character, and whether a gap separates it from the identifier character before
      it where that gap matters. */
  datatype Mark = Mark(c: char, apart: bool)

  /** What a signature says: its visible characters and the gaps that matter, given the last
      visible character and whether white space has been seen since. */
  function Marks(s: string, last: char, gap: bool): seq<Mark> {
    if s == "" then []
    else if IsSpace(s[0]) then Marks(s[1..], last, true)
    else [Mark(s[0], gap && IsIdentChar(last) && IsIdentChar(s[0]))] + Marks(s[1..], s[0], false)
  }

  function Render(ms: seq<Mark>): string {
    if ms == [] then ""
    else (if ms[0].apart then [' '] else []) + [ms[0].c] + Render(ms[1..])
  }

  function Normal(s: string): string {
    Render(Marks(s, NONE, false))
  }

  const LETTERS := "abcdefghijklmnopqrstuvwxyz"
  const CAPITALS := "ABCDEFGHIJKLMNOPQRSTUVWXYZ"
  const DIGITS := "0123456789"

  lemma IdentifierChars(c: char)
    ensures IsIdentChar(c) <==> c in LETTERS || c in CAPITALS || c in DIGITS || c == '_'
  {
    Letters(c);
    Capitals(c);
    Digits(c);
  }

  lemma Letters(c: char)
    ensures c in LETTERS <==> 'a' <= c <= 'z'
  {
    if 'a' <= c <= 'z' { assert LETTERS[c as int - 'a' as int] == c; }
  }

  lemma Capitals(c: char)
    ensures c in CAPITALS <==> 'A' <= c <= 'Z'
  {
    if 'A' <= c <= 'Z' { assert CAPITALS[c as int - 'A' as int] == c; }
  }

  lemma Digits(c: char)
    ensures c in DIGITS <==> '0' <= c <= '9'
  {
    if '0' <= c <= '9' { assert DIGITS[c as int - '0' as int] == c; }
  }

  // ---------- Properties of the canonical form ----------

  lemma MarksOfFront(m: Mark, rest: string, last: char)
    requires !IsSpace(m.c) && (m.apart ==> IsIdentChar(last) && IsIdentChar(m.c))
    ensures Marks((if m.apart then [' '] else []) + [m.c] + rest, last, false) == [m] + Marks(rest, m.c, false)
  {
    var text := [m.c] + rest;
    assert text[1..] == rest;
    if m.apart {
      assert [' '] + [m.c] + rest == [' '] + text && ([' '] + text)[1..] == text;
    } else {
      assert [] + [m.c] + rest == text;
    }
  }

  lemma {:induction false} MarksOfRendered(s: string, last: char, gap: bool)
    ensures Marks(Render(Marks(s, last, gap)), last, false) == Marks(s, last, gap)
  {
    if s != "" {
      if IsSpace(s[0]) {
        MarksOfRendered(s[1..], last, true);
      } else {
        MarksOfRendered(s[1..], s[0], false);
        var ms := Marks(s, last, gap);
        assert ms[1..] == Marks(s[1..], s[0], false);
        MarksOfFront(ms[0], Render(ms[1..]), last);
      }
    }
  }

  lemma Idempotent(s: string)
    ensures Normal(Normal(s)) == Normal(s)
  {
    MarksOfRendered(s, NONE, false);
  }

  /** Two signatures have the same canonical form exactly when they have the same visible
      characters and the same gaps between identifiers; how much white space a gap holds, of
      what kind, and where else it stands, does not matter. */
  lemma EqualFormsIffSameMarks(s: string, t: string)
    ensures Normal(s) == Normal(t) <==> Marks(s, NONE, false) == Marks(t, NONE, false)
  {
    MarksOfRendered(s, NONE, false);
    MarksOfRendered(t, NONE, false);
  }

  function Visible(s: string): string {
    if s == "" then "" else (if IsSpace(s[0]) then [] else [s[0]]) + Visible(s[1..])
  }

  function Characters(ms: seq<Mark>): string {
    if ms == [] then "" else [ms[0].c] + Characters(ms[1..])
  }

  lemma {:induction false} MarksAreVisible(s: string, last: char, gap: bool)
    ensures Characters(Marks(s, last, gap)) == Visible(s)
    ensures forall m :: m in Marks(s, last, gap) ==> !IsSpace(m.c)
  {
    if s != "" {
      if IsSpace(s[0]) {
        MarksAreVisible(s[1..], last, true);
        assert [] + Visible(s[1..]) == Visible(s[1..]);
      } else {
        MarksAreVisible(s[1..], s[0], false);
        assert Marks(s, last, gap)[1..] == Marks(s[1..], s[0], false);
      }
    }
  }

  lemma VisibleFront(c: char, s: string)
    ensures Visible([c] + s) == if IsSpace(c) then Visible(s) else [c] + Visible(s)
  {
  }

  lemma {:induction false} VisibleRendered(ms: seq<Mark>)
    requires forall m :: m in ms ==> !IsSpace(m.c)
    ensures Visible(Render(ms)) == Characters(ms)
  {
    if ms != [] {
      VisibleRendered(ms[1..]);
      var text := [ms[0].c] + Render(ms[1..]);
      VisibleFront(ms[0].c, Render(ms[1..]));
      if ms[0].apart {
        VisibleFront(' ', text);
        assert Render(ms) == [' '] + text;
      } else {
        assert Render(ms) == text;
      }
    }
  }

  /** The visible characters are kept, in order. */
  lemma KeepsVisible(s: string)
    ensures Visible(Normal(s)) == Visible(s)
  {
    MarksAreVisible(s, NONE, false);
    VisibleRendered(Marks(s, NONE, false));
  }

  lemma {:induction false} RenderedLength(s: string, last: char, gap: bool)
    ensures |Render(Marks(s, last, gap))| <= |s| + (if gap then 1 else 0)
  {
    if s != "" {
      if IsSpace(s[0]) {
        RenderedLength(s[1..], last, true);
      } else {
        RenderedLength(s[1..], s[0], false);
        assert Marks(s, last, gap)[1..] == Marks(s[1..], s[0], false);
      }
    }
  }

  /** The form is never longer than the signature. */
  lemma NeverLonger(s: string)
    ensures |Normal(s)| <= |s|
  {
    RenderedLength(s, NONE, false);
  }

  /** White space in `t` is single blanks, each between two identifier characters; `last` is
      what precedes `t`. */
  ghost predicate BlanksOnlyBetween(t: string, last: char) {
    forall i :: 0 <= i < |t| && IsSpace(t[i]) ==> BlankBetween(t, last, i)
  }

  ghost predicate BlankBetween(t: string, last: char, i: nat)
    requires i < |t|
  {
    t[i] == ' ' && i + 1 < |t| && IsIdentChar(t[i + 1]) && IsIdentChar(if i == 0 then last else t[i - 1])
  }

  lemma {:induction false} RenderedBlanks(s: string, last: char, gap: bool)
    ensures BlanksOnlyBetween(Render(Marks(s, last, gap)), last)
  {
    if s != "" {
      if IsSpace(s[0]) {
        RenderedBlanks(s[1..], last, true);
      } else {
        RenderedBlanks(s[1..], s[0], false);
        RenderedVisible(s, last, gap);
      }
    }
  }

  lemma RenderedVisible(s: string, last: char, gap: bool)
    requires s != "" && !IsSpace(s[0]) && BlanksOnlyBetween(Render(Marks(s[1..], s[0], false)), s[0])
    ensures BlanksOnlyBetween(Render(Marks(s, last, gap)), last)
  {
  }

  lemma BlanksSeparateIdentifiers(s: string)
    ensures BlanksOnlyBetween(Normal(s), NONE)
  {
    RenderedBlanks(s, NONE, false);
  }

  // ---------- The two-pointer rewrite ----------

  lemma {:induction false} SkipSpaces(s: string, n: nat, last: char)
    requires n <= |s| && forall i :: 0 <= i < n ==> IsSpace(s[i])
    ensures Marks(s, last, true) == Marks(s[n..], last, true)
    ensures n > 0 ==> Marks(s, last, false) == Marks(s[n..], last, true)
  {
    if n > 0 {
      SkipSpaces(s[1..], n - 1, last);
      assert s[1..][n - 1..] == s[n..];
    } else {
      assert s[0..] == s;
    }
  }

  /** What the rest of the input, from `from` on, still adds to the output. */
  ghost function Rest(fun: string, from: nat, last: char, gap: bool): string
    requires from <= |fun|
  {
    Render(Marks(fun[from..], last, gap))
  }

  lemma TakeVisible(fun: string, from: nat, last: char, gap: bool)
    requires from < |fun| && !IsSpace(fun[from])
    ensures Rest(fun, from, last, gap)
         == (if gap && IsIdentChar(last) && IsIdentChar(fun[from]) then [' '] else [])
            + [fun[from]] + Rest(fun, from + 1, fun[from], false)
  {
  }

  lemma PassSpace(fun: string, from: nat, last: char, gap: bool)
    requires from < |fun| && IsSpace(fun[from])
    ensures Rest(fun, from, last, gap) == Rest(fun, from + 1, last, true)
  {
  }

  /** After a gap: the next word, or the end, follows the blank that the gap calls for. */
  lemma NextWord(fun: string, from: nat, last: char, gap: bool)
    requires from <= |fun| && (from < |fun| ==> !IsSpace(fun[from]))
    ensures Rest(fun, from, last, gap)
         == (if gap && from < |fun| && IsIdentChar(last) && IsIdentChar(fun[from]) then [' '] else [])
            + Rest(fun, from, last, false)
  {
  }

  function LastOf(fun: string, start: nat, from: nat, last: char): char
    requires start <= from <= |fun|
  {
    if from > start then fun[from - 1] else last
  }

  lemma {:induction false} TakeWord(fun: string, start: nat, from: nat, last: char)
    requires start <= from <= |fun| && forall k :: start <= k < from ==> !IsSpace(fun[k])
    ensures Rest(fun, start, last, false)
         == fun[start..from] + Rest(fun, from, LastOf(fun, start, from, last), false)
    decreases from - start
  {
    if start < from {
      var c, left := fun[start], fun[start + 1..from];
      TakeVisible(fun, start, last, false);
      TakeWord(fun, start + 1, from, c);
      assert fun[start..from] == [c] + left;
      Regroup([c], left, Rest(fun, from, LastOf(fun, start, from, last), false));
    }
  }

  /** The inner skipping loop: pass over white space. */
  method SkipWhite(fun: string, start: nat, last: char) returns (from: nat)
    requires start <= |fun|
    ensures start <= from <= |fun| && (from < |fun| ==> !IsSpace(fun[from]))
    ensures from == start ==> start == |fun| || !IsSpace(fun[start])
    ensures Rest(fun, start, last, false)
         == (if from > start then Blank(fun, from, last) else []) + Rest(fun, from, last, false)
  {
    from := start;
    while from < |fun| && IsSpace(fun[from])
      invariant start <= from <= |fun|
      invariant Rest(fun, from, last, from > start) == Rest(fun, start, last, false)
    {
      PassSpace(fun, from, last, from > start);
      from := from + 1;
    }
    NextWord(fun, from, last, from > start);
  }

  /** The inner copying loop: move one word from the read to the write position. */
  method CopyWord(fun: string, start: nat, result: array<char>, at: nat, last: char)
    returns (from: nat, to: nat, newLast: char)
    requires at <= start <= |fun| < result.Length
    modifies result
    ensures start <= from <= |fun| && to == at + (from - start)
    ensures result[..to] == old(result[..at]) + fun[start..from]
    ensures forall k :: start <= k < from ==> !IsSpace(fun[k])
    ensures from < |fun| ==> IsSpace(fun[from])
    ensures newLast == LastOf(fun, start, from, last)
  {
    from, to, newLast := start, at, last;
    while from < |fun| && !IsSpace(fun[from])
      invariant start <= from <= |fun| && to == at + (from - start)
      invariant result[..to] == old(result[..at]) + fun[start..from]
      invariant forall k :: start <= k < from ==> !IsSpace(fun[k])
      invariant newLast == LastOf(fun, start, from, last)
    {
      newLast := fun[from];
      from := from + 1;
      result[to] := newLast;
      to := to + 1;
      assert fun[start..from] == fun[start..from - 1] + [newLast];
    }
  }

  /** `done` is the output for everything before `from`. */
  ghost predicate Partial(fun: string, done: string, from: nat, last: char)
    requires from <= |fun|
  {
    done + Rest(fun, from, last, false) == Normal(fun)
  }

  /** The blank that a gap between `start` and `from` calls for. */
  function Blank(fun: string, from: nat, last: char): string
    requires from <= |fun|
  {
    if last != NONE && IsIdentChar(last) && from < |fun| && IsIdentChar(fun[from]) then [' '] else []
  }

  lemma PartialBlank(fun: string, done: string, start: nat, word: nat, last: char)
    requires start <= word <= |fun| && Partial(fun, done, start, last)
    requires word == start ==> Blank(fun, word, last) == []
    requires Rest(fun, start, last, false)
          == (if word > start then Blank(fun, word, last) else []) + Rest(fun, word, last, false)
    ensures Partial(fun, done + Blank(fun, word, last), word, last)
  {
    Regroup(done, Blank(fun, word, last), Rest(fun, word, last, false));
  }

  lemma PartialWord(fun: string, done: string, word: nat, from: nat, last: char)
    requires word <= from <= |fun| && Partial(fun, done, word, last)
    requires forall k :: word <= k < from ==> !IsSpace(fun[k])
    ensures Partial(fun, done + fun[word..from], from, LastOf(fun, word, from, last))
  {
    TakeWord(fun, word, from, last);
    Regroup(done, fun[word..from], Rest(fun, from, LastOf(fun, word, from, last), false));
  }

  lemma PartialDone(fun: string, done: string, last: char)
    requires Partial(fun, done, |fun|, last)
    ensures done == Normal(fun)
  {
  }

  /** Write the blank that a gap calls for. */
  method WriteBlank(fun: string, from: nat, result: array<char>, at: nat, last: char) returns (to: nat)
    requires from <= |fun| && at < result.Length
    modifies result
    ensures at <= to <= at + 1 && to <= result.Length
    ensures result[..to] == old(result[..at]) + Blank(fun, from, last)
  {
    to := at;
    if last != NONE && IsIdentChar(last) && from < |fun| && IsIdentChar(fun[from]) {
      result[to] := ' ';
      to := to + 1;
    }
  }

  /** One round of the outer loop: skip a gap, write its blank if it needs one, copy a word. */
  method Round(fun: string, result: array<char>, start: nat, at: nat, last: char, ghost done: string)
    returns (from: nat, to: nat, newLast: char, ghost newDone: string)
    requires at <= start <= |fun| < result.Length && result[..at] == done
    requires Partial(fun, done, start, last) && NONE !in fun
    requires last != NONE ==> start == |fun| || IsSpace(fun[start])
    requires last == NONE ==> start == 0
    requires at > 0 ==> !IsSpace(done[at - 1])
    modifies result
    ensures start <= from <= |fun| && to <= from && (start < |fun| ==> start < from)
    ensures from < |fun| ==> IsSpace(fun[from])
    ensures result[..to] == newDone && Partial(fun, newDone, from, newLast)
    ensures newLast == NONE ==> from == |fun|
    ensures to > 0 ==> !IsSpace(newDone[to - 1])
  {
    from := SkipWhite(fun, start, last);
    to := WriteBlank(fun, from, result, at, last);
    ghost var word := from;
    ghost var blank := Blank(fun, word, last);
    assert word == start ==> blank == [];
    PartialBlank(fun, done, start, word, last);
    from, to, newLast := CopyWord(fun, from, result, to, last);
    newDone := done + blank + fun[word..from];
    PartialWord(fun, done + blank, word, from, last);
    LastWritten(done, blank, fun[word..from]);
  }

  /** What is written last is visible, unless nothing is written. */
  lemma LastWritten(done: string, blank: string, word: string)
    requires (word == "" ==> blank == "") && forall k :: 0 <= k < |word| ==> !IsSpace(word[k])
    requires done != "" ==> !IsSpace(done[|done| - 1])
    ensures var t := done + blank + word; t != "" ==> !IsSpace(t[|t| - 1])
  {
  }

  /** `normalizeFunctionSignature` on a C string. The buffer is as large as the input with its
      terminator, and the write position never passes the read position. */
  method NormalizeFunctionSignature(fun: string) returns (form: string)
    requires NONE !in fun
    ensures form == Normal(fun)
  {
    if fun == "" {
      return fun;
    }
    var result := new char[|fun| + 1];
    var from, to, last := 0, 0, NONE;
    ghost var done := "";
    assert fun[0..] == fun;
    from, to, last, done := Round(fun, result, from, to, last, done);
    while from < |fun|
      invariant 0 <= to <= from <= |fun|
      invariant from < |fun| ==> IsSpace(fun[from])
      invariant last == NONE ==> from == |fun|
      invariant result[..to] == done && Partial(fun, done, from, last)
      invariant to > 0 ==> !IsSpace(done[to - 1])
    {
      from, to, last, done := Round(fun, result, from, to, last, done);
    }
    PartialDone(fun, done, last);
    if to > 0 && result[to - 1] == ' ' {
      to := to - 1;
    }
    return result[..to];
  }
}
