/** The lines of a configuration file: how they are written, and how the reader tells section
    starts, section ends, comments and key-value pairs apart. */
module SectionLines {
  import opened Lists
  import opened Text
  import opened StringCodec

  // ---------- White space ----------

  /** Runs of white space become one blank; trailing white space goes. */
  function Collapse(s: string): string
    decreases |s|
  {
    if s == "" then ""
    else if !IsSpace(s[0]) then [s[0]] + Collapse(s[1..])
    else
      StripFrontShrinks(s);
      var rest := StripFront(s);
      if rest == "" then "" else " " + Collapse(rest)
  }

  lemma {:induction false} StripFrontShrinks(s: string)
    ensures |StripFront(s)| <= |s|
    ensures s != "" && IsSpace(s[0]) ==> |StripFront(s)| < |s|
    ensures StripFront(s) != "" ==> !IsSpace(StripFront(s)[0])
  {
    if s != "" && IsSpace(s[0]) {
      StripFrontShrinks(s[1..]);
    }
  }

  /** `simplifyWhiteSpace`. */
  function Simplify(s: string): string {
    Collapse(StripFront(s))
  }

  predicate NoSpace(s: string) {
    forall i :: 0 <= i < |s| ==> !IsSpace(s[i])
  }

  /** `level` steps of two blanks. */
  function Indent(level: nat): string {
    if level == 0 then "" else "  " + Indent(level - 1)
  }

  lemma {:induction false} StripIndent(level: nat, s: string)
    requires s != "" && !IsSpace(s[0])
    ensures StripFront(Indent(level) + s) == s
  {
    if level == 0 {
      assert "" + s == s;
    } else {
      StripIndent(level - 1, s);
      var t := Indent(level - 1) + s;
      assert Indent(level) + s == "  " + t;
      assert ("  " + t)[1..] == " " + t && (" " + t)[1..] == t;
    }
  }

  lemma {:induction false} CollapseWord(s: string, t: string)
    requires NoSpace(s)
    ensures Collapse(s + t) == s + Collapse(t)
  {
    if s == "" {
      assert s + t == t;
    } else {
      assert (s + t)[1..] == s[1..] + t;
      CollapseWord(s[1..], t);
    }
  }

  lemma CollapseGap(t: string)
    requires t != "" && !IsSpace(t[0])
    ensures Collapse(" " + t) == " " + Collapse(t)
  {
    var s := " " + t;
    assert s[1..] == t;
    assert StripFront(s) == StripFront(t) == t;
  }

  lemma SimplifyWord(level: nat, s: string)
    requires NoSpace(s) && s != ""
    ensures Simplify(Indent(level) + s) == s
  {
    StripIndent(level, s);
    CollapseWord(s, "");
    assert s + "" == s;
  }

  lemma SimplifyTwoWords(level: nat, s: string, t: string)
    requires NoSpace(s) && s != "" && NoSpace(t) && t != ""
    ensures Simplify(Indent(level) + (s + " " + t)) == s + " " + t
  {
    var u := s + " " + t;
    StripIndent(level, u);
    assert u == s + (" " + t);
    CollapseWord(s, " " + t);
    CollapseGap(t);
    CollapseWord(t, "");
    assert t + "" == t;
  }

  /** Simplifying forgets the indentation. */
  lemma SimplifyIndented(level: nat, s: string)
    requires s != "" && !IsSpace(s[0])
    ensures Simplify(Indent(level) + s) == Collapse(s)
  {
    StripIndent(level, s);
  }

  // ---------- Classification ----------

  predicate Contains(s: string, w: string) {
    exists i | 0 <= i <= |s| :: OccursAt(s, w, i)
  }

  predicate OccursAt(s: string, w: string, i: int) {
    0 <= i <= |s| && w <= s[i..]
  }

  predicate Bracketed(t: string) {
    |t| >= 2 && t[0] == '[' && t[|t| - 1] == ']'
  }

  /** From `i`, up to a blank or a closing bracket. */
  function WordEnd(t: string, i: nat): (j: nat)
    requires i <= |t|
    ensures i <= j <= |t|
    decreases |t| - i
  {
    if i < |t| && t[i] != ' ' && t[i] != ']' then WordEnd(t, i + 1) else i
  }

  function WordStart(t: string, i: nat): (j: nat)
    requires i <= |t|
    ensures i <= j <= |t|
    decreases |t| - i
  {
    if i < |t| && t[i] == ' ' then WordStart(t, i + 1) else i
  }

  /** The first word inside the brackets. */
  function Word(t: string): string
    requires |t| >= 1
  {
    var first := WordStart(t, 1);
    t[first..WordEnd(t, first)]
  }

  /** `isComment`. */
  predicate IsComment(line: string) {
    var t := Strip(line);
    t != "" && t[0] == '#'
  }

  /** `isBeginOfSection`. */
  predicate IsBegin(line: string) {
    var t := Simplify(line);
    Bracketed(t) && !Contains(t, "END")
  }

  /** `isEndOfSection`. */
  predicate IsEnd(line: string) {
    var t := Simplify(line);
    Bracketed(t) && Word(t) == "END"
  }

  /** `nameOfSection`. */
  function NameOf(line: string): string {
    var t := Simplify(line);
    if |t| <= 2 || !Bracketed(t) || Word(t) == "END" then "" else Word(t)
  }

  datatype Pair = Pair(key: string, value: string)
  datatype Entry = NoEntry | Entry(pair: Pair)

  /** A visible ASCII character: `isalnum` or `ispunct` in the C locale. */
  predicate IsGraph(c: char) {
    '!' <= c <= '~'
  }

  function GraphOnly(s: string): string {
    if s == "" then "" else (if IsGraph(s[0]) then [s[0]] else []) + GraphOnly(s[1..])
  }

  /** The parsing part of `insertLine`, as the reader calls it: values may be empty. */
  function ParsePair(line: string): Entry {
    var i := Find(line, '=', 0);
    if i == -1 then NoEntry
    else
      var key := GraphOnly(line[..i]);
      if key == "" then NoEntry else Entry(Pair(key, line[i + 1..]))
  }

  // ---------- What the writer writes ----------

  function BeginLine(level: nat, name: string): string {
    Indent(level) + ("[" + name + "]")
  }

  function EndLine(level: nat, name: string): string {
    Indent(level) + ("[END" + " " + (name + "]"))
  }

  function CommentLine(level: nat, text: string): string {
    Indent(level) + ("#" + text)
  }

  function PairLine(level: nat, p: Pair): string {
    Indent(level) + (p.key + "=" + p.value)
  }

  /** Section names that survive a round trip. */
  ghost predicate GoodName(name: string) {
    name != "" && NoSpace(name) && ']' !in name && !Contains(name, "END")
  }

  /** What is left of a key when it is read: visible characters up to the equals sign. */
  ghost predicate PlainPair(p: Pair) {
    p.key != "" && '=' !in p.key && forall i :: 0 <= i < |p.key| ==> IsGraph(p.key[i])
  }

  /** The pairs that are read back behind other lines: their lines are no comments and neither start
      nor end a section. */
  ghost predicate GoodPair(p: Pair) {
    GoodLastPair(p) && !IsBegin(PairLine(0, p))
  }

  /** The last line of a file is not checked for the start of a section. */
  ghost predicate GoodLastPair(p: Pair) {
    PlainPair(p) && p.key[0] != '#' && !IsEnd(PairLine(0, p))
  }

  lemma {:induction false} WordEndAt(t: string, i: nat, n: nat)
    requires i + n < |t| && (t[i + n] == ' ' || t[i + n] == ']')
    requires forall k :: i <= k < i + n ==> t[k] != ' ' && t[k] != ']'
    ensures WordEnd(t, i) == i + n
    decreases n
  {
    if n > 0 { WordEndAt(t, i + 1, n - 1); }
  }

  lemma OccursChars(s: string, i: int)
    ensures OccursAt(s, "END", i) <==>
      0 <= i && i + 3 <= |s| && s[i] == 'E' && s[i + 1] == 'N' && s[i + 2] == 'D'
  {
  }

  lemma OccursInside(name: string)
    ensures Contains("[" + name + "]", "END") <==> Contains(name, "END")
  {
    var t := "[" + name + "]";
    if Contains(t, "END") {
      var i :| 0 <= i <= |t| && OccursAt(t, "END", i);
      OccursChars(t, i);
      OccursChars(name, i - 1);
    }
    if Contains(name, "END") {
      var i :| 0 <= i <= |name| && OccursAt(name, "END", i);
      OccursChars(name, i);
      OccursChars(t, i + 1);
    }
  }

  /** A start line is recognised as one, and gives back its name. */
  lemma BeginRecognised(level: nat, name: string)
    requires GoodName(name)
    ensures IsBegin(BeginLine(level, name)) && !IsEnd(BeginLine(level, name))
    ensures NameOf(BeginLine(level, name)) == name
    ensures !IsComment(BeginLine(level, name))
  {
    var t := "[" + name + "]";
    SimplifyWord(level, t);
    OccursInside(name);
    assert t[1] == name[0];
    assert WordStart(t, 1) == 1;
    WordEndAt(t, 1, |name|);
    assert t[1..1 + |name|] == name;
    assert name != "END" by {
      assert OccursAt("END", "END", 0);
    }
    StripIndent(level, t);
    StripKeeps(t);
  }

  lemma StripKeeps(t: string)
    requires t != "" && !IsSpace(t[0])
    ensures StripBack(t) != "" && StripBack(t)[0] == t[0]
  {
  }

  lemma {:induction false} CollapsedBlanks(s: string)
    ensures forall i :: 0 <= i < |Collapse(s)| && IsSpace(Collapse(s)[i]) ==> Collapse(s)[i] == ' '
    decreases |s|
  {
    if s != "" {
      if IsSpace(s[0]) {
        StripFrontShrinks(s);
        CollapsedBlanks(StripFront(s));
      } else {
        CollapsedBlanks(s[1..]);
      }
    }
  }

  lemma {:induction false} WordEndStops(t: string, i: nat)
    requires i <= |t|
    ensures forall k :: i <= k < WordEnd(t, i) ==> t[k] != ' ' && t[k] != ']'
    decreases |t| - i
  {
    if i < |t| && t[i] != ' ' && t[i] != ']' { WordEndStops(t, i + 1); }
  }

  /** The names that survive are exactly the good ones. */
  lemma NameSurvivesIff(level: nat, name: string)
    ensures GoodName(name)
       <==> name != "" && IsBegin(BeginLine(level, name)) && NameOf(BeginLine(level, name)) == name
  {
    if GoodName(name) {
      BeginRecognised(level, name);
    } else if name != "" && IsBegin(BeginLine(level, name)) && NameOf(BeginLine(level, name)) == name {
      NameReadIsGood(BeginLine(level, name));
    }
  }

  /** An end line is recognised as one. */
  lemma EndRecognised(level: nat, name: string)
    requires GoodName(name)
    ensures IsEnd(EndLine(level, name)) && !IsComment(EndLine(level, name))
  {
    var t := "[END" + " " + (name + "]");
    SimplifyTwoWords(level, "[END", name + "]");
    assert t[1] == 'E' && WordStart(t, 1) == 1;
    WordEndAt(t, 1, 3);
    assert t[1..4] == "END";
    StripIndent(level, t);
    StripKeeps(t);
  }

  lemma CommentRecognised(level: nat, text: string)
    ensures IsComment(CommentLine(level, text))
  {
    StripIndent(level, "#" + text);
    StripKeeps("#" + text);
  }

  lemma {:induction false} GraphOnlyKeeps(key: string)
    requires forall i :: 0 <= i < |key| ==> IsGraph(key[i])
    ensures GraphOnly(key) == key
  {
    if key != "" { GraphOnlyKeeps(key[1..]); }
  }

  lemma GraphOnlyDrops(t: string)
    ensures GraphOnly(" " + t) == GraphOnly(t)
  {
  }

  lemma {:induction false} GraphOnlyIndented(level: nat, key: string)
    ensures GraphOnly(Indent(level) + key) == GraphOnly(key)
  {
    if level == 0 {
      assert "" + key == key;
    } else {
      GraphOnlyIndented(level - 1, key);
      var t := Indent(level - 1) + key;
      assert Indent(level) + key == " " + (" " + t);
      GraphOnlyDrops(t);
      GraphOnlyDrops(" " + t);
    }
  }

  lemma {:induction false} IndentIsBlank(level: nat)
    ensures |Indent(level)| == 2 * level && forall i :: 0 <= i < |Indent(level)| ==> Indent(level)[i] == ' '
  {
    if level > 0 { IndentIsBlank(level - 1); }
  }

  /** How the line of a pair with a plain key is classified, at any depth; and it gives back its
      pair. */
  lemma PairRecognised(level: nat, p: Pair)
    requires PlainPair(p)
    ensures var line := PairLine(level, p);
      && (IsBegin(line) <==> IsBegin(PairLine(0, p))) && (IsEnd(line) <==> IsEnd(PairLine(0, p)))
      && (IsComment(line) <==> p.key[0] == '#') && line != ""
      && ParsePair(line) == Entry(p)
  {
    LineClassified(level, p.key + "=" + p.value);
    PairParsed(level, p);
  }

  /** Indentation does not matter. */
  lemma LineClassified(level: nat, body: string)
    requires body != "" && !IsSpace(body[0])
    ensures var line := Indent(level) + body;
      && (IsBegin(line) <==> IsBegin(Indent(0) + body)) && (IsEnd(line) <==> IsEnd(Indent(0) + body))
      && (IsComment(line) <==> body[0] == '#') && line != ""
  {
    SimplifyIndented(level, body);
    SimplifyIndented(0, body);
    StripIndent(level, body);
    StripKeeps(body);
  }

  lemma PairParsed(level: nat, p: Pair)
    requires PlainPair(p)
    ensures ParsePair(PairLine(level, p)) == Entry(p)
  {
    var line, front := PairLine(level, p), Indent(level) + p.key;
    EqualsCuts(Indent(level), p.key, p.value);
    assert '=' !in front by { IndentIsBlank(level); }
    FirstEquals(line, |front|);
    GraphOnlyIndented(level, p.key);
    GraphOnlyKeeps(p.key);
  }

  lemma EqualsCuts(indent: string, key: string, value: string)
    ensures var line, i := indent + (key + "=" + value), |indent + key|;
      i < |line| && line[i] == '=' && line[..i] == indent + key && line[i + 1..] == value
  {
  }

  lemma {:induction false} GraphOnlyChars(s: string)
    ensures forall c :: c in GraphOnly(s) ==> IsGraph(c) && c in s
  {
    if s != "" { GraphOnlyChars(s[1..]); }
  }

  /** Every pair that is read has a plain key. */
  lemma ParsedIsPlain(line: string)
    ensures ParsePair(line).Entry? ==> PlainPair(ParsePair(line).pair)
  {
    var i := Find(line, '=', 0);
    if i != -1 { GraphOnlyChars(line[..i]); }
  }

  /** Every name that is read is good. */
  lemma NameReadIsGood(line: string)
    requires IsBegin(line) && NameOf(line) != ""
    ensures GoodName(NameOf(line))
  {
    var t, name := Simplify(line), NameOf(line);
    CollapsedBlanks(StripFront(line));
    var first := WordStart(t, 1);
    WordEndStops(t, first);
    forall k | 0 <= k < |name|
      ensures !IsSpace(name[k]) && name[k] != ']'
    {
      assert name[k] == t[first + k];
    }
    if Contains(name, "END") {
      var k :| 0 <= k <= |name| && OccursAt(name, "END", k);
      OccursChars(name, k);
      OccursChars(t, first + k);
    }
  }

  lemma FirstEquals(line: string, i: nat)
    requires i < |line| && line[i] == '=' && forall k :: 0 <= k < i ==> line[k] != '='
    ensures Find(line, '=', 0) == i
  {
  }

  /** A pair is what stands around the first equals sign, the key without what is not visible. */
  lemma ParsePairMeans(line: string, front: string, value: string)
    ensures Around(line, front, '=', value) ==>
      var key := Filter(front, IsGraph);
      ParsePair(line) == if key == "" then NoEntry else Entry(Pair(key, value))
    ensures '=' !in line ==> ParsePair(line) == NoEntry
  {
    FindCuts(line, front, '=', value);
    GraphOnlyFilters(front);
  }

  lemma {:induction false} GraphOnlyFilters(s: string)
    ensures GraphOnly(s) == Filter(s, IsGraph)
  {
    if s != "" { GraphOnlyFilters(s[1..]); }
  }

  // ---------- Lines with other white space than the writer's ----------

  predicate AllSpace(s: string) {
    forall i :: 0 <= i < |s| ==> IsSpace(s[i])
  }

  function Gap(w: string): string {
    if w == "" then "" else " "
  }

  lemma {:induction false} StripSpace(w: string, rest: string)
    requires AllSpace(w) && (rest == "" || !IsSpace(rest[0]))
    ensures StripFront(w + rest) == rest
  {
    if w == "" {
      assert w + rest == rest;
    } else {
      assert (w + rest)[1..] == w[1..] + rest;
      StripSpace(w[1..], rest);
    }
  }

  /** A run of white space collapses to one blank, or to nothing at the end. */
  lemma CollapseSpace(w: string, rest: string)
    requires AllSpace(w) && (rest == "" || !IsSpace(rest[0]))
    ensures Collapse(w + rest) == if rest == "" then "" else Gap(w) + Collapse(rest)
  {
    StripSpace(w, rest);
    if w == "" { assert w + rest == rest; }
  }

  /** What is left of a bracket line: `[`, a word, what follows up to the bracket that closes the line. */
  lemma BracketCollapses(w1: string, w2: string, word: string, w3: string, tail: string, w4: string)
    requires AllSpace(w1) && AllSpace(w2) && AllSpace(w3) && AllSpace(w4)
    requires word != "" && NoSpace(word) && tail != "" && !IsSpace(tail[0])
    ensures Simplify(w1 + ("[" + (w2 + (word + (w3 + tail))))) == "[" + (Gap(w2) + (word + (Gap(w3) + Collapse(tail))))
  {
    var inner := word + (w3 + tail);
    StripSpace(w1, "[" + (w2 + inner));
    CollapseWord("[", w2 + inner);
    assert inner[0] == word[0];
    CollapseSpace(w2, inner);
    CollapseWord(word, w3 + tail);
    CollapseSpace(w3, tail);
    assert Gap(w2) + (word + (Gap(w3) + Collapse(tail))) == Gap(w2) + Collapse(inner);
  }

  /** The line ends in a bracket, white space apart. */
  lemma {:induction false} CloserStays(front: string, w: string)
    requires AllSpace(w)
    ensures Collapse(front + ("]" + w)) != "" && Collapse(front + ("]" + w))[|Collapse(front + ("]" + w))| - 1] == ']'
    decreases |front|
  {
    if front == "" {
      assert front + ("]" + w) == "]" + w;
      CollapseWord("]", w);
      CollapseSpace(w, "");
      assert w + "" == w;
    } else {
      var t := front + ("]" + w);
      if IsSpace(front[0]) {
        var f := StripFront(front);
        StripFrontShrinks(front);
        FrontStripped(front, "]" + w);
        CloserStays(f, w);
      } else {
        assert t[1..] == front[1..] + ("]" + w);
        CloserStays(front[1..], w);
      }
    }
  }

  lemma {:induction false} FrontStripped(front: string, rest: string)
    requires rest != "" && !IsSpace(rest[0])
    ensures StripFront(front + rest) == StripFront(front) + rest
  {
    if front == "" {
      assert front + rest == rest;
    } else {
      assert (front + rest)[1..] == front[1..] + rest;
      if IsSpace(front[0]) { FrontStripped(front[1..], rest); }
    }
  }

  /** The word of a bracketed text. */
  lemma WordOf(g: string, word: string, rest: string)
    requires (g == "" || g == " ") && word != "" && NoSpace(word) && ']' !in word
    requires rest != "" && (rest[0] == ' ' || rest[0] == ']')
    ensures Word("[" + (g + (word + rest))) == word
  {
    var t := "[" + (g + (word + rest));
    var n := 1 + |g|;
    assert t[n] == word[0] && WordStart(t, n) == n;
    if g == " " { assert t[1] == ' '; }
    assert WordStart(t, 1) == n;
    assert forall k :: 0 <= k < |word| ==> t[n + k] == word[k];
    assert t[n + |word|] == rest[0];
    WordEndAt(t, n, |word|);
    assert t[n..n + |word|] == word;
  }

  /** A start line with any white space around its parts. */
  lemma LooseBegin(w1: string, w2: string, name: string, w3: string, w4: string)
    requires AllSpace(w1) && AllSpace(w2) && AllSpace(w3) && AllSpace(w4) && GoodName(name)
    ensures var line := w1 + ("[" + (w2 + (name + (w3 + ("]" + w4)))));
      IsBegin(line) && !IsEnd(line) && NameOf(line) == name
  {
    BracketCollapses(w1, w2, name, w3, "]" + w4, w4);
    CollapseWord("]", w4);
    CollapseSpace(w4, "");
    assert w4 + "" == w4 && Collapse("]" + w4) == "]";
    var t := "[" + (Gap(w2) + (name + (Gap(w3) + "]")));
    WordOf(Gap(w2), name, Gap(w3) + "]");
    EndInside(Gap(w2), name, Gap(w3));
    assert name != "END" by { assert OccursAt("END", "END", 0); }
  }

  lemma EndInside(g: string, name: string, g': string)
    requires (g == "" || g == " ") && (g' == "" || g' == " ")
    ensures Contains("[" + (g + (name + (g' + "]"))), "END") ==> Contains(name, "END")
  {
    var rest := name + (g' + "]");
    EndBehind("[", g + rest);
    EndBehind(g, rest);
    EndBefore(name, g' + "]");
  }

  lemma EndBehind(a: string, b: string)
    requires 'E' !in a
    ensures Contains(a + b, "END") ==> Contains(b, "END")
  {
    if Contains(a + b, "END") {
      var i :| 0 <= i <= |a + b| && OccursAt(a + b, "END", i);
      OccursChars(a + b, i);
      OccursChars(b, i - |a|);
    }
  }

  lemma EndBefore(a: string, b: string)
    requires 'N' !in b && 'D' !in b
    ensures Contains(a + b, "END") ==> Contains(a, "END")
  {
    if Contains(a + b, "END") {
      var i :| 0 <= i <= |a + b| && OccursAt(a + b, "END", i);
      OccursChars(a + b, i);
      OccursChars(a, i);
    }
  }

  /** An end line with any white space, and anything behind its `END`. */
  lemma LooseEnd(w1: string, w2: string, w3: string, tail: string, w4: string)
    requires AllSpace(w1) && AllSpace(w2) && AllSpace(w3) && AllSpace(w4)
    requires if tail == "" then true else w3 != "" && !IsSpace(tail[0])
    ensures var line := w1 + ("[" + (w2 + ("END" + (w3 + (tail + ("]" + w4))))));
      IsEnd(line) && NameOf(line) == ""
  {
    var rest := tail + ("]" + w4);
    assert rest[0] == if tail == "" then ']' else tail[0];
    BracketCollapses(w1, w2, "END", w3, rest, w4);
    CloserStays(tail, w4);
    if tail == "" {
      CollapseWord("]", w4);
      assert rest == "]" + w4;
    }
    EndText(Gap(w2), Gap(w3), Collapse(rest));
  }

  lemma EndText(g: string, g': string, c: string)
    requires (g == "" || g == " ") && (g' == "" || g' == " ") && c != "" && c[|c| - 1] == ']'
    requires g' == "" ==> c[0] == ']'
    ensures var t := "[" + (g + ("END" + (g' + c))); Bracketed(t) && Word(t) == "END"
  {
    assert ("[" + (g + ("END" + (g' + c))))[|g| + |g'| + |c| + 3] == c[|c| - 1];
    WordOf(g, "END", g' + c);
  }
}
