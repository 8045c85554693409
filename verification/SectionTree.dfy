/** The nested sections of a configuration file: writing a tree, reading it back, and the proof
    that reading restores exactly what was written. */
module SectionTree {
  import opened Text
  import opened SectionLines
  import opened Optional

  /** A section: its subsections and its key-value pairs, each in key order as in a map. */
  datatype Section = Section(subs: seq<Sub>, keys: seq<Pair>)
  datatype Sub = Sub(name: string, section: Section)

  const EMPTY := Section([], [])

  // ---------- Ordered maps ----------

  /** `map::insert`: an existing key keeps its value. */
  function InsertKey(m: seq<Pair>, p: Pair): seq<Pair> {
    if m == [] then [p]
    else if m[0].key == p.key then m
    else if Less(p.key, m[0].key) then [p] + m
    else [m[0]] + InsertKey(m[1..], p)
  }

  /** The subsection of that name, or a new empty one. */
  function Lookup(m: seq<Sub>, name: string): Section {
    if m == [] then EMPTY
    else if m[0].name == name then m[0].section
    else Lookup(m[1..], name)
  }

  /** Store a subsection under its name, in order. */
  function Put(m: seq<Sub>, name: string, s: Section): seq<Sub> {
    if m == [] then [Sub(name, s)]
    else if m[0].name == name then [Sub(name, s)] + m[1..]
    else if Less(name, m[0].name) then [Sub(name, s)] + m
    else [m[0]] + Put(m[1..], name, s)
  }

  ghost predicate KeysBelow(m: seq<Pair>, key: string) {
    forall i :: 0 <= i < |m| ==> Less(m[i].key, key)
  }

  ghost predicate NamesBelow(m: seq<Sub>, name: string) {
    forall i :: 0 <= i < |m| ==> Less(m[i].name, name)
  }

  lemma {:induction false} InsertLast(m: seq<Pair>, p: Pair)
    requires KeysBelow(m, p.key)
    ensures InsertKey(m, p) == m + [p]
  {
    if m != [] {
      LessTotal(m[0].key, p.key);
      LessTotal(m[0].key, m[0].key);
      InsertLast(m[1..], p);
    }
  }

  lemma {:induction false} PutLast(m: seq<Sub>, name: string, s: Section)
    requires NamesBelow(m, name)
    ensures Put(m, name, s) == m + [Sub(name, s)] && Lookup(m, name) == EMPTY
  {
    if m != [] {
      LessTotal(m[0].name, name);
      LessTotal(m[0].name, m[0].name);
      PutLast(m[1..], name, s);
    }
  }

  // ---------- Writing ----------

  function PairLines(keys: seq<Pair>, level: nat): seq<string> {
    if keys == [] then [] else [PairLine(level, keys[0])] + PairLines(keys[1..], level)
  }

  /** `Section::save`. */
  function Save(s: Section, level: nat): seq<string>
    decreases s, 1
  {
    (if s.subs == [] then [] else [CommentLine(level, " subsections:")])
      + SaveSubs(s.subs, level)
      + (if s.keys == [] then [] else [CommentLine(level, " key-value-pairs:")])
      + PairLines(s.keys, level)
  }

  function SaveSubs(subs: seq<Sub>, level: nat): seq<string>
    decreases subs, 0
  {
    if subs == [] then []
    else
      [BeginLine(level, subs[0].name)] + Save(subs[0].section, level + 1)
        + [EndLine(level, subs[0].name)] + SaveSubs(subs[1..], level)
  }

  // ---------- Reading ----------

  /** `ReadLineFromStream`: the next line that is not a comment, and what is left. */
  function NextLine(lines: seq<string>): (string, seq<string>)
    decreases |lines|
  {
    if lines == [] then ("", [])
    else if lines[0] != "" && IsComment(lines[0]) then NextLine(lines[1..])
    else (lines[0], lines[1..])
  }

  lemma {:induction false} NextLineShrinks(lines: seq<string>)
    ensures lines != [] ==> |NextLine(lines).1| < |lines|
    ensures lines == [] ==> NextLine(lines).1 == []
    decreases |lines|
  {
    if lines != [] && lines[0] != "" && IsComment(lines[0]) { NextLineShrinks(lines[1..]); }
  }

  /** A read ends well; or the end of a subsection is missing; or a section without a name
      leaves the behaviour undefined. */
  datatype Outcome = Done(section: Section, rest: seq<string>) | MissingEnd(section: Section) | Undefined

  /** `insertLine` in the reader: a line that is no pair, or repeats a key, is ignored. */
  function TakePair(s: Section, line: string): Section {
    match ParsePair(line)
    case NoEntry => s
    case Entry(p) => s.(keys := InsertKey(s.keys, p))
  }

  /** `readSection`, into a section that may already have contents. */
  function Read(lines: seq<string>, s: Section, finish: bool): (o: Outcome)
    ensures o.Done? ==> |o.rest| <= |lines|
    decreases |lines|
  {
    NextLineShrinks(lines);
    var (line, rest) := NextLine(lines);
    if IsEnd(line) then Done(s, rest)
    else if rest == [] then
      var s1 := if line != "" then TakePair(s, line) else s;
      if finish then MissingEnd(s1) else Done(s1, [])
    else if IsBegin(line) then
      var name := NameOf(line);
      if name == "" then Undefined
      else
        var inner := Read(rest, Lookup(s.subs, name), true);
        match inner
        case Undefined => Undefined
        case MissingEnd(sub) => MissingEnd(s.(subs := Put(s.subs, name, sub)))
        case Done(sub, more) => Read(more, s.(subs := Put(s.subs, name, sub)), finish)
    else Read(rest, TakePair(s, line), finish)
  }

  // ---------- Which trees ----------

  /** Sections of good names and pairs that are `ok`, in strict order, at every depth. */
  ghost predicate Formed(s: Section, ok: Pair -> bool)
    decreases s, 1
  {
    FormedSubs(s.subs, ok) && Sorted(s.keys) && forall i :: 0 <= i < |s.keys| ==> ok(s.keys[i])
  }

  ghost predicate FormedSubs(subs: seq<Sub>, ok: Pair -> bool)
    decreases subs, 0
  {
    subs == []
    || (&& GoodName(subs[0].name) && Formed(subs[0].section, ok)
        && (forall j :: 1 <= j < |subs| ==> Less(subs[0].name, subs[j].name))
        && FormedSubs(subs[1..], ok))
  }

  ghost predicate Sorted(m: seq<Pair>) {
    forall i, j :: 0 <= i < j < |m| ==> Less(m[i].key, m[j].key)
  }

  /** Sections that survive inside another one. */
  ghost predicate Good(s: Section) {
    Formed(s, GoodPair)
  }

  ghost predicate GoodSubs(subs: seq<Sub>) {
    FormedSubs(subs, GoodPair)
  }

  /** Whole files that survive: the last pair may look like the start of a section. */
  ghost predicate GoodFile(s: Section) {
    && GoodSubs(s.subs) && Sorted(s.keys)
    && (forall i :: 0 <= i < |s.keys| - 1 ==> GoodPair(s.keys[i]))
    && (s.keys != [] ==> GoodLastPair(s.keys[|s.keys| - 1]))
  }

  // ---------- Reading what was written ----------

  lemma ReadComment(level: nat, text: string, more: seq<string>, s: Section, finish: bool)
    ensures Read([CommentLine(level, text)] + more, s, finish) == Read(more, s, finish)
  {
    var lines := [CommentLine(level, text)] + more;
    CommentRecognised(level, text);
    assert lines[1..] == more;
    assert CommentLine(level, text) != "" by {
      assert |CommentLine(level, text)| >= |"#" + text|;
    }
    assert NextLine(lines) == NextLine(more);
  }

  lemma ReadEnd(level: nat, name: string, more: seq<string>, s: Section, finish: bool)
    requires GoodName(name)
    ensures Read([EndLine(level, name)] + more, s, finish) == Done(s, more)
  {
    var lines := [EndLine(level, name)] + more;
    EndRecognised(level, name);
    assert lines[1..] == more;
  }

  lemma ReadPair(level: nat, p: Pair, more: seq<string>, s: Section, finish: bool)
    requires GoodPair(p) && KeysBelow(s.keys, p.key) && more != []
    ensures Read([PairLine(level, p)] + more, s, finish) == Read(more, s.(keys := s.keys + [p]), finish)
  {
    var lines := [PairLine(level, p)] + more;
    PairRecognised(level, p);
    InsertLast(s.keys, p);
    assert lines[1..] == more;
  }

  /** How a read ends when the lines run out. */
  function AtEnd(s: Section, finish: bool): Outcome {
    if finish then MissingEnd(s) else Done(s, [])
  }

  lemma ReadLastPair(level: nat, p: Pair, s: Section, finish: bool)
    requires GoodLastPair(p) && KeysBelow(s.keys, p.key)
    ensures Read([PairLine(level, p)], s, finish) == AtEnd(s.(keys := s.keys + [p]), finish)
  {
    var lines := [PairLine(level, p)];
    PairRecognised(level, p);
    InsertLast(s.keys, p);
    assert lines[1..] == [];
  }

  /** `keys` are good pairs in strict order, all after those in `m`. */
  ghost predicate PairsFollow(m: seq<Pair>, keys: seq<Pair>)
    decreases |keys|
  {
    keys == [] ||
    (GoodPair(keys[0]) && KeysBelow(m, keys[0].key) && PairsFollow(m + [keys[0]], keys[1..]))
  }

  lemma {:induction false} OrderedPairsFollow(m: seq<Pair>, keys: seq<Pair>)
    requires forall i :: 0 <= i < |keys| ==> GoodPair(keys[i])
    requires Sorted(keys)
    requires forall i :: 0 <= i < |keys| ==> KeysBelow(m, keys[i].key)
    ensures PairsFollow(m, keys)
    decreases |keys|
  {
    if keys != [] {
      var m' := m + [keys[0]];
      forall i | 0 <= i < |keys[1..]|
        ensures KeysBelow(m', keys[1..][i].key)
      {
        assert KeysBelow(m, keys[i + 1].key);
      }
      OrderedPairsFollow(m', keys[1..]);
    }
  }

  lemma FirstAcross<T>(a: seq<T>, b: seq<T>)
    requires b != []
    ensures (a + [b[0]]) + b[1..] == a + b
  {
  }

  lemma PairLinesFront(keys: seq<Pair>, level: nat, more: seq<string>)
    requires keys != []
    ensures PairLines(keys, level) + more == [PairLine(level, keys[0])] + (PairLines(keys[1..], level) + more)
    ensures more != [] ==> PairLines(keys[1..], level) + more != []
  {
  }

  lemma {:induction false} ReadPairs(keys: seq<Pair>, level: nat, more: seq<string>, s: Section, finish: bool)
    requires PairsFollow(s.keys, keys) && more != []
    ensures Read(PairLines(keys, level) + more, s, finish) == Read(more, s.(keys := s.keys + keys), finish)
    decreases |keys|
  {
    if keys == [] {
      assert [] + more == more && s.keys + [] == s.keys;
    } else {
      var rest := PairLines(keys[1..], level) + more;
      var s' := s.(keys := s.keys + [keys[0]]);
      PairLinesFront(keys, level, more);
      ReadPair(level, keys[0], rest, s, finish);
      ReadPairs(keys[1..], level, more, s', finish);
      FirstAcross(s.keys, keys);
    }
  }

  /** `subs` are good subsections in strict order, all after those in `m`. */
  ghost predicate SubsFollow(m: seq<Sub>, subs: seq<Sub>) {
    GoodSubs(subs) && forall i :: 0 <= i < |subs| ==> NamesBelow(m, subs[i].name)
  }

  lemma SubsFollowOn(m: seq<Sub>, subs: seq<Sub>)
    requires subs != [] && SubsFollow(m, subs)
    ensures NamesBelow(m, subs[0].name) && SubsFollow(m + [subs[0]], subs[1..])
  {
  }

  /** The lines of a subsection, up to its own end line, restore it, whatever comes after. */
  ghost predicate ClosesAt(sub: Sub, level: nat, tail: seq<string>) {
    Read(Save(sub.section, level + 1) + ([EndLine(level, sub.name)] + tail), EMPTY, true) == Done(sub.section, tail)
  }

  /** A start line, and a read of what follows into the section of that name. */
  lemma ReadInto(level: nat, name: string, inner: seq<string>, s: Section, finish: bool, sub: Section,
                 more: seq<string>)
    requires GoodName(name) && inner != [] && Read(inner, Lookup(s.subs, name), true) == Done(sub, more)
    ensures Read([BeginLine(level, name)] + inner, s, finish) == Read(more, s.(subs := Put(s.subs, name, sub)), finish)
  {
    var lines := [BeginLine(level, name)] + inner;
    BeginRecognised(level, name);
    assert lines[1..] == inner;
    assert NextLine(lines) == (lines[0], inner);
  }

  /** The same when the file ends inside the section: what was read of it is kept. */
  lemma ReadIntoCutOff(level: nat, name: string, inner: seq<string>, s: Section, finish: bool, sub: Section)
    requires GoodName(name) && inner != [] && Read(inner, Lookup(s.subs, name), true) == MissingEnd(sub)
    ensures Read([BeginLine(level, name)] + inner, s, finish) == MissingEnd(s.(subs := Put(s.subs, name, sub)))
  {
    var lines := [BeginLine(level, name)] + inner;
    BeginRecognised(level, name);
    assert lines[1..] == inner;
    assert NextLine(lines) == (lines[0], inner);
  }

  /** A start line without a name ends the read: the source leaves it undefined. */
  lemma ReadNameless(line: string, more: seq<string>, s: Section, finish: bool)
    requires IsBegin(line) && !IsEnd(line) && !IsComment(line) && NameOf(line) == "" && line != "" && more != []
    ensures Read([line] + more, s, finish) == Undefined
  {
    assert ([line] + more)[1..] == more;
  }

  /** One subsection: its start line, its lines, its end line, whatever comes after. */
  lemma {:induction false} ReadSub(sub: Sub, level: nat, more: seq<string>, s: Section, finish: bool)
    requires GoodName(sub.name) && NamesBelow(s.subs, sub.name)
    requires ClosesAt(sub, level, more)
    ensures Read([BeginLine(level, sub.name)] + Save(sub.section, level + 1)
                 + [EndLine(level, sub.name)] + more, s, finish)
         == Read(more, s.(subs := s.subs + [sub]), finish)
  {
    var inner := Save(sub.section, level + 1) + ([EndLine(level, sub.name)] + more);
    var lines := [BeginLine(level, sub.name)] + inner;
    assert [BeginLine(level, sub.name)] + Save(sub.section, level + 1) + [EndLine(level, sub.name)] + more == lines;
    PutLast(s.subs, sub.name, sub.section);
    ReadInto(level, sub.name, inner, s, finish, sub.section, more);
  }

  lemma {:induction false} ReadFirstSub(subs: seq<Sub>, level: nat, more: seq<string>, s: Section, finish: bool)
    requires subs != [] && SubsFollow(s.subs, subs)
    ensures Read(SaveSubs(subs, level) + more, s, finish)
         == Read(SaveSubs(subs[1..], level) + more, s.(subs := s.subs + [subs[0]]), finish)
    decreases subs, 0
  {
    var rest := SaveSubs(subs[1..], level) + more;
    SubsFollowOn(s.subs, subs);
    ReadClosed(subs[0].section, level + 1, level, subs[0].name, rest);
    ReadSub(subs[0], level, rest, s, finish);
    SubLines(subs, level, more);
  }

  /** All subsections of a section. */
  lemma {:induction false} ReadSubs(subs: seq<Sub>, level: nat, more: seq<string>, s: Section, finish: bool)
    requires SubsFollow(s.subs, subs)
    ensures Read(SaveSubs(subs, level) + more, s, finish) == Read(more, s.(subs := s.subs + subs), finish)
    decreases subs, 1
  {
    if subs == [] {
      assert [] + more == more && s.subs + [] == s.subs;
    } else {
      SubsFollowOn(s.subs, subs);
      ReadFirstSub(subs, level, more, s, finish);
      ReadSubs(subs[1..], level, more, s.(subs := s.subs + [subs[0]]), finish);
      FirstAcross(s.subs, subs);
    }
  }

  lemma SubLines(subs: seq<Sub>, level: nat, more: seq<string>)
    requires subs != []
    ensures SaveSubs(subs, level) + more
         == [BeginLine(level, subs[0].name)] + Save(subs[0].section, level + 1)
            + [EndLine(level, subs[0].name)] + (SaveSubs(subs[1..], level) + more)
  {
  }

  /** The lines of a whole section, read into an empty one. */
  lemma {:induction false} ReadContents(s: Section, level: nat, more: seq<string>, finish: bool)
    requires Good(s) && more != []
    ensures Read(Save(s, level) + more, EMPTY, finish) == Read(more, s, finish)
    decreases s, 0
  {
    var subLines, pairLines := SaveSubs(s.subs, level), PairLines(s.keys, level);
    var head := if s.subs == [] then [] else [CommentLine(level, " subsections:")];
    var mid := if s.keys == [] then [] else [CommentLine(level, " key-value-pairs:")];
    var withSubs := Section(s.subs, []);
    FourParts(head, subLines, mid, pairLines, more);
    ReadOptionalComment(s.subs != [], level, " subsections:", subLines + (mid + (pairLines + more)), EMPTY, finish);
    ReadSubs(s.subs, level, mid + (pairLines + more), EMPTY, finish);
    NothingBefore(s);
    ReadOptionalComment(s.keys != [], level, " key-value-pairs:", pairLines + more, withSubs, finish);
    OrderedPairsFollow([], s.keys);
    ReadPairs(s.keys, level, more, withSubs, finish);
  }

  lemma FourParts(a: seq<string>, b: seq<string>, c: seq<string>, d: seq<string>, more: seq<string>)
    ensures (a + b + c + d) + more == a + (b + (c + (d + more)))
  {
  }

  lemma NothingBefore(s: Section)
    ensures EMPTY.subs + s.subs == s.subs && EMPTY.keys + s.keys == s.keys
  {
  }

  lemma ReadOptionalComment(there: bool, level: nat, text: string, more: seq<string>, s: Section, finish: bool)
    ensures Read((if there then [CommentLine(level, text)] else []) + more, s, finish) == Read(more, s, finish)
  {
    if there {
      ReadComment(level, text, more, s, finish);
    } else {
      assert [] + more == more;
    }
  }

  lemma {:induction false} ReadClosed(s: Section, level: nat, endLevel: nat, name: string, tail: seq<string>)
    requires Good(s) && GoodName(name)
    ensures Read(Save(s, level) + ([EndLine(endLevel, name)] + tail), EMPTY, true) == Done(s, tail)
    decreases s, 1
  {
    ReadContents(s, level, [EndLine(endLevel, name)] + tail, true);
    ReadEnd(endLevel, name, tail, s, true);
  }

  lemma ReadPairsToEnd(front: seq<Pair>, last: Pair, level: nat, s: Section, finish: bool)
    requires PairsFollow(s.keys, front) && GoodLastPair(last) && KeysBelow(s.keys + front, last.key)
    ensures Read(PairLines(front, level) + [PairLine(level, last)], s, finish)
         == AtEnd(s.(keys := s.keys + front + [last]), finish)
  {
    ReadPairs(front, level, [PairLine(level, last)], s, finish);
    ReadLastPair(level, last, s.(keys := s.keys + front), finish);
  }

  lemma {:induction false} PairLinesLast(keys: seq<Pair>, level: nat)
    requires keys != []
    ensures PairLines(keys, level) == PairLines(keys[..|keys| - 1], level) + [PairLine(level, keys[|keys| - 1])]
  {
    if |keys| > 1 {
      PairLinesLast(keys[1..], level);
      assert keys[..|keys| - 1][1..] == keys[1..][..|keys| - 2];
    }
  }

  /** The lines of a file that survives, read to their end. */
  lemma ReadToEnd(s: Section, level: nat, finish: bool)
    requires GoodFile(s)
    ensures Read(Save(s, level), EMPTY, finish) == AtEnd(s, finish)
  {
    var subLines, pairLines := SaveSubs(s.subs, level), PairLines(s.keys, level);
    var head := if s.subs == [] then [] else [CommentLine(level, " subsections:")];
    var mid := if s.keys == [] then [] else [CommentLine(level, " key-value-pairs:")];
    var withSubs := Section(s.subs, []);
    assert Save(s, level) == head + (subLines + (mid + pairLines)) by {
      FourParts(head, subLines, mid, pairLines, []);
      assert Save(s, level) + [] == Save(s, level) && pairLines + [] == pairLines;
    }
    ReadOptionalComment(s.subs != [], level, " subsections:", subLines + (mid + pairLines), EMPTY, finish);
    ReadSubs(s.subs, level, mid + pairLines, EMPTY, finish);
    NothingBefore(s);
    ReadOptionalComment(s.keys != [], level, " key-value-pairs:", pairLines, withSubs, finish);
    ReadKeysToEnd(s, level, finish);
  }

  lemma FrontFollows(keys: seq<Pair>)
    requires keys != [] && Sorted(keys) && forall i :: 0 <= i < |keys| - 1 ==> GoodPair(keys[i])
    ensures var front, last := keys[..|keys| - 1], keys[|keys| - 1];
      PairsFollow([], front) && KeysBelow([] + front, last.key) && [] + front + [last] == keys
  {
    OrderedPairsFollow([], keys[..|keys| - 1]);
  }

  lemma ReadKeysToEnd(s: Section, level: nat, finish: bool)
    requires GoodFile(s)
    ensures Read(PairLines(s.keys, level), Section(s.subs, []), finish) == AtEnd(s, finish)
  {
    var withSubs := Section(s.subs, []);
    if s.keys == [] {
      ReadNothing(withSubs, finish);
    } else {
      FrontFollows(s.keys);
      PairLinesLast(s.keys, level);
      ReadPairsToEnd(s.keys[..|s.keys| - 1], s.keys[|s.keys| - 1], level, withSubs, finish);
    }
  }

  lemma ReadNothing(s: Section, finish: bool)
    ensures Read([], s, finish) == AtEnd(s, finish)
  {
    assert NextLine([]) == ("", []) && !IsEnd("");
  }

  /** The comment lines that `QConfigDB::save` puts first. */
  function Header(texts: seq<string>): seq<string> {
    if texts == [] then [] else [CommentLine(0, texts[0])] + Header(texts[1..])
  }

  lemma {:induction false} ReadHeader(texts: seq<string>, more: seq<string>)
    ensures Read(Header(texts) + more, EMPTY, false) == Read(more, EMPTY, false)
  {
    if texts == [] {
      assert [] + more == more;
    } else {
      ReadHeader(texts[1..], more);
      assert Header(texts) + more == [CommentLine(0, texts[0])] + (Header(texts[1..]) + more);
      ReadComment(0, texts[0], Header(texts[1..]) + more, EMPTY, false);
    }
  }

  // ---------- What any read gives ----------

  lemma {:induction false} InsertSorted(m: seq<Pair>, p: Pair)
    requires Sorted(m)
    ensures Sorted(InsertKey(m, p)) && |InsertKey(m, p)| <= |m| + 1
    ensures forall q :: q in InsertKey(m, p) ==> q in m || q == p
  {
    if m != [] && m[0].key != p.key {
      LessTotal(m[0].key, p.key);
      if Less(p.key, m[0].key) {
        forall j | 0 <= j < |m|
          ensures Less(p.key, m[j].key)
        {
          if j > 0 { LessTransitive(p.key, m[0].key, m[j].key); }
        }
      } else {
        InsertSorted(m[1..], p);
        var rest := InsertKey(m[1..], p);
        forall j | 0 <= j < |rest|
          ensures Less(m[0].key, rest[j].key)
        {
          assert rest[j] in m[1..] || rest[j] == p;
        }
      }
    }
  }

  /** How many pairs a section holds, at all depths. */
  function Size(s: Section): nat
    decreases s, 1
  {
    SizeSubs(s.subs) + |s.keys|
  }

  function SizeSubs(subs: seq<Sub>): nat
    decreases subs, 0
  {
    if subs == [] then 0 else Size(subs[0].section) + SizeSubs(subs[1..])
  }

  lemma {:induction false} LookupBefore(m: seq<Sub>, name: string)
    requires forall j :: 0 <= j < |m| ==> Less(name, m[j].name)
    ensures Lookup(m, name) == EMPTY
  {
    if m != [] {
      LessTotal(name, name);
      LookupBefore(m[1..], name);
    }
  }

  lemma LessThanAll(m: seq<Sub>, name: string, ok: Pair -> bool)
    requires m != [] && FormedSubs(m, ok) && Less(name, m[0].name)
    ensures forall j :: 0 <= j < |m| ==> Less(name, m[j].name)
  {
    forall j | 1 <= j < |m|
      ensures Less(name, m[j].name)
    {
      LessTransitive(name, m[0].name, m[j].name);
    }
  }

  lemma {:induction false} LookupFormed(m: seq<Sub>, name: string, ok: Pair -> bool)
    requires FormedSubs(m, ok)
    ensures Formed(Lookup(m, name), ok)
  {
    if m != [] && m[0].name != name { LookupFormed(m[1..], name, ok); }
  }

  /** Storing a subsection keeps the order, and the number of pairs grows by what it grew. */
  lemma {:induction false} PutFormed(m: seq<Sub>, name: string, s: Section, ok: Pair -> bool)
    requires FormedSubs(m, ok) && GoodName(name) && Formed(s, ok)
    ensures FormedSubs(Put(m, name, s), ok)
    ensures forall q :: q in Put(m, name, s) ==> q.name == name || q in m
    ensures SizeSubs(Put(m, name, s)) + Size(Lookup(m, name)) == SizeSubs(m) + Size(s)
  {
    if m == [] {
      assert [Sub(name, s)][1..] == [];
    } else if m[0].name == name {
      assert ([Sub(name, s)] + m[1..])[1..] == m[1..];
    } else if Less(name, m[0].name) {
      LessThanAll(m, name, ok);
      LookupBefore(m, name);
      assert ([Sub(name, s)] + m)[1..] == m;
    } else {
      LessTotal(name, m[0].name);
      PutFormed(m[1..], name, s, ok);
      var rest := Put(m[1..], name, s);
      assert ([m[0]] + rest)[1..] == rest;
      forall j | 0 <= j < |rest|
        ensures Less(m[0].name, rest[j].name)
      {
        assert rest[j].name == name || rest[j] in m[1..];
      }
    }
  }

  /** A line that the reader takes for a pair; the last line is not checked for a section start. */
  ghost predicate Takes(line: string, last: bool) {
    !IsComment(line) && !IsEnd(line) && (last || !IsBegin(line)) && ParsePair(line).Entry?
  }

  ghost function One(hit: bool): nat { if hit then 1 else 0 }

  /** How many of the lines can be taken for pairs; `more` says whether others follow. */
  ghost function Taken(lines: seq<string>, more: bool): nat {
    if lines == [] then 0
    else One(Takes(lines[0], |lines| == 1 && !more)) + Taken(lines[1..], more)
  }

  lemma {:induction false} TakenNext(lines: seq<string>)
    ensures var (line, rest) := NextLine(lines);
      && Taken(lines, false) == One(line != "" && Takes(line, rest == [])) + Taken(rest, false)
      && (line != "" ==> !IsComment(line) && line in lines)
      && (forall l :: l in rest ==> l in lines)
    decreases |lines|
  {
    if lines != [] && lines[0] != "" && IsComment(lines[0]) { TakenNext(lines[1..]); }
  }

  /** Every pair that the lines can be taken for is `ok`. */
  ghost predicate AllOk(lines: seq<string>, ok: Pair -> bool) {
    forall l :: l in lines ==> PairOk(l, ok)
  }

  ghost predicate PairOk(line: string, ok: Pair -> bool) {
    ParsePair(line).Entry? ==> ok(ParsePair(line).pair)
  }

  lemma TakePairFormed(s: Section, line: string, ok: Pair -> bool)
    requires Formed(s, ok) && PairOk(line, ok)
    ensures Formed(TakePair(s, line), ok)
    ensures Size(TakePair(s, line)) <= Size(s) + One(ParsePair(line).Entry?)
  {
    if ParsePair(line).Entry? {
      var p := ParsePair(line).pair;
      var keys := InsertKey(s.keys, p);
      InsertSorted(s.keys, p);
      forall i | 0 <= i < |keys|
        ensures ok(keys[i])
      {
        assert keys[i] in s.keys || keys[i] == p;
      }
    }
  }

  lemma StoreFormed(s: Section, name: string, sub: Section, ok: Pair -> bool)
    requires Formed(s, ok) && GoodName(name) && Formed(sub, ok)
    ensures Formed(s.(subs := Put(s.subs, name, sub)), ok)
    ensures Size(s.(subs := Put(s.subs, name, sub))) + Size(Lookup(s.subs, name)) == Size(s) + Size(sub)
  {
    PutFormed(s.subs, name, sub, ok);
  }

  /** The outcome is formed and has at most `most` pairs, those to come included. */
  ghost predicate ReadsFormed(o: Outcome, lines: seq<string>, most: nat, ok: Pair -> bool) {
    match o
    case Undefined => true
    case MissingEnd(section) => Formed(section, ok) && Size(section) <= most
    case Done(section, rest) =>
      && Formed(section, ok) && Size(section) + Taken(rest, false) <= most
      && (forall l :: l in rest ==> l in lines)
  }

  /** Whatever the lines, a read gives a formed section, and no more pairs than there are lines that
      can be taken for pairs. */
  lemma {:induction false} ReadFormed(lines: seq<string>, s: Section, finish: bool, ok: Pair -> bool)
    requires Formed(s, ok) && AllOk(lines, ok)
    ensures ReadsFormed(Read(lines, s, finish), lines, Size(s) + Taken(lines, false), ok)
    decreases |lines|, 0
  {
    NextLineShrinks(lines);
    TakenNext(lines);
    var (line, rest) := NextLine(lines);
    if IsEnd(line) {
    } else if rest == [] {
      if line != "" { TakePairFormed(s, line, ok); }
    } else if IsBegin(line) {
      if NameOf(line) != "" { ReadSubFormed(lines, line, rest, s, finish, ok); }
    } else {
      if line != "" { assert PairOk(line, ok); }
      TakePairFormed(s, line, ok);
      ReadFormed(rest, TakePair(s, line), finish, ok);
    }
  }

  /** The same when the next line starts a subsection. */
  lemma {:induction false} ReadSubFormed(lines: seq<string>, line: string, rest: seq<string>, s: Section,
                                         finish: bool, ok: Pair -> bool)
    requires Formed(s, ok) && AllOk(rest, ok)
    requires NextLine(lines) == (line, rest) && |rest| < |lines| && forall l :: l in rest ==> l in lines
    requires rest != [] && IsBegin(line) && !IsEnd(line) && NameOf(line) != ""
    ensures ReadsFormed(Read(lines, s, finish), lines, Size(s) + Taken(rest, false), ok)
    decreases |rest|, 1
  {
    var name := NameOf(line);
    NameReadIsGood(line);
    LookupFormed(s.subs, name, ok);
    ReadFormed(rest, Lookup(s.subs, name), true, ok);
    var inner := Read(rest, Lookup(s.subs, name), true);
    if !inner.Undefined? {
      StoreFormed(s, name, inner.section, ok);
      if inner.Done? {
        ReadFormed(inner.rest, s.(subs := Put(s.subs, name, inner.section)), finish, ok);
      }
    }
  }

  // ---------- Repeated keys and sections ----------

  function ValueOf(m: seq<Pair>, key: string): Maybe<string> {
    if m == [] then Nothing else if m[0].key == key then Just(m[0].value) else ValueOf(m[1..], key)
  }

  lemma {:induction false} NoValueBelow(m: seq<Pair>, key: string)
    requires forall i :: 0 <= i < |m| ==> Less(key, m[i].key)
    ensures ValueOf(m, key) == Nothing
  {
    if m != [] {
      LessTotal(key, key);
      NoValueBelow(m[1..], key);
    }
  }

  /** The first value of a key stays, and no other key is touched. */
  lemma {:induction false} FirstValueStays(m: seq<Pair>, p: Pair, key: string)
    requires Sorted(m)
    ensures ValueOf(InsertKey(m, p), key)
         == if key == p.key && ValueOf(m, key).Nothing? then Just(p.value) else ValueOf(m, key)
  {
    if m == [] {
      assert [p][1..] == [];
    } else if m[0].key != p.key {
      LessTotal(m[0].key, p.key);
      if Less(p.key, m[0].key) {
        assert ([p] + m)[1..] == m;
        forall i | 0 <= i < |m|
          ensures Less(p.key, m[i].key)
        {
          if i > 0 { LessTransitive(p.key, m[0].key, m[i].key); }
        }
        NoValueBelow(m, p.key);
      } else {
        assert ([m[0]] + InsertKey(m[1..], p))[1..] == InsertKey(m[1..], p);
        FirstValueStays(m[1..], p, key);
      }
    }
  }

  /** A stored subsection is found under its name, and the others are as they were. */
  lemma {:induction false} PutThenLookup(m: seq<Sub>, name: string, s: Section, n: string, ok: Pair -> bool)
    requires FormedSubs(m, ok)
    ensures Lookup(Put(m, name, s), n) == if n == name then s else Lookup(m, n)
  {
    if m == [] {
      assert [Sub(name, s)][1..] == [];
    } else if m[0].name == name {
      assert ([Sub(name, s)] + m[1..])[1..] == m[1..];
    } else if Less(name, m[0].name) {
      assert ([Sub(name, s)] + m)[1..] == m;
    } else {
      assert ([m[0]] + Put(m[1..], name, s))[1..] == Put(m[1..], name, s);
      PutThenLookup(m[1..], name, s, n, ok);
    }
  }

  /** What a second value for the key, or a first one, makes of a section. */
  ghost predicate PairAdded(c: Section, p: Pair, c': Section) {
    && c'.subs == c.subs
    && forall key :: ValueOf(c'.keys, key)
         == if key == p.key && ValueOf(c.keys, key).Nothing? then Just(p.value) else ValueOf(c.keys, key)
  }

  /** Reading a pair adds it, unless its key is there already. */
  lemma ReadAddsPair(level: nat, p: Pair, more: seq<string>, s: Section, finish: bool) returns (s': Section)
    requires GoodPair(p) && more != [] && Sorted(s.keys)
    ensures Read([PairLine(level, p)] + more, s, finish) == Read(more, s', finish) && PairAdded(s, p, s')
  {
    PairRecognised(level, p);
    assert ([PairLine(level, p)] + more)[1..] == more;
    s' := s.(keys := InsertKey(s.keys, p));
    forall key { FirstValueStays(s.keys, p, key); }
  }

  /** A section that is met again goes on with what it holds. */
  lemma ReadReopens(level: nat, name: string, p: Pair, more: seq<string>, s: Section, finish: bool, ok: Pair -> bool)
      returns (s': Section)
    requires GoodName(name) && GoodPair(p) && Formed(s, ok)
    ensures Read([BeginLine(level, name)] + ([PairLine(level + 1, p)] + ([EndLine(level, name)] + more)), s, finish)
         == Read(more, s', finish)
    ensures s'.keys == s.keys && PairAdded(Lookup(s.subs, name), p, Lookup(s'.subs, name))
    ensures forall n :: n != name ==> Lookup(s'.subs, n) == Lookup(s.subs, n)
  {
    var c := Lookup(s.subs, name);
    var end := [EndLine(level, name)] + more;
    LookupFormed(s.subs, name, ok);
    var c' := ReadAddsPair(level + 1, p, end, c, true);
    ReadEnd(level, name, more, c', true);
    s' := s.(subs := Put(s.subs, name, c'));
    ReadInto(level, name, [PairLine(level + 1, p)] + end, s, finish, c', more);
    forall n { PutThenLookup(s.subs, name, c', n, ok); }
  }

  // ---------- Which files survive ----------

  lemma {:induction false} TakenConcat(a: seq<string>, b: seq<string>, more: bool)
    ensures Taken(a + b, more) == Taken(a, more || b != []) + Taken(b, more)
  {
    if a == [] {
      assert a + b == b;
    } else {
      assert (a + b)[1..] == a[1..] + b;
      TakenConcat(a[1..], b, more);
    }
  }

  lemma OneTaken(line: string, more: bool)
    ensures Taken([line], more) == One(Takes(line, !more))
  {
    assert [line][1..] == [];
  }

  /** Every pair whose line is not taken is missing. */
  lemma {:induction false} PairsTaken(keys: seq<Pair>, level: nat)
    requires forall i :: 0 <= i < |keys| ==> PlainPair(keys[i])
    ensures Taken(PairLines(keys, level), true) <= |keys|
    ensures Taken(PairLines(keys, level), true) == |keys| ==> forall i :: 0 <= i < |keys| ==> GoodPair(keys[i])
  {
    if keys != [] {
      PairRecognised(level, keys[0]);
      TakenConcat([PairLine(level, keys[0])], PairLines(keys[1..], level), true);
      OneTaken(PairLine(level, keys[0]), true);
      PairsTaken(keys[1..], level);
    }
  }

  lemma CommentNotTaken(there: bool, level: nat, text: string, more: bool)
    ensures Taken(if there then [CommentLine(level, text)] else [], more) == 0
  {
    CommentRecognised(level, text);
    OneTaken(CommentLine(level, text), more);
  }

  lemma TakenParts(a: seq<string>, b: seq<string>, c: seq<string>, d: seq<string>)
    ensures Taken(a + b + c + d, true) == Taken(a, true) + Taken(b, true) + Taken(c, true) + Taken(d, true)
  {
    TakenConcat(a + b + c, d, true);
    TakenConcat(a + b, c, true);
    TakenConcat(a, b, true);
  }

  lemma {:induction false} SaveTaken(s: Section, level: nat)
    requires Formed(s, PlainPair)
    ensures Taken(Save(s, level), true) <= Size(s)
    ensures Taken(Save(s, level), true) == Size(s) ==> Good(s)
    decreases s, 1
  {
    var head := if s.subs != [] then [CommentLine(level, " subsections:")] else [];
    var mid := if s.keys != [] then [CommentLine(level, " key-value-pairs:")] else [];
    TakenParts(head, SaveSubs(s.subs, level), mid, PairLines(s.keys, level));
    CommentNotTaken(s.subs != [], level, " subsections:", true);
    CommentNotTaken(s.keys != [], level, " key-value-pairs:", true);
    SubsTaken(s.subs, level, true);
    PairsTaken(s.keys, level);
  }

  lemma {:induction false} SubsTaken(subs: seq<Sub>, level: nat, more: bool)
    requires FormedSubs(subs, PlainPair)
    ensures Taken(SaveSubs(subs, level), more) <= SizeSubs(subs)
    ensures Taken(SaveSubs(subs, level), more) == SizeSubs(subs) ==> GoodSubs(subs)
    decreases subs, 0
  {
    if subs != [] {
      SubTaken(subs, level, more);
      SaveTaken(subs[0].section, level + 1);
      SubsTaken(subs[1..], level, more);
    }
  }

  /** The start and end lines of good names are not taken for pairs. */
  lemma SubTaken(subs: seq<Sub>, level: nat, more: bool)
    requires subs != [] && GoodName(subs[0].name)
    ensures Taken(SaveSubs(subs, level), more)
         == Taken(Save(subs[0].section, level + 1), true) + Taken(SaveSubs(subs[1..], level), more)
  {
    var b, e := BeginLine(level, subs[0].name), EndLine(level, subs[0].name);
    var inner, rest := Save(subs[0].section, level + 1), SaveSubs(subs[1..], level);
    BeginRecognised(level, subs[0].name);
    EndRecognised(level, subs[0].name);
    OneTaken(b, true);
    OneTaken(e, more || rest != []);
    TakenConcat([b] + inner + [e], rest, more);
    TakenConcat([b] + inner, [e], more || rest != []);
    TakenConcat([b], inner, true);
  }

  /** If as many lines of a file can be taken as it has pairs, all its pairs survive. */
  lemma FileTaken(s: Section, level: nat)
    requires Formed(s, PlainPair) && Taken(Save(s, level), false) >= Size(s)
    ensures GoodFile(s)
  {
    var head := if s.subs != [] then [CommentLine(level, " subsections:")] else [];
    var mid := if s.keys != [] then [CommentLine(level, " key-value-pairs:")] else [];
    var subLines, pairLines := SaveSubs(s.subs, level), PairLines(s.keys, level);
    LastTakenParts(head, subLines, mid, pairLines);
    CommentNotTaken(s.subs != [], level, " subsections:", subLines + mid + pairLines != []);
    CommentNotTaken(s.keys != [], level, " key-value-pairs:", pairLines != []);
    SubsTaken(s.subs, level, mid + pairLines != []);
    LastPairsTaken(s.keys, level);
  }

  lemma LastTakenParts(a: seq<string>, b: seq<string>, c: seq<string>, d: seq<string>)
    ensures Taken(a + b + c + d, false)
         == Taken(a, b + c + d != []) + Taken(b, c + d != []) + Taken(c, d != []) + Taken(d, false)
  {
    TakenConcat(a + b + c, d, false);
    TakenConcat(a + b, c, d != []);
    TakenConcat(a, b, c + d != []);
  }

  lemma LastPairsTaken(keys: seq<Pair>, level: nat)
    requires forall i :: 0 <= i < |keys| ==> PlainPair(keys[i])
    ensures Taken(PairLines(keys, level), false) <= |keys|
    ensures Taken(PairLines(keys, level), false) == |keys| ==>
      (forall i :: 0 <= i < |keys| - 1 ==> GoodPair(keys[i])) && (keys != [] ==> GoodLastPair(keys[|keys| - 1]))
  {
    if keys != [] {
      var n := |keys| - 1;
      PairsTaken(keys[..n], level);
      LastTaken(keys[n], level);
      assert Taken(PairLines(keys, level), false)
          == Taken(PairLines(keys[..n], level), true) + Taken([PairLine(level, keys[n])], false) by {
        PairLinesLast(keys, level);
        TakenConcat(PairLines(keys[..n], level), [PairLine(level, keys[n])], false);
      }
    }
  }

  lemma LastTaken(p: Pair, level: nat)
    requires PlainPair(p)
    ensures Taken([PairLine(level, p)], false) == One(GoodLastPair(p))
  {
    OneTaken(PairLine(level, p), false);
    PairRecognised(level, p);
  }

  lemma AllPlain(lines: seq<string>)
    ensures AllOk(lines, PlainPair)
  {
    forall l | l in lines
      ensures PairOk(l, PlainPair)
    {
      ParsedIsPlain(l);
    }
  }

  /** The lines written for a whole tree give that tree back if and only if it is a good file:
      whatever else the reader makes of the lines, it is not the tree. */
  lemma ReadIff(s: Section, level: nat, finish: bool)
    ensures var o := Read(Save(s, level), EMPTY, finish);
      !o.Undefined? && o.section == s <==> GoodFile(s)
    ensures GoodFile(s) ==> Read(Save(s, level), EMPTY, finish) == AtEnd(s, finish)
  {
    if GoodFile(s) { ReadToEnd(s, level, finish); }
    var o := Read(Save(s, level), EMPTY, finish);
    if !o.Undefined? && o.section == s {
      AllPlain(Save(s, level));
      ReadFormed(Save(s, level), EMPTY, finish, PlainPair);
      FileTaken(s, level);
    }
  }

  /** A nested section is read back, up to exactly its own end line, if and only if it is good. */
  lemma ReadClosedIff(s: Section, level: nat, endLevel: nat, name: string, tail: seq<string>)
    requires GoodName(name)
    ensures Read(Save(s, level) + ([EndLine(endLevel, name)] + tail), EMPTY, true) == Done(s, tail) <==> Good(s)
  {
    var end := [EndLine(endLevel, name)] + tail;
    var lines := Save(s, level) + end;
    if Good(s) { ReadClosed(s, level, endLevel, name, tail); }
    if Read(lines, EMPTY, true) == Done(s, tail) {
      AllPlain(lines);
      ReadFormed(lines, EMPTY, true, PlainPair);
      EndRecognised(endLevel, name);
      OneTaken(EndLine(endLevel, name), tail != []);
      TakenConcat([EndLine(endLevel, name)], tail, false);
      TakenConcat(Save(s, level), end, false);
      SaveTaken(s, level);
    }
  }

  /** A section whose end line is missing at the end of the file is reported, and everything that was
      there has been read if and only if it would be as a whole file. */
  lemma ReadUnclosed(s: Section, level: nat)
    ensures Read(Save(s, level), EMPTY, true) == MissingEnd(s) <==> GoodFile(s)
  {
    ReadIff(s, level, true);
  }

  /** Reading the lines of a file, comment lines on top, restores exactly the tree if and only if the
      tree is a good file. */
  lemma RoundTripIff(s: Section, header: seq<string>)
    ensures Read(Header(header) + Save(s, 0), EMPTY, false) == Done(s, []) <==> GoodFile(s)
    ensures var o := Read(Header(header) + Save(s, 0), EMPTY, false);
      !o.Undefined? && o.section == s ==> GoodFile(s)
  {
    ReadHeader(header, Save(s, 0));
    ReadIff(s, 0, false);
  }

  /** For instance, a section called `WEEKEND` is not read back. */
  lemma WeekendIsLost()
    ensures
      var s := Section([Sub("WEEKEND", EMPTY)], []);
      Read(Save(s, 0), EMPTY, false) != Done(s, [])
  {
    OccursChars("WEEKEND", 4);
    assert OccursAt("WEEKEND", "END", 4);
    ReadIff(Section([Sub("WEEKEND", EMPTY)], []), 0, false);
  }

  /** And a pair that looks like the start of a section is read back at the end of a file, but not
      when another one follows. */
  lemma BracketPairIsLost()
    ensures
      var s := Section([], [Pair("[a", "b]")]);
      Read(Save(s, 0), EMPTY, false) == Done(s, [])
    ensures
      var s := Section([], [Pair("[a", "b]"), Pair("c", "d")]);
      Read(Save(s, 0), EMPTY, false) != Done(s, [])
  {
    var p := Pair("[a", "b]");
    BracketPairIsBegin(p);
    ReadIff(Section([], [p]), 0, false);
    var s := Section([], [p, Pair("c", "d")]);
    assert s.keys[0] == p && !GoodPair(s.keys[0]);
    ReadIff(s, 0, false);
  }

  lemma BracketPairIsBegin(p: Pair)
    requires p == Pair("[a", "b]")
    ensures GoodLastPair(p) && !GoodPair(p)
  {
    BracketWord("[a=b]");
    SimplifyWord(0, "[a=b]");
    assert PairLine(0, p) == Indent(0) + "[a=b]";
  }

  lemma BracketWord(t: string)
    requires t == "[a=b]"
    ensures Bracketed(t) && Word(t) != "END" && !Contains(t, "END")
  {
    forall i | 0 <= i <= |t|
      ensures !OccursAt(t, "END", i)
    {
      OccursChars(t, i);
    }
    assert WordStart(t, 1) == 1;
    WordEndAt(t, 1, 3);
    assert t[1..4][0] == 'a';
  }
}
