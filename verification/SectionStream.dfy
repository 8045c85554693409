/** Sections as text on a stream: the imperative reader and writer of a configuration file, and
    the round trip over the whole file. */
module SectionStream {
  import opened Text
  import opened StringCodec
  import opened SectionLines
  import opened SectionTree

  // ---------- Lines and text ----------

  /** What is written for some lines: each is followed by a line break. */
  function Join(lines: seq<string>): string {
    if lines == [] then "" else lines[0] + "\n" + Join(lines[1..])
  }

  /** What reading line by line gives: a final break starts no further line. */
  function Split(text: string): seq<string>
    decreases |text|
  {
    if text == "" then []
    else
      var i := Find(text, '\n', 0);
      if i == -1 then [text] else [text[..i]] + Split(text[i + 1..])
  }

  lemma {:induction false} JoinAppend(a: seq<string>, b: seq<string>)
    ensures Join(a + b) == Join(a) + Join(b)
  {
    if a == [] {
      assert a + b == b;
    } else {
      assert (a + b)[1..] == a[1..] + b;
      JoinAppend(a[1..], b);
    }
  }

  ghost predicate OneLine(line: string) {
    '\n' !in line
  }

  ghost predicate AllOneLine(lines: seq<string>) {
    forall i :: 0 <= i < |lines| ==> OneLine(lines[i])
  }

  /** Splitting undoes joining. */
  lemma {:induction false} SplitJoined(lines: seq<string>)
    requires AllOneLine(lines)
    ensures Split(Join(lines)) == lines
  {
    if lines != [] {
      var text := Join(lines);
      var n := |lines[0]|;
      assert OneLine(lines[0]);
      assert text[n] == '\n' && forall k :: 0 <= k < n ==> text[k] == lines[0][k];
      assert Find(text, '\n', 0) == n;
      assert text[..n] == lines[0] && text[n + 1..] == Join(lines[1..]);
      SplitJoined(lines[1..]);
    }
  }

  // ---------- The writer's lines have no breaks inside ----------

  lemma IndentOneLine(level: nat, line: string)
    requires OneLine(line)
    ensures OneLine(Indent(level) + line)
  {
  }

  ghost predicate OneLinePair(p: Pair) {
    OneLine(p.key) && OneLine(p.value)
  }

  lemma {:induction false} PairLinesOneLine(keys: seq<Pair>, level: nat)
    requires forall i :: 0 <= i < |keys| ==> OneLinePair(keys[i])
    ensures AllOneLine(PairLines(keys, level))
  {
    if keys != [] {
      assert OneLinePair(keys[0]);
      IndentOneLine(level, keys[0].key + "=" + keys[0].value);
      PairLinesOneLine(keys[1..], level);
    }
  }

  lemma NamesOneLine(level: nat, name: string)
    requires GoodName(name)
    ensures OneLine(BeginLine(level, name)) && OneLine(EndLine(level, name))
  {
    IndentOneLine(level, "[" + name + "]");
    IndentOneLine(level, "[END" + " " + (name + "]"));
  }

  lemma {:induction false} SaveOneLine(s: Section, level: nat)
    requires Formed(s, OneLinePair)
    ensures AllOneLine(Save(s, level))
    decreases s, 1
  {
    SubsOneLine(s.subs, level);
    PairLinesOneLine(s.keys, level);
    IndentOneLine(level, "# subsections:");
    IndentOneLine(level, "# key-value-pairs:");
    assert "#" + " subsections:" == "# subsections:" && "#" + " key-value-pairs:" == "# key-value-pairs:";
  }

  lemma {:induction false} SubsOneLine(subs: seq<Sub>, level: nat)
    requires FormedSubs(subs, OneLinePair)
    ensures AllOneLine(SaveSubs(subs, level))
    decreases subs, 0
  {
    if subs != [] {
      NamesOneLine(level, subs[0].name);
      SaveOneLine(subs[0].section, level + 1);
      SubsOneLine(subs[1..], level);
    }
  }

  lemma {:induction false} HeaderOneLine(texts: seq<string>)
    requires AllOneLine(texts)
    ensures AllOneLine(Header(texts))
  {
    if texts != [] {
      assert OneLine(texts[0]);
      IndentOneLine(0, "#" + texts[0]);
      HeaderOneLine(texts[1..]);
    }
  }

  /** The text of a file: its comment lines and its tree. */
  function FileText(header: seq<string>, s: Section): string {
    Join(Header(header) + Save(s, 0))
  }

  lemma {:induction false} SplitOneLine(text: string)
    ensures AllOneLine(Split(text))
    decreases |text|
  {
    if text != "" {
      var i := Find(text, '\n', 0);
      if i != -1 {
        assert OneLine(text[..i]);
        SplitOneLine(text[i + 1..]);
      }
    }
  }

  lemma {:induction false} GraphOnlyWithin(s: string)
    requires OneLine(s)
    ensures OneLine(GraphOnly(s))
  {
    GraphOnlyChars(s);
  }

  lemma LinesGiveOneLine(lines: seq<string>)
    requires AllOneLine(lines)
    ensures AllOk(lines, OneLinePair)
  {
    forall l | l in lines
      ensures PairOk(l, OneLinePair)
    {
      assert OneLine(l);
      var i := Find(l, '=', 0);
      if i != -1 { GraphOnlyWithin(l[..i]); }
    }
  }

  /** The files whose text gives them back: no key or value holds a line break, either. */
  ghost predicate Survives(s: Section) {
    GoodFile(s) && Formed(s, OneLinePair)
  }

  lemma TextIsLines(header: seq<string>, s: Section)
    requires AllOneLine(header) && Formed(s, OneLinePair)
    ensures Split(FileText(header, s)) == Header(header) + Save(s, 0)
  {
    HeaderOneLine(header);
    SaveOneLine(s, 0);
    SplitJoined(Header(header) + Save(s, 0));
  }

  /** Reading the text of a file restores exactly the tree that was saved, if and only if the tree
      survives; and a read that ends with that tree has read everything. */
  lemma TextRoundTripIff(header: seq<string>, s: Section)
    requires AllOneLine(header)
    ensures Read(Split(FileText(header, s)), EMPTY, false) == Done(s, []) <==> Survives(s)
    ensures var o := Read(Split(FileText(header, s)), EMPTY, false);
      !o.Undefined? && o.section == s ==> Survives(s)
  {
    var lines := Split(FileText(header, s));
    var o := Read(lines, EMPTY, false);
    if !o.Undefined? && o.section == s {
      SplitOneLine(FileText(header, s));
      LinesGiveOneLine(lines);
      ReadFormed(lines, EMPTY, false, OneLinePair);
    }
    if Formed(s, OneLinePair) {
      TextIsLines(header, s);
      RoundTripIff(s, header);
    }
  }

  /** Two trees that survive and have the same text are the same tree. */
  lemma TextInjective(header: seq<string>, s: Section, t: Section)
    requires Survives(s) && Survives(t) && AllOneLine(header)
    ensures FileText(header, s) == FileText(header, t) ==> s == t
  {
    TextRoundTripIff(header, s);
    TextRoundTripIff(header, t);
  }

  // ---------- The stream ----------

  class TextStream {
    /** What is still to be read, or what has been written. */
    var text: string

    constructor (contents: string)
      ensures text == contents
    {
      text := contents;
    }

    method WriteLine(line: string)
      modifies this
      ensures text == old(text) + Join([line])
    {
      assert Join([line]) == line + "\n";
      text := text + line + "\n";
    }

    method ReadLine() returns (line: string)
      requires text != ""
      modifies this
      ensures Split(old(text)) == [line] + Split(text)
      ensures |text| < |old(text)|
    {
      var i := Find(text, '\n', 0);
      if i == -1 {
        line, text := text, "";
      } else {
        line, text := text[..i], text[i + 1..];
      }
    }

    /** The next line that is no comment; empty at the end of the stream. */
    method ReadLineFromStream() returns (line: string)
      modifies this
      ensures (line, Split(text)) == NextLine(Split(old(text)))
      ensures old(text) != "" ==> |text| < |old(text)|
      ensures old(text) == "" ==> text == ""
    {
      line := "";
      while text != ""
        invariant line == ""
        invariant NextLine(Split(text)) == NextLine(Split(old(text)))
        invariant |text| <= |old(text)|
        decreases |text|
      {
        ghost var before := Split(text);
        line := ReadLine();
        assert before[0] == line && before[1..] == Split(text);
        if line != "" && IsComment(line) {
          line := "";
          continue;
        }
        return;
      }
    }
  }

  // ---------- Reading ----------

  /** Strip what is no visible character from a key, last character first. */
  method CleanKey(raw: string) returns (key: string)
    ensures key == GraphOnly(raw)
  {
    key := raw;
    var index := |key| - 1;
    assert raw[..|raw|] == raw;
    while index > -1
      invariant -1 <= index < |key| && index < |raw|
      invariant key == raw[..index + 1] + GraphOnly(raw[index + 1..])
    {
      ghost var tail := GraphOnly(raw[index + 1..]);
      assert key[index] == raw[index] && key[..index] == raw[..index] && key[index + 1..] == tail;
      assert raw[index..][1..] == raw[index + 1..];
      if !IsGraph(key[index]) {
        key := key[..index] + key[index + 1..];
      } else {
        assert key == raw[..index] + ([raw[index]] + tail);
      }
      index := index - 1;
    }
    assert raw[0..] == raw;
  }

  /** `insertLine` on the pairs of a section. */
  method InsertLine(s: Section, line: string) returns (s': Section)
    ensures s' == TakePair(s, line)
  {
    var index := Find(line, '=', 0);
    if index == -1 {
      return s;
    }
    var key := CleanKey(line[..index]);
    var value := line[index + 1..];
    s' := if key != "" then s.(keys := InsertKey(s.keys, Pair(key, value))) else s;
  }

  /** The first word inside the brackets, by the two scanning loops. */
  method ScanWord(t: string) returns (word: string)
    requires Bracketed(t)
    ensures word == Word(t)
  {
    var first := 1;
    while t[first] == ' '
      invariant 1 <= first < |t| && WordStart(t, first) == WordStart(t, 1)
      decreases |t| - first
    {
      first := first + 1;
    }
    var second := first;
    while t[second] != ' ' && t[second] != ']'
      invariant first <= second < |t| && WordEnd(t, second) == WordEnd(t, first)
      decreases |t| - second
    {
      second := second + 1;
    }
    word := t[first..second];
  }

  method IsEndOfSection(line: string) returns (yes: bool)
    ensures yes == IsEnd(line)
  {
    var t := Simplify(line);
    if |t| < 2 || t[0] != '[' || t[|t| - 1] != ']' {
      return false;
    }
    var word := ScanWord(t);
    yes := word == "END";
  }

  method NameOfSection(line: string) returns (name: string)
    ensures name == NameOf(line)
  {
    var t := Simplify(line);
    if |t| <= 2 || t[0] != '[' || t[|t| - 1] != ']' {
      return "";
    }
    name := ScanWord(t);
    if name == "END" {
      name := "";
    }
  }

  datatype Status = Complete | NoEnd | NoName

  /** What a read that left `s`, `status` and `text` says about the outcome of the model. */
  ghost predicate Reports(o: Outcome, s: Section, status: Status, text: string) {
    match o
    case Done(section, rest) => status == Complete && s == section && Split(text) == rest
    case MissingEnd(section) => status == NoEnd && s == section
    case Undefined => status == NoName
  }

  /** `readSection`: consumes the stream up to the end of this section. */
  method ReadSection(stream: TextStream, start: Section, finish: bool) returns (s: Section, status: Status)
    modifies stream
    ensures Reports(Read(Split(old(stream.text)), start, finish), s, status, stream.text)
    ensures |stream.text| <= old(|stream.text|)
    decreases |stream.text|
  {
    s := start;
    while true
      invariant Read(Split(stream.text), s, finish) == Read(Split(old(stream.text)), start, finish)
      invariant |stream.text| <= old(|stream.text|)
      decreases |stream.text|
    {
      var line := stream.ReadLineFromStream();
      var end := IsEndOfSection(line);
      if end {
        return s, Complete;
      }
      if stream.text == "" {
        if line != "" {
          s := InsertLine(s, line);
        }
        return s, if finish then NoEnd else Complete;
      }
      if IsBegin(line) {
        var name := NameOfSection(line);
        if name == "" {
          return s, NoName;
        }
        var sub, inner := ReadSection(stream, Lookup(s.subs, name), true);
        if inner == NoName {
          return s, NoName;
        }
        s := s.(subs := Put(s.subs, name, sub));
        if inner == NoEnd {
          return s, NoEnd;
        }
      } else {
        s := InsertLine(s, line);
      }
    }
  }

  // ---------- Writing ----------

  /** `KeyValueMap::save`. */
  method SavePairs(stream: TextStream, keys: seq<Pair>, level: nat)
    modifies stream
    ensures stream.text == old(stream.text) + Join(PairLines(keys, level))
  {
    for i := 0 to |keys|
      invariant stream.text + Join(PairLines(keys[i..], level)) == old(stream.text) + Join(PairLines(keys, level))
    {
      assert keys[i..][1..] == keys[i + 1..];
      JoinAppend([PairLine(level, keys[i])], PairLines(keys[i + 1..], level));
      stream.WriteLine(PairLine(level, keys[i]));
    }
  }

  lemma JoinSub(sub: Sub, rest: seq<string>, level: nat)
    ensures Join([BeginLine(level, sub.name)] + Save(sub.section, level + 1) + [EndLine(level, sub.name)] + rest)
         == Join([BeginLine(level, sub.name)]) + Join(Save(sub.section, level + 1))
            + Join([EndLine(level, sub.name)]) + Join(rest)
  {
    var begin, lines, end := [BeginLine(level, sub.name)], Save(sub.section, level + 1), [EndLine(level, sub.name)];
    JoinAppend(begin, lines);
    JoinAppend(begin + lines, end);
    JoinAppend(begin + lines + end, rest);
  }

  /** The text that is left to write for subsections `i` and on. */
  ghost function SubsText(subs: seq<Sub>, i: nat, level: nat): string
    requires i <= |subs|
  {
    Join(SaveSubs(subs[i..], level))
  }

  lemma SubsTextStep(subs: seq<Sub>, i: nat, level: nat)
    requires i < |subs|
    ensures SubsText(subs, i, level)
         == Join([BeginLine(level, subs[i].name)]) + Join(Save(subs[i].section, level + 1))
            + Join([EndLine(level, subs[i].name)]) + SubsText(subs, i + 1, level)
  {
    assert subs[i..][1..] == subs[i + 1..];
    JoinSub(subs[i], SaveSubs(subs[i + 1..], level), level);
  }

  ghost function OptionalComment(there: bool, level: nat, text: string): string {
    if there then Join([CommentLine(level, text)]) else ""
  }

  lemma SaveText(s: Section, level: nat)
    ensures Join(Save(s, level))
         == OptionalComment(s.subs != [], level, " subsections:") + Join(SaveSubs(s.subs, level))
            + OptionalComment(s.keys != [], level, " key-value-pairs:") + Join(PairLines(s.keys, level))
  {
    var head := if s.subs == [] then [] else [CommentLine(level, " subsections:")];
    var mid := if s.keys == [] then [] else [CommentLine(level, " key-value-pairs:")];
    JoinAppend(head, SaveSubs(s.subs, level));
    JoinAppend(head + SaveSubs(s.subs, level), mid);
    JoinAppend(head + SaveSubs(s.subs, level) + mid, PairLines(s.keys, level));
  }

  lemma FourPieces(t0: string, t1: string, t2: string, t3: string, t4: string,
      a: string, b: string, c: string, d: string)
    requires t1 == t0 + a && t2 == t1 + b && t3 == t2 + c && t4 == t3 + d
    ensures t4 == t0 + (a + b + c + d)
  {
  }

  /** `Section::save`. */
  method SaveSection(stream: TextStream, s: Section, level: nat)
    modifies stream
    ensures stream.text == old(stream.text) + Join(Save(s, level))
    decreases s, 1
  {
    ghost var t0 := stream.text;
    if s.subs != [] {
      stream.WriteLine(CommentLine(level, " subsections:"));
    }
    ghost var t1 := stream.text;
    SaveSubsections(stream, s.subs, level);
    ghost var t2 := stream.text;
    if s.keys != [] {
      stream.WriteLine(CommentLine(level, " key-value-pairs:"));
    }
    ghost var t3 := stream.text;
    if s.keys != [] {
      SavePairs(stream, s.keys, level);
    }
    FourPieces(t0, t1, t2, t3, stream.text,
      OptionalComment(s.subs != [], level, " subsections:"), Join(SaveSubs(s.subs, level)),
      OptionalComment(s.keys != [], level, " key-value-pairs:"), Join(PairLines(s.keys, level)));
    SaveText(s, level);
  }

  lemma ThreeThenRest(t: string, a: string, b: string, c: string, rest: string)
    ensures t + (a + b + c + rest) == (t + (a + b + c)) + rest
  {
  }

  method SaveSubsections(stream: TextStream, subs: seq<Sub>, level: nat)
    modifies stream
    ensures stream.text == old(stream.text) + Join(SaveSubs(subs, level))
    decreases subs, 0
  {
    for i := 0 to |subs|
      invariant stream.text + SubsText(subs, i, level) == old(stream.text) + SubsText(subs, 0, level)
    {
      SubsTextStep(subs, i, level);
      ghost var before := stream.text;
      SaveOne(stream, subs, i, level);
      ThreeThenRest(before, Join([BeginLine(level, subs[i].name)]), Join(Save(subs[i].section, level + 1)),
        Join([EndLine(level, subs[i].name)]), SubsText(subs, i + 1, level));
    }
    assert subs[0..] == subs;
  }

  /** The loop body: one subsection between its two lines. */
  method SaveOne(stream: TextStream, subs: seq<Sub>, i: nat, level: nat)
    requires i < |subs|
    modifies stream
    ensures stream.text == old(stream.text) + (Join([BeginLine(level, subs[i].name)])
        + Join(Save(subs[i].section, level + 1)) + Join([EndLine(level, subs[i].name)]))
    decreases subs[i]
  {
    stream.WriteLine(BeginLine(level, subs[i].name));
    SaveSection(stream, subs[i].section, level + 1);
    stream.WriteLine(EndLine(level, subs[i].name));
  }

  /** Saving to an empty stream and reading the stream back restores the tree, if and only if it
      survives. */
  method SaveAndLoad(s: Section, header: seq<string>) returns (t: Section, status: Status)
    requires AllOneLine(header)
    ensures t == s && status == Complete <==> Survives(s)
  {
    var stream := new TextStream("");
    SaveHeader(stream, header);
    SaveSection(stream, s, 0);
    JoinAppend(Header(header), Save(s, 0));
    assert stream.text == FileText(header, s);
    TextRoundTripIff(header, s);
    t, status := ReadSection(stream, EMPTY, false);
  }

  /** The comment lines at the top of a file. */
  method SaveHeader(stream: TextStream, header: seq<string>)
    requires stream.text == ""
    modifies stream
    ensures stream.text == Join(Header(header))
  {
    for i := 0 to |header|
      invariant stream.text + Join(Header(header[i..])) == Join(Header(header))
    {
      HeaderFront(stream.text, header, i);
      stream.WriteLine(CommentLine(0, header[i]));
    }
  }

  lemma HeaderFront(t: string, header: seq<string>, i: nat)
    requires i < |header|
    ensures t + Join(Header(header[i..])) == (t + Join([CommentLine(0, header[i])])) + Join(Header(header[i + 1..]))
  {
  }
}
