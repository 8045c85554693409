/** The quoted form in which the configuration database stores a string, and its parser. */
module StringCodec {
  import opened Text

  datatype Parsed = Failed | Parsed(value: string, length: nat)

  /** How `makeComplexString` writes one character. */
  function EscapeChar(c: char): string {
    if c == '"' then "\\\""
    else if c == '\n' then "\\n"
    else if c == '\t' then "\\t"
    else if c == '\\' then "\\\\"
    else [c]
  }

  function Escape(s: string): string {
    if s == "" then "" else EscapeChar(s[0]) + Escape(s[1..])
  }

  function Quote(s: string): string {
    "\"" + Escape(s) + "\""
  }

  /** What a control character stands for; `\e`, the list delimiter, stands for itself. */
  function Control(c: char): Parsed {
    if c == 't' then Parsed("\t", 2)
    else if c == 'n' then Parsed("\n", 2)
    else if c == '"' then Parsed("\"", 2)
    else if c == 'e' then Parsed("\\e", 2)
    else if c == '\\' then Parsed("\\", 2)
    else Failed
  }

  function Then(first: Parsed, rest: Parsed): Parsed {
    if first.Failed? || rest.Failed? then Failed
    else Parsed(first.value + rest.value, first.length + rest.length)
  }

  /** Parse up to the closing quote; the length counts the characters read, quote included. */
  function ParseBody(t: string): Parsed
    decreases |t|
  {
    if t == "" then Failed
    else if t[0] == '"' then Parsed("", 1)
    else if t[0] != '\\' then Then(Parsed([t[0]], 1), ParseBody(t[1..]))
    else if |t| == 1 then Failed
    else Then(Control(t[1]), ParseBody(t[2..]))
  }

  function StripFront(s: string): string {
    if s != "" && IsSpace(s[0]) then StripFront(s[1..]) else s
  }

  function StripBack(s: string): string {
    if s != "" && IsSpace(s[|s| - 1]) then StripBack(s[..|s| - 1]) else s
  }

  /** `stripWhiteSpace`. */
  function Strip(s: string): string {
    StripBack(StripFront(s))
  }

  /** `parseComplexString` from a position in a text. */
  function Parse(orig: string, index: nat): Parsed
    requires index <= |orig|
  {
    var mod := Strip(orig[index..]);
    if |mod| < 2 || mod[0] != '"' then Failed
    else Then(Parsed("", 1), ParseBody(mod[1..]))
  }

  // ---------- Round trip ----------

  /** `a` parses to `v` in any surroundings: whatever follows is parsed as if `a` were not
      there. */
  ghost predicate Encodes(a: string, v: string) {
    forall t: string :: EncodesBefore(a, v, t)
  }

  ghost predicate EncodesBefore(a: string, v: string, t: string) {
    ParseBody(a + t) == Then(Parsed(v, |a|), ParseBody(t))
  }

  lemma ThenAssociative(a: Parsed, b: Parsed, c: Parsed)
    ensures Then(Then(a, b), c) == Then(a, Then(b, c))
  {
  }

  lemma ThenNothing(p: Parsed)
    ensures Then(Parsed("", 0), p) == p
  {
  }

  lemma EncodesNothing()
    ensures Encodes("", "")
  {
    forall t: string
      ensures EncodesBefore("", "", t)
    {
      assert "" + t == t;
      ThenNothing(ParseBody(t));
    }
  }

  lemma EncodesConcat(a: string, v: string, b: string, w: string)
    requires Encodes(a, v) && Encodes(b, w)
    ensures Encodes(a + b, v + w)
  {
    forall t: string
      ensures EncodesBefore(a + b, v + w, t)
    {
      assert EncodesBefore(a, v, b + t) && EncodesBefore(b, w, t);
      assert (a + b) + t == a + (b + t);
      ThenAssociative(Parsed(v, |a|), Parsed(w, |b|), ParseBody(t));
    }
  }

  lemma EscapeCharEncodes(c: char)
    ensures Encodes(EscapeChar(c), [c])
  {
  }

  lemma {:induction false} EscapeEncodes(s: string)
    ensures Encodes(Escape(s), s)
  {
    if s == "" {
      EncodesNothing();
    } else {
      EscapeCharEncodes(s[0]);
      EscapeEncodes(s[1..]);
      EncodesConcat(EscapeChar(s[0]), [s[0]], Escape(s[1..]), s[1..]);
      assert [s[0]] + s[1..] == s;
    }
  }

  /** The list delimiter parses to itself. */
  lemma DelimiterEncodes()
    ensures Encodes("\\e", "\\e")
  {
  }

  /** Text that encodes `v`, put between quotes and surrounded by white space or followed by
      anything, parses to `v`, and the parser reports the length of the quoted form. */
  lemma QuotedParses(a: string, v: string, tail: string)
    requires Encodes(a, v)
    requires tail == "" || !IsSpace(tail[|tail| - 1])
    ensures Parse("\"" + a + "\"" + tail, 0) == Parsed(v, |a| + 2)
  {
    var text := "\"" + a + "\"" + tail;
    assert text[0..] == text;
    assert Strip(text) == text;
    var t := "\"" + tail;
    assert text[1..] == a + t;
    assert EncodesBefore(a, v, t);
    assert ParseBody(t) == Parsed("", 1);
    assert v + "" == v && "" + v == v;
  }

  /** Parsing gives back every string, and reports the whole encoded length. */
  lemma RoundTrip(s: string)
    ensures Parse(Quote(s), 0) == Parsed(s, |Quote(s)|)
  {
    EscapeEncodes(s);
    QuotedParses(Escape(s), s, "");
    assert Quote(s) + "" == Quote(s);
  }

  lemma QuoteInjective(s: string, t: string)
    requires Quote(s) == Quote(t)
    ensures s == t
  {
    RoundTrip(s);
    RoundTrip(t);
  }

  /** A stored string stands on one line and in one column. */
  lemma {:induction false} EscapedIsFlat(s: string)
    ensures '\n' !in Escape(s) && '\t' !in Escape(s)
  {
    if s != "" { EscapedIsFlat(s[1..]); }
  }

  // ---------- Which texts are accepted ----------

  /** A plain character, or a backslash and a control character, and what it stands for. */
  datatype Piece = Piece(text: string, value: string)

  predicate Legal(p: Piece) {
    || (|p.text| == 1 && p.text[0] != '"' && p.text[0] != '\\' && p.value == p.text)
    || (p.text == "\\t" && p.value == "\t") || (p.text == "\\n" && p.value == "\n")
    || (p.text == "\\\"" && p.value == "\"") || (p.text == "\\\\" && p.value == "\\")
    || (p.text == "\\e" && p.value == "\\e")
  }

  function TextOf(ps: seq<Piece>): string {
    if ps == [] then "" else ps[0].text + TextOf(ps[1..])
  }

  function MeaningOf(ps: seq<Piece>): string {
    if ps == [] then "" else ps[0].value + MeaningOf(ps[1..])
  }

  /** `t` starts with legal pieces that mean `v` and a closing quote; `n` characters in all. */
  ghost predicate Spells(t: string, v: string, n: nat) {
    exists ps: seq<Piece> :: SpelledBy(t, ps, v, n)
  }

  ghost predicate SpelledBy(t: string, ps: seq<Piece>, v: string, n: nat) {
    && (forall k :: 0 <= k < |ps| ==> Legal(ps[k]))
    && TextOf(ps) + "\"" <= t && v == MeaningOf(ps) && n == |TextOf(ps)| + 1
  }

  /** The parser accepts exactly these texts, with this meaning and this length. */
  lemma {:induction false} ParseBodyMeans(t: string, v: string, n: nat)
    ensures ParseBody(t) == Parsed(v, n) <==> Spells(t, v, n)
    decreases |t|
  {
    if ParseBody(t) == Parsed(v, n) { AcceptedIsSpelled(t); }
    if ps :| SpelledBy(t, ps, v, n) { SpelledIsAccepted(t, ps); }
  }

  lemma {:induction false} SpelledIsAccepted(t: string, ps: seq<Piece>)
    requires (forall k :: 0 <= k < |ps| ==> Legal(ps[k])) && TextOf(ps) + "\"" <= t
    ensures ParseBody(t) == Parsed(MeaningOf(ps), |TextOf(ps)| + 1)
    decreases |ps|
  {
    if ps == [] {
      assert t[0] == '"';
    } else {
      var p, rest := ps[0], t[|ps[0].text|..];
      assert TextOf(ps) + "\"" == p.text + (TextOf(ps[1..]) + "\"");
      assert p.text <= t && TextOf(ps[1..]) + "\"" <= rest;
      SpelledIsAccepted(rest, ps[1..]);
      LegalFront(t, p);
    }
  }

  /** One legal piece at the front. */
  lemma LegalFront(t: string, p: Piece)
    requires Legal(p) && p.text <= t
    ensures ParseBody(t) == Then(Parsed(p.value, |p.text|), ParseBody(t[|p.text|..]))
  {
  }

  lemma {:induction false} AcceptedIsSpelled(t: string)
    requires ParseBody(t).Parsed?
    ensures Spells(t, ParseBody(t).value, ParseBody(t).length)
    decreases |t|
  {
    if t[0] == '"' {
      assert SpelledBy(t, [], "", 1);
    } else {
      var p := if t[0] != '\\' then Piece(t[..1], t[..1]) else Piece(t[..2], Control(t[1]).value);
      var rest := t[|p.text|..];
      assert Legal(p) by { assert t[..1] == [t[0]] && (t[0] == '\\' ==> t[..2] == [t[0], t[1]]); }
      AcceptedIsSpelled(rest);
      var ps :| SpelledBy(rest, ps, ParseBody(rest).value, ParseBody(rest).length);
      LegalFront(t, p);
      PieceBefore(t, p, ps, ParseBody(rest).value, ParseBody(rest).length);
    }
  }

  lemma PieceBefore(t: string, p: Piece, ps: seq<Piece>, v: string, n: nat)
    requires Legal(p) && p.text <= t && SpelledBy(t[|p.text|..], ps, v, n)
    ensures Spells(t, p.value + v, |p.text| + n)
  {
    assert ([p] + ps)[1..] == ps;
    assert t == p.text + t[|p.text|..];
    assert TextOf([p] + ps) + "\"" == p.text + (TextOf(ps) + "\"");
    assert SpelledBy(t, [p] + ps, p.value + v, |p.text| + n);
  }

  /** `parseComplexString` accepts a text from a position exactly when what follows, white space apart, is
      an opening quote and such a text. */
  lemma ParseMeans(orig: string, index: nat, v: string, n: nat)
    requires index <= |orig|
    ensures Parse(orig, index) == Parsed(v, n)
       <==> var mod := Strip(orig[index..]); |mod| >= 2 && mod[0] == '"' && n > 0 && Spells(mod[1..], v, n - 1)
  {
    var mod := Strip(orig[index..]);
    if |mod| >= 2 && mod[0] == '"' && n > 0 { ParseBodyMeans(mod[1..], v, n - 1); }
  }

  // ---------- The loops ----------

  lemma {:induction false} EscapeAppend(s: string, c: char)
    ensures Escape(s + [c]) == Escape(s) + EscapeChar(c)
  {
    if s == "" {
      assert s + [c] == [c];
      assert Escape([c]) == EscapeChar(c) + Escape("");
    } else {
      assert (s + [c])[1..] == s[1..] + [c];
      EscapeAppend(s[1..], c);
    }
  }

  lemma QuoteAppend(s: string, c: char)
    ensures "\"" + Escape(s + [c]) == ("\"" + Escape(s)) + EscapeChar(c)
  {
    EscapeAppend(s, c);
  }

  method MakeComplexString(orig: string) returns (temp: string)
    ensures temp == Quote(orig)
  {
    temp := "\"";
    var count := 0;
    while count < |orig|
      invariant count <= |orig|
      invariant temp == "\"" + Escape(orig[..count])
    {
      assert orig[..count + 1] == orig[..count] + [orig[count]];
      QuoteAppend(orig[..count], orig[count]);
      match orig[count] {
        case '"' => temp := temp + ['\\', '"'];
        case '\n' => temp := temp + ['\\', 'n'];
        case '\t' => temp := temp + ['\\', 't'];
        case '\\' => temp := temp + ['\\', '\\'];
        case c => temp := temp + [c];
      }
      count := count + 1;
    }
    assert orig[..count] == orig;
    temp := temp + "\"";
  }

  method ParseComplexString(orig: string, index: nat) returns (ok: bool, result: string, noOfChars: nat)
    requires index <= |orig|
    ensures (if ok then Parsed(result, noOfChars) else Failed) == Parse(orig, index)
  {
    result, noOfChars := "", 0;
    var mod := Strip(orig[index..]);
    if |mod| < 2 || mod[0] != '"' {
      return false, "", 0;
    }
    var first, temp, count := 1, "", 1;
    ghost var goal := Parse(orig, index);
    assert Parsed("", 1) == Parsed(temp, count);
    while true
      invariant 1 <= first < |mod|
      invariant goal == Then(Parsed(temp, count), ParseBody(mod[first..]))
      decreases |mod| - first
    {
      ghost var t := mod[first..];
      if mod[first] == '\\' {
        first := first + 1;
        if first == |mod| {
          return false, "", 0;
        }
        ThenAssociative(Parsed(temp, count), Control(mod[first]), ParseBody(mod[first + 1..]));
        assert t[2..] == mod[first + 1..] && t[1] == mod[first];
        match mod[first] {
          case 't' => temp := temp + "\t";
          case 'n' => temp := temp + "\n";
          case '"' => temp := temp + "\"";
          case 'e' => temp := temp + "\\e";
          case '\\' => temp := temp + "\\";
          case _ => return false, "", 0;
        }
        count := count + 2;
        first := first + 1;
      } else {
        if mod[first] == '"' {
          assert temp + "" == temp;
          return true, temp, count + 1;
        }
        ThenAssociative(Parsed(temp, count), Parsed([mod[first]], 1), ParseBody(mod[first + 1..]));
        assert t[1..] == mod[first + 1..];
        temp := temp + [mod[first]];
        count := count + 1;
        first := first + 1;
      }
      if first >= |mod| {
        return false, "", 0;
      }
    }
  }
}
