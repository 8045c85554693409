/** Lists of strings in one stored value: every element escaped and closed by `\e`. The reader
    finds the delimiters by scanning, looking one character back. */
module ListCodec {
  import opened Text
  import opened StringCodec

  datatype Decoded = Malformed | Values(values: seq<string>)

  function Body(xs: seq<string>): string {
    if xs == [] then "" else Escape(xs[0]) + "\\e" + Body(xs[1..])
  }

  function Encode(xs: seq<string>): string {
    "\"" + Body(xs) + "\""
  }

  /** A delimiter starts at `i`: backslash, `e`, and no backslash just before. */
  predicate DelimiterAt(raw: string, i: nat) {
    1 <= i && i + 1 < |raw| && raw[i] == '\\' && raw[i + 1] == 'e' && raw[i - 1] != '\\'
  }

  /** The inner scanning loop: the first delimiter from `second` on, or -1. */
  function FindDelimiter(raw: string, second: nat): (d: int)
    requires 1 <= second <= |raw|
    ensures d == -1 || (second <= d && DelimiterAt(raw, d))
    ensures forall i :: second <= i && (d == -1 || i < d) ==> !DelimiterAt(raw, i)
    decreases |raw| - second
  {
    var i := Find(raw, '\\', second);
    if i == -1 then -1
    else if DelimiterAt(raw, i) then i
    else FindDelimiter(raw, i + 1)
  }

  function Prepend(x: string, d: Decoded): Decoded {
    if d.Malformed? then d else Values([x] + d.values)
  }

  /** The text of one element, put between quotes again and parsed. */
  function PartAt(raw: string, first: nat, second: nat): Parsed
    requires first <= second <= |raw|
  {
    Parse("\"" + raw[first..second] + "\"", 0)
  }

  /** The elements from `first` on. */
  function DecodeFrom(raw: string, first: nat): Decoded
    requires 1 <= first <= |raw|
    decreases |raw| - first, 1
  {
    var second := FindDelimiter(raw, first);
    if second == -1 then Values([])
    else DecodePart(raw, second, PartAt(raw, first, second))
  }

  /** The element that ends at `second`, and what follows it. */
  function DecodePart(raw: string, second: nat, part: Parsed): Decoded
    requires 1 <= second && second + 2 <= |raw|
    decreases |raw| - second, 0
  {
    if part.Failed? then Malformed
    else if second < |raw| - 3 then Prepend(part.value, DecodeFrom(raw, second + 2))
    else Values([part.value])
  }

  function Decode(raw: string): Decoded {
    if raw == "" then Values([]) else DecodeFrom(raw, 1)
  }

  // ---------- What decoding an encoded list gives ----------

  predicate EndsInBackslash(x: string) {
    x != "" && x[|x| - 1] == '\\'
  }

  /** The delimiter after an element that ends in a backslash is overlooked: the element runs
      into the next one, and is lost if there is no next one that stops it. */
  function Glue(pending: string, xs: seq<string>): seq<string>
    decreases |xs|
  {
    if xs == [] then []
    else if EndsInBackslash(xs[0]) then Glue(pending + xs[0] + "\\e", xs[1..])
    else [pending + xs[0]] + Glue("", xs[1..])
  }

  lemma {:induction false} GlueCounts(pending: string, xs: seq<string>)
    ensures |Glue(pending, xs)| <= |xs|
    ensures (exists i :: 0 <= i < |xs| && EndsInBackslash(xs[i])) ==> |Glue(pending, xs)| < |xs|
    ensures pending == "" && (forall i :: 0 <= i < |xs| ==> !EndsInBackslash(xs[i])) ==> Glue("", xs) == xs
    decreases |xs|
  {
    if xs != [] {
      if EndsInBackslash(xs[0]) {
        GlueCounts(pending + xs[0] + "\\e", xs[1..]);
      } else {
        GlueCounts("", xs[1..]);
        if exists i :: 0 <= i < |xs| && EndsInBackslash(xs[i]) {
          var i :| 0 <= i < |xs| && EndsInBackslash(xs[i]);
          assert EndsInBackslash(xs[1..][i - 1]);
        }
        assert "" + xs[0] == xs[0] && [xs[0]] + xs[1..] == xs;
      }
    }
  }

  /** In escaped text, every backslash before an `e` has a backslash before it. */
  lemma {:induction false} EscapedHasNoDelimiter(x: string, i: nat)
    requires i + 1 < |Escape(x)| && Escape(x)[i] == '\\' && Escape(x)[i + 1] == 'e'
    ensures i > 0 && Escape(x)[i - 1] == '\\'
  {
    var head := EscapeChar(x[0]);
    assert Escape(x) == head + Escape(x[1..]);
    if i >= |head| {
      EscapedHasNoDelimiter(x[1..], i - |head|);
    }
  }

  /** Escaping keeps whether the text ends in a backslash. */
  lemma {:induction false} EscapeEnd(x: string)
    requires x != ""
    ensures Escape(x) != "" && (Escape(x)[|Escape(x)| - 1] == '\\' <==> EndsInBackslash(x))
  {
    if |x| > 1 {
      EscapeEnd(x[1..]);
    } else {
      assert Escape(x[1..]) == "";
    }
  }

  /** No delimiter starts in `raw[lo..hi]`. */
  ghost predicate Clean(raw: string, lo: nat, hi: nat) {
    forall i :: lo <= i < hi ==> !DelimiterAt(raw, i)
  }

  /** The text of one escaped element holds no delimiter, whatever stands around it, as long as
      an `\e` comes right after it. */
  lemma ElementIsClean(pre: string, x: string, post: string)
    requires pre != "" && post != "" && post[0] == '\\'
    ensures Clean(pre + Escape(x) + post, |pre|, |pre| + |Escape(x)|)
  {
    var raw := pre + Escape(x) + post;
    forall i | |pre| <= i < |pre| + |Escape(x)|
      ensures !DelimiterAt(raw, i)
    {
      var k := i - |pre|;
      assert raw[i] == Escape(x)[k];
      if raw[i] == '\\' && raw[i + 1] == 'e' {
        assert k + 1 < |Escape(x)| && raw[i + 1] == Escape(x)[k + 1];
        EscapedHasNoDelimiter(x, k);
        assert raw[i - 1] == Escape(x)[k - 1];
      }
    }
  }

  /** At the `\e` that closes an element, a delimiter is seen exactly when the element does not
      end in a backslash. */
  lemma CloserSeen(pre: string, x: string, post: string)
    requires pre != "" && pre[|pre| - 1] != '\\'
    ensures var raw := pre + Escape(x) + "\\e" + post;
      DelimiterAt(raw, |pre| + |Escape(x)|) <==> !EndsInBackslash(x)
  {
  }

  /** A stored list: what has been read, the text `a` being read, and the elements to come. */
  function Stored(pre: string, a: string, xs: seq<string>): string {
    pre + a + Body(xs) + "\""
  }

  lemma FirstElementApart(p: string, a: string, e: string, d: string, b: string, q: string)
    ensures p + a + (e + d + b) + q == (p + a) + e + d + (b + q)
    ensures p + a + (e + d + b) + q == (p + a) + e + (d + (b + q))
    ensures p + a + (e + d + b) + q == p + (a + e + d) + b + q
    ensures p + a + (e + d + b) + q == (p + a + e + d) + "" + b + q
  {
  }

  /** Four readings of the same text. */
  lemma TextOfFirst(pre: string, a: string, xs: seq<string>)
    requires xs != []
    ensures var e, rest := Escape(xs[0]), Body(xs[1..]) + "\"";
      && Stored(pre, a, xs) == (pre + a) + e + "\\e" + rest
      && Stored(pre, a, xs) == (pre + a) + e + ("\\e" + rest)
      && Stored(pre, a, xs) == Stored(pre, a + e + "\\e", xs[1..])
      && Stored(pre, a, xs) == Stored(pre + a + e + "\\e", "", xs[1..])
  {
    FirstElementApart(pre, a, Escape(xs[0]), "\\e", Body(xs[1..]), "\"");
  }

  /** `a` has been read without meeting a delimiter and encodes `pending`. */
  ghost predicate Underway(pre: string, a: string, pending: string, xs: seq<string>) {
    && pre != "" && (pre + a)[|pre + a| - 1] != '\\'
    && Encodes(a, pending)
    && Clean(Stored(pre, a, xs), |pre|, |pre| + |a|)
  }

  /** Where the delimiter of the front element stands. */
  function CloserOf(pre: string, a: string, xs: seq<string>): nat
    requires xs != []
  {
    |pre| + |a| + |Escape(xs[0])|
  }

  /** The front element is scanned without meeting a delimiter. */
  lemma ScanClean(pre: string, a: string, xs: seq<string>)
    requires xs != [] && pre != "" && Clean(Stored(pre, a, xs), |pre|, |pre| + |a|)
    ensures Clean(Stored(pre, a, xs), |pre|, CloserOf(pre, a, xs))
  {
    ElementCleanHere(pre, a, xs);
    CleanJoined(Stored(pre, a, xs), |pre|, |pre| + |a|, CloserOf(pre, a, xs));
  }

  lemma ElementCleanHere(pre: string, a: string, xs: seq<string>)
    requires xs != [] && pre != ""
    ensures Clean(Stored(pre, a, xs), |pre| + |a|, CloserOf(pre, a, xs))
  {
    TextOfFirst(pre, a, xs);
    ElementIsClean(pre + a, xs[0], "\\e" + (Body(xs[1..]) + "\""));
  }

  /** Its closer is a delimiter exactly when it does not end in a backslash. */
  lemma ScanCloser(pre: string, a: string, xs: seq<string>)
    requires xs != [] && pre != "" && (pre + a)[|pre + a| - 1] != '\\'
    ensures DelimiterAt(Stored(pre, a, xs), CloserOf(pre, a, xs)) <==> !EndsInBackslash(xs[0])
  {
    CloserSeenIn(pre, a, xs[0], Body(xs[1..]));
  }

  lemma CloserSeenIn(pre: string, a: string, x: string, b: string)
    requires pre != "" && (pre + a)[|pre + a| - 1] != '\\'
    ensures DelimiterAt(pre + a + (Escape(x) + "\\e" + b) + "\"", |pre| + |a| + |Escape(x)|) <==> !EndsInBackslash(x)
  {
    FirstElementApart(pre, a, Escape(x), "\\e", b, "\"");
    CloserSeen(pre + a, x, b + "\"");
  }

  lemma ScanLayout(pre: string, a: string, xs: seq<string>)
    requires xs != []
    ensures var raw, d := Stored(pre, a, xs), CloserOf(pre, a, xs);
      |raw| == d + 3 + |Body(xs[1..])| && raw[|pre|..d] == a + Escape(xs[0]) && raw[d + 1] == 'e'
  {
    TextOfFirst(pre, a, xs);
    Layout(pre, a, Escape(xs[0]), Body(xs[1..]) + "\"");
  }

  lemma Layout(pre: string, a: string, e: string, rest: string)
    ensures var t := (pre + a) + e + "\\e" + rest; var d := |pre| + |a| + |e|;
      t[|pre|..d] == a + e && t[d + 1] == 'e' && |t| == d + 2 + |rest|
  {
  }

  lemma CleanJoined(raw: string, lo: nat, mid: nat, hi: nat)
    requires lo <= mid <= hi && Clean(raw, lo, mid) && Clean(raw, mid, hi)
    ensures Clean(raw, lo, hi)
  {
  }

  lemma EncodesElement(a: string, pending: string, x: string)
    requires Encodes(a, pending)
    ensures Encodes(a + Escape(x), pending + x)
    ensures Encodes(a + Escape(x) + "\\e", pending + x + "\\e")
  {
    EscapeEncodes(x);
    EncodesConcat(a, pending, Escape(x), x);
    DelimiterEncodes();
    EncodesConcat(a + Escape(x), pending + x, "\\e", "\\e");
  }

  lemma CleanPastCloser(raw: string, lo: nat, d: nat)
    requires d + 1 < |raw| && Clean(raw, lo, d) && !DelimiterAt(raw, d) && raw[d + 1] == 'e'
    ensures Clean(raw, lo, d + 2)
  {
  }

  lemma CleanPastElement(pre: string, a: string, xs: seq<string>)
    requires xs != [] && pre != "" && (pre + a)[|pre + a| - 1] != '\\' && EndsInBackslash(xs[0])
    requires Clean(Stored(pre, a, xs), |pre|, |pre| + |a|)
    ensures var a' := a + Escape(xs[0]) + "\\e";
      Clean(Stored(pre, a, xs), |pre|, |pre| + |a'|)
  {
    ScanClean(pre, a, xs);
    ScanCloser(pre, a, xs);
    ScanLayout(pre, a, xs);
    CleanPastCloser(Stored(pre, a, xs), |pre|, CloserOf(pre, a, xs));
  }

  /** The element at the front runs into the next one. */
  lemma ExtendPending(pre: string, a: string, pending: string, xs: seq<string>)
    requires xs != [] && Underway(pre, a, pending, xs) && EndsInBackslash(xs[0])
    ensures Underway(pre, a + Escape(xs[0]) + "\\e", pending + xs[0] + "\\e", xs[1..])
  {
    CleanPastElement(pre, a, xs);
    TextOfFirst(pre, a, xs);
    EncodesElement(a, pending, xs[0]);
    EndsWithE(pre, a + Escape(xs[0]));
  }

  lemma EndsWithE(pre: string, a: string)
    ensures (pre + (a + "\\e"))[|pre + (a + "\\e")| - 1] == 'e'
  {
  }

  /** From `first`, the scan stops at `d` and the text up to there parses to `v`. */
  ghost predicate FrontReads(raw: string, first: nat, d: nat, v: string) {
    && 1 <= first <= d < |raw|
    && FindDelimiter(raw, first) == d
    && var p := PartAt(raw, first, d); p.Parsed? && p.value == v
  }

  /** The element at the front ends at its delimiter. */
  lemma FinishElement(pre: string, a: string, pending: string, xs: seq<string>)
    requires xs != [] && Underway(pre, a, pending, xs) && !EndsInBackslash(xs[0])
    ensures FrontReads(Stored(pre, a, xs), |pre|, CloserOf(pre, a, xs), pending + xs[0])
  {
    var raw, d := Stored(pre, a, xs), CloserOf(pre, a, xs);
    var part := "\"" + raw[|pre|..d] + "\"";
    ScanLayout(pre, a, xs);
    assert FindDelimiter(raw, |pre|) == d by {
      ScanClean(pre, a, xs);
      ScanCloser(pre, a, xs);
      FoundAt(raw, |pre|, d);
    }
    assert Parse(part, 0) == Parsed(pending + xs[0], |a + Escape(xs[0])| + 2) by {
      EncodesElement(a, pending, xs[0]);
      PartParses(a + Escape(xs[0]), pending + xs[0]);
    }
  }

  lemma FoundAt(raw: string, lo: nat, d: nat)
    requires 1 <= lo <= d < |raw| && Clean(raw, lo, d) && DelimiterAt(raw, d)
    ensures FindDelimiter(raw, lo) == d
  {
  }

  lemma PartParses(a: string, v: string)
    requires Encodes(a, v)
    ensures Parse("\"" + a + "\"", 0) == Parsed(v, |a| + 2)
  {
    QuotedParses(a, v, "");
    assert ("\"" + a + "\"") + "" == "\"" + a + "\"";
  }

  /** After a delimiter the scan starts afresh. */
  lemma NextElement(pre: string, a: string, xs: seq<string>)
    requires xs != []
    ensures Underway(pre + a + Escape(xs[0]) + "\\e", "", "", xs[1..])
  {
    EncodesNothing();
    var pre' := pre + a + Escape(xs[0]) + "\\e";
    assert pre' + "" == pre' && pre'[|pre'| - 1] == 'e';
  }

  lemma DecodeLast(pre: string, a: string, pending: string)
    requires Underway(pre, a, pending, [])
    ensures DecodeFrom(Stored(pre, a, []), |pre|) == Values([])
  {
  }

  lemma DecodeStep(raw: string, first: nat, d: nat, v: string)
    requires FrontReads(raw, first, d, v)
    ensures d + 2 <= |raw| && DecodeFrom(raw, first)
         == if d < |raw| - 3 then Prepend(v, DecodeFrom(raw, d + 2)) else Values([v])
  {
  }

  lemma BodyNonempty(xs: seq<string>)
    ensures Body(xs) == "" <==> xs == []
  {
  }

  /** Another element follows exactly when the delimiter is not the last thing in the text. */
  lemma MoreToCome(pre: string, a: string, xs: seq<string>)
    requires xs != []
    ensures CloserOf(pre, a, xs) < |Stored(pre, a, xs)| - 3 <==> xs[1..] != []
  {
    BodyNonempty(xs[1..]);
    assert |Stored(pre, a, xs)| == CloserOf(pre, a, xs) + 3 + |Body(xs[1..])|;
  }

  lemma SameText(pre: string, a: string, xs: seq<string>)
    requires xs != []
    ensures var e := Escape(xs[0]);
      Stored(pre, a, xs) == Stored(pre, a + e + "\\e", xs[1..])
      && Stored(pre, a, xs) == Stored(pre + a + e + "\\e", "", xs[1..])
      && |pre + a + e + "\\e"| == CloserOf(pre, a, xs) + 2
  {
    TextOfFirst(pre, a, xs);
  }

  lemma FinishStep(pre: string, a: string, pending: string, xs: seq<string>)
    requires xs != [] && Underway(pre, a, pending, xs) && !EndsInBackslash(xs[0])
    requires var pre' := pre + a + Escape(xs[0]) + "\\e";
      xs[1..] != [] ==> DecodeFrom(Stored(pre', "", xs[1..]), |pre'|) == Values(Glue("", xs[1..]))
    ensures DecodeFrom(Stored(pre, a, xs), |pre|) == Values(Glue(pending, xs))
  {
    var pre' := pre + a + Escape(xs[0]) + "\\e";
    SameText(pre, a, xs);
    assert FrontReads(Stored(pre, a, xs), |pre|, CloserOf(pre, a, xs), pending + xs[0]) by {
      FinishElement(pre, a, pending, xs);
    }
    MoreToCome(pre, a, xs);
    GlueOn(Stored(pre, a, xs), |pre|, CloserOf(pre, a, xs), Stored(pre', "", xs[1..]), |pre'|, pending, xs);
  }

  lemma GlueOn(raw: string, first: nat, d: nat, raw': string, first': nat, pending: string, xs: seq<string>)
    requires xs != [] && !EndsInBackslash(xs[0]) && FrontReads(raw, first, d, pending + xs[0])
    requires raw' == raw && first' == d + 2 && (d < |raw| - 3 <==> xs[1..] != [])
    requires xs[1..] != [] ==> 1 <= first' <= |raw'| && DecodeFrom(raw', first') == Values(Glue("", xs[1..]))
    ensures DecodeFrom(raw, first) == Values(Glue(pending, xs))
  {
    DecodeStep(raw, first, d, pending + xs[0]);
    GlueFirst(pending, xs);
  }

  lemma GlueFirst(pending: string, xs: seq<string>)
    requires xs != [] && !EndsInBackslash(xs[0])
    ensures Values(Glue(pending, xs))
         == if xs[1..] != [] then Prepend(pending + xs[0], Values(Glue("", xs[1..]))) else Values([pending + xs[0]])
  {
  }

  lemma {:induction false} DecodeGlues(pre: string, a: string, pending: string, xs: seq<string>)
    requires Underway(pre, a, pending, xs)
    ensures DecodeFrom(Stored(pre, a, xs), |pre|) == Values(Glue(pending, xs))
    decreases |xs|
  {
    if xs == [] {
      DecodeLast(pre, a, pending);
    } else if EndsInBackslash(xs[0]) {
      SameText(pre, a, xs);
      ExtendPending(pre, a, pending, xs);
      DecodeGlues(pre, a + Escape(xs[0]) + "\\e", pending + xs[0] + "\\e", xs[1..]);
    } else {
      NextElement(pre, a, xs);
      DecodeGlues(pre + a + Escape(xs[0]) + "\\e", "", "", xs[1..]);
      FinishStep(pre, a, pending, xs);
    }
  }

  /** Reading back any stored list gives its glued form. */
  lemma DecodeEncoded(xs: seq<string>)
    ensures Decode(Encode(xs)) == Values(Glue("", xs)) && Decode("") == Values([])
  {
    EncodesNothing();
    assert "\"" + "" == "\"";
    assert Stored("\"", "", xs) == Encode(xs);
    DecodeGlues("\"", "", "", xs);
  }

  /** The list codec returns the original list exactly when no element ends in a backslash. */
  lemma RoundTripIff(xs: seq<string>)
    ensures Decode(Encode(xs)) == Values(xs)
       <==> forall i :: 0 <= i < |xs| ==> !EndsInBackslash(xs[i])
  {
    DecodeEncoded(xs);
    GlueCounts("", xs);
  }

  /** The failing case in its smallest form: two elements come back as one. */
  lemma BackslashRunsOn()
    ensures Decode(Encode(["a\\", "b"])) == Values(["a\\\\eb"])
  {
    var xs := ["a\\", "b"];
    DecodeEncoded(xs);
    assert xs[1..] == ["b"];
    var glued := "" + xs[0] + "\\e";
    assert glued + "b" == "a\\\\eb";
    assert Glue(glued, ["b"]) == [glued + "b"] + Glue("", ["b"][1..]);
  }

  // ---------- What decoding any text gives ----------

  /** A part of the text, up to its delimiter. */
  datatype Part = Part(from: nat, to: nat)

  /** A part is ended by the first delimiter behind its start; the next part starts behind that, unless the
      delimiter stands at the end of the text. */
  ghost predicate CutAt(raw: string, first: nat, parts: seq<Part>)
    decreases |parts|
  {
    if parts == [] then Clean(raw, first, |raw|)
    else
      var p := parts[0];
      && p.from == first <= p.to && DelimiterAt(raw, p.to) && Clean(raw, first, p.to)
      && (if p.to < |raw| - 3 then CutAt(raw, p.to + 2, parts[1..]) else |parts| == 1)
  }

  /** What a part stands for, put between quotes and parsed. */
  function Meaning(raw: string, p: Part): Parsed {
    if p.from <= p.to <= |raw| then Parse("\"" + raw[p.from..p.to] + "\"", 0) else Failed
  }

  /** The values of the parts, in order. */
  ghost predicate ValuesOf(raw: string, parts: seq<Part>, values: seq<string>) {
    && |values| == |parts|
    && forall k :: 0 <= k < |parts| ==> Meaning(raw, parts[k]).Parsed? && values[k] == Meaning(raw, parts[k]).value
  }

  /** Decoding fails exactly when some part does not parse; otherwise it gives the values of all parts, in
      order. */
  lemma {:induction false} DecodeMeans(raw: string, first: nat, parts: seq<Part>)
    requires 1 <= first <= |raw| && CutAt(raw, first, parts)
    ensures match DecodeFrom(raw, first)
      case Values(values) => ValuesOf(raw, parts, values)
      case Malformed => exists k :: 0 <= k < |parts| && Meaning(raw, parts[k]).Failed?
    decreases |parts|
  {
    if parts == [] {
      NoneFound(raw, first);
    } else {
      var p, rest := parts[0], parts[1..];
      FoundAt(raw, first, p.to);
      var part := Meaning(raw, p);
      assert DecodeFrom(raw, first) == DecodePart(raw, p.to, part);
      if part.Parsed? && p.to < |raw| - 3 {
        DecodeMeans(raw, p.to + 2, rest);
        PartsAfter(raw, parts, DecodeFrom(raw, p.to + 2));
      } else {
        assert Meaning(raw, parts[0]) == part;
      }
    }
  }

  lemma PartsAfter(raw: string, parts: seq<Part>, d: Decoded)
    requires parts != [] && Meaning(raw, parts[0]).Parsed?
    ensures d.Values? && ValuesOf(raw, parts[1..], d.values) ==>
      ValuesOf(raw, parts, [Meaning(raw, parts[0]).value] + d.values)
    ensures (exists k :: 0 <= k < |parts[1..]| && Meaning(raw, parts[1..][k]).Failed?) ==>
      exists k :: 0 <= k < |parts| && Meaning(raw, parts[k]).Failed?
  {
    if k :| 0 <= k < |parts[1..]| && Meaning(raw, parts[1..][k]).Failed? {
      assert Meaning(raw, parts[k + 1]).Failed?;
    }
  }

  lemma NoneFound(raw: string, first: nat)
    requires 1 <= first <= |raw| && Clean(raw, first, |raw|)
    ensures FindDelimiter(raw, first) == -1
  {
  }

  /** Every text can be cut like this. */
  lemma {:induction false} CutExists(raw: string, first: nat) returns (parts: seq<Part>)
    requires 1 <= first <= |raw|
    ensures CutAt(raw, first, parts)
    decreases |raw| - first
  {
    var d := FindDelimiter(raw, first);
    if d == -1 {
      parts := [];
    } else if d < |raw| - 3 {
      var rest := CutExists(raw, d + 2);
      parts := [Part(first, d)] + rest;
      assert parts[1..] == rest;
    } else {
      parts := [Part(first, d)];
    }
  }

  // ---------- The loops ----------

  lemma {:induction false} BodyAppend(xs: seq<string>, x: string)
    ensures Body(xs + [x]) == Body(xs) + Escape(x) + "\\e"
  {
    if xs == [] {
      assert xs + [x] == [x];
      assert Body([x]) == Escape(x) + "\\e" + Body([]);
    } else {
      assert (xs + [x])[1..] == xs[1..] + [x];
      BodyAppend(xs[1..], x);
      assert Escape(xs[0]) + "\\e" + (Body(xs[1..]) + Escape(x) + "\\e")
          == (Escape(xs[0]) + "\\e" + Body(xs[1..])) + Escape(x) + "\\e";
    }
  }

  lemma OneMore(xs: seq<string>, x: string)
    ensures "\"" + Body(xs + [x]) == ("\"" + Body(xs)) + Escape(x) + "\\e"
  {
    BodyAppend(xs, x);
  }

  /** An element, quoted and stripped of its quotes. */
  method EncodeElement(x: string) returns (temp: string)
    ensures temp == Escape(x)
  {
    temp := MakeComplexString(x);
    temp := temp[1..];
    temp := temp[..|temp| - 1];
  }

  /** `insert` of a string list: the stored value. */
  method EncodeList(values: seq<string>) returns (value: string)
    ensures value == Encode(values)
  {
    value := "\"";
    var pos := 0;
    while pos < |values|
      invariant pos <= |values|
      invariant value == "\"" + Body(values[..pos])
    {
      assert values[..pos + 1] == values[..pos] + [values[pos]];
      var temp := EncodeElement(values[pos]);
      OneMore(values[..pos], values[pos]);
      value := value + temp;
      value := value + "\\e";
      pos := pos + 1;
    }
    assert values[..pos] == values;
    value := value + "\"";
  }

  function Append(xs: seq<string>, d: Decoded): Decoded {
    if d.Malformed? then d else Values(xs + d.values)
  }

  lemma AppendPrepended(xs: seq<string>, x: string, d: Decoded)
    ensures Append(xs, Prepend(x, d)) == Append(xs + [x], d)
  {
  }

  /** `values` and what is read from `first` on make up `goal`. */
  ghost predicate DecodeRemains(raw: string, values: seq<string>, first: nat, goal: Decoded)
    requires 1 <= first <= |raw|
  {
    Append(values, DecodeFrom(raw, first)) == goal
  }

  lemma DecodeNext(raw: string, values: seq<string>, first: nat, goal: Decoded, d: nat, v: string,
                   longer: seq<string>)
    requires FrontReads(raw, first, d, v) && DecodeRemains(raw, values, first, goal) && longer == values + [v]
    ensures if d < |raw| - 3 then DecodeRemains(raw, longer, d + 2, goal) else goal == Values(longer)
  {
    DecodeStep(raw, first, d, v);
    if d < |raw| - 3 { AppendPrepended(values, v, DecodeFrom(raw, d + 2)); }
  }

  lemma DecodeEnds(raw: string, values: seq<string>, first: nat, goal: Decoded)
    requires 1 <= first <= |raw| && FindDelimiter(raw, first) == -1
    requires DecodeRemains(raw, values, first, goal)
    ensures goal == Values(values)
  {
    assert values + [] == values;
  }

  lemma DecodeFails(raw: string, values: seq<string>, first: nat, goal: Decoded)
    requires 1 <= first <= |raw| && DecodeFrom(raw, first) == Malformed
    requires DecodeRemains(raw, values, first, goal)
    ensures goal == Malformed
  {
  }

  lemma DecodeStart(raw: string)
    requires raw != ""
    ensures DecodeRemains(raw, [], 1, Decode(raw))
  {
  }

  /** The scanning loop of `get`. */
  method ScanDelimiter(raw: string, first: nat) returns (second: int)
    requires 1 <= first <= |raw|
    ensures second == FindDelimiter(raw, first)
  {
    second := first;
    while true
      invariant first <= second <= |raw|
      invariant FindDelimiter(raw, second) == FindDelimiter(raw, first)
      decreases |raw| - second
    {
      second := Find(raw, '\\', second);
      if second == -1 {
        return;
      }
      if second + 1 < |raw| && raw[second + 1] == 'e' && raw[second - 1] != '\\' {
        return;
      }
      second := second + 1;
    }
  }

  /** The parser is called on one element. */
  method ParsePart(raw: string, first: nat, second: nat) returns (parsed: bool, value: string)
    requires 1 <= first <= second < |raw| && FindDelimiter(raw, first) == second
    ensures if parsed then FrontReads(raw, first, second, value) else DecodeFrom(raw, first) == Malformed
  {
    var part := "\"" + raw[first..second] + "\"";
    var i;
    parsed, value, i := ParseComplexString(part, 0);
  }

  /** `get` of a string list. */
  method DecodeList(raw: string) returns (ok: bool, values: seq<string>)
    ensures (if ok then Values(values) else Malformed) == Decode(raw)
  {
    values := [];
    if raw == "" {
      return true, values;
    }
    var first := 1;
    ghost var goal := Decode(raw);
    DecodeStart(raw);
    while true
      invariant 1 <= first <= |raw|
      invariant DecodeRemains(raw, values, first, goal)
      decreases |raw| - first
    {
      var second := ScanDelimiter(raw, first);
      if second == -1 {
        DecodeEnds(raw, values, first, goal);
        return true, values;
      }
      var parsed, value := ParsePart(raw, first, second);
      if !parsed {
        DecodeFails(raw, values, first, goal);
        return false, values;
      }
      ghost var before := values;
      values := values + [value];
      DecodeNext(raw, before, first, goal, second, value, values);
      if second >= |raw| - 3 {
        return true, values;
      }
      first := second + 2;
    }
  }
}
