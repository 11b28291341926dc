/** The few string operations the models share. */
module Text {
  /** White space and line terminators, as `trim` and `\s` know them. */
  predicate IsSpace(c: char) {
    || c == ' ' || '\t' <= c <= '\r' || c == '\U{A0}' || c == '\U{1680}' || '\U{2000}' <= c <= '\U{200A}'
    || c == '\U{2028}' || c == '\U{2029}' || c == '\U{202F}' || c == '\U{205F}' || c == '\U{3000}' || c == '\U{FEFF}'
  }

  function TrimStart(s: string): string {
    if s != "" && IsSpace(s[0]) then TrimStart(s[1..]) else s
  }

  function TrimEnd(s: string): string {
    if s != "" && IsSpace(s[|s| - 1]) then TrimEnd(s[..|s| - 1]) else s
  }

  function Trim(s: string): string { TrimEnd(TrimStart(s)) }

  /** Every run of whitespace as one space. */
  function Collapse(s: string): string {
    if s == "" then ""
    else if IsSpace(s[0]) then (if |s| > 1 && IsSpace(s[1]) then Collapse(s[1..]) else " " + Collapse(s[1..]))
    else [s[0]] + Collapse(s[1..])
  }

  function NormalizeText(s: string): string { Trim(Collapse(s)) }

  lemma {:induction false} TrimEndHasNoEdge(s: string)
    ensures TrimEnd(s) <= s
    ensures TrimEnd(s) != "" ==> !IsSpace(TrimEnd(s)[|TrimEnd(s)| - 1])
  {
    if s != "" && IsSpace(s[|s| - 1]) { TrimEndHasNoEdge(s[..|s| - 1]); }
  }

  lemma {:induction false} TrimStartHasNoEdge(s: string)
    ensures TrimStart(s) != "" ==> !IsSpace(TrimStart(s)[0])
  {
    if s != "" && IsSpace(s[0]) { TrimStartHasNoEdge(s[1..]); }
  }

  /** A trimmed string carries no outer whitespace, so trimming it again changes nothing. */
  lemma TrimIsIdempotent(s: string)
    ensures Trim(Trim(s)) == Trim(s)
  {
    TrimStartHasNoEdge(s);
    TrimEndHasNoEdge(TrimStart(s));
  }

  /** The words of a text: its stretches without white space. */
  function Words(s: string): (words: seq<string>)
    ensures s != "" && !IsSpace(s[0]) ==> words != []
  {
    if s == "" then []
    else if IsSpace(s[0]) then Words(s[1..])
    else if |s| == 1 || IsSpace(s[1]) then [[s[0]]] + Words(s[1..])
    else
      var rest := Words(s[1..]);
      [[s[0]] + rest[0]] + rest[1..]
  }

  /** Words with one space between two of them. */
  function Spaced(words: seq<string>): string {
    if words == [] then "" else if |words| == 1 then words[0] else words[0] + " " + Spaced(words[1..])
  }

  predicate SpaceFirst(s: string) { s != "" && IsSpace(s[0]) }

  predicate SpaceLast(s: string) { s != "" && IsSpace(s[|s| - 1]) }

  lemma SpacedCons(word: string, rest: seq<string>)
    ensures Spaced([word] + rest) == if rest == [] then word else word + " " + Spaced(rest)
  {
    assert ([word] + rest)[1..] == rest;
  }

  /** Another character in front of a word, or a word of its own. */
  lemma SpacedFirst(c: char, words: seq<string>)
    ensures Spaced([[c]] + words) == if words == [] then [c] else [c] + " " + Spaced(words)
    ensures words != [] ==> Spaced([[c] + words[0]] + words[1..]) == [c] + Spaced(words)
  {
    hide Spaced;
    SpacedCons([c], words);
    if words != [] {
      assert words == [words[0]] + words[1..];
      SpacedCons(words[0], words[1..]);
      SpacedCons([c] + words[0], words[1..]);
    }
  }

  lemma OneMoreChar(c: char, rest: string)
    ensures Collapse([c] + rest) == if !IsSpace(c) then [c] + Collapse(rest)
                                    else if SpaceFirst(rest) then Collapse(rest) else " " + Collapse(rest)
    ensures Words([c] + rest) == if IsSpace(c) then Words(rest)
                                 else if rest == "" || SpaceFirst(rest) then [[c]] + Words(rest)
                                 else [[c] + Words(rest)[0]] + Words(rest)[1..]
    ensures rest != "" && !SpaceFirst(rest) ==> Words(rest) != []
    ensures SpaceFirst([c] + rest) <==> IsSpace(c)
    ensures SpaceLast([c] + rest) <==> if rest == "" then IsSpace(c) else SpaceLast(rest)
  {
    var s := [c] + rest;
    assert s[1..] == rest;
  }

  lemma NothingCollapses()
    ensures Collapse("") == "" && Words("") == [] && Spaced([]) == ""
  {
  }

  function Edge(space: bool): string { if space then " " else "" }

  /** A text that is nothing but its words and single spaces: with edges, or with none. */
  lemma {:induction false} CollapseIs(s: string)
    ensures Words(s) == [] && s != "" ==> SpaceFirst(s) && SpaceLast(s) && Collapse(s) == " "
    ensures Words(s) != [] ==> Collapse(s) == Edge(SpaceFirst(s)) + Spaced(Words(s)) + Edge(SpaceLast(s))
  {
    NothingCollapses();
    if s != "" {
      hide Spaced, IsSpace, Words, Collapse, SpaceFirst, SpaceLast, Edge;
      var c, rest := s[0], s[1..];
      OneMoreChar(c, rest);
      assert s == [c] + rest;
      CollapseIs(rest);
      if IsSpace(c) { SpaceGoesFirst(c, rest); } else { CharGoesFirst(c, rest); }
    }
  }

  lemma SpaceGoesFirst(c: char, rest: string)
    requires IsSpace(c)
    requires Words(rest) == [] && rest != "" ==> SpaceFirst(rest) && SpaceLast(rest) && Collapse(rest) == " "
    requires Words(rest) != [] ==>
               Collapse(rest) == Edge(SpaceFirst(rest)) + Spaced(Words(rest)) + Edge(SpaceLast(rest))
    ensures var s := [c] + rest;
            && (Words(s) == [] ==> SpaceFirst(s) && SpaceLast(s) && Collapse(s) == " ")
            && (Words(s) != [] ==> Collapse(s) == Edge(SpaceFirst(s)) + Spaced(Words(s)) + Edge(SpaceLast(s)))
  {
    OneMoreChar(c, rest);
    NothingCollapses();
    var text, last := Spaced(Words(rest)), Edge(SpaceLast(rest));
    hide Spaced, IsSpace, Words, Collapse;
    AllTheSame(" ", text, last);
  }

  lemma AllTheSame(a: string, b: string, c: string)
    ensures a + ("" + b + c) == a + b + c == "" + (a + b) + c && a + "" == a
    ensures a + (" " + b + c) == "" + (a + " " + b) + c && a + " " == "" + a + " " && a == "" + a + ""
  {
  }

  lemma CharGoesFirst(c: char, rest: string)
    requires !IsSpace(c)
    requires Words(rest) == [] && rest != "" ==> SpaceFirst(rest) && SpaceLast(rest) && Collapse(rest) == " "
    requires Words(rest) != [] ==>
               Collapse(rest) == Edge(SpaceFirst(rest)) + Spaced(Words(rest)) + Edge(SpaceLast(rest))
    ensures var s := [c] + rest;
            Words(s) != [] && Collapse(s) == Edge(SpaceFirst(s)) + Spaced(Words(s)) + Edge(SpaceLast(s))
  {
    OneMoreChar(c, rest);
    NothingCollapses();
    SpacedFirst(c, Words(rest));
    var text, last := Spaced(Words(rest)), Edge(SpaceLast(rest));
    hide Spaced, IsSpace, Words, Collapse;
    AllTheSame([c], text, last);
  }

  lemma {:induction false} NoOuterSpace(s: string)
    ensures Words(s) != [] ==> !SpaceFirst(Spaced(Words(s))) && !SpaceLast(Spaced(Words(s))) && Spaced(Words(s)) != ""
  {
    if s == "" { NothingCollapses(); }
    else {
      hide Spaced, IsSpace, Words;
      var c, rest := s[0], s[1..];
      OneMoreChar(c, rest);
      assert s == [c] + rest;
      NoOuterSpace(rest);
      SpacedFirst(c, Words(rest));
    }
  }

  lemma TrimEdges(text: string, first: bool, last: bool)
    requires !SpaceFirst(text) && !SpaceLast(text)
    ensures Trim(Edge(first) + text + Edge(last)) == text
  {
    var tail := text + Edge(last);
    assert Edge(first) + text + Edge(last) == Edge(first) + tail;
    StartEdge(tail);
    assert TrimStart(Edge(first) + tail) == TrimStart(tail) by { assert "" + tail == tail; }
    EndEdge(text);
    if text == "" {
      StartEdge("");
      assert " " + "" == " " && "" + "" == "";
    } else { assert text + "" == text; }
  }

  lemma StartEdge(s: string)
    ensures TrimStart(" " + s) == TrimStart(s) && TrimStart("") == ""
  {
    assert (" " + s)[1..] == s;
  }

  lemma EndEdge(s: string)
    ensures TrimEnd(s + " ") == TrimEnd(s) && TrimEnd("") == ""
  {
    assert (s + " ")[..|s + " "| - 1] == s;
  }

  /** A normalized text is the text's own words, in order, with single spaces between them and none around. */
  lemma NormalizeKeepsWords(s: string)
    ensures NormalizeText(s) == Spaced(Words(s))
  {
    CollapseIs(s);
    NoOuterSpace(s);
    NothingCollapses();
    if Words(s) == [] {
      TrimEdges("", s != "", false);
      assert Edge(s != "") + "" + Edge(false) == Collapse(s);
      assert Spaced(Words(s)) == "";
    } else {
      TrimEdges(Spaced(Words(s)), SpaceFirst(s), SpaceLast(s));
    }
  }

  // --- Decimal numerals -------------------------------------------------------------

  function Digit(d: nat): char
    requires d < 10
  {
    ['0', '1', '2', '3', '4', '5', '6', '7', '8', '9'][d]
  }

  function Decimal(n: nat): string {
    if n < 10 then [Digit(n)] else Decimal(n / 10) + [Digit(n % 10)]
  }

  lemma DigitsDiffer(a: nat, b: nat)
    requires a < 10 && b < 10 && Digit(a) == Digit(b)
    ensures a == b
  {
  }

  /** Distinct numbers are written differently. */
  lemma {:induction false} DecimalIsInjective(a: nat, b: nat)
    requires Decimal(a) == Decimal(b)
    ensures a == b
  {
    assert Decimal(a)[|Decimal(a)| - 1] == Digit(a % 10) && Decimal(b)[|Decimal(b)| - 1] == Digit(b % 10);
    DigitsDiffer(a % 10, b % 10);
    DecimalNotEmpty(a / 10);
    DecimalNotEmpty(b / 10);
    if a >= 10 && b >= 10 {
      assert Decimal(a)[..|Decimal(a)| - 1] == Decimal(a / 10) && Decimal(b)[..|Decimal(b)| - 1] == Decimal(b / 10);
      DecimalIsInjective(a / 10, b / 10);
    }
  }

  lemma {:induction false} DecimalNotEmpty(n: nat)
    ensures |Decimal(n)| > 0
  {
  }
}
