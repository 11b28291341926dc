/**
 * Mining the fenced code blocks of a section (packages/guard-generator/src/examples.ts, `mineExampleBlocks`). Fences
 * are those of section 4.5 of CommonMark 0.31, except that a closing fence may be indented by any amount.
 */
module ExampleMining {
  import opened Common
  import opened Text

  const MAX_EXAMPLE_BLOCKS_PER_SECTION: nat := 4
  const MAX_EXAMPLE_BLOCK_BYTES: nat := 4096

  /** A mined block; the language is absent when the info string has none. */
  datatype Block = Block(lang: Option<string>, content: string)

  // --- Lines ----------------------------------------------------------------------------

  /** `split('\n')`: one line more than there are line feeds. */
  function Lines(text: string): seq<string> {
    if text == "" then [""]
    else
      var rest := Lines(text[1..]);
      if text[0] == '\n' then [""] + rest else [[text[0]] + rest[0]] + rest[1..]
  }

  /** `join('\n')`. */
  function Join(lines: seq<string>): string {
    if lines == [] then "" else if |lines| == 1 then lines[0] else lines[0] + "\n" + Join(lines[1..])
  }

  lemma JoinCons(line: string, rest: seq<string>)
    requires rest != []
    ensures Join([line] + rest) == line + "\n" + Join(rest)
  {
    assert ([line] + rest)[1..] == rest;
  }

  lemma JoinOne(line: string)
    ensures Join([line]) == line
  {
  }

  lemma {:induction false} LinesRejoin(text: string)
    ensures Lines(text) != [] && Join(Lines(text)) == text
  {
    if text == "" { JoinOne(""); }
    else {
      LinesRejoin(text[1..]);
      var rest := Lines(text[1..]);
      hide Join;
      if text[0] == '\n' { JoinCons("", rest); }
      else if |rest| > 1 {
        assert rest == [rest[0]] + rest[1..];
        JoinCons(rest[0], rest[1..]);
        JoinCons([text[0]] + rest[0], rest[1..]);
      } else {
        assert rest == [rest[0]];
        JoinOne(rest[0]);
        JoinOne([text[0]] + rest[0]);
        assert rest[1..] == [];
      }
      assert text == [text[0]] + text[1..];
    }
  }

  predicate OneLine(line: string) { '\n' !in line }

  lemma {:induction false} LineSplitsOff(line: string, rest: string)
    requires OneLine(line)
    ensures Lines(line) == [line]
    ensures Lines(line + "\n" + rest) == [line] + Lines(rest)
  {
    var all := line + "\n" + rest;
    if line == "" {
      assert all[1..] == rest;
    } else {
      assert line[0] in line && OneLine(line[1..]);
      LineSplitsOff(line[1..], rest);
      assert all[1..] == line[1..] + "\n" + rest;
      assert [line[0]] + line[1..] == line;
    }
  }

  /** Joining lines and splitting the text again gives the lines back. */
  lemma {:induction false} JoinedSplits(lines: seq<string>)
    requires lines != [] && forall i | 0 <= i < |lines| :: OneLine(lines[i])
    ensures Lines(Join(lines)) == lines
  {
    hide Lines;
    LineSplitsOff(lines[0], Join(lines[1..]));
    if |lines| > 1 {
      JoinedSplits(lines[1..]);
      assert lines == [lines[0]] + lines[1..];
    }
  }

  lemma {:induction false} JoinSplits(a: seq<string>, b: seq<string>)
    requires a != [] && b != []
    ensures Join(a + b) == Join(a) + "\n" + Join(b)
  {
    if |a| == 1 { assert (a + b)[1..] == b; }
    else {
      assert (a + b)[1..] == a[1..] + b;
      JoinSplits(a[1..], b);
    }
  }

  // --- Fences ------------------------------------------------------------------------------

  function StripCr(line: string): string {
    if line != "" && line[|line| - 1] == '\r' then line[..|line| - 1] else line
  }

  /** How long a run of `c` the text starts with. */
  function RunOf(s: string, c: char): (n: nat)
    ensures n <= |s|
  {
    if s != "" && s[0] == c then 1 + RunOf(s[1..], c) else 0
  }

  function SkipBlank(s: string): string {
    if s != "" && (s[0] == ' ' || s[0] == '\t') then SkipBlank(s[1..]) else s
  }

  function Word(s: string): string {
    if s != "" && !IsSpace(s[0]) && s[0] != '`' then [s[0]] + Word(s[1..]) else ""
  }

  /** An opening fence: its marker, its length, the language it names. */
  datatype Fence = Fence(marker: char, length: nat, lang: Option<string>)

  function OpenFence(line: string): Option<Fence> {
    var s := StripCr(line);
    var indent := RunOf(s, ' ');
    var t := s[indent..];
    if indent > 3 || t == "" || (t[0] != '`' && t[0] != '~') then None
    else
      var length := RunOf(t, t[0]);
      var lang := Word(SkipBlank(t[length..]));
      if length < 3 then None
      else if t[0] == '`' && '`' in line[indent..][length..] then None
      else Some(Fence(t[0], length, if lang == "" then None else Some(lang)))
  }

  predicate Closes(fence: Fence, line: string) {
    var trimmed := Trim(StripCr(line));
    |trimmed| >= fence.length && forall i | 0 <= i < |trimmed| :: trimmed[i] == fence.marker
  }

  // --- The two rules, as the lines they accept ---------------------------------------------------

  function Repeat(c: char, n: nat): string { seq(n, _ => c) }

  predicate Blanks(s: string) { forall i | 0 <= i < |s| :: s[i] == ' ' || s[i] == '\t' }

  predicate Spaces(s: string) { forall i | 0 <= i < |s| :: IsSpace(s[i]) }

  predicate WordChars(s: string) { forall i | 0 <= i < |s| :: !IsSpace(s[i]) && s[i] != '`' }

  /** The line is `stripped`, with or without a carriage return at its end. */
  ghost predicate Strips(line: string, stripped: string) {
    line == stripped + "\r" || (line == stripped && (line == "" || line[|line| - 1] != '\r'))
  }

  /**
   * A line that opens the fence: up to three spaces, three or more of one marker and no more of it, blanks, the
   * language, and the rest of the info string; no backtick follows a backtick fence.
   */
  ghost predicate OpensWith(line: string, fence: Fence, indent: nat, blanks: string, word: string, rest: string) {
    var info := blanks + word + rest;
    && Strips(line, Repeat(' ', indent) + Repeat(fence.marker, fence.length) + info)
    && indent <= 3 && fence.length >= 3 && (fence.marker == '`' || fence.marker == '~')
    && (info == "" || info[0] != fence.marker) && (fence.marker == '`' ==> '`' !in info)
    && Blanks(blanks) && WordChars(word)
    && (rest == "" || (IsSpace(rest[0]) && (word == "" ==> rest[0] != ' ' && rest[0] != '\t')) || rest[0] == '`')
    && fence.lang == if word == "" then None else Some(word)
  }

  lemma {:induction false} RunTaken(c: char, n: nat, s: string)
    requires s == "" || s[0] != c
    ensures RunOf(Repeat(c, n) + s, c) == n
  {
    if n > 0 {
      RunTaken(c, n - 1, s);
      assert (Repeat(c, n) + s)[1..] == Repeat(c, n - 1) + s;
    } else { assert Repeat(c, 0) + s == s; }
  }

  lemma {:induction false} RunSplits(s: string, c: char)
    ensures s == Repeat(c, RunOf(s, c)) + s[RunOf(s, c)..]
    ensures s[RunOf(s, c)..] == "" || s[RunOf(s, c)..][0] != c
  {
    if s != "" && s[0] == c { RunSplits(s[1..], c); }
  }

  lemma {:induction false} BlanksSkipped(blanks: string, s: string)
    requires Blanks(blanks) && (s == "" || (s[0] != ' ' && s[0] != '\t'))
    ensures SkipBlank(blanks + s) == s
  {
    if blanks != "" {
      BlanksSkipped(blanks[1..], s);
      assert (blanks + s)[1..] == blanks[1..] + s;
    } else { assert blanks + s == s; }
  }

  lemma {:induction false} BlanksSplit(s: string) returns (blanks: string)
    ensures Blanks(blanks) && s == blanks + SkipBlank(s)
    ensures SkipBlank(s) == "" || (SkipBlank(s)[0] != ' ' && SkipBlank(s)[0] != '\t')
  {
    blanks := "";
    if s != "" && (s[0] == ' ' || s[0] == '\t') {
      var rest := BlanksSplit(s[1..]);
      blanks := [s[0]] + rest;
    }
  }

  lemma {:induction false} WordTaken(word: string, rest: string)
    requires WordChars(word) && (rest == "" || IsSpace(rest[0]) || rest[0] == '`')
    ensures Word(word + rest) == word
  {
    if word != "" {
      WordTaken(word[1..], rest);
      assert (word + rest)[1..] == word[1..] + rest;
    } else { assert word + rest == rest; }
  }

  lemma {:induction false} WordSplits(s: string)
    ensures WordChars(Word(s)) && Word(s) <= s
    ensures s[|Word(s)|..] == "" || IsSpace(s[|Word(s)|]) || s[|Word(s)|] == '`'
  {
    if s != "" && !IsSpace(s[0]) && s[0] != '`' { WordSplits(s[1..]); }
  }

  lemma StrippedIs(line: string, stripped: string)
    ensures Strips(line, stripped) ==> StripCr(line) == stripped
    ensures Strips(line, StripCr(line))
  {
    if line != "" { assert line == line[..|line| - 1] + [line[|line| - 1]]; }
  }

  lemma InfoReads(blanks: string, word: string, rest: string)
    requires Blanks(blanks) && WordChars(word)
    requires rest == "" || (IsSpace(rest[0]) && (word == "" ==> rest[0] != ' ' && rest[0] != '\t')) || rest[0] == '`'
    ensures Word(SkipBlank(blanks + word + rest)) == word
  {
    assert blanks + word + rest == blanks + (word + rest);
    BlanksSkipped(blanks, word + rest);
    WordTaken(word, rest);
  }

  /** A line of that form opens that fence. */
  lemma FenceOpens(line: string, fence: Fence, indent: nat, blanks: string, word: string, rest: string)
    requires OpensWith(line, fence, indent, blanks, word, rest)
    ensures OpenFence(line) == Some(fence)
  {
    hide RunOf, SkipBlank, Word, IsSpace, Blanks, WordChars, StripCr;
    var info := blanks + word + rest;
    var run := Repeat(fence.marker, fence.length) + info;
    assert Repeat(' ', indent) + Repeat(fence.marker, fence.length) + info == Repeat(' ', indent) + run;
    StrippedIs(line, Repeat(' ', indent) + run);
    RunTaken(' ', indent, run);
    RunTaken(fence.marker, fence.length, info);
    var s := StripCr(line);
    assert s[indent..] == run && run[fence.length..] == info;
    InfoReads(blanks, word, rest);
    var tail := line[indent..][fence.length..];
    assert tail == info || tail == info + "\r";
  }

  lemma InfoSplits(info: string) returns (blanks: string, word: string, rest: string)
    ensures info == blanks + word + rest && Blanks(blanks) && WordChars(word) && Word(SkipBlank(info)) == word
    ensures rest == "" || (IsSpace(rest[0]) && (word == "" ==> rest[0] != ' ' && rest[0] != '\t')) || rest[0] == '`'
  {
    hide SkipBlank, Word, IsSpace, Blanks, WordChars;
    blanks := BlanksSplit(info);
    var named := SkipBlank(info);
    word := Word(named);
    WordSplits(named);
    rest := named[|word|..];
    assert named == word + rest;
    assert info == blanks + word + rest;
  }

  lemma MarkersSplit(s: string) returns (indent: nat, length: nat)
    requires s[RunOf(s, ' ')..] != ""
    ensures var t := s[RunOf(s, ' ')..];
            && indent == RunOf(s, ' ') && length == RunOf(t, t[0])
            && s == Repeat(' ', indent) + Repeat(t[0], length) + t[length..]
            && (t[length..] == "" || t[length..][0] != t[0])
  {
    indent := RunOf(s, ' ');
    var t := s[indent..];
    length := RunOf(t, t[0]);
    RunSplits(s, ' ');
    RunSplits(t, t[0]);
  }

  /** And only such lines open one. */
  lemma OpenerHasParts(line: string) returns (indent: nat, blanks: string, word: string, rest: string)
    requires OpenFence(line).Some?
    ensures OpensWith(line, OpenFence(line).value, indent, blanks, word, rest)
  {
    hide RunOf, SkipBlank, Word, IsSpace, Blanks, WordChars, StripCr, Repeat;
    var fence := OpenFence(line).value;
    var s := StripCr(line);
    StrippedIs(line, s);
    var length;
    indent, length := MarkersSplit(s);
    var info := s[indent..][length..];
    blanks, word, rest := InfoSplits(info);
    var tail := line[indent..][length..];
    assert tail == info || tail == info + "\r";
  }

  lemma {:induction false} TrimStartSplits(s: string) returns (pad: string)
    ensures Spaces(pad) && s == pad + TrimStart(s)
  {
    pad := "";
    if s != "" && IsSpace(s[0]) {
      var rest := TrimStartSplits(s[1..]);
      pad := [s[0]] + rest;
    }
  }

  lemma {:induction false} TrimEndSplits(s: string) returns (pad: string)
    ensures Spaces(pad) && s == TrimEnd(s) + pad
  {
    pad := "";
    if s != "" && IsSpace(s[|s| - 1]) {
      var rest := TrimEndSplits(s[..|s| - 1]);
      pad := rest + [s[|s| - 1]];
    }
  }

  lemma {:induction false} PadTrimmedStart(pad: string, s: string)
    requires Spaces(pad) && s != "" && !IsSpace(s[0])
    ensures TrimStart(pad + s) == s
  {
    if pad != "" {
      PadTrimmedStart(pad[1..], s);
      assert (pad + s)[1..] == pad[1..] + s;
    } else { assert pad + s == s; }
  }

  lemma {:induction false} PadTrimmedEnd(s: string, pad: string)
    requires Spaces(pad) && s != "" && !IsSpace(s[|s| - 1])
    ensures TrimEnd(s + pad) == s
  {
    if pad != "" {
      PadTrimmedEnd(s, pad[..|pad| - 1]);
      assert (s + pad)[..|s + pad| - 1] == s + pad[..|pad| - 1];
    } else { assert s + pad == s; }
  }

  /** A line that closes the fence: at least as many of its marker and nothing else, in any white space. */
  ghost predicate ClosesWith(line: string, fence: Fence, before: string, count: nat, after: string) {
    Strips(line, before + Repeat(fence.marker, count) + after) && Spaces(before) && Spaces(after)
        && count >= fence.length
  }

  lemma FenceCloses(line: string, fence: Fence, before: string, count: nat, after: string)
    requires fence.length > 0 && !IsSpace(fence.marker) && ClosesWith(line, fence, before, count, after)
    ensures Closes(fence, line)
  {
    var run := Repeat(fence.marker, count);
    StrippedIs(line, before + run + after);
    assert before + run + after == before + (run + after);
    PadTrimmedStart(before, run + after);
    PadTrimmedEnd(run, after);
  }

  lemma CloserHasParts(line: string, fence: Fence) returns (before: string, count: nat, after: string)
    requires Closes(fence, line)
    ensures ClosesWith(line, fence, before, count, after)
  {
    var s := StripCr(line);
    StrippedIs(line, s);
    before := TrimStartSplits(s);
    after := TrimEndSplits(TrimStart(s));
    count := |Trim(s)|;
    assert Trim(s) == Repeat(fence.marker, count);
    assert s == before + Repeat(fence.marker, count) + after;
  }

  /** What opens and what closes a fence; the proofs below hold of any such rules. */
  datatype Rules = Rules(opens: string -> Option<Fence>, closes: (Fence, string) -> bool)

  const MARKDOWN := Rules(OpenFence, Closes)

  predicate Opens(r: Rules, line: string) { r.opens(line).Some? }

  // --- A section, decomposed --------------------------------------------------------------------

  datatype Segment =
    | Plain(line: string)
    | Fenced(opener: string, body: seq<string>, closer: string)
    | Unclosed(opener: string, tail: seq<string>)

  predicate NoneCloses(r: Rules, fence: Fence, lines: seq<string>) {
    forall i | 0 <= i < |lines| :: !r.closes(fence, lines[i])
  }

  predicate SegmentValid(r: Rules, segment: Segment) {
    match segment
    case Plain(line) => !Opens(r, line)
    case Fenced(opener, body, closer) =>
      Opens(r, opener) && NoneCloses(r, r.opens(opener).value, body) && r.closes(r.opens(opener).value, closer)
    case Unclosed(opener, tail) => Opens(r, opener) && NoneCloses(r, r.opens(opener).value, tail)
  }

  /** Plain lines and closed fences in any order, and possibly one unclosed fence swallowing the rest. */
  predicate Valid(r: Rules, segments: seq<Segment>) {
    forall i | 0 <= i < |segments| :: SegmentValid(r, segments[i]) && (segments[i].Unclosed? ==> i == |segments| - 1)
  }

  function LinesOf(segment: Segment): seq<string> {
    match segment
    case Plain(line) => [line]
    case Fenced(opener, body, closer) => [opener] + body + [closer]
    case Unclosed(opener, tail) => [opener] + tail
  }

  function Render(segments: seq<Segment>): seq<string> {
    if segments == [] then [] else LinesOf(segments[0]) + Render(segments[1..])
  }

  /** The first line that closes a fence, or the number of lines. */
  function FirstClosing(r: Rules, fence: Fence, lines: seq<string>): (at: nat)
    ensures at <= |lines|
  {
    if lines == [] || r.closes(fence, lines[0]) then 0 else 1 + FirstClosing(r, fence, lines[1..])
  }

  /** It is the first: none before it closes the fence, and it does. */
  lemma {:induction false} FirstClosingIsFirst(r: Rules, fence: Fence, lines: seq<string>)
    ensures var at := FirstClosing(r, fence, lines);
              NoneCloses(r, fence, lines[..at]) && (at < |lines| ==> r.closes(fence, lines[at]))
  {
    if !(lines == [] || r.closes(fence, lines[0])) {
      var rest := lines[1..];
      FirstClosingIsFirst(r, fence, rest);
      var at := FirstClosing(r, fence, rest);
      var front := lines[..at + 1];
      forall i | 0 <= i < |front|
        ensures !r.closes(fence, front[i])
      {
        if i > 0 { assert front[i] == rest[..at][i - 1]; }
      }
    }
  }

  function Parse(r: Rules, lines: seq<string>): seq<Segment>
    decreases |lines|
  {
    if lines == [] then []
    else if !Opens(r, lines[0]) then [Plain(lines[0])] + Parse(r, lines[1..])
    else
      var rest := lines[1..];
      var close := FirstClosing(r, r.opens(lines[0]).value, rest);
      if close == |rest| then [Unclosed(lines[0], rest)]
      else [Fenced(lines[0], rest[..close], rest[close])] + Parse(r, rest[close + 1..])
  }

  // Parsing by first segment.

  lemma ParsePlain(r: Rules, line: string, after: seq<string>)
    requires !Opens(r, line)
    ensures Parse(r, [line] + after) == [Plain(line)] + Parse(r, after)
  {
    assert ([line] + after)[1..] == after;
  }

  lemma {:induction false} FirstClosingAt(r: Rules, fence: Fence, body: seq<string>, closer: string, after: seq<string>)
    requires NoneCloses(r, fence, body) && r.closes(fence, closer)
    ensures FirstClosing(r, fence, body + [closer] + after) == |body|
  {
    var lines := body + [closer] + after;
    if body != [] {
      assert lines[1..] == body[1..] + [closer] + after;
      FirstClosingAt(r, fence, body[1..], closer, after);
    }
  }

  lemma {:induction false} NeverCloses(r: Rules, fence: Fence, lines: seq<string>)
    requires NoneCloses(r, fence, lines)
    ensures FirstClosing(r, fence, lines) == |lines|
  {
    if lines != [] { NeverCloses(r, fence, lines[1..]); }
  }

  lemma {:induction false} ParseFenced(r: Rules, opener: string, body: seq<string>, closer: string, after: seq<string>)
    requires SegmentValid(r, Fenced(opener, body, closer))
    ensures Parse(r, [opener] + body + [closer] + after) == [Fenced(opener, body, closer)] + Parse(r, after)
  {
    hide NoneCloses, FirstClosing;
    var lines := [opener] + body + [closer] + after;
    var rest := body + [closer] + after;
    FirstClosingAt(r, r.opens(opener).value, body, closer, after);
    assert lines[0] == opener && lines[1..] == rest;
    assert rest[..|body|] == body && rest[|body|] == closer && rest[|body| + 1..] == after;
  }

  lemma {:induction false} ParseUnclosed(r: Rules, opener: string, tail: seq<string>)
    requires SegmentValid(r, Unclosed(opener, tail))
    ensures Parse(r, [opener] + tail) == [Unclosed(opener, tail)]
  {
    hide NoneCloses, FirstClosing;
    NeverCloses(r, r.opens(opener).value, tail);
    assert ([opener] + tail)[1..] == tail;
  }

  lemma RenderCons(segment: Segment, others: seq<Segment>)
    ensures Render([segment] + others) == LinesOf(segment) + Render(others)
  {
    assert ([segment] + others)[1..] == others;
  }

  lemma ValidCons(r: Rules, segment: Segment, others: seq<Segment>)
    ensures Valid(r, [segment] + others) <==>
              SegmentValid(r, segment) && (segment.Unclosed? ==> others == []) && Valid(r, others)
  {
    hide SegmentValid;
    var all := [segment] + others;
    assert all[0] == segment && forall i | 0 <= i < |others| :: all[i + 1] == others[i];
    if Valid(r, all) {
      forall i | 0 <= i < |others|
        ensures SegmentValid(r, others[i]) && (others[i].Unclosed? ==> i == |others| - 1)
      {
        assert all[i + 1] == others[i];
      }
    }
    if SegmentValid(r, segment) && (segment.Unclosed? ==> others == []) && Valid(r, others) {
      forall i | 0 <= i < |all|
        ensures SegmentValid(r, all[i]) && (all[i].Unclosed? ==> i == |all| - 1)
      {
        if i > 0 { assert all[i] == others[i - 1]; }
      }
    }
  }

  /** How any lines begin: with a plain line, a closed fence, or an unclosed one. */
  lemma FirstSegment(r: Rules, lines: seq<string>) returns (segment: Segment, after: seq<string>)
    requires lines != []
    ensures SegmentValid(r, segment) && lines == LinesOf(segment) + after && (segment.Unclosed? ==> after == [])
    ensures |after| < |lines|
  {
    hide FirstClosing;
    if !Opens(r, lines[0]) {
      segment, after := Plain(lines[0]), lines[1..];
    } else {
      var fence, rest := r.opens(lines[0]).value, lines[1..];
      var close := FirstClosing(r, fence, rest);
      FirstClosingIsFirst(r, fence, rest);
      if close == |rest| {
        assert rest[..close] == rest;
        segment, after := Unclosed(lines[0], rest), [];
      } else {
        segment, after := Fenced(lines[0], rest[..close], rest[close]), rest[close + 1..];
        assert rest == rest[..close] + [rest[close]] + after;
      }
    }
  }

  lemma {:induction false} ParseCons(r: Rules, segment: Segment, after: seq<string>)
    requires SegmentValid(r, segment) && (segment.Unclosed? ==> after == [])
    ensures Parse(r, LinesOf(segment) + after) == [segment] + Parse(r, after)
  {
    hide NoneCloses, FirstClosing;
    match segment
    case Plain(line) => ParsePlain(r, line, after);
    case Fenced(opener, body, closer) => ParseFenced(r, opener, body, closer, after);
    case Unclosed(opener, tail) =>
      ParseUnclosed(r, opener, tail);
      assert [opener] + tail + [] == [opener] + tail;
  }

  /** Every text decomposes, and the decomposition renders back to it. */
  lemma {:induction false} ParseRenders(r: Rules, lines: seq<string>)
    ensures Valid(r, Parse(r, lines)) && Render(Parse(r, lines)) == lines
    decreases |lines|
  {
    if lines != [] {
      hide Parse, Render, Valid, SegmentValid;
      var segment, after := FirstSegment(r, lines);
      ParseCons(r, segment, after);
      ParseRenders(r, after);
      RenderCons(segment, Parse(r, after));
      if segment.Unclosed? { ParseNothing(r); }
      ValidCons(r, segment, Parse(r, after));
    }
  }

  lemma ParseNothing(r: Rules)
    ensures Parse(r, []) == []
  {
  }

  /** There is only one decomposition: rendering a valid one and parsing it gives it back. */
  lemma {:induction false} RenderParses(r: Rules, segments: seq<Segment>)
    requires Valid(r, segments)
    ensures Parse(r, Render(segments)) == segments
  {
    if segments != [] {
      hide Parse, SegmentValid, Valid;
      var first, others := segments[0], segments[1..];
      assert segments == [first] + others;
      ValidCons(r, first, others);
      RenderParses(r, others);
      ParseCons(r, first, Render(others));
    }
  }

  // --- What is mined ------------------------------------------------------------------------------

  /** A string's length in UTF-16 code units. */
  function Length16(s: string): nat {
    if s == "" then 0 else (if s[0] as int >= 0x1_0000 then 2 else 1) + Length16(s[1..])
  }

  predicate Seedable(content: string) { content != "" && Length16(content) <= MAX_EXAMPLE_BLOCK_BYTES }

  function BlockOf(r: Rules, segment: Segment): seq<Block> {
    if segment.Fenced? && Opens(r, segment.opener) && Seedable(Join(segment.body))
    then [Block(r.opens(segment.opener).value.lang, Join(segment.body))] else []
  }

  function BlocksOf(r: Rules, segments: seq<Segment>): seq<Block> {
    if segments == [] then [] else BlockOf(r, segments[0]) + BlocksOf(r, segments[1..])
  }

  function FirstFew(blocks: seq<Block>): seq<Block> {
    if |blocks| <= MAX_EXAMPLE_BLOCKS_PER_SECTION then blocks else blocks[..MAX_EXAMPLE_BLOCKS_PER_SECTION]
  }

  /** What a section's text yields. */
  function Mined(r: Rules, text: string): seq<Block> { FirstFew(BlocksOf(r, Parse(r, Lines(text)))) }

  /** The nested scan, by index. */
  method Mine(r: Rules, text: string) returns (blocks: seq<Block>)
    ensures blocks == Mined(r, text)
  {
    hide Parse, BlocksOf, Lines, FirstClosing, Seedable, Join;
    blocks := [];
    var lines := Lines(text);
    var i := 0;
    assert lines[0..] == lines;
    while i < |lines| && |blocks| < MAX_EXAMPLE_BLOCKS_PER_SECTION
      invariant 0 <= i <= |lines| && |blocks| <= MAX_EXAMPLE_BLOCKS_PER_SECTION
      invariant blocks + BlocksOf(r, Parse(r, lines[i..])) == BlocksOf(r, Parse(r, lines))
      decreases |lines| - i
    {
      var fence := r.opens(lines[i]);
      if fence.None? {
        PlainStep(r, lines, i);
        i := i + 1;
        continue;
      }
      var close := FindClose(r, fence.value, lines, i + 1);
      if close == |lines| {
        UnclosedStep(r, lines, i);
        i := |lines|;
        assert lines[i..] == [];
        NothingMined(r);
        break;
      }
      FencedStep(r, lines, i, close);
      var content := Join(lines[i + 1..close]);
      if Seedable(content) { blocks := blocks + [Block(fence.value.lang, content)]; }
      i := close + 1;
    }
    if i == |lines| {
      assert lines[i..] == [];
      NothingMined(r);
    }
  }

  /** The segment is a closed fence with something in it, of at most 4,096 code units. */
  ghost function Yields(r: Rules, segments: seq<Segment>): nat -> bool {
    (i: nat) => i < |segments| && segments[i].Fenced? && Opens(r, segments[i].opener)
                && Join(segments[i].body) != "" && Length16(Join(segments[i].body)) <= 4096
  }

  lemma {:induction false} BlocksSplit(r: Rules, segments: seq<Segment>, last: Segment)
    ensures BlocksOf(r, segments + [last]) == BlocksOf(r, segments) + BlockOf(r, last)
  {
    hide BlockOf;
    if segments == [] { assert ([last])[1..] == []; }
    else {
      BlocksSplit(r, segments[1..], last);
      assert (segments + [last])[1..] == segments[1..] + [last];
    }
  }

  /** The blocks are those of such fences, in order, each with the language its opener names and the lines between. */
  lemma {:induction false} BlocksAt(r: Rules, segments: seq<Segment>, n: nat) returns (at: seq<nat>)
    requires n <= |segments|
    ensures |BlocksOf(r, segments[..n])| == |at| && Picks(at, n, Yields(r, segments))
    ensures forall k | 0 <= k < |at| ::
              && at[k] < n && segments[at[k]].Fenced? && Opens(r, segments[at[k]].opener)
              && BlocksOf(r, segments[..n])[k] ==
                 Block(r.opens(segments[at[k]].opener).value.lang, Join(segments[at[k]].body))
  {
    hide Picks, Join, Length16;
    at := [];
    if n == 0 {
      NonePicked(Yields(r, segments));
    } else {
      at := BlocksAt(r, segments, n - 1);
      PicksOn(at, n - 1, Yields(r, segments));
      BlocksSplit(r, segments[..n - 1], segments[n - 1]);
      assert segments[..n] == segments[..n - 1] + [segments[n - 1]];
      if Yields(r, segments)(n - 1) { at := at + [n - 1]; }
    }
  }

  method MineExampleBlocks(text: string) returns (blocks: seq<Block>)
    ensures blocks == FirstFew(BlocksOf(MARKDOWN, Parse(MARKDOWN, Lines(text))))
    ensures var all := BlocksOf(MARKDOWN, Parse(MARKDOWN, Lines(text)));
            blocks <= all && |blocks| == if |all| <= 4 then |all| else 4
    ensures forall b | b in blocks :: PartOf(b.content, text) && Seedable(b.content)
  {
    hide Parse, BlocksOf, Lines, PartOf, Seedable;
    blocks := Mine(MARKDOWN, text);
    forall b | b in blocks
      ensures PartOf(b.content, text) && Seedable(b.content)
    {
      MinedVerbatim(MARKDOWN, text, b);
    }
  }

  lemma NothingMined(r: Rules)
    ensures BlocksOf(r, Parse(r, [])) == []
  {
  }

  method FindClose(r: Rules, fence: Fence, lines: seq<string>, start: nat) returns (close: nat)
    requires start <= |lines|
    ensures start <= close <= |lines| && close - start == FirstClosing(r, fence, lines[start..])
  {
    close := start;
    while close < |lines| && !r.closes(fence, lines[close])
      invariant start <= close <= |lines|
      invariant FirstClosing(r, fence, lines[start..]) == close - start + FirstClosing(r, fence, lines[close..])
    {
      assert lines[close..][1..] == lines[close + 1..];
      close := close + 1;
    }
  }

  lemma BlocksCons(r: Rules, segment: Segment, others: seq<Segment>)
    ensures BlocksOf(r, [segment] + others) == BlockOf(r, segment) + BlocksOf(r, others)
  {
    assert ([segment] + others)[1..] == others;
  }

  lemma PlainStep(r: Rules, lines: seq<string>, i: nat)
    requires i < |lines| && !Opens(r, lines[i])
    ensures BlocksOf(r, Parse(r, lines[i..])) == BlocksOf(r, Parse(r, lines[i + 1..]))
  {
    hide Parse, BlocksOf;
    assert lines[i..] == [lines[i]] + lines[i + 1..];
    ParsePlain(r, lines[i], lines[i + 1..]);
    BlocksCons(r, Plain(lines[i]), Parse(r, lines[i + 1..]));
  }

  lemma {:induction false} ValidHere(r: Rules, lines: seq<string>, i: nat, close: nat)
    requires i < close <= |lines| && Opens(r, lines[i])
    requires close - (i + 1) == FirstClosing(r, r.opens(lines[i]).value, lines[i + 1..])
    ensures if close == |lines| then SegmentValid(r, Unclosed(lines[i], lines[i + 1..]))
            else SegmentValid(r, Fenced(lines[i], lines[i + 1..close], lines[close]))
  {
    hide FirstClosing;
    var fence, rest := r.opens(lines[i]).value, lines[i + 1..];
    FirstClosingIsFirst(r, fence, rest);
    assert rest[..close - (i + 1)] == lines[i + 1..close];
    if close == |lines| { assert lines[i + 1..close] == rest; }
    else { assert rest[close - (i + 1)] == lines[close]; }
  }

  lemma {:induction false} UnclosedStep(r: Rules, lines: seq<string>, i: nat)
    requires i < |lines| && Opens(r, lines[i])
    requires |lines| - (i + 1) == FirstClosing(r, r.opens(lines[i]).value, lines[i + 1..])
    ensures BlocksOf(r, Parse(r, lines[i..])) == []
  {
    hide Parse, FirstClosing, SegmentValid;
    ValidHere(r, lines, i, |lines|);
    assert lines[i..] == [lines[i]] + lines[i + 1..];
    ParseUnclosed(r, lines[i], lines[i + 1..]);
  }

  lemma {:induction false} FencedStep(r: Rules, lines: seq<string>, i: nat, close: nat)
    requires i < close < |lines| && Opens(r, lines[i])
    requires close - (i + 1) == FirstClosing(r, r.opens(lines[i]).value, lines[i + 1..])
    ensures var content := Join(lines[i + 1..close]);
            BlocksOf(r, Parse(r, lines[i..])) ==
              (if Seedable(content) then [Block(r.opens(lines[i]).value.lang, content)] else [])
              + BlocksOf(r, Parse(r, lines[close + 1..]))
  {
    hide Parse, BlocksOf, FirstClosing, SegmentValid, Seedable, Join;
    ValidHere(r, lines, i, close);
    var body := lines[i + 1..close];
    assert lines[i..] == [lines[i]] + body + [lines[close]] + lines[close + 1..];
    ParseFenced(r, lines[i], body, lines[close], lines[close + 1..]);
    BlocksCons(r, Fenced(lines[i], body, lines[close]), Parse(r, lines[close + 1..]));
  }

  lemma {:induction false} RenderedLines(segments: seq<Segment>, k: nat)
    requires k < |Render(segments)|
    ensures exists i :: 0 <= i < |segments| && Render(segments)[k] in LinesOf(segments[i])
  {
    var first := LinesOf(segments[0]);
    if k < |first| { assert Render(segments)[k] in LinesOf(segments[0]); }
    else {
      RenderedLines(segments[1..], k - |first|);
      var i :| 0 <= i < |segments[1..]| && Render(segments[1..])[k - |first|] in LinesOf(segments[1..][i]);
      assert segments[1..][i] == segments[i + 1];
    }
  }

  /** Mining the text of plain lines and fences gives exactly their first few seedable blocks, in order. */
  lemma {:induction false} MinedFromRendered(r: Rules, segments: seq<Segment>)
    requires Valid(r, segments) && segments != []
    requires forall i, line | 0 <= i < |segments| && line in LinesOf(segments[i]) :: OneLine(line)
    ensures Mined(r, Join(Render(segments))) == FirstFew(BlocksOf(r, segments))
  {
    hide Join, Lines, Parse, BlocksOf, Valid, OneLine;
    forall k | 0 <= k < |Render(segments)|
      ensures OneLine(Render(segments)[k])
    {
      RenderedLines(segments, k);
    }
    assert LinesOf(segments[0]) != [];
    JoinedSplits(Render(segments));
    RenderParses(r, segments);
  }

  // --- Verbatim -----------------------------------------------------------------------------------

  ghost predicate PartOf(content: string, text: string) { exists pre, post :: text == pre + content + post }

  lemma {:induction false} JoinedPart(before: seq<string>, body: seq<string>, after: seq<string>)
    requires body != []
    ensures PartOf(Join(body), Join(before + body + after))
  {
    var pre := if before == [] then "" else Join(before) + "\n";
    var post := if after == [] then "" else "\n" + Join(after);
    if before != [] { JoinSplits(before, body); } else { assert before + body == body; }
    if after != [] { JoinSplits(before + body, after); } else { assert before + body + after == before + body; }
    assert Join(before + body + after) == pre + Join(body) + post;
  }

  lemma {:induction false} BlockIsPart(r: Rules, before: seq<string>, segments: seq<Segment>, b: Block)
    requires b in BlocksOf(r, segments)
    ensures PartOf(b.content, Join(before + Render(segments)))
    decreases |segments|
  {
    hide Join, Seedable, PartOf;
    var first, others := segments[0], segments[1..];
    if b in BlocksOf(r, others) {
      BlockIsPart(r, before + LinesOf(first), others, b);
      assert before + LinesOf(first) + Render(others) == before + Render(segments);
    } else {
      assert b in BlockOf(r, first);
      OneBlockIsPart(r, before, first, Render(others), b);
      assert before + LinesOf(first) + Render(others) == before + Render(segments);
    }
  }

  lemma {:induction false} OneBlockIsPart(r: Rules, before: seq<string>, segment: Segment, after: seq<string>, b: Block)
    requires b in BlockOf(r, segment)
    ensures PartOf(b.content, Join(before + LinesOf(segment) + after))
  {
    hide PartOf;
    assert segment.body != [];
    JoinedPart(before + [segment.opener], segment.body, [segment.closer] + after);
    assert before + [segment.opener] + segment.body + ([segment.closer] + after) == before + LinesOf(segment) + after;
  }

  /** Every mined block stands in the section's text byte for byte. */
  lemma {:induction false} MinedVerbatim(r: Rules, text: string, b: Block)
    requires b in Mined(r, text)
    ensures PartOf(b.content, text) && Seedable(b.content)
  {
    LinesRejoin(text);
    ParseRenders(r, Lines(text));
    assert b in BlocksOf(r, Parse(r, Lines(text)));
    BlockIsPart(r, [], Parse(r, Lines(text)), b);
    assert [] + Render(Parse(r, Lines(text))) == Lines(text);
    BlocksSeedable(r, Parse(r, Lines(text)), b);
  }

  lemma {:induction false} BlocksSeedable(r: Rules, segments: seq<Segment>, b: Block)
    requires b in BlocksOf(r, segments)
    ensures Seedable(b.content)
  {
    if b !in BlockOf(r, segments[0]) { BlocksSeedable(r, segments[1..], b); }
  }
}
