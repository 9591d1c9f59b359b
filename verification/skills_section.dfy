/**
  Replacing the skills section of a system prompt: finding the live section
  header, the next live heading after it, and what stays of the prompt.
  */
module SkillsSection {
  import opened Prelude
  import opened Text

  const MARKER := "## Skills (mandatory)"
  const HEADING := "\n## "

  // ----- Fences -----

  predicate FenceLine(line: string) {
    HasPrefix(TrimSpace(line), "```")
  }

  function Fences(lines: seq<string>): nat {
    if lines == [] then 0 else Fences(lines[..|lines| - 1]) + (if FenceLine(lines[|lines| - 1]) then 1 else 0)
  }

  /** The text ends inside a fenced code block. */
  predicate InFence(text: string) {
    Fences(Split(text, '\n')) % 2 == 1
  }

  lemma FenceLineExactly(line: string)
    ensures FenceLine(line) <==> exists i: nat :: MarkedAt(line, i, "```")
  {
    TrimmedHasPrefix(line, "```");
  }

  function FenceLines(lines: seq<string>): set<int> {
    set i | 0 <= i < |lines| && FenceLine(lines[i])
  }

  lemma OneMoreLine(front: seq<string>, line: string)
    ensures |FenceLines(front + [line])| == |FenceLines(front)| + if FenceLine(line) then 1 else 0
  {
    var n := |front|;
    forall i | 0 <= i <= n ensures i in FenceLines(front + [line]) <==> if i < n then i in FenceLines(front) else FenceLine(line) {
      assert (front + [line])[i] == if i < n then front[i] else line;
    }
    if FenceLine(line) {
      assert FenceLines(front + [line]) == FenceLines(front) + {n};
    } else {
      assert FenceLines(front + [line]) == FenceLines(front);
    }
  }

  lemma {:induction false} FencesCount(lines: seq<string>)
    ensures Fences(lines) == |FenceLines(lines)|
  {
    if lines != [] {
      var n := |lines| - 1;
      FencesCount(lines[..n]);
      OneMoreLine(lines[..n], lines[n]);
      assert lines == lines[..n] + [lines[n]];
    }
  }

  /** The text ends inside a block exactly when an odd number of its lines are fences. */
  lemma InFenceExactly(text: string)
    ensures InFence(text) <==> |FenceLines(Split(text, '\n'))| % 2 == 1
  {
    FencesCount(Split(text, '\n'));
  }

  method InsideCodeBlock(text: string) returns (inBlock: bool)
    ensures inBlock <==> InFence(text)
  {
    inBlock := false;
    var lines := Split(text, '\n');
    for i := 0 to |lines|
      invariant inBlock <==> Fences(lines[..i]) % 2 == 1
    {
      assert lines[..i + 1][..i] == lines[..i];
      if HasPrefix(TrimSpace(lines[i]), "```") {
        inBlock := !inBlock;
      }
    }
    assert lines[..|lines|] == lines;
  }

  // ----- What the search looks for -----

  predicate At(text: string, pos: nat, sub: string) {
    pos + |sub| <= |text| && text[pos..pos + |sub|] == sub
  }

  /** A section header: at the start of a line and outside fenced code. */
  predicate LiveMarker(text: string, pos: nat) {
    && At(text, pos, MARKER)
    && (pos == 0 || text[pos - 1] == '\n' || text[pos - 1] == '\r')
    && !InFence(text[..pos])
  }

  /** A following heading; the four characters must not end the text. */
  predicate LiveHeading(text: string, pos: nat) {
    pos + 4 < |text| && At(text, pos, HEADING) && !InFence(text[..pos])
  }

  /** The header by its characters, and outside fences by their number. */
  predicate IsHeader(text: string, pos: nat) {
    && pos + 21 <= |text| && text[pos..pos + 21] == "## Skills (mandatory)"
    && (pos > 0 ==> text[pos - 1] in "\n\r")
    && |FenceLines(Split(text[..pos], '\n'))| % 2 == 0
  }

  predicate IsHeading(text: string, pos: nat) {
    && pos + 5 <= |text| && text[pos..pos + 4] == "\n## "
    && |FenceLines(Split(text[..pos], '\n'))| % 2 == 0
  }

  lemma LiveMeansHeader(text: string, pos: nat)
    ensures LiveMarker(text, pos) <==> IsHeader(text, pos)
    ensures LiveHeading(text, pos) <==> IsHeading(text, pos)
  {
    if pos <= |text| { InFenceExactly(text[..pos]); }
  }

  function FirstMarker(text: string, from: nat): (pos: Option<nat>)
    ensures pos.Some? ==> from <= pos.value && LiveMarker(text, pos.value)
    ensures forall p: nat | from <= p && (pos.Some? ==> p < pos.value) :: !LiveMarker(text, p)
    decreases |text| - from
  {
    if from > |text| then None
    else if LiveMarker(text, from) then Some(from)
    else FirstMarker(text, from + 1)
  }

  function FirstHeading(text: string, from: nat): (pos: Option<nat>)
    ensures pos.Some? ==> from <= pos.value && LiveHeading(text, pos.value)
    ensures forall p: nat | from <= p && (pos.Some? ==> p < pos.value) :: !LiveHeading(text, p)
    decreases |text| - from
  {
    if from > |text| then None
    else if LiveHeading(text, from) then Some(from)
    else FirstHeading(text, from + 1)
  }

  /** Where the search for the next heading starts: past the header and one newline. */
  function AfterHeader(text: string, pos: nat): nat {
    var end := pos + |MARKER|;
    if end < |text| && text[end] == '\n' then end + 1 else end
  }

  function From(text: string, pos: Option<nat>): string {
    if pos.Some? && pos.value <= |text| then text[pos.value..] else ""
  }

  function Replaced(current: string, section: string): string {
    match FirstMarker(current, 0)
    case None => current + "\n\n" + section
    case Some(pos) => current[..pos] + section + From(current, FirstHeading(current, AfterHeader(current, pos)))
  }

  // ----- The search -----

  /** `strings.Index(text[from:], sub)`, as a position in `text`. */
  function IndexFrom(text: string, sub: string, from: nat): (pos: Option<nat>)
    ensures pos.Some? ==> from <= pos.value && At(text, pos.value, sub)
    ensures forall p: nat | from <= p && (pos.Some? ==> p < pos.value) :: !At(text, p, sub)
    decreases |text| - from
  {
    if from > |text| then None
    else if At(text, from, sub) then Some(from)
    else IndexFrom(text, sub, from + 1)
  }

  /** What the searches find is the first header, and the first heading, there is. */
  lemma FoundExactly(text: string, from: nat)
    ensures var header := FirstMarker(text, from);
            && (header.Some? ==> from <= header.value && IsHeader(text, header.value))
            && (forall p: nat | from <= p && (header.Some? ==> p < header.value) :: !IsHeader(text, p))
    ensures var heading := FirstHeading(text, from);
            && (heading.Some? ==> from <= heading.value && IsHeading(text, heading.value))
            && (forall p: nat | from <= p && (heading.Some? ==> p < heading.value) :: !IsHeading(text, p))
  {
    forall p: nat ensures LiveMarker(text, p) <==> IsHeader(text, p) { LiveMeansHeader(text, p); }
    forall p: nat ensures LiveHeading(text, p) <==> IsHeading(text, p) { LiveMeansHeader(text, p); }
  }

  lemma FirstMarkerIs(text: string, from: nat, pos: nat)
    requires from <= pos && LiveMarker(text, pos)
    requires forall p: nat | from <= p < pos :: !LiveMarker(text, p)
    ensures FirstMarker(text, from) == Some(pos)
  {
    var first := FirstMarker(text, from);
    assert first.Some?;
  }

  lemma FirstHeadingIs(text: string, from: nat, pos: nat)
    requires from <= pos && LiveHeading(text, pos)
    requires forall p: nat | from <= p < pos :: !LiveHeading(text, p)
    ensures FirstHeading(text, from) == Some(pos)
  {
    var first := FirstHeading(text, from);
    assert first.Some?;
  }

  lemma NoMarkerFrom(text: string, from: nat)
    requires forall p: nat | from <= p :: !LiveMarker(text, p)
    ensures FirstMarker(text, from) == None
  {
  }

  lemma NoHeadingFrom(text: string, from: nat)
    requires forall p: nat | from <= p :: !LiveHeading(text, p)
    ensures FirstHeading(text, from) == None
  {
  }

  method FindMarker(current: string) returns (found: Option<nat>)
    ensures found == FirstMarker(current, 0)
  {
    var idx := 0;
    while idx <= |current|
      invariant idx <= |current| + 1
      invariant forall p: nat | p < idx :: !LiveMarker(current, p)
      decreases |current| + 1 - idx
    {
      var i := IndexFrom(current, MARKER, idx);
      if i.None? {
        NoMarkerFrom(current, 0);
        return None;
      }
      var pos := i.value;
      if pos == 0 || current[pos - 1] == '\n' || current[pos - 1] == '\r' {
        var inBlock := InsideCodeBlock(current[..pos]);
        if !inBlock {
          FirstMarkerIs(current, 0, pos);
          return Some(pos);
        }
      }
      idx := pos + 1;
    }
    NoMarkerFrom(current, 0);
    found := None;
  }

  lemma HeadingByCharacters(text: string, pos: nat)
    requires pos + 4 < |text|
    ensures At(text, pos, HEADING) <==> text[pos] == '\n' && text[pos + 1] == '#' && text[pos + 2] == '#' && text[pos + 3] == ' '
  {
    var four := text[pos..pos + 4];
    assert four == [text[pos], text[pos + 1], text[pos + 2], text[pos + 3]];
    assert At(text, pos, HEADING) ==> forall k | 0 <= k < 4 :: four[k] == HEADING[k];
  }

  method FindHeading(current: string, end: nat) returns (found: Option<nat>)
    requires end <= |current|
    ensures found == FirstHeading(current, end)
  {
    for i := end to |current|
      invariant forall p: nat | end <= p < i :: !LiveHeading(current, p)
    {
      if i + 4 < |current| {
        HeadingByCharacters(current, i);
        if current[i] == '\n' && current[i + 1] == '#' && current[i + 2] == '#' && current[i + 3] == ' ' {
          var inBlock := InsideCodeBlock(current[..i]);
          if !inBlock {
            FirstHeadingIs(current, end, i);
            return Some(i);
          }
        }
      }
    }
    NoHeadingFrom(current, end);
    found := None;
  }

  method ReplaceSkillsSection(current: string, section: string) returns (prompt: string)
    ensures prompt == Replaced(current, section)
  {
    var found := FindMarker(current);
    if found.None? {
      return current + "\n\n" + section;
    }
    var pos := found.value;
    var end := pos + |MARKER|;
    if end < |current| && current[end] == '\n' {
      end := end + 1;
    }
    var next := FindHeading(current, end);
    if next.None? {
      prompt := current[..pos] + section;
      assert prompt + "" == prompt;
    } else {
      prompt := current[..pos] + section + current[next.value..];
    }
  }

  // ----- What is kept -----

  lemma SameStart(start: string, a: string, b: string)
    ensures start + a == start + b <==> a == b
  {
    if start + a == start + b {
      assert a == (start + a)[|start|..] && b == (start + b)[|start|..];
    }
  }

  /**
    The text before the header is kept, and the text from the next live heading
    on, exactly when that heading is not on the line right after the header; one
    that is gets swallowed up to the heading after it.
    */
  lemma KeepsTheNextSectionExactly(current: string, section: string, pos: nat)
    requires FirstMarker(current, 0) == Some(pos)
    ensures current[..pos] + section <= Replaced(current, section)
    ensures var next := FirstHeading(current, pos + |MARKER|);
            Replaced(current, section) == current[..pos] + section + From(current, next)
            <==> next != Some(pos + |MARKER|)
  {
    var header := pos + |MARKER|;
    var next, kept := FirstHeading(current, header), FirstHeading(current, AfterHeader(current, pos));
    SameStart(current[..pos] + section, From(current, kept), From(current, next));
    if next == Some(header) {
      HeadingBeginsWithALine(current, header);
      assert AfterHeader(current, pos) == header + 1;
      LaterIsShorter(current, header, kept);
    } else if next.Some? {
      FirstHeadingIs(current, AfterHeader(current, pos), next.value);
    } else {
      NoHeadingFrom(current, AfterHeader(current, pos));
    }
  }

  lemma HeadingBeginsWithALine(text: string, pos: nat)
    requires LiveHeading(text, pos)
    ensures text[pos] == '\n'
  {
    HeadingByCharacters(text, pos);
  }

  lemma LaterIsShorter(text: string, pos: nat, later: Option<nat>)
    requires pos < |text| && (later.Some? ==> pos < later.value)
    ensures |From(text, later)| < |From(text, Some(pos))|
  {
  }

  lemma EmptyTextIsNotFenced()
    ensures !InFence("")
  {
    assert Split("", '\n') == [""] && [""][..0] == [];
    assert !FenceLine("");
  }

  lemma PlainLineIsNotFenced(line: string)
    requires line != "" && '\n' !in line && !IsSpace(line[0]) && line[0] != '`'
    ensures !InFence(line)
  {
    SplitWhole(line, '\n');
    FenceByLeftTrim(line);
    NotAFence(line, 0);
    OneLine(line);
  }

  lemma NoLinesNoHeading(text: string, from: nat)
    requires forall p | from <= p < |text| :: text[p] != '\n'
    ensures FirstHeading(text, from) == None
  {
    forall p: nat | from <= p ensures !LiveHeading(text, p) {
      if p + 4 < |text| { HeadingByCharacters(text, p); }
    }
    NoHeadingFrom(text, from);
  }

  lemma HeadingStands(start: string, title: string)
    requires title != "" && !InFence(start)
    ensures FirstHeading(start + (HEADING + title), |start|) == Some(|start|)
  {
    AtMiddle(start, HEADING, title);
    HeadingIsFirst(start + (HEADING + title), |start|);
  }

  lemma AtMiddle(start: string, sub: string, rest: string)
    ensures var text := start + (sub + rest); At(text, |start|, sub) && text[..|start|] == start
  {
    var text := start + (sub + rest);
    assert text[|start|..|start| + |sub|] == sub;
  }

  lemma HeadingIsFirst(text: string, pos: nat)
    requires LiveHeading(text, pos)
    ensures FirstHeading(text, pos) == Some(pos)
  {
  }

  lemma HeaderStands(rest: string)
    ensures FirstMarker(MARKER + rest, 0) == Some(0)
  {
    var text := MARKER + rest;
    assert text[..0] == "" && text[0..|MARKER|] == MARKER;
    EmptyTextIsNotFenced();
    FirstMarkerIs(text, 0, 0);
  }

  lemma TitleHasNoLine(start: string, title: string)
    requires '\n' !in title
    ensures var text := start + (HEADING + title); forall p | |start| < p < |text| :: text[p] != '\n'
  {
    var text := start + (HEADING + title);
    forall p | |start| < p < |text| ensures text[p] != '\n' {
      assert text[p] == (HEADING + title)[p - |start|];
      assert p - |start| >= 4 ==> text[p] == title[p - |start| - 4];
    }
  }

  /** A prompt with a section right under the header: it is lost. */
  lemma NextSectionIsSwallowed(title: string, section: string)
    requires '\n' !in title && title != ""
    ensures var current := MARKER + (HEADING + title);
            && FirstMarker(current, 0) == Some(0)
            && FirstHeading(current, |MARKER|) == Some(|MARKER|)
            && Replaced(current, section) == section
  {
    HeaderStands(HEADING + title);
    PlainLineIsNotFenced(MARKER);
    HeadingStands(MARKER, title);
    TitleHasNoLine(MARKER, title);
    SwallowedBehind(MARKER + (HEADING + title), section);
  }

  lemma SwallowedBehind(current: string, section: string)
    requires FirstMarker(current, 0) == Some(0) && |current| > |MARKER| && current[|MARKER|] == '\n'
    requires forall p | |MARKER| < p < |current| :: current[p] != '\n'
    ensures Replaced(current, section) == section
  {
    NoLinesNoHeading(current, |MARKER| + 1);
    assert "" + section + "" == section;
  }

  // ----- Idempotence -----

  predicate NoFenceLine(lines: seq<string>) {
    forall i | 0 <= i < |lines| :: !FenceLine(lines[i])
  }

  /** A section as the catalog prints it: header line first, no further heading, no fence. */
  ghost predicate SectionShape(section: string) {
    && HasPrefix(section, MARKER + "\n")
    && (forall p: nat :: !At(section, p, HEADING))
    && NoFenceLine(Split(section, '\n'))
  }

  lemma {:induction false} FencesConcat(a: seq<string>, b: seq<string>)
    ensures Fences(a + b) == Fences(a) + Fences(b)
    decreases |b|
  {
    if b == [] {
      assert a + b == a;
    } else {
      assert (a + b)[..|a + b| - 1] == a + b[..|b| - 1];
      FencesConcat(a, b[..|b| - 1]);
    }
  }

  lemma {:induction false} NoFencesCounted(lines: seq<string>)
    requires NoFenceLine(lines)
    ensures Fences(lines) == 0
  {
    if lines != [] { NoFencesCounted(lines[..|lines| - 1]); }
  }

  function Last(lines: seq<string>): string
    requires lines != []
  {
    lines[|lines| - 1]
  }

  function Front(lines: seq<string>): seq<string>
    requires lines != []
  {
    lines[..|lines| - 1]
  }

  /** Two lists of lines joined in the middle: the last of one and the first of the other become one line. */
  function Glue(x: seq<string>, y: seq<string>): seq<string>
    requires x != [] && y != []
  {
    Front(x) + [Last(x) + y[0]] + y[1..]
  }

  lemma GlueCons(line: string, x: seq<string>, y: seq<string>)
    requires x != [] && y != []
    ensures Glue([line] + x, y) == [line] + Glue(x, y)
  {
    assert Front([line] + x) == [line] + Front(x);
  }

  lemma GlueChar(c: char, x: seq<string>, y: seq<string>)
    requires x != [] && y != []
    ensures Glue([[c] + x[0]] + x[1..], y) == [[c] + Glue(x, y)[0]] + Glue(x, y)[1..]
  {
    if |x| == 1 {
      assert ([c] + x[0]) + y[0] == [c] + (x[0] + y[0]);
    } else {
      GlueCons(x[0], x[1..], y);
      GlueCons([c] + x[0], x[1..], y);
      assert [x[0]] + x[1..] == x;
    }
  }

  /** Joining two texts joins the last line of one and the first of the other. */
  lemma {:induction false} SplitGlue(a: string, b: string)
    ensures Split(a + b, '\n') == Glue(Split(a, '\n'), Split(b, '\n'))
  {
    var y := Split(b, '\n');
    if a == "" {
      assert a + b == b && "" + y[0] == y[0];
    } else {
      SplitGlue(a[1..], b);
      assert (a + b)[1..] == a[1..] + b;
      var x := Split(a[1..], '\n');
      GlueCons("", x, y);
      GlueChar(a[0], x, y);
    }
  }

  /** A fence is what starts with three backticks after leading white space. */
  lemma FenceByLeftTrim(line: string)
    ensures FenceLine(line) <==> HasPrefix(TrimLeft(line), "```")
  {
    var t := TrimLeft(line);
    var r := TrimRight(t);
    assert HasPrefix(t, "```") ==> t[0] == '`' && t[1] == '`' && t[2] == '`' && !IsSpace('`');
    assert HasPrefix(t, "```") ==> |r| >= 3 && r[..3] == t[..3];
  }

  lemma {:induction false} TrimLeftConcat(a: string, b: string)
    ensures TrimLeft(a + b) == if TrimLeft(a) == "" then TrimLeft(b) else TrimLeft(a) + b
  {
    if a == "" {
      assert a + b == b;
    } else if IsSpace(a[0]) {
      assert (a + b)[1..] == a[1..] + b;
      TrimLeftConcat(a[1..], b);
    }
  }

  lemma {:induction false} TrimLeftKeepsLast(a: string)
    ensures TrimLeft(a) != "" ==> a != "" && TrimLeft(a)[|TrimLeft(a)| - 1] == a[|a| - 1]
  {
    if a != "" && IsSpace(a[0]) { TrimLeftKeepsLast(a[1..]); }
  }

  /** A fence line stays one when text is appended to it. */
  lemma FenceExtended(a: string, b: string)
    requires FenceLine(a)
    ensures FenceLine(a + b)
  {
    FenceByLeftTrim(a);
    FenceByLeftTrim(a + b);
    TrimLeftConcat(a, b);
  }

  lemma NotAFence(s: string, i: nat)
    requires i < 3 && i < |s| && s[i] != '`'
    ensures !HasPrefix(s, "```")
  {
  }

  /** The header text does not turn a line that ends in a carriage return, or is empty, into a fence or out of one. */
  lemma FenceBeforeMarker(line: string)
    requires line == "" || line[|line| - 1] == '\r'
    ensures FenceLine(line + MARKER) <==> FenceLine(line)
  {
    FenceByLeftTrim(line);
    FenceByLeftTrim(line + MARKER);
    TrimLeftConcat(line, MARKER);
    TrimLeftKeepsLast(line);
    assert TrimLeft(MARKER) == MARKER;
    var t := TrimLeft(line);
    if t != "" && |t| < 3 {
      assert (t + MARKER)[|t| - 1] == '\r';
      NotAFence(t + MARKER, |t| - 1);
    }
  }

  lemma {:induction false} LastLineEnds(text: string)
    ensures var last := Last(Split(text, '\n'));
            if text == "" || text[|text| - 1] == '\n' then last == "" else last != "" && last[|last| - 1] == text[|text| - 1]
  {
    if text != "" {
      LastLineEnds(text[1..]);
      if |text| > 1 { assert text[1..][|text| - 2] == text[|text| - 1]; }
    }
  }

  /** Fences of two glued lists of lines, counted apart. */
  lemma FencesGlued(x: seq<string>, y: seq<string>)
    requires x != [] && y != []
    ensures Fences(Glue(x, y)) == Fences(x) - Fences([Last(x)]) + Fences([Last(x) + y[0]]) + Fences(y[1..])
  {
    FencesConcat(Front(x) + [Last(x) + y[0]], y[1..]);
    FencesConcat(Front(x), [Last(x) + y[0]]);
    FencesOfFront(x);
  }

  lemma FencesOfFront(x: seq<string>)
    requires x != []
    ensures Fences(x) == Fences(Front(x)) + Fences([Last(x)])
  {
    FencesConcat(Front(x), [Last(x)]);
    assert x == Front(x) + [Last(x)];
  }

  /** A section put where a header was leaves the fences before it as they are. */
  lemma SectionAddsNoFence(before: string, section: string)
    requires SectionShape(section)
    requires before == "" || before[|before| - 1] == '\n' || before[|before| - 1] == '\r'
    ensures InFence(before + section) <==> InFence(before)
  {
    SplitGlue(before, section);
    LastLineEnds(before);
    HeaderIsTheFirstLine(section);
    GluedSectionAddsNoFence(Split(before, '\n'), Split(section, '\n'));
  }

  lemma HeaderIsTheFirstLine(section: string)
    requires SectionShape(section)
    ensures Split(section, '\n')[0] == MARKER
  {
    assert MARKER + "\n" == MARKER + ['\n'];
    FirstLine(MARKER, section);
  }

  lemma GluedSectionAddsNoFence(x: seq<string>, y: seq<string>)
    requires x != [] && y != [] && y[0] == MARKER && NoFenceLine(y)
    requires Last(x) == "" || Last(x)[|Last(x)| - 1] == '\r'
    ensures Fences(Glue(x, y)) == Fences(x)
  {
    FencesGlued(x, y);
    FenceBeforeMarker(Last(x));
    NoFencesCounted(y[1..]);
    OneLine(Last(x));
    OneLine(Last(x) + y[0]);
  }

  lemma OneLine(line: string)
    ensures Fences([line]) == if FenceLine(line) then 1 else 0
  {
    assert [line][..0] == [];
  }

  lemma FirstLine(line: string, text: string)
    requires '\n' !in line && HasPrefix(text, line + ['\n'])
    ensures Split(text, '\n')[0] == line
  {
    var rest := text[|line| + 1..];
    assert text == line + ['\n'] + rest;
    SplitConcat(line, rest, '\n');
    SplitWhole(line, '\n');
  }

  /** Inside the new section, and across its end, no heading begins. */
  lemma NoHeadingInSection(before: string, section: string, tail: string, p: nat)
    requires SectionShape(section) && (tail == "" || tail[0] == '\n')
    requires |before| <= p < |before| + |section|
    ensures !LiveHeading(before + section + tail, p)
  {
    var text := before + section + tail;
    var q, k := p - |before|, |before| + |section|;
    if p + 4 < |text| {
      HeadingByCharacters(text, p);
      if q + 4 <= |section| {
        assert section[q..q + 4] == text[p..p + 4];
        assert At(section, q, HEADING) <==> At(text, p, HEADING);
      } else {
        assert text[k] == tail[0];
      }
    }
  }

  /** After the header of the new section the next live heading starts the kept rest, if there is one. */
  lemma HeadingAfterSection(before: string, section: string, tail: string, start: nat)
    requires SectionShape(section)
    requires before == "" || before[|before| - 1] == '\n' || before[|before| - 1] == '\r'
    requires !InFence(before)
    requires tail == "" || (|tail| > 4 && At(tail, 0, HEADING))
    requires |before| <= start <= |before + section|
    ensures From(before + section + tail, FirstHeading(before + section + tail, start)) == tail
  {
    var text, end := before + section + tail, |before + section|;
    forall p: nat | start <= p < end ensures !LiveHeading(text, p) {
      NoHeadingInSection(before, section, tail, p);
    }
    if tail == "" {
      NoHeadingFrom(text, start);
    } else {
      assert text[..end] == before + section && text[end..] == tail;
      SectionAddsNoFence(before, section);
      assert text[end..end + 4] == tail[0..4];
      FirstHeadingIs(text, start, end);
    }
  }

  /** Replacing again in a prompt made of a kept start, the section and a kept rest changes nothing. */
  lemma ReplacedAgain(before: string, section: string, tail: string)
    requires SectionShape(section)
    requires before == "" || before[|before| - 1] == '\n' || before[|before| - 1] == '\r'
    requires !InFence(before)
    requires forall p: nat | p < |before| :: !LiveMarker(before + section + tail, p)
    requires tail == "" || (|tail| > 4 && At(tail, 0, HEADING))
    ensures Replaced(before + section + tail, section) == before + section + tail
  {
    var text, pos := before + section + tail, |before|;
    assert text[..pos] == before && text[pos..pos + |MARKER|] == section[..|MARKER|] == MARKER;
    assert pos > 0 ==> text[pos - 1] == before[pos - 1];
    FirstMarkerIs(text, 0, pos);
    assert text[pos + |MARKER|] == section[|MARKER|];
    HeadingAfterSection(before, section, tail, AfterHeader(text, pos));
  }

  /** With a live header, one replacement is enough. */
  lemma IdempotentWithHeader(current: string, section: string, pos: nat)
    requires SectionShape(section) && FirstMarker(current, 0) == Some(pos)
    ensures Replaced(Replaced(current, section), section) == Replaced(current, section)
  {
    var before, next := current[..pos], FirstHeading(current, AfterHeader(current, pos));
    var tail := From(current, next);
    var text := before + section + tail;
    forall p: nat | p < pos ensures !LiveMarker(text, p) {
      SameMarkersBefore(current, section, tail, pos, p);
    }
    if next.Some? {
      assert tail[0..4] == current[next.value..next.value + 4];
    }
    ReplacedAgain(before, section, tail);
  }

  /** Up to the end of the header the new prompt reads like the old one. */
  lemma SameMarkersBefore(current: string, section: string, tail: string, pos: nat, p: nat)
    requires SectionShape(section) && LiveMarker(current, pos) && p < pos
    ensures LiveMarker(current[..pos] + section + tail, p) ==> LiveMarker(current, p)
  {
    var text, m := current[..pos] + section + tail, pos + |MARKER|;
    Associate(current[..pos], section, tail);
    Cut(current, pos);
    HeaderBegins(section, tail);
    SameBeginning(current[..pos], section + tail, current[pos..], |MARKER|);
    assert current[pos..][..|MARKER|] == current[pos..m];
    SameMarker(text, current, m, p);
  }

  lemma HeaderBegins(section: string, tail: string)
    requires HasPrefix(section, MARKER + "\n")
    ensures |section| > |MARKER| && (section + tail)[..|MARKER|] == MARKER
  {
    assert section[..|MARKER|] == (MARKER + "\n")[..|MARKER|];
    assert (section + tail)[..|MARKER|] == section[..|MARKER|];
  }

  /** Texts with the same beginning have the same live headers in it. */
  lemma SameMarker(a: string, b: string, m: nat, p: nat)
    requires m <= |a| && m <= |b| && a[..m] == b[..m] && p + |MARKER| <= m
    ensures LiveMarker(a, p) <==> LiveMarker(b, p)
  {
    SameSlice(a, b, m, 0, p);
    SameSlice(a, b, m, p, p + |MARKER|);
    if p > 0 { SameElement(a, b, m, p - 1); }
  }

  lemma HeaderIsOneLine(text: string, p: nat, k: nat)
    requires At(text, p, MARKER) && p <= k < p + |MARKER|
    ensures text[k] != '\n'
  {
    SliceAt(text, p, p + |MARKER|, k);
    NoLineInHeader(k - p);
  }

  lemma NoLineInHeader(j: nat)
    requires j < |MARKER|
    ensures MARKER[j] != '\n'
  {
    assert '\n' !in MARKER;
  }

  /** Appending after a blank line brings no header into the text before it. */
  lemma AppendedHeaders(current: string, section: string, p: nat)
    requires p < |current| + 2
    ensures LiveMarker(current + "\n\n" + section, p) <==> LiveMarker(current, p)
  {
    var text, n := current + "\n\n" + section, |current|;
    if p + |MARKER| <= n {
      SameMarkerBefore(current, "\n\n" + section, p);
      assert text == current + ("\n\n" + section);
    } else {
      assert text[if p <= n then n else n + 1] == '\n';
      if At(text, p, MARKER) { HeaderIsOneLine(text, p, if p <= n then n else n + 1); }
    }
  }

  lemma SameMarkerBefore(current: string, more: string, p: nat)
    requires p + |MARKER| <= |current|
    ensures LiveMarker(current + more, p) <==> LiveMarker(current, p)
  {
    assert (current + more)[..|current|] == current[..|current|];
    SameMarker(current + more, current, |current|, p);
  }

  lemma BlankLineKeepsFence(current: string)
    ensures InFence(current + "\n\n") <==> InFence(current)
  {
    assert current + "\n\n" == (current + ['\n'] + "") + ['\n'] + "";
    SplitConcat(current + ['\n'] + "", "", '\n');
    SplitConcat(current, "", '\n');
    SplitWhole("", '\n');
    FencesConcat(Split(current, '\n') + [""], [""]);
    FencesConcat(Split(current, '\n'), [""]);
    OneLine("");
  }

  /** A beginning of a text without fence lines has none. */
  lemma NoFenceInPrefix(a: string, b: string)
    requires NoFenceLine(Split(a + b, '\n'))
    ensures NoFenceLine(Split(a, '\n'))
  {
    SplitGlue(a, b);
    NoFenceBeforeGlue(Split(a, '\n'), Split(b, '\n'));
  }

  lemma NoFenceBeforeGlue(x: seq<string>, y: seq<string>)
    requires x != [] && y != [] && NoFenceLine(Glue(x, y))
    ensures NoFenceLine(x)
  {
    forall i | 0 <= i < |x| ensures !FenceLine(x[i]) {
      assert Glue(x, y)[i] == if i == |x| - 1 then x[i] + y[0] else x[i];
      if FenceLine(x[i]) { FenceExtended(x[i], y[0]); }
    }
  }

  /** Inside an open fence the appended header is never live. */
  lemma AppendedInsideFence(current: string, section: string, j: nat)
    requires InFence(current) && NoFenceLine(Split(section, '\n')) && j <= |section|
    ensures InFence((current + "\n\n" + section)[..|current| + 2 + j])
  {
    NoFenceInBeginning(section, j);
    FencesBehindBlankLine(current, section, j);
  }

  lemma FencesBehindBlankLine(current: string, section: string, j: nat)
    requires j <= |section| && Fences(Split(section[..j], '\n')) == 0
    ensures InFence((current + "\n\n" + section)[..|current| + 2 + j]) <==> InFence(current)
  {
    AppendedPrefix(current, section, j);
    BlankLinesThen(current, section[..j]);
  }

  lemma NoFenceInBeginning(section: string, j: nat)
    requires NoFenceLine(Split(section, '\n')) && j <= |section|
    ensures Fences(Split(section[..j], '\n')) == 0
  {
    Cut(section, j);
    NoFencesBefore(section[..j], section[j..]);
  }

  lemma NoFencesBefore(a: string, b: string)
    requires NoFenceLine(Split(a + b, '\n'))
    ensures Fences(Split(a, '\n')) == 0
  {
    NoFenceInPrefix(a, b);
    NoFencesCounted(Split(a, '\n'));
  }

  lemma AppendedPrefix(current: string, section: string, j: nat)
    requires j <= |section|
    ensures (current + "\n\n" + section)[..|current| + 2 + j] == current + ['\n'] + "" + ['\n'] + section[..j]
  {
  }

  lemma BlankLinesThen(current: string, rest: string)
    ensures Fences(Split(current + ['\n'] + "" + ['\n'] + rest, '\n')) == Fences(Split(current, '\n')) + Fences(Split(rest, '\n'))
  {
    SplitConcat(current + ['\n'] + "", rest, '\n');
    SplitConcat(current, "", '\n');
    SplitWhole("", '\n');
    FencesConcat(Split(current, '\n') + [""], Split(rest, '\n'));
    FencesConcat(Split(current, '\n'), [""]);
    OneLine("");
  }

  /**
    Replacing twice is replacing once exactly when the prompt has a live header
    or does not end inside an open fence; inside one the section is appended again
    and again.
    */
  lemma ReplacementIsIdempotentExactly(current: string, section: string)
    requires SectionShape(section)
    ensures Replaced(Replaced(current, section), section) == Replaced(current, section)
            <==> FirstMarker(current, 0).Some? || !InFence(current)
  {
    match FirstMarker(current, 0) {
      case Some(pos) => IdempotentWithHeader(current, section, pos);
      case None => if InFence(current) { AppendedInFence(current, section); } else { AppendedOnce(current, section); }
    }
  }

  lemma NoHeaderBefore(current: string, section: string)
    requires FirstMarker(current, 0) == None
    ensures forall p: nat | p < |current| + 2 :: !LiveMarker(current + "\n\n" + section, p)
  {
    forall p: nat | p < |current| + 2 ensures !LiveMarker(current + "\n\n" + section, p) {
      AppendedHeaders(current, section, p);
    }
  }

  lemma AppendedOnce(current: string, section: string)
    requires SectionShape(section) && FirstMarker(current, 0) == None && !InFence(current)
    ensures Replaced(Replaced(current, section), section) == Replaced(current, section)
  {
    NoHeaderBefore(current, section);
    BlankLineKeepsFence(current);
    assert current + "\n\n" + section == (current + "\n\n") + section + "";
    ReplacedAgain(current + "\n\n", section, "");
  }

  /** Inside an open fence the section is not found again, and so appended again. */
  lemma AppendedInFence(current: string, section: string)
    requires NoFenceLine(Split(section, '\n')) && FirstMarker(current, 0) == None && InFence(current)
    ensures Replaced(Replaced(current, section), section) != Replaced(current, section)
  {
    var text := current + "\n\n" + section;
    NoHeaderBefore(current, section);
    forall p: nat ensures !LiveMarker(text, p) {
      if |current| + 2 <= p <= |text| { AppendedInsideFence(current, section, p - |current| - 2); }
    }
    NoMarkerFrom(text, 0);
    assert |Replaced(text, section)| > |text|;
  }

  /** The empty section of an empty catalog is not of this shape: each refresh of a prompt without a header adds a blank line. */
  lemma EmptySectionGrows(current: string)
    requires FirstMarker(current, 0) == None
    ensures Replaced(current, "") == current + "\n\n" && FirstMarker(Replaced(current, ""), 0) == None
    ensures Replaced(Replaced(current, ""), "") != Replaced(current, "")
  {
    var text := current + "\n\n" + "";
    assert text == current + "\n\n";
    forall p: nat ensures !LiveMarker(text, p) {
      if p < |current| + 2 { AppendedHeaders(current, "", p); }
    }
    NoMarkerFrom(text, 0);
    assert |Replaced(text, "")| > |text|;
  }
}
