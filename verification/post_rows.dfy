/**
  Splitting a Markdown message into rows, with every fenced code block in a row
  of its own.
  */
module PostRows {
  import opened Text
  import Prelude

  datatype Row = Plain(text: string) | Markdown(text: string)

  // ----- Fences and segments -----

  predicate Opens(line: string) {
    HasPrefix(TrimSpace(line), "```")
  }

  predicate Closes(line: string) {
    TrimSpace(line) == "```"
  }

  /** A line opens a block when it begins, after white space, with three backquotes, whatever follows them. */
  lemma OpensExactly(line: string)
    ensures Opens(line) <==> exists i: nat :: MarkedAt(line, i, "```")
  {
    TrimmedHasPrefix(line, "```");
  }

  /** It closes one when there is nothing else on it. */
  lemma ClosesExactly(line: string)
    ensures Closes(line) <==> exists i: nat :: MarkedAt(line, i, "```") && AllSpace(line[i + 3..])
  {
    TrimmedIs(line, "```");
  }

  /** A run of lines outside fenced blocks. */
  predicate Prose(seg: seq<string>) {
    seg != [] && forall i | 0 <= i < |seg| :: !Opens(seg[i])
  }

  /** An opening line and lines after it, none of which closes the block. */
  predicate OpenBlock(seg: seq<string>) {
    seg != [] && Opens(seg[0]) && forall i | 0 < i < |seg| :: !Closes(seg[i])
  }

  /** An opening line, the lines of the block, and the line that closes it. */
  predicate ClosedBlock(seg: seq<string>) {
    |seg| > 1 && OpenBlock(seg[..|seg| - 1]) && Closes(seg[|seg| - 1])
  }

  /** Only the last segment may be a block without its closing line. */
  predicate Kind(seg: seq<string>, last: bool) {
    Prose(seg) || ClosedBlock(seg) || (last && OpenBlock(seg))
  }

  function Flatten(segs: seq<seq<string>>): seq<string> {
    if segs == [] then [] else segs[0] + Flatten(segs[1..])
  }

  /**
    What the rows should be made of: all the lines in order, cut into closed blocks
    and the longest runs of prose between them; a block that is never closed is
    the last segment.
    */
  predicate Segmentation(segs: seq<seq<string>>, lines: seq<string>) {
    && Flatten(segs) == lines
    && (forall i | 0 <= i < |segs| :: Kind(segs[i], i == |segs| - 1))
    && (forall i | 0 < i < |segs| :: !(Prose(segs[i - 1]) && Prose(segs[i])))
  }

  function ProseLength(lines: seq<string>): (n: nat)
    ensures n <= |lines| && (forall i | 0 <= i < n :: !Opens(lines[i]))
    ensures n < |lines| ==> Opens(lines[n])
  {
    if lines == [] || Opens(lines[0]) then 0 else 1 + ProseLength(lines[1..])
  }

  /** How many lines come before the first closing line. */
  function BodyLength(lines: seq<string>): (n: nat)
    ensures n <= |lines| && (forall i | 0 <= i < n :: !Closes(lines[i]))
    ensures n < |lines| ==> Closes(lines[n])
  {
    if lines == [] || Closes(lines[0]) then 0 else 1 + BodyLength(lines[1..])
  }

  function FirstLength(lines: seq<string>): (n: nat)
    requires lines != []
    ensures 0 < n <= |lines|
  {
    if !Opens(lines[0]) then ProseLength(lines)
    else
      var n := BodyLength(lines[1..]);
      if n < |lines| - 1 then n + 2 else |lines|
  }

  function Segments(lines: seq<string>): seq<seq<string>> {
    if lines == [] then []
    else [lines[..FirstLength(lines)]] + Segments(lines[FirstLength(lines)..])
  }

  // ----- Rows -----

  predicate Blank(s: string) {
    TrimSpace(s) == ""
  }

  function RowsOf(segs: seq<seq<string>>): seq<Row> {
    if segs == [] then []
    else
      var text := Join(segs[0], '\n');
      (if Blank(text) then [] else [Markdown(text)]) + RowsOf(segs[1..])
  }

  predicate ContainsFence(s: string) {
    exists i | 0 <= i < |s| - 2 :: s[i] == '`' && s[i + 1] == '`' && s[i + 2] == '`'
  }

  function Rows(content: string): seq<Row> {
    if content == "" then [Plain("")]
    else if !ContainsFence(content) then [Markdown(content)]
    else RowsOf(Segments(Split(content, '\n')))
  }

  function Pending(current: seq<string>): seq<seq<string>> {
    if current == [] then [] else [current]
  }

  method Flush(rows: seq<Row>, current: seq<string>) returns (rows': seq<Row>)
    ensures rows' == rows + RowsOf(Pending(current))
  {
    if current == [] {
      return rows;
    }
    var segment := Join(current, '\n');
    if TrimSpace(segment) != "" {
      rows' := rows + [Markdown(segment)];
    } else {
      rows' := rows;
    }
  }

  method BuildMarkdownPostRows(content: string) returns (rows: seq<Row>)
    ensures rows == Rows(content)
    ensures content == "" ==> rows == [Plain("")]
    ensures content != "" && !ContainsFence(content) ==> rows == [Markdown(content)]
    ensures ContainsFence(content) ==> rows != []
  {
    if content == "" {
      return [Plain("")];
    }
    if !ContainsFence(content) {
      return [Markdown(content)];
    }
    var lines := Split(content, '\n');
    rows := SegmentRows(lines);
    SomeRowIsKept(content);
    if |rows| == 0 {
      rows := [Markdown(content)];
    }
  }

  /** What the loop holds back: prose, or a block from its opening line on. */
  predicate Collecting(current: seq<string>, inCodeBlock: bool) {
    if inCodeBlock then OpenBlock(current) else current == [] || Prose(current)
  }

  /** The rows so far, with those still to come, are all the rows. */
  predicate Progress(rows: seq<Row>, current: seq<string>, inCodeBlock: bool, rest: seq<string>, all: seq<Row>) {
    Collecting(current, inCodeBlock) && all == rows + RowsOf(Segments(current + rest))
  }

  lemma OpeningLine(rows: seq<Row>, current: seq<string>, line: string, rest: seq<string>, all: seq<Row>)
    requires Progress(rows, current, false, [line] + rest, all) && Opens(line)
    ensures Progress(rows + RowsOf(Pending(current)), [line], true, rest, all)
  {
    FlushBeforeBlock(current, [line] + rest);
    Prelude.Associate(rows, RowsOf(Pending(current)), RowsOf(Segments([line] + rest)));
    BlockBegins(line);
  }

  lemma BlockBegins(line: string)
    requires Opens(line)
    ensures Collecting([line], true)
  {
  }

  lemma ClosingLine(rows: seq<Row>, current: seq<string>, line: string, rest: seq<string>, all: seq<Row>)
    requires Progress(rows, current, true, [line] + rest, all) && Closes(line)
    ensures Progress(rows + RowsOf(Pending(current + [line])), [], false, rest, all)
  {
    Prelude.Associate(current, [line], rest);
    FlushAfterBlock(current, line, rest);
    assert [] + rest == rest;
    Prelude.Associate(rows, RowsOf(Pending(current + [line])), RowsOf(Segments(rest)));
  }

  lemma OtherLine(rows: seq<Row>, current: seq<string>, inCodeBlock: bool, line: string, rest: seq<string>, all: seq<Row>)
    requires Progress(rows, current, inCodeBlock, [line] + rest, all)
    requires if inCodeBlock then !Closes(line) else !Opens(line)
    ensures Progress(rows, current + [line], inCodeBlock, rest, all)
  {
    Prelude.Associate(current, [line], rest);
  }

  /** The loop that collects lines and flushes them at fences. */
  method SegmentRows(lines: seq<string>) returns (rows: seq<Row>)
    ensures rows == RowsOf(Segments(lines))
  {
    rows := [];
    var current, inCodeBlock := [], false;
    ghost var all := RowsOf(Segments(lines));
    assert current + lines[0..] == lines;
    for i := 0 to |lines|
      invariant Progress(rows, current, inCodeBlock, lines[i..], all)
    {
      var line := lines[i];
      Prelude.Uncons(lines, i);
      var isFenceOpen := !inCodeBlock && Opens(line);
      var isFenceClose := inCodeBlock && Closes(line);
      if isFenceOpen {
        OpeningLine(rows, current, line, lines[i + 1..], all);
        rows := Flush(rows, current);
        current, inCodeBlock := [line], true;
      } else if isFenceClose {
        ClosingLine(rows, current, line, lines[i + 1..], all);
        rows := Flush(rows, current + [line]);
        current, inCodeBlock := [], false;
      } else {
        OtherLine(rows, current, inCodeBlock, line, lines[i + 1..], all);
        current := current + [line];
      }
    }
    FlushAtEnd(current);
    assert current + lines[|lines|..] == current;
    rows := Flush(rows, current);
  }

  // ----- The first segment of a list of lines -----

  lemma ProseLengthIs(lines: seq<string>, n: nat)
    requires n <= |lines| && (forall i | 0 <= i < n :: !Opens(lines[i]))
    requires n < |lines| ==> Opens(lines[n])
    ensures ProseLength(lines) == n
  {
  }

  lemma BodyLengthIs(lines: seq<string>, n: nat)
    requires n <= |lines| && (forall i | 0 <= i < n :: !Closes(lines[i]))
    requires n < |lines| ==> Closes(lines[n])
    ensures BodyLength(lines) == n
  {
  }

  lemma ProseComesFirst(seg: seq<string>, rest: seq<string>)
    requires Prose(seg) && (rest != [] ==> Opens(rest[0]))
    ensures Segments(seg + rest) == [seg] + Segments(rest)
  {
    var lines := seg + rest;
    assert forall i | 0 <= i < |seg| :: lines[i] == seg[i];
    assert rest != [] ==> lines[|seg|] == rest[0];
    ProseLengthIs(lines, |seg|);
    assert lines[..|seg|] == seg && lines[|seg|..] == rest;
  }

  lemma ClosedBlockComesFirst(seg: seq<string>, rest: seq<string>)
    requires ClosedBlock(seg)
    ensures Segments(seg + rest) == [seg] + Segments(rest)
  {
    var lines, n := seg + rest, |seg|;
    var body := lines[1..];
    assert lines[0] == seg[..n - 1][0];
    assert forall i | 0 <= i < n - 2 :: body[i] == seg[..n - 1][i + 1];
    assert body[n - 2] == seg[n - 1];
    BodyLengthIs(body, n - 2);
    assert lines[..n] == seg && lines[n..] == rest;
  }

  lemma OpenBlockComesLast(seg: seq<string>)
    requires OpenBlock(seg)
    ensures Segments(seg) == [seg]
  {
    assert forall i | 0 <= i < |seg| - 1 :: seg[1..][i] == seg[i + 1];
    BodyLengthIs(seg[1..], |seg| - 1);
    assert seg[..|seg|] == seg && seg[|seg|..] == [];
  }

  lemma RowsOfFirst(seg: seq<string>, rest: seq<seq<string>>)
    ensures RowsOf([seg] + rest) == RowsOf([seg]) + RowsOf(rest)
  {
    assert ([seg] + rest)[1..] == rest && [seg][1..] == [];
  }

  lemma FlushBeforeBlock(current: seq<string>, rest: seq<string>)
    requires (current == [] || Prose(current)) && rest != [] && Opens(rest[0])
    ensures RowsOf(Segments(current + rest)) == RowsOf(Pending(current)) + RowsOf(Segments(rest))
  {
    if current == [] {
      assert current + rest == rest;
    } else {
      ProseComesFirst(current, rest);
      RowsOfFirst(current, Segments(rest));
    }
  }

  lemma FlushAfterBlock(current: seq<string>, line: string, rest: seq<string>)
    requires OpenBlock(current) && Closes(line)
    ensures RowsOf(Segments((current + [line]) + rest)) == RowsOf(Pending(current + [line])) + RowsOf(Segments(rest))
  {
    var block := current + [line];
    assert block[..|block| - 1] == current;
    ClosedBlockComesFirst(block, rest);
    RowsOfFirst(block, Segments(rest));
  }

  lemma FlushAtEnd(current: seq<string>)
    requires current == [] || Prose(current) || OpenBlock(current)
    ensures RowsOf(Segments(current)) == RowsOf(Pending(current))
  {
    if current != [] && OpenBlock(current) {
      OpenBlockComesLast(current);
    } else if current != [] {
      ProseComesFirst(current, []);
      assert current + [] == current;
    }
  }

  // ----- The segments are the only segmentation -----

  lemma {:induction false} SegmentsAreASegmentation(lines: seq<string>)
    ensures Segmentation(Segments(lines), lines)
  {
    if lines != [] {
      SegmentsAreASegmentation(lines[FirstLength(lines)..]);
      SegmentationStep(lines, FirstLength(lines));
    }
  }

  lemma SegmentationStep(lines: seq<string>, n: nat)
    requires lines != [] && n == FirstLength(lines) && Segmentation(Segments(lines[n..]), lines[n..])
    ensures Segmentation([lines[..n]] + Segments(lines[n..]), lines)
  {
    FirstSegment(lines);
    if n < |lines| { ProseStartsSegments(lines[n..]); }
    SegmentationCons(lines[..n], Segments(lines[n..]), lines[n..]);
    Prelude.Cut(lines, n);
  }

  lemma ProseStartsSegments(lines: seq<string>)
    requires lines != []
    ensures Prose(Segments(lines)[0]) <==> !Opens(lines[0])
  {
    FirstSegment(lines);
  }

  lemma FirstSegment(lines: seq<string>)
    requires lines != []
    ensures var n := FirstLength(lines);
            var first := lines[..n];
            && Kind(first, lines[n..] == [])
            && (Prose(first) <==> !Opens(lines[0]))
            && (Prose(first) && n < |lines| ==> Opens(lines[n]))
  {
    if Opens(lines[0]) {
      FirstBlock(lines);
      assert lines[..FirstLength(lines)][0] == lines[0];
    } else {
      FirstProse(lines);
    }
  }

  lemma FirstProse(lines: seq<string>)
    requires lines != [] && !Opens(lines[0])
    ensures var n := FirstLength(lines); Prose(lines[..n]) && (n < |lines| ==> Opens(lines[n]))
  {
  }

  lemma FirstBlock(lines: seq<string>)
    requires lines != [] && Opens(lines[0])
    ensures var n := FirstLength(lines); ClosedBlock(lines[..n]) || (n == |lines| && OpenBlock(lines[..n]))
  {
    var k, n := BodyLength(lines[1..]), FirstLength(lines);
    BodyIsOpen(lines, k);
    if k < |lines| - 1 {
      assert lines[n - 1] == lines[1..][k];
      ClosedBlockIs(lines[..n]);
    } else {
      assert lines[..n] == lines;
    }
  }

  lemma BodyIsOpen(lines: seq<string>, k: nat)
    requires lines != [] && k < |lines| && k == BodyLength(lines[1..])
    ensures forall i | 0 < i <= k :: !Closes(lines[i])
  {
    assert forall i | 0 < i <= k :: lines[i] == lines[1..][i - 1];
  }

  lemma ClosedBlockIs(seg: seq<string>)
    requires |seg| > 1 && Opens(seg[0]) && Closes(seg[|seg| - 1]) && forall i | 0 < i < |seg| - 1 :: !Closes(seg[i])
    ensures ClosedBlock(seg)
  {
  }

  lemma SegmentationCons(first: seq<string>, segs: seq<seq<string>>, rest: seq<string>)
    requires Segmentation(segs, rest)
    requires Kind(first, rest == [])
    requires segs != [] ==> !(Prose(first) && Prose(segs[0]))
    ensures Segmentation([first] + segs, first + rest)
  {
    var all := [first] + segs;
    assert all[1..] == segs;
    if segs != [] {
      assert Kind(segs[0], 0 == |segs| - 1);
      assert Flatten(segs) != [];
    }
    assert forall i | 0 < i < |all| :: all[i] == segs[i - 1];
  }

  /** Cutting lines this way is possible in one way only. */
  lemma {:induction false} SegmentationIsUnique(segs: seq<seq<string>>, lines: seq<string>)
    requires Segmentation(segs, lines)
    ensures segs == Segments(lines)
  {
    if segs != [] {
      var seg, tail := segs[0], segs[1..];
      var rest := Flatten(tail);
      assert forall i | 0 <= i < |tail| :: tail[i] == segs[i + 1];
      SegmentationIsUnique(tail, rest);
      if ClosedBlock(seg) {
        ClosedBlockComesFirst(seg, rest);
      } else if Prose(seg) {
        if tail != [] {
          assert !Prose(segs[1]) && segs[1] == tail[0];
          assert Opens(tail[0][0]);
          assert rest[0] == tail[0][0];
        }
        ProseComesFirst(seg, rest);
      } else {
        OpenBlockComesLast(seg);
        assert rest == [];
        assert seg + rest == seg;
      }
    }
  }

  // ----- What the rows keep of the content -----

  /** The texts of the segments: the rows, and the blank ones that get no row. */
  function Texts(segs: seq<seq<string>>): seq<string> {
    if segs == [] then [] else [Join(segs[0], '\n')] + Texts(segs[1..])
  }

  lemma {:induction false} TextsJoin(segs: seq<seq<string>>)
    requires forall i | 0 <= i < |segs| :: segs[i] != []
    ensures |Texts(segs)| == |segs| && Join(Texts(segs), '\n') == Join(Flatten(segs), '\n')
  {
    if |segs| == 1 {
      assert segs[0] + Flatten(segs[1..]) == segs[0];
    } else if segs != [] {
      assert forall i | 0 <= i < |segs[1..]| :: segs[1..][i] == segs[i + 1];
      TextsJoin(segs[1..]);
      assert segs[1] == segs[1..][0] && Flatten(segs[1..]) != [];
      JoinConcat(segs[0], Flatten(segs[1..]), '\n');
    }
  }

  function NonBlank(texts: seq<string>): seq<Row> {
    if texts == [] then []
    else (if Blank(texts[0]) then [] else [Markdown(texts[0])]) + NonBlank(texts[1..])
  }

  lemma {:induction false} RowsAreTheTexts(segs: seq<seq<string>>)
    ensures RowsOf(segs) == NonBlank(Texts(segs))
  {
    if segs != [] { RowsAreTheTexts(segs[1..]); }
  }

  /** The rows are those of the texts that hold more than white space. */
  lemma {:induction false} NonBlankExactly(texts: seq<string>)
    ensures forall r :: r in NonBlank(texts) <==> exists i :: 0 <= i < |texts| && r == Markdown(texts[i]) && !AllSpace(texts[i])
  {
    if texts != [] {
      NonBlankExactly(texts[1..]);
      BlankIsAllSpace(texts[0]);
      forall r | r in NonBlank(texts)
        ensures exists i :: 0 <= i < |texts| && r == Markdown(texts[i]) && !AllSpace(texts[i])
      {
        if r in NonBlank(texts[1..]) {
          var i :| 0 <= i < |texts[1..]| && r == Markdown(texts[1..][i]) && !AllSpace(texts[1..][i]);
          assert texts[i + 1] == texts[1..][i];
        }
      }
      forall i | 0 <= i < |texts| && !AllSpace(texts[i]) ensures Markdown(texts[i]) in NonBlank(texts) {
        assert i > 0 ==> texts[i] == texts[1..][i - 1];
      }
    }
  }

  lemma {:induction false} NonBlankInOrder(a: seq<string>, b: seq<string>)
    ensures NonBlank(a + b) == NonBlank(a) + NonBlank(b)
  {
    if a == [] {
      assert a + b == b;
    } else {
      assert (a + b)[1..] == a[1..] + b;
      NonBlankInOrder(a[1..], b);
    }
  }

  /** Joined again, the segments are the content; the rows are those of them that are not blank. */
  lemma ContentIsKept(content: string)
    ensures var segs := Segments(Split(content, '\n'));
            Join(Texts(segs), '\n') == content && RowsOf(segs) == NonBlank(Texts(segs))
  {
    var lines := Split(content, '\n');
    SegmentsAreASegmentation(lines);
    var segs := Segments(lines);
    forall i | 0 <= i < |segs| ensures segs[i] != [] {
      assert Kind(segs[i], i == |segs| - 1);
    }
    TextsJoin(segs);
    JoinSplit(content, '\n');
    RowsAreTheTexts(segs);
  }

  lemma {:induction false} LeftTrimmed(s: string)
    ensures TrimLeft(s) == "" <==> AllSpace(s)
  {
    if s != "" && IsSpace(s[0]) {
      LeftTrimmed(s[1..]);
      assert forall i | 0 < i < |s| :: s[i] == s[1..][i - 1];
    }
  }

  lemma BlankIsAllSpace(s: string)
    ensures Blank(s) <==> AllSpace(s)
  {
    LeftTrimmed(s);
    var t := TrimLeft(s);
    assert t != "" ==> !IsSpace(t[0]);
  }

  lemma {:induction false} BlankTexts(texts: seq<string>)
    requires NonBlank(texts) == []
    ensures AllSpace(Join(texts, '\n'))
  {
    if texts != [] {
      BlankIsAllSpace(texts[0]);
      BlankTexts(texts[1..]);
    }
  }

  lemma FenceIsNotSpace(s: string)
    requires ContainsFence(s)
    ensures !AllSpace(s)
  {
  }

  /** A message with a fence has a row, so the fallback is never taken. */
  lemma SomeRowIsKept(content: string)
    requires ContainsFence(content)
    ensures RowsOf(Segments(Split(content, '\n'))) != []
  {
    ContentIsKept(content);
    FenceIsNotSpace(content);
    var texts := Texts(Segments(Split(content, '\n')));
    if NonBlank(texts) == [] {
      BlankTexts(texts);
    }
  }

  // ----- A closed block is one row -----

  /** Lines that do not end inside a block: their last segment is prose or a closed block. */
  function InBlock(lines: seq<string>): bool {
    if lines == [] then false
    else
      var last := lines[|lines| - 1];
      if InBlock(lines[..|lines| - 1]) then !Closes(last) else Opens(last)
  }

  lemma {:induction false} InBlockConcat(a: seq<string>, b: seq<string>)
    requires !InBlock(a)
    ensures InBlock(a + b) == InBlock(b)
    decreases |b|
  {
    if b == [] {
      assert a + b == a;
    } else {
      assert (a + b)[..|a + b| - 1] == a + b[..|b| - 1];
      InBlockConcat(a, b[..|b| - 1]);
    }
  }

  lemma {:induction false} ProseIsNotInBlock(seg: seq<string>)
    requires forall i | 0 <= i < |seg| :: !Opens(seg[i])
    ensures !InBlock(seg)
  {
    if seg != [] { ProseIsNotInBlock(seg[..|seg| - 1]); }
  }

  lemma {:induction false} OpenBlockIsInBlock(seg: seq<string>)
    requires OpenBlock(seg)
    ensures InBlock(seg)
  {
    if |seg| > 1 {
      OpenBlockIsInBlock(seg[..|seg| - 1]);
    } else {
      assert seg[..0] == [];
    }
  }

  lemma ClosedBlockIsNotInBlock(seg: seq<string>)
    requires ClosedBlock(seg)
    ensures !InBlock(seg)
  {
    OpenBlockIsInBlock(seg[..|seg| - 1]);
  }

  /** Before an opening line, the segments of the lines above it are complete. */
  lemma {:induction false} SegmentsBeforeBlock(before: seq<string>, rest: seq<string>)
    requires !InBlock(before) && rest != [] && Opens(rest[0])
    ensures Segments(before + rest) == Segments(before) + Segments(rest)
    decreases |before|
  {
    if before == [] {
      assert before + rest == rest;
    } else {
      var n := FirstLength(before);
      var first, tail := before[..n], before[n..];
      assert before == first + tail;
      FirstSegment(before);
      assert tail == [] ==> first == before;
      if tail == [] && !Prose(first) && !ClosedBlock(first) {
        OpenBlockIsInBlock(first);
      } else {
        if Prose(first) { ProseIsNotInBlock(first); } else { ClosedBlockIsNotInBlock(first); }
        InBlockConcat(first, tail);
        SegmentsBeforeBlock(tail, rest);
        FirstOfMore(first, tail, rest);
      }
    }
  }

  lemma FirstOfMore(first: seq<string>, tail: seq<string>, rest: seq<string>)
    requires Prose(first) || ClosedBlock(first)
    requires Prose(first) && tail != [] ==> Opens(tail[0])
    requires rest != [] && Opens(rest[0])
    requires Segments(tail + rest) == Segments(tail) + Segments(rest)
    ensures Segments((first + tail) + rest) == Segments(first + tail) + Segments(rest)
  {
    Prelude.Associate(first, tail, rest);
    Prelude.Associate([first], Segments(tail), Segments(rest));
    if Prose(first) {
      assert (tail + rest)[0] == if tail == [] then rest[0] else tail[0];
      ProseComesFirst(first, tail + rest);
      ProseComesFirst(first, tail);
    } else {
      ClosedBlockComesFirst(first, tail + rest);
      ClosedBlockComesFirst(first, tail);
    }
  }

  lemma {:induction false} RowsOfConcat(a: seq<seq<string>>, b: seq<seq<string>>)
    ensures RowsOf(a + b) == RowsOf(a) + RowsOf(b)
  {
    if a == [] {
      assert a + b == b;
    } else {
      assert (a + b)[1..] == a[1..] + b;
      RowsOfConcat(a[1..], b);
    }
  }

  lemma OpeningIsNotBlank(block: seq<string>)
    requires block != [] && Opens(block[0])
    ensures !Blank(Join(block, '\n'))
  {
    var text := Join(block, '\n');
    BlankIsAllSpace(text);
    BlankIsAllSpace(block[0]);
    assert forall i | 0 <= i < |block[0]| :: text[i] == block[0][i];
  }

  /**
    A closed block that begins outside any other is exactly one row, between the
    rows of the lines above it and those of the lines below it.
    */
  lemma ClosedBlockIsOneRow(before: seq<string>, block: seq<string>, after: seq<string>)
    requires !InBlock(before) && ClosedBlock(block)
    ensures RowsOf(Segments(before + (block + after)))
            == RowsOf(Segments(before)) + ([Markdown(Join(block, '\n'))] + RowsOf(Segments(after)))
  {
    assert (block + after)[0] == block[..|block| - 1][0];
    SegmentsBeforeBlock(before, block + after);
    ClosedBlockComesFirst(block, after);
    RowsOfConcat(Segments(before), [block] + Segments(after));
    RowsOfFirst(block, Segments(after));
    OpeningIsNotBlank(block);
  }
}
