/**
  The shell word and redirection scanners: reading words with quotes and
  backslashes, splitting a command segment, and finding the files its output
  redirections write.
  */
module ShellWords {
  import Prelude

  /** No open quote. */
  const NUL: char := '\0'

  predicate IsShellSpace(c: char) {
    c == ' ' || c == '\t' || c == '\n' || c == '\r'
  }

  predicate IsQuote(c: char) {
    c == '\'' || c == '"'
  }

  datatype Target = Target(path: string, append: bool)

  // ----- What the scanners compute -----

  /** A word read off the start of a text, and how many characters it took. */
  datatype Read = Read(word: string, used: nat)
  {
    function Emitting(c: char): Read { Read([c] + word, used + 1) }
    function Skipping(): Read { Read(word, used + 1) }
    function After(start: string, n: nat): Read { Read(start + word, n + used) }
  }

  function Word(s: string, quote: char, escaped: bool, esc: bool): (r: Read)
    ensures r.used <= |s|
    ensures s != "" && (quote != NUL || escaped || !IsShellSpace(s[0])) ==> r.used > 0
  {
    if s == "" then Read(if escaped then "\\" else "", 0)
    else if quote == NUL && !escaped && IsShellSpace(s[0]) then Read("", 0)
    else if escaped then Word(s[1..], quote, false, esc).Emitting(s[0])
    else if s[0] == '\\' && esc then Word(s[1..], quote, true, esc).Skipping()
    else if IsQuote(s[0]) && quote == NUL then Word(s[1..], s[0], false, esc).Skipping()
    else if IsQuote(s[0]) && quote == s[0] then Word(s[1..], NUL, false, esc).Skipping()
    else Word(s[1..], quote, false, esc).Emitting(s[0])
  }

  lemma EmittingAfter(r: Read, c: char, start: string, n: nat)
    ensures r.Emitting(c).After(start, n) == r.After(start + [c], n + 1)
  {
    assert start + ([c] + r.word) == (start + [c]) + r.word;
  }

  lemma AfterAfter(r: Read, a: string, m: nat, b: string, n: nat)
    ensures r.After(a, m).After(b, n) == r.After(b + a, n + m)
  {
    assert b + (a + r.word) == (b + a) + r.word;
  }

  function SkipSpaces(s: string): (t: string)
    ensures |t| <= |s| && (t != "" ==> !IsShellSpace(t[0]))
  {
    if s != "" && IsShellSpace(s[0]) then SkipSpaces(s[1..]) else s
  }

  function Words(s: string, esc: bool): seq<string>
    decreases |s|
  {
    var t := SkipSpaces(s);
    if t == "" then []
    else
      var r := Word(t, NUL, false, esc);
      var rest := Words(t[r.used..], esc);
      if r.word != "" then [r.word] + rest else rest
  }

  /** Length of a redirection operator at the start of a text that begins with `>`. */
  function OperatorLength(s: string): nat {
    if |s| > 1 && (s[1] == '>' || s[1] == '|') then 2 else 1
  }

  predicate Appends(s: string) {
    |s| > 1 && s[1] == '>'
  }

  predicate NoTarget(t: string) {
    t == "" || t[0] == '&' || t[0] == '>' || t[0] == '<'
  }

  function Redirects(s: string, quote: char, escaped: bool, esc: bool): seq<Target>
    decreases |s|
  {
    if s == "" then []
    else if quote != NUL then
      if escaped then Redirects(s[1..], quote, false, esc)
      else if esc && s[0] == '\\' && quote == '"' then Redirects(s[1..], quote, true, esc)
      else Redirects(s[1..], if s[0] == quote then NUL else quote, false, esc)
    else if escaped then Redirects(s[1..], NUL, false, esc)
    else if s[0] == '\\' then Redirects(s[1..], NUL, esc, esc)
    else if IsQuote(s[0]) then Redirects(s[1..], s[0], false, esc)
    else if s[0] != '>' then Redirects(s[1..], NUL, false, esc)
    else AfterOperator(s, esc)
  }

  function AfterOperator(s: string, esc: bool): seq<Target>
    requires s != ""
    decreases |s|, 0
  {
    var k := OperatorLength(s);
    var t := SkipSpaces(s[k..]);
    var r := Word(t, NUL, false, esc);
    if NoTarget(t) || r.word == "" then Redirects(s[k..], NUL, false, esc)
    else [Target(r.word, Appends(s))] + Redirects(t[r.used..], NUL, false, esc)
  }

  lemma WordsAreSkippedTo(s: string, t: string, esc: bool)
    requires SkipSpaces(s) == t && SkipSpaces(t) == t
    ensures Words(s, esc) == Words(t, esc)
  {
  }

  lemma FirstOfWords(t: string, rest: string, r: Read, esc: bool)
    requires t != "" && SkipSpaces(t) == t && Word(t, NUL, false, esc) == r
    requires r.used <= |t| && t[r.used..] == rest
    ensures Words(t, esc) == if r.word != "" then [r.word] + Words(rest, esc) else Words(rest, esc)
  {
  }

  // ----- The scanners -----

  method NextShellWord(segment: string, start: nat, esc: bool) returns (word: string, next: nat)
    requires start <= |segment|
    ensures start <= next <= |segment|
    ensures Word(segment[start..], NUL, false, esc) == Read(word, next - start)
  {
    word := "";
    var quote, escaped := NUL, false;
    ghost var whole := Word(segment[start..], NUL, false, esc);
    for i := start to |segment|
      invariant quote == NUL || IsQuote(quote)
      invariant whole == Word(segment[i..], quote, escaped, esc).After(word, i - start)
    {
      assert segment[i..][1..] == segment[i + 1..];
      var ch := segment[i];
      EmittingAfter(Word(segment[i + 1..], quote, false, esc), ch, word, i - start);
      if quote == NUL && !escaped && IsShellSpace(ch) {
        return word, i;
      }
      if escaped {
        word := word + [ch];
        escaped := false;
      } else if ch == '\\' && esc {
        escaped := true;
      } else if ch == '\'' || ch == '"' {
        if quote == NUL {
          quote := ch;
        } else if quote == ch {
          quote := NUL;
        } else {
          word := word + [ch];
        }
      } else {
        word := word + [ch];
      }
    }
    if escaped {
      word := word + "\\";
    }
    next := |segment|;
  }

  method SplitShellWords(segment: string, esc: bool) returns (words: seq<string>)
    ensures words == Words(segment, esc)
  {
    words := [];
    var i := 0;
    ghost var all := Words(segment, esc);
    assert segment[0..] == segment;
    while i < |segment|
      invariant i <= |segment|
      invariant all == words + Words(segment[i..], esc)
      decreases |segment| - i
    {
      ghost var from := i;
      i := SkipShellSpaces(segment, i);
      WordsAreSkippedTo(segment[from..], segment[i..], esc);
      if i >= |segment| {
        break;
      }
      var word, next := NextShellWord(segment, i, esc);
      FirstOfWords(segment[i..], segment[next..], Read(word, next - i), esc);
      Prelude.Associate(words, [word], Words(segment[next..], esc));
      if word != "" {
        words := words + [word];
      }
      i := next;
    }
    NoWords(segment[i..], esc);
  }

  lemma NoWords(rest: string, esc: bool)
    requires rest == ""
    ensures Words(rest, esc) == []
  {
  }

  method SkipShellSpaces(segment: string, start: nat) returns (i: nat)
    requires start <= |segment|
    ensures start <= i <= |segment| && segment[i..] == SkipSpaces(segment[start..])
    ensures SkipSpaces(segment[i..]) == segment[i..]
  {
    i := start;
    while i < |segment| && IsShellSpace(segment[i])
      invariant start <= i <= |segment| && SkipSpaces(segment[i..]) == SkipSpaces(segment[start..])
    {
      assert segment[i..][1..] == segment[i + 1..];
      i := i + 1;
    }
  }

  method ExtractRedirectWriteTargets(segment: string, esc: bool) returns (targets: seq<Target>)
    ensures targets == Redirects(segment, NUL, false, esc)
  {
    targets := [];
    var quote, escaped, i := NUL, false, 0;
    assert segment[0..] == segment;
    while i < |segment|
      invariant i <= |segment| && (quote == NUL || IsQuote(quote))
      invariant targets + Redirects(segment[i..], quote, escaped, esc) == Redirects(segment, NUL, false, esc)
      decreases |segment| - i
    {
      assert segment[i..][1..] == segment[i + 1..];
      var ch := segment[i];
      if quote != NUL {
        if escaped {
          escaped := false;
        } else if esc && ch == '\\' && quote == '"' {
          escaped := true;
        } else if ch == quote {
          quote := NUL;
        }
        i := i + 1;
      } else if escaped {
        escaped := false;
        i := i + 1;
      } else if ch == '\\' {
        escaped := esc;
        i := i + 1;
      } else if ch == '\'' || ch == '"' {
        quote := ch;
        i := i + 1;
      } else if ch != '>' {
        i := i + 1;
      } else {
        var found;
        found, i := ReadRedirect(segment, i, esc);
        targets := targets + found;
      }
    }
    assert segment[i..] == "";
  }

  method ReadOperator(segment: string, at: nat) returns (appendMode: bool, i: nat)
    requires at < |segment| && segment[at] == '>'
    ensures i + 1 == at + OperatorLength(segment[at..]) <= |segment|
    ensures appendMode == Appends(segment[at..])
  {
    i := at;
    appendMode := false;
    if i + 1 < |segment| {
      if segment[i + 1] == '>' {
        appendMode := true;
        i := i + 1;
      } else if segment[i + 1] == '|' {
        i := i + 1;
      }
    }
  }

  /** The body of the scanner's loop at an unquoted `>`. */
  method ReadRedirect(segment: string, at: nat, esc: bool) returns (targets: seq<Target>, i: nat)
    requires at < |segment| && segment[at] == '>'
    ensures at < i <= |segment| && |targets| <= 1
    ensures targets + Redirects(segment[i..], NUL, false, esc) == AfterOperator(segment[at..], esc)
  {
    var appendMode;
    appendMode, i := ReadOperator(segment, at);
    var path, next := ReadTarget(segment, i + 1, esc);
    if path == "" {
      WithoutTarget(segment, at, i + 1, esc);
      return [], i + 1;
    }
    WithTarget(segment, at, i + 1, Target(path, appendMode), next, esc);
    return [Target(path, appendMode)], next;
  }

  /** The word an operator redirects to, read from behind the operator; "" when there is none, or it is empty. */
  function TargetWord(s: string, esc: bool): string {
    var t := SkipSpaces(s);
    if NoTarget(t) then "" else Word(t, NUL, false, esc).word
  }

  method ReadTarget(segment: string, after: nat, esc: bool) returns (path: string, next: nat)
    requires after <= |segment|
    ensures path == TargetWord(segment[after..], esc) && after <= next <= |segment|
    ensures path != "" ==>
              var t := SkipSpaces(segment[after..]);
              after < next && segment[next..] == t[Word(t, NUL, false, esc).used..]
  {
    var start := SkipShellSpaces(segment, after);
    if start >= |segment| || segment[start] == '&' || segment[start] == '>' || segment[start] == '<' {
      return "", after;
    }
    path, next := NextShellWord(segment, start, esc);
    assert segment[start..][next - start..] == segment[next..];
  }

  lemma WithoutTarget(segment: string, at: nat, after: nat, esc: bool)
    requires at < after <= |segment| && after == at + OperatorLength(segment[at..])
    requires TargetWord(segment[after..], esc) == ""
    ensures [] + Redirects(segment[after..], NUL, false, esc) == AfterOperator(segment[at..], esc)
  {
    assert segment[at..][after - at..] == segment[after..];
  }

  lemma WithTarget(segment: string, at: nat, after: nat, target: Target, next: nat, esc: bool)
    requires at < after <= |segment| && after == at + OperatorLength(segment[at..]) && next <= |segment|
    requires target == Target(TargetWord(segment[after..], esc), Appends(segment[at..])) && target.path != ""
    requires var t := SkipSpaces(segment[after..]); segment[next..] == t[Word(t, NUL, false, esc).used..]
    ensures [target] + Redirects(segment[next..], NUL, false, esc) == AfterOperator(segment[at..], esc)
  {
    assert segment[at..][after - at..] == segment[after..];
  }

  // ----- How a word can be spelt -----

  /** One character of a word, alone or behind a backslash. */
  datatype Bit = Bit(escaped: bool, c: char)

  /** A stretch of a word: a character outside quotes, or a quoted run. */
  datatype Piece = Bare(bit: Bit) | Quoted(mark: char, body: seq<Bit>)

  type Spelling = seq<Piece>

  function BitText(b: Bit): (t: string)
    ensures t != ""
  {
    if b.escaped then ['\\', b.c] else [b.c]
  }

  function BodyText(body: seq<Bit>): string {
    if body == [] then "" else BitText(body[0]) + BodyText(body[1..])
  }

  function BodyMeaning(body: seq<Bit>): string {
    if body == [] then "" else [body[0].c] + BodyMeaning(body[1..])
  }

  function PieceText(p: Piece): (t: string)
    ensures t != ""
  {
    match p
    case Bare(bit) => BitText(bit)
    case Quoted(mark, body) => [mark] + (BodyText(body) + [mark])
  }

  function PieceMeaning(p: Piece): string {
    match p
    case Bare(bit) => [bit.c]
    case Quoted(_, body) => BodyMeaning(body)
  }

  function Text(w: Spelling): string {
    if w == [] then "" else PieceText(w[0]) + Text(w[1..])
  }

  function Meaning(w: Spelling): string {
    if w == [] then "" else PieceMeaning(w[0]) + Meaning(w[1..])
  }

  predicate ValidBit(b: Bit, mark: char, esc: bool) {
    if b.escaped then esc else b.c != mark && !(esc && b.c == '\\')
  }

  predicate ValidPiece(p: Piece, esc: bool) {
    match p
    case Bare(bit) => if bit.escaped then esc else !IsShellSpace(bit.c) && !IsQuote(bit.c) && !(esc && bit.c == '\\')
    case Quoted(mark, body) => IsQuote(mark) && forall i | 0 <= i < |body| :: ValidBit(body[i], mark, esc)
  }

  predicate Valid(w: Spelling, esc: bool) {
    forall i | 0 <= i < |w| :: ValidPiece(w[i], esc)
  }

  // ----- Reading back what was spelt -----

  lemma {:induction false} ReadBody(body: seq<Bit>, mark: char, rest: string, esc: bool)
    requires ValidPiece(Quoted(mark, body), esc)
    ensures var r := Word(rest, NUL, false, esc);
            Word(BodyText(body) + ([mark] + rest), mark, false, esc) == r.After(BodyMeaning(body), |BodyText(body)| + 1)
  {
    if body == [] {
      ReadClosing(mark, rest, esc);
      assert "" + ([mark] + rest) == [mark] + rest;
    } else {
      assert ValidBit(body[0], mark, esc);
      ReadBody(body[1..], mark, rest, esc);
      ReadBitThenBody(body[0], body[1..], mark, rest, esc);
    }
  }

  lemma ReadClosing(mark: char, rest: string, esc: bool)
    requires IsQuote(mark)
    ensures Word([mark] + rest, mark, false, esc) == Word(rest, NUL, false, esc).After("", 1)
  {
    assert ([mark] + rest)[1..] == rest;
    assert "" + Word(rest, NUL, false, esc).word == Word(rest, NUL, false, esc).word;
  }

  lemma ReadBitThenBody(b: Bit, body: seq<Bit>, mark: char, rest: string, esc: bool)
    requires ValidBit(b, mark, esc) && IsQuote(mark)
    requires Word(BodyText(body) + ([mark] + rest), mark, false, esc)
             == Word(rest, NUL, false, esc).After(BodyMeaning(body), |BodyText(body)| + 1)
    ensures Word((BitText(b) + BodyText(body)) + ([mark] + rest), mark, false, esc)
            == Word(rest, NUL, false, esc).After([b.c] + BodyMeaning(body), |BitText(b)| + (|BodyText(body)| + 1))
  {
    Prelude.Associate(BitText(b), BodyText(body), [mark] + rest);
    ReadBit(b, mark, BodyText(body) + ([mark] + rest), esc);
    AfterAfter(Word(rest, NUL, false, esc), BodyMeaning(body), |BodyText(body)| + 1, [b.c], |BitText(b)|);
  }

  lemma ReadBit(b: Bit, mark: char, tail: string, esc: bool)
    requires ValidBit(b, mark, esc) && IsQuote(mark)
    ensures var r := Word(tail, mark, false, esc);
            Word(BitText(b) + tail, mark, false, esc) == r.After([b.c], |BitText(b)|)
  {
    var s := BitText(b) + tail;
    if b.escaped {
      assert s[1..][1..] == tail && s[1..][0] == b.c;
    } else {
      assert s[1..] == tail;
    }
  }

  lemma ReadBare(bit: Bit, rest: string, esc: bool)
    requires ValidPiece(Bare(bit), esc)
    ensures var r := Word(rest, NUL, false, esc);
            Word(BitText(bit) + rest, NUL, false, esc) == r.After([bit.c], |BitText(bit)|)
  {
    var s := BitText(bit) + rest;
    if bit.escaped {
      assert s[1..][1..] == rest && s[1..][0] == bit.c;
    } else {
      assert s[1..] == rest;
    }
  }

  lemma ReadPiece(p: Piece, rest: string, esc: bool)
    requires ValidPiece(p, esc)
    ensures var r := Word(rest, NUL, false, esc);
            Word(PieceText(p) + rest, NUL, false, esc) == r.After(PieceMeaning(p), |PieceText(p)|)
  {
    match p {
      case Bare(bit) => ReadBare(bit, rest, esc);
      case Quoted(mark, body) =>
        ReadBody(body, mark, rest, esc);
        assert (PieceText(p) + rest)[1..] == BodyText(body) + ([mark] + rest);
    }
  }

  /** Where a word may end: at the end of the text or at a space. */
  predicate Ends(rest: string) {
    rest == "" || IsShellSpace(rest[0])
  }

  /** Every spelling of a word is read as that word, to its end. */
  lemma {:induction false} EverySpellingIsRead(w: Spelling, rest: string, esc: bool)
    requires Valid(w, esc) && Ends(rest)
    ensures Word(Text(w) + rest, NUL, false, esc) == Read(Meaning(w), |Text(w)|)
  {
    if w == [] {
      assert Text(w) + rest == rest;
    } else {
      EverySpellingIsRead(w[1..], rest, esc);
      assert ValidPiece(w[0], esc);
      ReadPiece(w[0], Text(w[1..]) + rest, esc);
      Prelude.Associate(PieceText(w[0]), Text(w[1..]), rest);
    }
  }

  /** And whatever follows it, the scanner goes on from its end. */
  lemma {:induction false} ReadThrough(w: Spelling, rest: string, esc: bool)
    requires Valid(w, esc)
    ensures Word(Text(w) + rest, NUL, false, esc) == Word(rest, NUL, false, esc).After(Meaning(w), |Text(w)|)
  {
    if w == [] {
      assert Text(w) + rest == rest;
      assert "" + Word(rest, NUL, false, esc).word == Word(rest, NUL, false, esc).word;
    } else {
      ReadThrough(w[1..], rest, esc);
      assert ValidPiece(w[0], esc);
      ReadPiece(w[0], Text(w[1..]) + rest, esc);
      Prelude.Associate(PieceText(w[0]), Text(w[1..]), rest);
      AfterAfter(Word(rest, NUL, false, esc), Meaning(w[1..]), |Text(w[1..])|, PieceMeaning(w[0]), |PieceText(w[0])|);
    }
  }

  lemma {:induction false} ReadOpenBody(body: seq<Bit>, mark: char, esc: bool)
    requires ValidPiece(Quoted(mark, body), esc)
    ensures Word(BodyText(body), mark, false, esc) == Read(BodyMeaning(body), |BodyText(body)|)
  {
    if body != [] {
      assert ValidBit(body[0], mark, esc);
      ReadOpenBody(body[1..], mark, esc);
      ReadBit(body[0], mark, BodyText(body[1..]), esc);
    }
  }

  /** A quote that is never closed takes everything up to the end, and a last backslash stands for itself. */
  lemma OpenEndsAreRead(w: Spelling, mark: char, body: seq<Bit>, esc: bool)
    requires Valid(w, esc) && ValidPiece(Quoted(mark, body), esc)
    ensures Word(Text(w) + ([mark] + BodyText(body)), NUL, false, esc)
            == Read(Meaning(w) + BodyMeaning(body), |Text(w)| + (1 + |BodyText(body)|))
    ensures Word(Text(w) + "\\", NUL, false, esc) == Read(Meaning(w) + "\\", |Text(w)| + 1)
  {
    ReadThrough(w, [mark] + BodyText(body), esc);
    ReadOpenBody(body, mark, esc);
    assert ([mark] + BodyText(body))[1..] == BodyText(body);
    ReadThrough(w, "\\", esc);
    assert "\\"[1..] == "";
  }

  /** Text without white space, quotes and backslashes is the word it looks like. */
  lemma {:induction false} PlainTextIsItself(s: string, esc: bool)
    requires forall i | 0 <= i < |s| :: s[i] !in " \t\n\r'\"\\"
    ensures Word(s, NUL, false, esc) == Read(s, |s|)
  {
    if s != "" {
      assert s[0] !in " \t\n\r'\"\\";
      PlainTextIsItself(s[1..], esc);
      assert s == [s[0]] + s[1..];
    }
  }

  // ----- Splitting a line of words -----

  /** A word on a line, with the white space before it. */
  datatype Spaced = Spaced(gap: string, word: Spelling)

  predicate AllSpaces(s: string) {
    forall i | 0 <= i < |s| :: IsShellSpace(s[i])
  }

  /** Words apart from each other; only the first may stand at the start of the line. */
  predicate ValidLine(line: seq<Spaced>, esc: bool) {
    forall i | 0 <= i < |line| ::
      && AllSpaces(line[i].gap)
      && (i > 0 ==> line[i].gap != "")
      && line[i].word != []
      && Valid(line[i].word, esc)
  }

  function LineText(line: seq<Spaced>, end: string): string {
    if line == [] then end else line[0].gap + (Text(line[0].word) + LineText(line[1..], end))
  }

  /** What the words of a line mean, without the empty ones. */
  function NonEmptyWords(line: seq<Spaced>): seq<string> {
    if line == [] then []
    else if Meaning(line[0].word) == "" then NonEmptyWords(line[1..])
    else [Meaning(line[0].word)] + NonEmptyWords(line[1..])
  }

  lemma {:induction false} SpacesAreSkipped(gap: string, rest: string)
    requires AllSpaces(gap)
    ensures SkipSpaces(gap + rest) == SkipSpaces(rest)
  {
    if gap == "" {
      assert gap + rest == rest;
    } else {
      assert (gap + rest)[1..] == gap[1..] + rest;
      SpacesAreSkipped(gap[1..], rest);
    }
  }

  /** No spelling begins with a space. */
  lemma SpellingStarts(w: Spelling, rest: string, esc: bool)
    requires w != [] && Valid(w, esc)
    ensures Text(w) != "" && SkipSpaces(Text(w) + rest) == Text(w) + rest
    ensures (Text(w) + rest)[0] == PieceText(w[0])[0]
  {
    assert ValidPiece(w[0], esc);
  }

  lemma LineEnds(line: seq<Spaced>, end: string, esc: bool)
    requires ValidLine(line, esc) && AllSpaces(end) && (line != [] ==> line[0].gap != "")
    ensures Ends(LineText(line, end))
  {
  }

  lemma WordThenLine(w: Spelling, rest: string, esc: bool)
    requires w != [] && Valid(w, esc) && Ends(rest)
    ensures Words(Text(w) + rest, esc) == (if Meaning(w) == "" then [] else [Meaning(w)]) + Words(rest, esc)
  {
    SpellingStarts(w, rest, esc);
    EverySpellingIsRead(w, rest, esc);
    assert (Text(w) + rest)[|Text(w)|..] == rest;
  }

  /** Splitting a line gives back its words in order, except that empty ones are dropped. */
  lemma {:induction false} SplitReadsTheLine(line: seq<Spaced>, end: string, esc: bool)
    requires ValidLine(line, esc) && AllSpaces(end)
    ensures Words(LineText(line, end), esc) == NonEmptyWords(line)
  {
    if line == [] {
      assert end + "" == end;
      SpacesAreSkipped(end, "");
    } else {
      RestOfLine(line, esc);
      SplitReadsTheLine(line[1..], end, esc);
      LineEnds(line[1..], end, esc);
      GapThenWord(line[0].gap, line[0].word, LineText(line[1..], end), esc);
    }
  }

  lemma RestOfLine(line: seq<Spaced>, esc: bool)
    requires line != [] && ValidLine(line, esc)
    ensures ValidLine(line[1..], esc) && (|line| > 1 ==> line[1..][0].gap != "")
    ensures AllSpaces(line[0].gap) && line[0].word != [] && Valid(line[0].word, esc)
  {
  }

  lemma GapThenWord(gap: string, w: Spelling, rest: string, esc: bool)
    requires AllSpaces(gap) && w != [] && Valid(w, esc) && Ends(rest)
    ensures Words(gap + (Text(w) + rest), esc) == (if Meaning(w) == "" then [] else [Meaning(w)]) + Words(rest, esc)
  {
    SpellingStarts(w, rest, esc);
    SpacesAreSkipped(gap, Text(w) + rest);
    WordThenLine(w, rest, esc);
  }

  // ----- Double-quoted words -----

  function Quote(w: string): string {
    "\"" + (Escape(w) + "\"")
  }

  function Escape(w: string): string {
    if w == "" then ""
    else (if w[0] == '"' || w[0] == '\\' then ['\\', w[0]] else [w[0]]) + Escape(w[1..])
  }

  function QuotedBody(w: string): (body: seq<Bit>)
    ensures forall i | 0 <= i < |body| :: ValidBit(body[i], '"', true)
  {
    if w == "" then [] else [Bit(w[0] == '"' || w[0] == '\\', w[0])] + QuotedBody(w[1..])
  }

  function QuotedSpelling(w: string): Spelling {
    [Quoted('"', QuotedBody(w))]
  }

  lemma {:induction false} QuotedBodySpells(w: string)
    ensures BodyText(QuotedBody(w)) == Escape(w) && BodyMeaning(QuotedBody(w)) == w
  {
    if w != "" { QuotedBodySpells(w[1..]); }
  }

  /** Double quotes with backslash and double quote escaped are one of the spellings. */
  lemma QuoteSpells(w: string)
    ensures Valid(QuotedSpelling(w), true) && Text(QuotedSpelling(w)) == Quote(w) && Meaning(QuotedSpelling(w)) == w
  {
    QuotedBodySpells(w);
    var sp := QuotedSpelling(w);
    assert Text(sp[1..]) == "" && Meaning(sp[1..]) == "";
    assert "\"" == ['"'];
  }

  function QuotedLine(words: seq<string>): string {
    if words == [] then ""
    else if |words| == 1 then Quote(words[0])
    else Quote(words[0]) + (" " + QuotedLine(words[1..]))
  }

  function LineOf(words: seq<string>, gap: string): seq<Spaced> {
    if words == [] then [] else [Spaced(gap, QuotedSpelling(words[0]))] + LineOf(words[1..], " ")
  }

  function WithoutEmpty(words: seq<string>): (kept: seq<string>)
    ensures |kept| <= |words|
  {
    if words == [] then []
    else if words[0] == "" then WithoutEmpty(words[1..])
    else [words[0]] + WithoutEmpty(words[1..])
  }

  lemma {:induction false} LineOfIsValid(words: seq<string>, gap: string)
    requires gap == "" || gap == " "
    ensures ValidLine(LineOf(words, gap), true) && |LineOf(words, gap)| == |words|
    ensures words != [] ==> LineOf(words, gap)[0].gap == gap
  {
    if words != [] {
      LineOfIsValid(words[1..], " ");
      QuoteSpells(words[0]);
      ValidLineCons(Spaced(gap, QuotedSpelling(words[0])), LineOf(words[1..], " "));
    }
  }

  lemma ValidLineCons(first: Spaced, rest: seq<Spaced>)
    requires AllSpaces(first.gap) && first.word != [] && Valid(first.word, true)
    requires ValidLine(rest, true) && (rest != [] ==> rest[0].gap != "")
    ensures ValidLine([first] + rest, true)
  {
  }

  lemma {:induction false} LineOfSpells(words: seq<string>, gap: string)
    ensures LineText(LineOf(words, gap), "") == if words == [] then "" else gap + QuotedLine(words)
  {
    if words != [] {
      LineOfSpells(words[1..], " ");
      QuoteSpells(words[0]);
      LineTextCons(Spaced(gap, QuotedSpelling(words[0])), LineOf(words[1..], " "));
      assert Quote(words[0]) + "" == Quote(words[0]);
    }
  }

  lemma LineTextCons(first: Spaced, rest: seq<Spaced>)
    ensures LineText([first] + rest, "") == first.gap + (Text(first.word) + LineText(rest, ""))
  {
    assert ([first] + rest)[1..] == rest;
  }

  lemma {:induction false} LineOfMeans(words: seq<string>, gap: string)
    ensures NonEmptyWords(LineOf(words, gap)) == WithoutEmpty(words)
  {
    if words != [] {
      LineOfMeans(words[1..], " ");
      QuoteSpells(words[0]);
      assert LineOf(words, gap)[1..] == LineOf(words[1..], " ");
    }
  }

  lemma {:induction false} NothingDropped(words: seq<string>)
    ensures WithoutEmpty(words) == words <==> forall i | 0 <= i < |words| :: words[i] != ""
  {
    if words != [] {
      NothingDropped(words[1..]);
      assert words == [words[0]] + words[1..];
      assert forall i | 0 < i < |words| :: words[i] == words[1..][i - 1];
      if words[0] != "" && WithoutEmpty(words) == words {
        assert WithoutEmpty(words[1..]) == WithoutEmpty(words)[1..];
      }
    }
  }

  /** Quoting words and splitting again is the identity exactly on the lists without empty words. */
  lemma QuotedWordsRoundTrip(words: seq<string>)
    ensures Words(QuotedLine(words), true) == WithoutEmpty(words)
    ensures Words(QuotedLine(words), true) == words <==> forall i | 0 <= i < |words| :: words[i] != ""
  {
    LineOfIsValid(words, "");
    LineOfSpells(words, "");
    LineOfMeans(words, "");
    SplitReadsTheLine(LineOf(words, ""), "", true);
    assert words != [] ==> "" + QuotedLine(words) == QuotedLine(words);
    NothingDropped(words);
  }

  // ----- Redirections -----

  datatype Operator = Truncate | Append | Clobber

  function OperatorText(op: Operator): string {
    match op
    case Truncate => ">"
    case Append => ">>"
    case Clobber => ">|"
  }

  /**
    A part of a line: a word, an operator with the word it redirects to, or an
    operator that no word follows, as in `2>&1`, which is the word 2, such an
    operator and the word &1.
    */
  datatype Item =
    | Arg(gap: string, word: Spelling)
    | Redirect(gap: string, op: Operator, pad: string, word: Spelling)
    | Dangling(gap: string, op: Operator)

  /** A piece both scanners read alike: no bare `>`, and no escaped single quote inside single quotes. */
  predicate ReadAlike(p: Piece) {
    match p
    case Bare(bit) => bit.escaped || bit.c != '>'
    case Quoted(mark, body) => mark == '\'' ==> forall i | 0 <= i < |body| :: !(body[i].escaped && body[i].c == '\'')
  }

  predicate BeginsWith(p: Piece, c: char) {
    p == Bare(Bit(false, c))
  }

  /** A redirection's word, as against another operator or the rest of this one. */
  predicate NamesATarget(op: Operator, pad: string, p: Piece) {
    && !BeginsWith(p, '&') && !BeginsWith(p, '<') && !BeginsWith(p, '>')
    && (op == Truncate && pad == "" ==> !BeginsWith(p, '|'))
  }

  /** White space up to `i`, and there the end, another operator or `&`. */
  predicate NoWordAt(rest: string, i: int) {
    0 <= i <= |rest| && AllSpaces(rest[..i]) && (i < |rest| ==> rest[i] == '&' || rest[i] == '<' || rest[i] == '>')
  }

  predicate NoWordFollows(rest: string) {
    exists i | 0 <= i <= |rest| :: NoWordAt(rest, i)
  }

  lemma NoWordMeansNoTarget(rest: string)
    ensures NoWordFollows(rest) <==> NoTarget(SkipSpaces(rest))
  {
    SkippedAreSpaces(rest);
    if NoTarget(SkipSpaces(rest)) {
      assert NoWordAt(rest, |rest| - |SkipSpaces(rest)|);
    }
    if i :| 0 <= i <= |rest| && NoWordAt(rest, i) {
      NoWordThere(rest, i);
    }
  }

  lemma NoWordThere(rest: string, i: nat)
    requires NoWordAt(rest, i)
    ensures NoTarget(SkipSpaces(rest))
  {
    Prelude.Cut(rest, i);
    SpacesAreSkipped(rest[..i], rest[i..]);
    NothingToSkip(rest[i..]);
  }

  lemma NothingToSkip(s: string)
    requires s != "" ==> !IsShellSpace(s[0])
    ensures SkipSpaces(s) == s
  {
  }

  lemma {:induction false} SkippedAreSpaces(s: string)
    ensures var n := |s| - |SkipSpaces(s)|; AllSpaces(s[..n]) && s[n..] == SkipSpaces(s)
  {
    if s != "" && IsShellSpace(s[0]) {
      SkippedAreSpaces(s[1..]);
      var n := |s| - |SkipSpaces(s)|;
      assert s[..n] == [s[0]] + s[1..][..n - 1] && s[n..] == s[1..][n - 1..];
    }
  }

  /** The operator ends where it does: `>` directly before `>` or `|` would be another one. */
  predicate OperatorEnds(op: Operator, rest: string) {
    op == Truncate && rest != "" ==> rest[0] != '>' && rest[0] != '|'
  }

  predicate ValidItem(it: Item, rest: string, esc: bool) {
    AllSpaces(it.gap) &&
    match it
    case Arg(_, word) => Valid(word, esc) && forall i | 0 <= i < |word| :: ReadAlike(word[i])
    case Redirect(_, op, pad, word) =>
      AllSpaces(pad) && word != [] && Valid(word, esc) && NamesATarget(op, pad, word[0]) && Ends(rest)
    case Dangling(_, op) => NoWordFollows(rest) && OperatorEnds(op, rest)
  }

  /** Only the word of a redirection must be followed by white space or the end. */
  predicate ValidItems(items: seq<Item>, end: string, esc: bool) {
    if items == [] then AllSpaces(end)
    else ValidItem(items[0], ItemsText(items[1..], end), esc) && ValidItems(items[1..], end, esc)
  }

  function ItemText(it: Item, rest: string): string {
    match it
    case Arg(gap, word) => gap + (Text(word) + rest)
    case Redirect(gap, op, pad, word) => gap + (OperatorText(op) + (pad + (Text(word) + rest)))
    case Dangling(gap, op) => gap + (OperatorText(op) + rest)
  }

  function ItemsText(items: seq<Item>, end: string): string {
    if items == [] then end else ItemText(items[0], ItemsText(items[1..], end))
  }

  function TargetOf(it: Item): seq<Target> {
    if it.Redirect? && Meaning(it.word) != "" then [Target(Meaning(it.word), it.op == Append)] else []
  }

  /** The files the line writes: the redirected words, but for empty ones, in order. */
  function TargetsOf(items: seq<Item>): seq<Target> {
    if items == [] then [] else TargetOf(items[0]) + TargetsOf(items[1..])
  }

  lemma {:induction false} PassSpaces(gap: string, rest: string, esc: bool)
    requires AllSpaces(gap)
    ensures Redirects(gap + rest, NUL, false, esc) == Redirects(rest, NUL, false, esc)
  {
    if gap == "" {
      assert gap + rest == rest;
    } else {
      assert (gap + rest)[1..] == gap[1..] + rest;
      PassSpaces(gap[1..], rest, esc);
    }
  }

  lemma {:induction false} PassBody(body: seq<Bit>, mark: char, rest: string, esc: bool)
    requires ValidPiece(Quoted(mark, body), esc) && ReadAlike(Quoted(mark, body))
    ensures Redirects(BodyText(body) + ([mark] + rest), mark, false, esc) == Redirects(rest, NUL, false, esc)
  {
    if body == [] {
      assert "" + ([mark] + rest) == [mark] + rest && ([mark] + rest)[1..] == rest;
    } else {
      var b, tail := body[0], BodyText(body[1..]) + ([mark] + rest);
      assert ValidBit(body[0], mark, esc) && !(mark == '\'' && body[0].escaped && body[0].c == '\'');
      PassBody(body[1..], mark, rest, esc);
      Prelude.Associate(BitText(b), BodyText(body[1..]), [mark] + rest);
      PassBit(b, mark, tail, esc);
    }
  }

  lemma PassBit(b: Bit, mark: char, tail: string, esc: bool)
    requires ValidBit(b, mark, esc) && IsQuote(mark) && !(mark == '\'' && b.escaped && b.c == '\'')
    ensures Redirects(BitText(b) + tail, mark, false, esc) == Redirects(tail, mark, false, esc)
  {
    var s := BitText(b) + tail;
    if b.escaped {
      assert s[1..][1..] == tail && s[1..][0] == b.c;
    } else {
      assert s[1..] == tail;
    }
  }

  lemma PassBare(bit: Bit, rest: string, esc: bool)
    requires ValidPiece(Bare(bit), esc) && ReadAlike(Bare(bit))
    ensures Redirects(BitText(bit) + rest, NUL, false, esc) == Redirects(rest, NUL, false, esc)
  {
    var s := BitText(bit) + rest;
    if bit.escaped {
      assert s[1..][1..] == rest && s[1..][0] == bit.c;
    } else {
      assert s[1..] == rest;
    }
  }

  lemma PassPiece(p: Piece, rest: string, esc: bool)
    requires ValidPiece(p, esc) && ReadAlike(p)
    ensures Redirects(PieceText(p) + rest, NUL, false, esc) == Redirects(rest, NUL, false, esc)
  {
    match p {
      case Bare(bit) => PassBare(bit, rest, esc);
      case Quoted(mark, body) =>
        PassBody(body, mark, rest, esc);
        assert (PieceText(p) + rest)[1..] == BodyText(body) + ([mark] + rest);
    }
  }

  /** Words between redirections, whatever is quoted in them, add no target. */
  lemma {:induction false} PassWord(w: Spelling, rest: string, esc: bool)
    requires Valid(w, esc) && forall i | 0 <= i < |w| :: ReadAlike(w[i])
    ensures Redirects(Text(w) + rest, NUL, false, esc) == Redirects(rest, NUL, false, esc)
  {
    if w == [] {
      assert Text(w) + rest == rest;
    } else {
      PassWord(w[1..], rest, esc);
      assert ValidPiece(w[0], esc) && ReadAlike(w[0]);
      PassPiece(w[0], Text(w[1..]) + rest, esc);
      Prelude.Associate(PieceText(w[0]), Text(w[1..]), rest);
    }
  }

  /** A word that means nothing is made of empty quotes. */
  lemma {:induction false} EmptyWordIsReadAlike(w: Spelling)
    requires Meaning(w) == ""
    ensures forall i | 0 <= i < |w| :: ReadAlike(w[i])
  {
    if w != [] {
      EmptyWordIsReadAlike(w[1..]);
      assert PieceMeaning(w[0]) == "";
      assert forall i | 0 < i < |w| :: w[i] == w[1..][i - 1];
    }
  }

  /** The operator is read to its end, whatever word or space follows. */
  lemma OperatorIsRead(op: Operator, rest: string)
    requires OperatorEnds(op, rest)
    ensures var s := OperatorText(op) + rest;
            s[0] == '>' && OperatorLength(s) <= |s| && s[OperatorLength(s)..] == rest && (Appends(s) <==> op == Append)
  {
  }

  /** Where a word that names a target begins, the operator before it ends and a target is looked for. */
  lemma TargetBegins(op: Operator, pad: string, w: Spelling, rest: string, esc: bool)
    requires AllSpaces(pad) && w != [] && Valid(w, esc) && NamesATarget(op, pad, w[0])
    ensures OperatorEnds(op, pad + (Text(w) + rest)) && !NoTarget(Text(w) + rest)
    ensures SkipSpaces(pad + (Text(w) + rest)) == Text(w) + rest
  {
    SpellingStarts(w, rest, esc);
    assert ValidPiece(w[0], esc);
    SpacesAreSkipped(pad, Text(w) + rest);
    if pad == "" {
      assert pad + (Text(w) + rest) == Text(w) + rest;
    }
  }

  lemma RedirectIsRead(op: Operator, pad: string, w: Spelling, rest: string, esc: bool)
    requires AllSpaces(pad) && w != [] && Valid(w, esc) && NamesATarget(op, pad, w[0]) && Ends(rest)
    ensures Redirects(OperatorText(op) + (pad + (Text(w) + rest)), NUL, false, esc)
            == (if Meaning(w) == "" then [] else [Target(Meaning(w), op == Append)]) + Redirects(rest, NUL, false, esc)
  {
    var t := Text(w) + rest;
    TargetBegins(op, pad, w, rest, esc);
    OperatorIsRead(op, pad + t);
    EverySpellingIsRead(w, rest, esc);
    assert t[|Text(w)|..] == rest;
    if Meaning(w) == "" { EmptyTargetIsPassed(pad, w, rest, esc); }
  }

  lemma EmptyTargetIsPassed(pad: string, w: Spelling, rest: string, esc: bool)
    requires AllSpaces(pad) && Valid(w, esc) && Meaning(w) == ""
    ensures Redirects(pad + (Text(w) + rest), NUL, false, esc) == Redirects(rest, NUL, false, esc)
  {
    PassSpaces(pad, Text(w) + rest, esc);
    EmptyWordIsReadAlike(w);
    PassWord(w, rest, esc);
  }

  lemma DanglingIsPassed(op: Operator, rest: string, esc: bool)
    requires NoTarget(SkipSpaces(rest)) && OperatorEnds(op, rest)
    ensures Redirects(OperatorText(op) + rest, NUL, false, esc) == Redirects(rest, NUL, false, esc)
  {
    OperatorIsRead(op, rest);
  }

  lemma ItemIsRead(it: Item, rest: string, esc: bool)
    requires ValidItem(it, rest, esc)
    ensures Redirects(ItemText(it, rest), NUL, false, esc) == TargetOf(it) + Redirects(rest, NUL, false, esc)
  {
    match it {
      case Arg(gap, word) =>
        PassSpaces(gap, Text(word) + rest, esc);
        PassWord(word, rest, esc);
      case Redirect(gap, op, pad, word) =>
        PassSpaces(gap, OperatorText(op) + (pad + (Text(word) + rest)), esc);
        RedirectIsRead(op, pad, word, rest, esc);
      case Dangling(gap, op) =>
        PassSpaces(gap, OperatorText(op) + rest, esc);
        NoWordMeansNoTarget(rest);
        DanglingIsPassed(op, rest, esc);
    }
  }

  /** The scanner finds exactly the line's redirections, in order, with the right mode. */
  lemma {:induction false} RedirectsAreExact(items: seq<Item>, end: string, esc: bool)
    requires ValidItems(items, end, esc)
    ensures Redirects(ItemsText(items, end), NUL, false, esc) == TargetsOf(items)
  {
    if items == [] {
      assert end + "" == end;
      PassSpaces(end, "", esc);
    } else {
      RedirectsAreExact(items[1..], end, esc);
      ItemIsRead(items[0], ItemsText(items[1..], end), esc);
    }
  }

  /** A quoted word, `>` and a quoted file name: that file is the one target. */
  lemma QuotedRedirect(p: string, w: string)
    requires w != ""
    ensures Redirects(Quote(p) + (" " + (">" + (" " + Quote(w)))), NUL, false, true) == [Target(w, false)]
  {
    var target := ">" + (" " + Quote(w));
    QuoteSpells(p);
    PassWord(QuotedSpelling(p), " " + target, true);
    PassSpaces(" ", target, true);
    QuotedTarget(w);
  }

  lemma QuotedTarget(w: string)
    requires w != ""
    ensures Redirects(">" + (" " + Quote(w)), NUL, false, true) == [Target(w, false)]
  {
    QuoteSpells(w);
    RedirectIsRead(Truncate, " ", QuotedSpelling(w), "", true);
    assert Quote(w) + "" == Quote(w);
  }

  // ----- Where the two scanners agree -----

  /** What a scanner remembers from one character to the next. */
  datatype Quoting = Quoting(quote: char, escaped: bool)

  const PLAIN := Quoting(NUL, false)

  function WordQuoting(q: Quoting, c: char, esc: bool): Quoting {
    if q.escaped then Quoting(q.quote, false)
    else if c == '\\' && esc then Quoting(q.quote, true)
    else if IsQuote(c) && q.quote == NUL then Quoting(c, false)
    else if IsQuote(c) && q.quote == c then PLAIN
    else q
  }

  function RedirectQuoting(q: Quoting, c: char, esc: bool): Quoting {
    if q.quote != NUL then
      if q.escaped then Quoting(q.quote, false)
      else if esc && c == '\\' && q.quote == '"' then Quoting(q.quote, true)
      else if c == q.quote then PLAIN
      else q
    else if q.escaped then PLAIN
    else if c == '\\' then Quoting(NUL, esc)
    else if IsQuote(c) then Quoting(c, false)
    else q
  }

  function WordQuotingAfter(s: string, esc: bool): Quoting {
    if s == "" then PLAIN else WordQuoting(WordQuotingAfter(s[..|s| - 1], esc), s[|s| - 1], esc)
  }

  function RedirectQuotingAfter(s: string, esc: bool): Quoting {
    if s == "" then PLAIN else RedirectQuoting(RedirectQuotingAfter(s[..|s| - 1], esc), s[|s| - 1], esc)
  }

  /** This is how the word scanner goes on after one character, unless the word ends there. */
  lemma WordFollowsItsQuoting(s: string, q: Quoting, esc: bool)
    requires s != "" && (q == PLAIN ==> !IsShellSpace(s[0]))
    ensures var next := WordQuoting(q, s[0], esc);
            var r := Word(s[1..], next.quote, next.escaped, esc);
            Word(s, q.quote, q.escaped, esc) == r.Emitting(s[0]) || Word(s, q.quote, q.escaped, esc) == r.Skipping()
  {
  }

  /** And this is how the redirection scanner does, unless an operator begins there. */
  lemma RedirectsFollowTheirQuoting(s: string, q: Quoting, esc: bool)
    requires s != "" && (q == PLAIN ==> s[0] != '>')
    ensures var next := RedirectQuoting(q, s[0], esc);
            Redirects(s, q.quote, q.escaped, esc) == Redirects(s[1..], next.quote, next.escaped, esc)
  {
  }

  /** Both scanners take the same characters of the text to be inside the same quotes. */
  ghost predicate DelimitAlike(s: string, esc: bool) {
    forall k: nat | k <= |s| :: WordQuotingAfter(s[..k], esc).quote == RedirectQuotingAfter(s[..k], esc).quote
  }

  /** The word scanner reads an escaped single quote inside single quotes. */
  predicate EscapesASingleQuote(s: string, k: nat, esc: bool)
    requires k < |s|
  {
    WordQuotingAfter(s[..k], esc) == Quoting('\'', true) && s[k] == '\''
  }

  /** Inside single quotes only the word scanner can be escaped; elsewhere they are in the same state. */
  predicate SameQuoting(w: Quoting, r: Quoting) {
    (w.quote == NUL || IsQuote(w.quote)) && w.quote == r.quote && (if w.quote == '\'' then !r.escaped else w.escaped == r.escaped)
  }

  lemma QuotingStep(w: Quoting, r: Quoting, c: char, esc: bool)
    requires SameQuoting(w, r)
    ensures if w == Quoting('\'', true) && c == '\'' then WordQuoting(w, c, esc).quote != RedirectQuoting(r, c, esc).quote
            else SameQuoting(WordQuoting(w, c, esc), RedirectQuoting(r, c, esc))
  {
  }

  lemma {:induction false} SameUntilEscaped(s: string, k: nat, esc: bool)
    requires k <= |s| && forall j: nat | j < k :: !EscapesASingleQuote(s, j, esc)
    ensures SameQuoting(WordQuotingAfter(s[..k], esc), RedirectQuotingAfter(s[..k], esc))
  {
    if k > 0 {
      SameUntilEscaped(s, k - 1, esc);
      assert s[..k][..k - 1] == s[..k - 1];
      QuotingStep(WordQuotingAfter(s[..k - 1], esc), RedirectQuotingAfter(s[..k - 1], esc), s[k - 1], esc);
      assert !EscapesASingleQuote(s, k - 1, esc);
    }
  }

  lemma FirstEscapeParts(s: string, k: nat, esc: bool)
    requires k < |s| && EscapesASingleQuote(s, k, esc)
    ensures !DelimitAlike(s, esc)
    decreases k
  {
    if j: nat :| j < k && EscapesASingleQuote(s, j, esc) {
      FirstEscapeParts(s, j, esc);
    } else {
      SameUntilEscaped(s, k, esc);
      assert s[..k + 1][..k] == s[..k];
      QuotingStep(WordQuotingAfter(s[..k], esc), RedirectQuotingAfter(s[..k], esc), s[k], esc);
      assert WordQuotingAfter(s[..k + 1], esc).quote != RedirectQuotingAfter(s[..k + 1], esc).quote;
    }
  }

  /**
    On every text the two scanners see the same quotes exactly when the text has no
    escaped single quote inside single quotes, which only the word scanner knows.
    */
  lemma ScannersAgreeExactly(s: string, esc: bool)
    ensures DelimitAlike(s, esc) <==> forall k: nat | k < |s| :: !EscapesASingleQuote(s, k, esc)
  {
    if forall k: nat | k < |s| :: !EscapesASingleQuote(s, k, esc) {
      forall k: nat | k <= |s| ensures WordQuotingAfter(s[..k], esc).quote == RedirectQuotingAfter(s[..k], esc).quote {
        SameUntilEscaped(s, k, esc);
      }
    } else {
      var k: nat :| k < |s| && EscapesASingleQuote(s, k, esc);
      FirstEscapeParts(s, k, esc);
    }
  }

  /**
    Such a text: to the word scanner the quote stays open and the line is one word;
    the redirection scanner closes the quote and finds a target.
    */
  lemma ScannersDisagreeInSingleQuotes()
    ensures Words("'\\'>f", true) == ["'>f"]
    ensures Redirects("'\\'>f", NUL, false, true) == [Target("f", false)]
  {
    var s, q := "'\\'>f", '\'';
    assert s[1..] == "\\'>f" && "\\'>f"[1..] == "'>f" && "'>f"[1..] == ">f" && ">f"[1..] == "f" && "f"[1..] == "";
    assert Word("f", q, false, true) == Read("f", 1);
    assert Word(">f", q, false, true) == Read(">f", 2);
    assert Word("'>f", q, true, true) == Read("'>f", 3);
    assert Word(s, NUL, false, true) == Read("'>f", 5);
    assert Words("", true) == [];
    assert s[5..] == "";
    assert Word("f", NUL, false, true) == Read("f", 1);
    assert Redirects("", NUL, false, true) == [];
    assert Redirects(">f", NUL, false, true) == [Target("f", false)];
    assert Redirects("'>f", q, false, true) == [Target("f", false)];
  }
}
