/**
  The bounded session log and its compaction: a summary of older messages replaces
  them while new messages may have arrived since the snapshot.
  */
module Compaction {
  import opened Prelude
  import opened Text
  import opened AgentLoop

  const MAX_MESSAGES := 1000

  // ----- Token estimates -----

  /** Characters of the Han, Hangul, Katakana and Hiragana scripts. */
  type Wide = iset<char>

  datatype Usage = Usage(promptTokens: int, completionTokens: int, totalTokens: int)

  function CountWide(text: string, wide: Wide): (n: nat)
    ensures n <= |text|
  {
    if text == "" then 0 else CountWide(text[..|text| - 1], wide) + (if text[|text| - 1] in wide then 1 else 0)
  }

  ghost function WideAt(text: string, wide: Wide): set<int> {
    set i | 0 <= i < |text| && text[i] in wide
  }

  lemma {:induction false} WideCount(text: string, wide: Wide)
    ensures CountWide(text, wide) == |WideAt(text, wide)|
  {
    if text != "" {
      var n := |text| - 1;
      WideCount(text[..n], wide);
      assert WideAt(text, wide) == WideAt(text[..n], wide) + if text[n] in wide then {n} else {};
    }
  }

  function Tokens(text: string, wide: Wide): nat {
    if text == "" then 0
    else (|text| - CountWide(text, wide)) / 4 + CountWide(text, wide) + 3
  }

  method EstimateTokens(text: string, wide: Wide) returns (tokens: nat)
    ensures tokens == Tokens(text, wide)
    ensures text == "" ==> tokens == 0
    ensures text != "" ==>
              var w := |WideAt(text, wide)|;
              4 * (tokens - 3 - w) <= |text| - w < 4 * (tokens - 3 - w) + 4
  {
    if text == "" {
      return 0;
    }
    var ascii, cjk := 0, 0;
    for i := 0 to |text|
      invariant cjk == CountWide(text[..i], wide) && ascii == i - cjk
    {
      assert text[..i + 1][..i] == text[..i];
      if text[i] in wide {
        cjk := cjk + 1;
      } else {
        ascii := ascii + 1;
      }
    }
    assert text[..|text|] == text;
    WideCount(text, wide);
    tokens := ascii / 4 + cjk + 3;
  }

  function CallTokens(calls: seq<ToolCall>, wide: Wide): nat {
    if calls == [] then 0
    else
      var last := calls[|calls| - 1];
      CallTokens(calls[..|calls| - 1], wide) + (Tokens(last.name, wide) + Tokens(last.arguments, wide))
  }

  method EstimateCalls(calls: seq<ToolCall>, wide: Wide) returns (tokens: nat)
    ensures tokens == CallTokens(calls, wide)
  {
    tokens := 0;
    for i := 0 to |calls|
      invariant tokens == CallTokens(calls[..i], wide)
    {
      assert calls[..i + 1][..i] == calls[..i];
      var name := EstimateTokens(calls[i].name, wide);
      var arguments := EstimateTokens(calls[i].arguments, wide);
      tokens := tokens + name + arguments;
    }
    assert calls[..|calls|] == calls;
  }

  function MessageTokens(m: Message, wide: Wide): nat {
    match m
    case Assistant(content, calls) => Tokens(content, wide) + CallTokens(calls, wide)
    case Tool(result) => Tokens(result.output, wide) + Tokens(result.error, wide)
    case _ => Tokens(m.content, wide)
  }

  method EstimateMessage(m: Message, wide: Wide) returns (tokens: nat)
    ensures tokens == MessageTokens(m, wide)
  {
    match m {
      case Assistant(content, calls) =>
        var text := EstimateTokens(content, wide);
        var called := EstimateCalls(calls, wide);
        tokens := text + called;
      case Tool(result) =>
        var output := EstimateTokens(result.output, wide);
        var error := EstimateTokens(result.error, wide);
        tokens := output + error;
      case _ => tokens := EstimateTokens(m.content, wide);
    }
  }

  /** The texts of a message, each of which is estimated by itself. */
  function TextsOf(m: Message): seq<string> {
    match m
    case Assistant(content, calls) => [content] + CallTexts(calls)
    case Tool(result) => [result.output, result.error]
    case _ => [m.content]
  }

  function CallTexts(calls: seq<ToolCall>): seq<string> {
    if calls == [] then [] else CallTexts(calls[..|calls| - 1]) + [calls[|calls| - 1].name, calls[|calls| - 1].arguments]
  }

  function SumOfTokens(texts: seq<string>, wide: Wide): nat {
    if texts == [] then 0 else Tokens(texts[0], wide) + SumOfTokens(texts[1..], wide)
  }

  lemma {:induction false} SumAdds(a: seq<string>, b: seq<string>, wide: Wide)
    ensures SumOfTokens(a + b, wide) == SumOfTokens(a, wide) + SumOfTokens(b, wide)
  {
    if a == [] {
      assert a + b == b;
    } else {
      assert (a + b)[1..] == a[1..] + b;
      SumAdds(a[1..], b, wide);
    }
  }

  lemma {:induction false} CallsAreTheirTexts(calls: seq<ToolCall>, wide: Wide)
    ensures CallTokens(calls, wide) == SumOfTokens(CallTexts(calls), wide)
  {
    if calls != [] {
      var n := |calls| - 1;
      CallsAreTheirTexts(calls[..n], wide);
      SumAdds(CallTexts(calls[..n]), [calls[n].name, calls[n].arguments], wide);
      TwoTexts(calls[n].name, calls[n].arguments, wide);
    }
  }

  lemma TwoTexts(a: string, b: string, wide: Wide)
    ensures SumOfTokens([a, b], wide) == Tokens(a, wide) + Tokens(b, wide)
  {
    assert [a, b][1..] == [b] && [b][1..] == [];
    assert SumOfTokens([b], wide) == Tokens(b, wide);
  }

  /** A message costs what its texts cost: the content with the names and arguments of its calls, or a tool's output and error. */
  lemma MessageIsItsTexts(m: Message, wide: Wide)
    ensures MessageTokens(m, wide) == SumOfTokens(TextsOf(m), wide)
  {
    match m {
      case Assistant(content, calls) =>
        CallsAreTheirTexts(calls, wide);
        assert ([content] + CallTexts(calls))[1..] == CallTexts(calls);
      case Tool(result) => TwoTexts(result.output, result.error, wide);
      case _ => assert [m.content][1..] == [];
    }
  }

  /** It counts as completion when it is the assistant's, and as prompt otherwise. */
  lemma EstimateOfOne(m: Message, wide: Wide)
    ensures var n := SumOfTokens(TextsOf(m), wide);
            Estimate([m], wide) == if m.Assistant? then Usage(0, n, n) else Usage(n, 0, n)
  {
    MessageIsItsTexts(m, wide);
    assert [m][..0] == [];
    assert Side([m], true, wide) == Side([], true, wide) + (if m.Assistant? then MessageTokens(m, wide) else 0);
    assert Side([m], false, wide) == Side([], false, wide) + (if m.Assistant? then 0 else MessageTokens(m, wide));
  }

  /** Tokens of the assistant's messages, or of all the others. */
  function Side(messages: seq<Message>, assistant: bool, wide: Wide): nat {
    if messages == [] then 0
    else
      var last := messages[|messages| - 1];
      Side(messages[..|messages| - 1], assistant, wide) + (if last.Assistant? == assistant then MessageTokens(last, wide) else 0)
  }

  function Totals(prompt: nat, completion: nat): Usage {
    Usage(prompt, completion, prompt + completion)
  }

  function Estimate(messages: seq<Message>, wide: Wide): Usage {
    Totals(Side(messages, false, wide), Side(messages, true, wide))
  }

  method EstimateMessagesUsage(messages: seq<Message>, wide: Wide) returns (usage: Usage)
    ensures usage == Estimate(messages, wide)
  {
    var prompt, completion := 0, 0;
    for i := 0 to |messages|
      invariant prompt == Side(messages[..i], false, wide) && completion == Side(messages[..i], true, wide)
    {
      assert messages[..i + 1][..i] == messages[..i];
      var tokens := EstimateMessage(messages[i], wide);
      if messages[i].Assistant? {
        completion := completion + tokens;
      } else {
        prompt := prompt + tokens;
      }
    }
    assert messages[..|messages|] == messages;
    usage := Usage(prompt, completion, prompt + completion);
  }

  /** A turn's usage: what the provider reports, or else an estimate. */
  method EstimateTurnUsage(base: Usage, messages: seq<Message>, content: string, calls: seq<ToolCall>, wide: Wide) returns (usage: Usage)
    ensures base.totalTokens != 0 ==> usage == base
    ensures base.totalTokens == 0 ==>
              var prompt := Side(messages, false, wide);
              var completion := MessageTokens(Assistant(content, calls), wide);
              usage == Usage(prompt, completion, prompt + completion)
  {
    if base.totalTokens != 0 {
      return base;
    }
    usage := EstimateMessagesUsage(messages, wide);
    var text := EstimateTokens(content, wide);
    var called := EstimateCalls(calls, wide);
    usage := usage.(completionTokens := text + called);
    usage := usage.(totalTokens := usage.promptTokens + usage.completionTokens);
  }

  lemma {:induction false} SideAdds(a: seq<Message>, b: seq<Message>, assistant: bool, wide: Wide)
    ensures Side(a + b, assistant, wide) == Side(a, assistant, wide) + Side(b, assistant, wide)
    decreases |b|
  {
    if b == [] {
      assert a + b == a;
    } else {
      assert (a + b)[..|a + b| - 1] == a + b[..|b| - 1];
      SideAdds(a, b[..|b| - 1], assistant, wide);
    }
  }

  function Plus(a: Usage, b: Usage): Usage {
    Usage(a.promptTokens + b.promptTokens, a.completionTokens + b.completionTokens, a.totalTokens + b.totalTokens)
  }

  /** The estimate of two lists together is the sum of their estimates. */
  lemma EstimateAdds(a: seq<Message>, b: seq<Message>, wide: Wide)
    ensures Estimate(a + b, wide) == Plus(Estimate(a, wide), Estimate(b, wide))
  {
    var p, c, p', c' := Side(a, false, wide), Side(a, true, wide), Side(b, false, wide), Side(b, true, wide);
    assert Estimate(a + b, wide) == Totals(p + p', c + c') by { SidesAdd(a, b, wide); }
    TotalsAdd(p, c, p', c');
    assert Estimate(a, wide) == Totals(p, c) && Estimate(b, wide) == Totals(p', c');
  }

  lemma SidesAdd(a: seq<Message>, b: seq<Message>, wide: Wide)
    ensures Side(a + b, false, wide) == Side(a, false, wide) + Side(b, false, wide)
    ensures Side(a + b, true, wide) == Side(a, true, wide) + Side(b, true, wide)
  {
    SideAdds(a, b, false, wide);
    SideAdds(a, b, true, wide);
  }

  lemma TotalsAdd(p: nat, c: nat, p': nat, c': nat)
    ensures Totals(p + p', c + c') == Plus(Totals(p, c), Totals(p', c'))
  {
  }

  lemma {:induction false} WideAdds(a: string, b: string, wide: Wide)
    ensures CountWide(a + b, wide) == CountWide(a, wide) + CountWide(b, wide)
    decreases |b|
  {
    if b == "" {
      assert a + b == a;
    } else {
      assert (a + b)[..|a + b| - 1] == a + b[..|b| - 1];
      WideAdds(a, b[..|b| - 1], wide);
    }
  }

  /** Within a message the estimate is not additive: one text costs two or three tokens less than its two parts. */
  lemma OneTextIsCheaper(a: string, b: string, wide: Wide)
    requires a != "" && b != ""
    ensures Tokens(a, wide) + Tokens(b, wide) - 3 <= Tokens(a + b, wide) <= Tokens(a, wide) + Tokens(b, wide) - 2
  {
    WideAdds(a, b, wide);
  }

  // ----- The session log -----

  function LastOf<T>(s: seq<T>, n: nat): seq<T>
    requires n <= |s|
  {
    s[|s| - n..]
  }

  /** Adding a message; over the limit the oldest go, but never a system message at the head. */
  function Added(messages: seq<Message>, m: Message): (log: seq<Message>)
    ensures log != []
  {
    var all := messages + [m];
    if |all| <= MAX_MESSAGES then all
    else if all[0].System? then [all[0]] + LastOf(all, MAX_MESSAGES - 1)
    else LastOf(all, MAX_MESSAGES)
  }

  function AddAll(messages: seq<Message>, added: seq<Message>): seq<Message> {
    if added == [] then messages
    else Added(AddAll(messages, added[..|added| - 1]), added[|added| - 1])
  }

  /** The summary as the one message that stands for those it replaces. */
  function SummaryMessage(summary: string): Message {
    Assistant("[Previous conversation summary]\n" + summary, [])
  }

  function Head(messages: seq<Message>): seq<Message> {
    if messages != [] && messages[0].System? then [messages[0]] else []
  }

  function Since(messages: seq<Message>, snapshotLen: nat): seq<Message> {
    if snapshotLen < |messages| then messages[snapshotLen..] else []
  }

  function Compacted(messages: seq<Message>, summary: string, kept: seq<Message>, snapshotLen: nat): seq<Message> {
    Head(messages) + ([SummaryMessage(summary)] + (kept + Since(messages, snapshotLen)))
  }

  /** The whole third of the messages, but at least two. */
  function KeepCount(n: nat): (keep: nat)
    ensures keep >= 2 && n < 3 * keep + 3 && (keep > 2 ==> 3 * keep <= n)
  {
    if n / 3 < 2 then 2 else n / 3
  }

  // ----- Choosing and making the summary -----

  datatype Action = NoAction | Summarize | Full

  datatype Config = Config(compressThreshold: real, summarizeThreshold: real, summarizeTurns: int)

  /** The float64 arithmetic of the usage ratio, as any rounding of the exact quotient of rounded numbers. */
  ghost predicate Rounding(fl: real -> real) {
    (forall a: real, b: real :: a <= b ==> fl(a) <= fl(b)) && (forall a: real :: a >= 1.0 ==> fl(a) > 0.0)
  }

  function Check(cfg: Config, contextWindow: int, totalTokens: int, turnCount: int, fl: real -> real): Action
    requires Rounding(fl)
  {
    if contextWindow <= 0 then NoAction
    else
      var ratio := fl(fl(totalTokens as real) / fl(contextWindow as real));
      if cfg.compressThreshold > 0.0 && ratio >= cfg.compressThreshold then Full
      else if cfg.summarizeThreshold > 0.0 && ratio >= cfg.summarizeThreshold then Summarize
      else if cfg.summarizeTurns > 0 && turnCount >= cfg.summarizeTurns then Summarize
      else NoAction
  }

  /** The bytes of a character in UTF-8. */
  function CharBytes(c: char): nat {
    if c <= '\U{7F}' then 1 else if c <= '\U{7FF}' then 2 else if c <= '\U{FFFF}' then 3 else 4
  }

  function Power(n: nat): nat {
    if n == 0 then 1 else 2 * Power(n - 1)
  }

  /** One byte holds seven bits; n of them, in the form of RFC 3629 section 3, hold 5 * n + 1. The shortest form is used. */
  lemma CharBytesAreUtf8(c: char)
    ensures var n := CharBytes(c);
            && 1 <= n <= 4
            && c as int < (if n == 1 then Power(7) else Power(5 * n + 1))
            && (n > 1 ==> c as int >= if n == 2 then Power(7) else Power(5 * n - 4))
  {
    assert Power(7) == 0x80;
    assert Power(11) == 16 * Power(7);
    assert Power(16) == 32 * Power(11);
    assert Power(21) == 32 * Power(16);
  }

  function Bytes(s: string): (n: nat)
    ensures |s| <= n <= 4 * |s|
  {
    if s == "" then 0 else Bytes(s[..|s| - 1]) + CharBytes(s[|s| - 1])
  }

  /** The second reply is taken if it says something and is at most a fifth longer, in bytes. */
  function Optimized(summary: string, reply: Result<string, string>): (s: string)
    ensures Bytes(s) <= Bytes(summary) * 120 / 100
    ensures s == summary || (s != "" && reply.Ok? && s == TrimSpace(reply.value))
  {
    if reply.Err? then summary
    else
      var optimized := TrimSpace(reply.value);
      if optimized == "" || Bytes(optimized) > Bytes(summary) * 120 / 100 then summary else optimized
  }

  /** What the summarizer hands to the replacement: a summary and the messages kept as they are. */
  function Summarized(action: Action, messages: seq<Message>, reply: Result<string, string>): Result<(string, seq<Message>), string> {
    match action
    case NoAction => Ok(("", []))
    case Summarize =>
      if |messages| < 4 then Ok(("", messages))
      else if reply.Err? then Err(reply.error)
      else Ok((TrimSpace(reply.value), LastOf(messages, KeepCount(|messages|))))
    case Full =>
      if messages == [] then Ok(("", []))
      else if reply.Err? then Err(reply.error)
      else Ok((TrimSpace(reply.value), []))
  }

  lemma FourParts<T>(a: seq<T>, b: seq<T>, c: seq<T>, d: seq<T>)
    ensures ((a + b) + c) + d == a + (b + (c + d))
  {
  }

  /** The message at `at` is the assistant's, calls nothing, and ends with the text. */
  predicate SaysAt(messages: seq<Message>, at: nat, text: string) {
    && at < |messages| && messages[at].Assistant? && messages[at].calls == []
    && |text| <= |messages[at].content| && messages[at].content[|messages[at].content| - |text|..] == text
  }

  /** The second summary says something and is at most a fifth longer, in bytes. */
  predicate TakesSecond(first: string, second: string) {
    second != "" && 100 * Bytes(second) <= 120 * Bytes(first)
  }

  lemma FailedSummary(action: Action, snapshot: seq<Message>, reply: Result<string, string>)
    ensures reply.Err? && ((action.Summarize? && |snapshot| >= 4) || (action.Full? && snapshot != [])) ==>
              Summarized(action, snapshot, reply).Err?
  {
  }

  lemma SummaryChosen(action: Action, snapshot: seq<Message>, reply: Result<string, string>, second: Result<string, string>)
    ensures reply.Ok? && ((action.Summarize? && |snapshot| >= 4) || (action.Full? && snapshot != [])) ==>
              var r := Summarized(action, snapshot, reply);
              && r.Ok?
              && Optimized(r.value.0, second)
                 == (if second.Ok? && TakesSecond(TrimSpace(reply.value), TrimSpace(second.value)) then TrimSpace(second.value)
                     else TrimSpace(reply.value))
              && (action.Summarize? ==> r.value.1 == snapshot[|snapshot| - KeepCount(|snapshot|)..])
  {
  }

  /** A compacted log ends with the kept messages and those since the snapshot. */
  lemma EndsWithTheKept(messages: seq<Message>, summary: string, kept: seq<Message>, n: nat)
    ensures n <= |messages| ==>
              var log, end := Compacted(messages, summary, kept, n), kept + messages[n..];
              |end| <= |log| && log[|log| - |end|..] == end
  {
  }

  class Session {
    var messages: seq<Message>
    var usage: Usage

    constructor ()
      ensures messages == [] && usage == Usage(0, 0, 0)
    {
      messages, usage := [], Usage(0, 0, 0);
    }

    method AddMessage(m: Message)
      modifies this`messages
      ensures messages == Added(old(messages), m)
      ensures |old(messages)| < MAX_MESSAGES ==> messages == old(messages) + [m]
      ensures |old(messages)| == MAX_MESSAGES ==>
                messages == (if old(messages)[0].System? then [old(messages)[0]] + old(messages)[2..] else old(messages)[1..]) + [m]
    {
      messages := messages + [m];
      if |messages| > MAX_MESSAGES {
        if messages[0].System? {
          messages := [messages[0]] + messages[|messages| - (MAX_MESSAGES - 1)..];
        } else {
          messages := messages[|messages| - MAX_MESSAGES..];
        }
      }
    }

    method MessagesSnapshot() returns (snapshot: seq<Message>, n: nat)
      ensures snapshot == messages && n == |messages|
    {
      snapshot, n := messages, |messages|;
    }

    method ReplaceSessionMessages(summary: string, kept: seq<Message>, snapshotLen: nat, wide: Wide)
      modifies this
      ensures messages == Compacted(old(messages), summary, kept, snapshotLen)
      ensures SaysAt(messages, if old(messages) != [] && old(messages)[0].System? then 1 else 0, summary)
      ensures usage == Estimate(messages, wide)
    {
      var postSnapshot := [];
      if snapshotLen < |messages| {
        postSnapshot := messages[snapshotLen..];
      }
      var newMessages := [];
      if |messages| > 0 && messages[0].System? {
        newMessages := [messages[0]];
      }
      FourParts(Head(messages), [SummaryMessage(summary)], kept, postSnapshot);
      newMessages := newMessages + [SummaryMessage(summary)];
      newMessages := newMessages + kept;
      newMessages := newMessages + postSnapshot;
      messages := newMessages;
      usage := EstimateMessagesUsage(messages, wide);
    }

    /** One compaction, with the provider's two replies as input; a failed summary changes nothing. */
    method RunCompress(action: Action, snapshot: seq<Message>, reply: Result<string, string>, second: Result<string, string>, wide: Wide)
      modifies this
      ensures match Summarized(action, snapshot, reply)
              case Err(_) => messages == old(messages) && usage == old(usage)
              case Ok(pair) =>
                && messages == Compacted(old(messages), Optimized(pair.0, second), pair.1, |snapshot|)
                && usage == Estimate(messages, wide)
      ensures reply.Err? && ((action.Summarize? && |snapshot| >= 4) || (action.Full? && snapshot != [])) ==>
                messages == old(messages) && usage == old(usage)
      ensures reply.Ok? && ((action.Summarize? && |snapshot| >= 4) || (action.Full? && snapshot != [])) ==>
                SaysAt(messages, if old(messages) != [] && old(messages)[0].System? then 1 else 0,
                       if second.Ok? && TakesSecond(TrimSpace(reply.value), TrimSpace(second.value)) then TrimSpace(second.value)
                       else TrimSpace(reply.value))
      ensures action.Summarize? && |snapshot| >= 4 && reply.Ok? && |old(messages)| >= |snapshot| ==>
                var end := snapshot[|snapshot| - KeepCount(|snapshot|)..] + old(messages)[|snapshot|..];
                |end| <= |messages| && messages[|messages| - |end|..] == end
    {
      var summarized := Summarized(action, snapshot, reply);
      FailedSummary(action, snapshot, reply);
      if summarized.Err? {
        return;
      }
      var (summary, kept) := summarized.value;
      SummaryChosen(action, snapshot, reply, second);
      EndsWithTheKept(messages, Optimized(summary, second), kept, |snapshot|);
      ReplaceSessionMessages(Optimized(summary, second), kept, |snapshot|, wide);
    }
  }

  // ----- What the log keeps -----

  lemma LastOfSnoc<T>(s: seq<T>, x: T, n: nat)
    requires n <= |s|
    ensures LastOf(s + [x], n + 1) == LastOf(s, n) + [x]
  {
  }

  lemma LastOfLast<T>(s: seq<T>, m: nat, n: nat)
    requires n <= m <= |s|
    ensures LastOf(LastOf(s, m), n) == LastOf(s, n)
  {
  }

  lemma LastOfTail<T>(head: seq<T>, s: seq<T>, n: nat)
    requires n <= |s|
    ensures LastOf(head + s, n) == LastOf(s, n)
  {
  }

  lemma LastOfWhole<T>(s: seq<T>)
    ensures LastOf(s, |s|) == s
  {
  }

  function Least(a: nat, b: nat): nat {
    if a < b then a else b
  }

  lemma AddedKeepsTheEnd(messages: seq<Message>, m: Message, n: nat)
    requires |messages| <= MAX_MESSAGES && n <= Least(MAX_MESSAGES - 1, |messages| + 1)
    ensures |Added(messages, m)| == Least(MAX_MESSAGES, |messages| + 1)
    ensures LastOf(Added(messages, m), n) == LastOf(messages + [m], n)
  {
    var all := messages + [m];
    if |all| > MAX_MESSAGES {
      LastOfTail([all[0]], LastOf(all, MAX_MESSAGES - 1), n);
      LastOfLast(all, MAX_MESSAGES - 1, n);
      LastOfLast(all, MAX_MESSAGES, n);
    }
  }

  /** However many messages are added, the log never passes its limit and its end is the end of what was written. */
  lemma {:induction false} AddAllKeepsTheEnd(messages: seq<Message>, added: seq<Message>, n: nat)
    requires |messages| <= MAX_MESSAGES && n <= Least(MAX_MESSAGES - 1, |messages| + |added|)
    ensures |AddAll(messages, added)| == Least(MAX_MESSAGES, |messages| + |added|)
    ensures LastOf(AddAll(messages, added), n) == LastOf(messages + added, n)
    decreases |added|
  {
    if added == [] {
      assert messages + added == messages;
    } else {
      var front, m := added[..|added| - 1], added[|added| - 1];
      var log := AddAll(messages, front);
      assert messages + added == (messages + front) + [m] by {
        assert added == front + [m];
        Associate(messages, front, [m]);
      }
      if n > 0 {
        AddAllKeepsTheEnd(messages, front, n - 1);
        AddedKeepsTheEnd(log, m, n);
        LastOfSnoc(log, m, n - 1);
        LastOfSnoc(messages + front, m, n - 1);
      } else {
        AddAllKeepsTheEnd(messages, front, 0);
        AddedKeepsTheEnd(log, m, 0);
      }
    }
  }

  /** Within the limit nothing is dropped. */
  lemma {:induction false} AddAllWithinTheLimit(messages: seq<Message>, added: seq<Message>)
    requires |messages| + |added| <= MAX_MESSAGES
    ensures AddAll(messages, added) == messages + added
    decreases |added|
  {
    if added == [] {
      assert messages + added == messages;
    } else {
      var front, m := added[..|added| - 1], added[|added| - 1];
      AddAllWithinTheLimit(messages, front);
      assert added == front + [m];
      Associate(messages, front, [m]);
    }
  }

  /** A system message at the head outlives every added message and every compaction. */
  lemma {:induction false} SystemMessageStays(messages: seq<Message>, added: seq<Message>, summary: string, kept: seq<Message>, n: nat)
    requires messages != [] && messages[0].System?
    ensures AddAll(messages, added) != [] && AddAll(messages, added)[0] == messages[0]
    ensures Compacted(AddAll(messages, added), summary, kept, n)[0] == messages[0]
    decreases |added|
  {
    if added != [] { SystemMessageStays(messages, added[..|added| - 1], summary, kept, n); }
  }

  // ----- What compaction keeps -----

  /**
    Of k messages added after a snapshot of n, compaction keeps the last
    min(k, 1000 - n), in order: all of them exactly when n + k is within the limit.
    */
  lemma CompactionKeepsTheNewest(snapshot: seq<Message>, added: seq<Message>)
    requires 0 < |snapshot| <= MAX_MESSAGES
    ensures Since(AddAll(snapshot, added), |snapshot|) == LastOf(added, Least(|added|, MAX_MESSAGES - |snapshot|))
    ensures Since(AddAll(snapshot, added), |snapshot|) == added <==> |snapshot| + |added| <= MAX_MESSAGES
  {
    var log, n, c := AddAll(snapshot, added), |snapshot|, Least(|added|, MAX_MESSAGES - |snapshot|);
    AddAllKeepsTheEnd(snapshot, added, c);
    assert Since(log, n) == LastOf(log, c);
    LastOfTail(snapshot, added, c);
    LastOfWhole(added);
  }

  lemma CompactedParts(before: seq<Message>, after: seq<Message>, summary: string, kept: seq<Message>)
    requires before != []
    ensures Compacted(before + after, summary, kept, |before|) == Head(before) + ([SummaryMessage(summary)] + (kept + after))
  {
    assert Since(before + after, |before|) == after;
  }

  /** The session after a compaction that lost nothing: head, summary, kept messages, and every message since. */
  lemma CompactedSession(snapshot: seq<Message>, added: seq<Message>, summary: string)
    requires 4 <= |snapshot| && |snapshot| + |added| <= MAX_MESSAGES
    ensures var kept := LastOf(snapshot, KeepCount(|snapshot|));
            var session := Compacted(AddAll(snapshot, added), summary, kept, |snapshot|);
            && session == Head(snapshot) + ([SummaryMessage(summary)] + (kept + added))
            && |session| <= |snapshot| + |added|
  {
    AddAllWithinTheLimit(snapshot, added);
    CompactedParts(snapshot, added, summary, LastOf(snapshot, KeepCount(|snapshot|)));
  }

  /** Its estimate, which the tracker is set to, is the sum of the estimates of those parts. */
  lemma CompactedEstimate(head: seq<Message>, summary: string, kept: seq<Message>, added: seq<Message>, wide: Wide)
    ensures Estimate(head + ([SummaryMessage(summary)] + (kept + added)), wide)
            == Plus(Estimate(head, wide), Plus(Estimate([SummaryMessage(summary)], wide), Plus(Estimate(kept, wide), Estimate(added, wide))))
  {
    EstimateAdds(kept, added, wide);
    EstimateAdds([SummaryMessage(summary)], kept + added, wide);
    EstimateAdds(head, [SummaryMessage(summary)] + (kept + added), wide);
  }

  /** Summarizing makes a session longer exactly when the snapshot has fewer than four messages, all of which are then kept. */
  lemma SummarizingGrowsExactly(log: seq<Message>, snapshot: seq<Message>, reply: Result<string, string>, summary: string)
    requires |snapshot| <= |log| && Summarized(Summarize, snapshot, reply).Ok?
    ensures var kept := Summarized(Summarize, snapshot, reply).value.1;
            |Compacted(log, summary, kept, |snapshot|)| > |log| <==> |snapshot| < 4
  {
    assert |Since(log, |snapshot|)| == |log| - |snapshot|;
  }

  /** Full compression makes it longer exactly when the snapshot is no longer than the head it keeps. */
  lemma CompressingGrowsExactly(log: seq<Message>, n: nat, summary: string)
    requires n <= |log|
    ensures |Compacted(log, summary, [], n)| > |log| <==> n <= |Head(log)|
  {
    assert |Since(log, n)| == |log| - n;
  }

  /** What the first compaction puts before the messages that came after its snapshot. */
  function Front(snapshot: seq<Message>, summary: string, kept: seq<Message>): seq<Message> {
    Head(snapshot) + ([SummaryMessage(summary)] + kept)
  }

  /** What a snapshot of n messages leaves of a log made of what a compaction put in place and the messages since. */
  function Survivors(front: seq<Message>, since: seq<Message>, n: nat): seq<Message> {
    if n >= |front| then since[Least(|since|, n - |front|)..] else LastOf(front, |front| - n) + since
  }

  /**
    A compaction whose snapshot is older than another one's replacement. Its
    snapshot is the first one's and `mid`; `late` was added before the first
    replacement and `added` after it. If the first made the session d messages
    shorter, the second loses the oldest d of (late + added), or all of them
    when there are fewer; if it made it longer, as many messages before them are
    kept a second time and none is lost. It holds for summaries, which keep a third
    of the snapshot, as for full compression, which keeps none of it.
    */
  lemma StaleSnapshotLosesExactly(snapshot: seq<Message>, mid: seq<Message>, late: seq<Message>, added: seq<Message>,
                                  first: string, kept: seq<Message>, second: string, kept2: seq<Message>)
    requires snapshot != [] && |snapshot| + |mid| + |late| + |added| <= MAX_MESSAGES
    requires |Front(snapshot, first, kept)| + |mid| + |late| + |added| <= MAX_MESSAGES
    ensures var front := Front(snapshot, first, kept) + mid;
            var between := Compacted(AddAll(snapshot + mid, late), first, kept, |snapshot|);
            && between == front + late
            && |between| == |snapshot + mid + late| - (|snapshot + mid| - |front|)
            && Compacted(AddAll(between, added), second, kept2, |snapshot + mid|)
               == Head(snapshot) + ([SummaryMessage(second)] + (kept2 + Survivors(front, late + added, |snapshot + mid|)))
  {
    var front := Front(snapshot, first, kept);
    AddAllWithinTheLimit(snapshot + mid, late);
    Associate(snapshot, mid, late);
    FrontThenLate(snapshot, mid + late, first, kept);
    Associate(front, mid, late);
    LateCompaction(front + mid, late, added, second, kept2, |snapshot + mid|);
    Associate(front, mid, late + added);
    HeadOfFront(snapshot, first, kept, mid + (late + added));
  }

  lemma HeadOfFront(snapshot: seq<Message>, summary: string, kept: seq<Message>, rest: seq<Message>)
    ensures Head(Front(snapshot, summary, kept) + rest) == Head(snapshot)
  {
    var all := Front(snapshot, summary, kept) + rest;
    assert Head(snapshot) == [] ==> all[0] == SummaryMessage(summary);
    assert Head(snapshot) != [] ==> all[0] == snapshot[0];
  }

  /**
    The other order: the late compaction took its snapshot first, and the one that
    replaces first has seen `mid` as well. Then d is by how much what the first put
    in place is shorter than the older snapshot; of what came after the first one's
    snapshot, the late compaction again loses the oldest d messages, and of `mid`
    only what the first one kept as it was and stands beyond that length remains.
    */
  lemma OlderSnapshotLosesExactly(snapshot: seq<Message>, mid: seq<Message>, late: seq<Message>, added: seq<Message>,
                                  first: string, kept: seq<Message>, second: string, kept2: seq<Message>)
    requires snapshot != [] && |snapshot| + |mid| + |late| + |added| <= MAX_MESSAGES
    requires |Front(snapshot + mid, first, kept)| + |late| + |added| <= MAX_MESSAGES
    ensures var between := Compacted(AddAll(snapshot + mid, late), first, kept, |snapshot + mid|);
            && between == Front(snapshot + mid, first, kept) + late
            && Compacted(AddAll(between, added), second, kept2, |snapshot|)
               == Head(snapshot) + ([SummaryMessage(second)]
                  + (kept2 + Survivors(Front(snapshot + mid, first, kept), late + added, |snapshot|)))
  {
    AddAllWithinTheLimit(snapshot + mid, late);
    FrontThenLate(snapshot + mid, late, first, kept);
    LateCompaction(Front(snapshot + mid, first, kept), late, added, second, kept2, |snapshot|);
    HeadOfFront(snapshot + mid, first, kept, late + added);
    assert Head(snapshot + mid) == Head(snapshot);
  }

  lemma LateCompaction(front: seq<Message>, late: seq<Message>, added: seq<Message>, second: string, kept2: seq<Message>, n: nat)
    requires |front| + |late| + |added| <= MAX_MESSAGES
    ensures Compacted(AddAll(front + late, added), second, kept2, n)
            == Head(front + (late + added)) + ([SummaryMessage(second)] + (kept2 + Survivors(front, late + added, n)))
  {
    AddAllWithinTheLimit(front + late, added);
    Associate(front, late, added);
    SinceFrontAlone(front, late + added, n);
  }

  lemma FrontThenLate(snapshot: seq<Message>, late: seq<Message>, first: string, kept: seq<Message>)
    requires snapshot != []
    ensures Compacted(snapshot + late, first, kept, |snapshot|) == Front(snapshot, first, kept) + late
  {
    CompactedParts(snapshot, late, first, kept);
    Associate(Head(snapshot), [SummaryMessage(first)] + kept, late);
    Associate([SummaryMessage(first)], kept, late);
  }

  lemma SinceFrontAlone(front: seq<Message>, since: seq<Message>, n: nat)
    ensures Since(front + since, n) == Survivors(front, since, n)
  {
    if n >= |front| {
      SinceBeyond(front, since, n);
    } else {
      assert (front + since)[n..] == front[n..] + since;
    }
  }

  /** By how much each kind of compaction shortens the session. */
  lemma Shortening(action: Action, snapshot: seq<Message>, reply: Result<string, string>, summary: string)
    requires action != NoAction && Summarized(action, snapshot, reply).Ok?
    ensures var d := |snapshot| - |Front(snapshot, summary, Summarized(action, snapshot, reply).value.1)|;
            var head := |Head(snapshot)|;
            d == if action == Full then |snapshot| - head - 1
                 else if |snapshot| < 4 then -head - 1
                 else |snapshot| - KeepCount(|snapshot|) - head - 1
  {
  }

  lemma SinceBeyond(between: seq<Message>, added: seq<Message>, n: nat)
    requires |between| <= n
    ensures Since(between + added, n) == added[Least(|added|, n - |between|)..]
  {
    if n < |between + added| {
      assert (between + added)[n..] == added[n - |between|..];
    }
  }

  /** Compaction can cut calls from their answers: the transcript keeps its shape exactly when the first kept message is not an answer. */
  lemma CompactionKeepsTheShapeExactly(tools: Tools, mode: Mode, snapshot: seq<Message>, added: seq<Message>, summary: string)
    requires 4 <= |snapshot| && |snapshot| + |added| <= MAX_MESSAGES
    requires Shaped(tools, mode, snapshot + added)
    ensures var kept := LastOf(snapshot, KeepCount(|snapshot|));
            Shaped(tools, mode, Compacted(AddAll(snapshot, added), summary, kept, |snapshot|)) <==> !kept[0].Tool?
  {
    var kept := LastOf(snapshot, KeepCount(|snapshot|));
    CompactedSession(snapshot, added, summary);
    KeptEnd(tools, mode, snapshot, added, KeepCount(|snapshot|));
    BehindTheSummary(tools, mode, Head(snapshot), summary, kept + added);
  }

  lemma BehindTheSummary(tools: Tools, mode: Mode, head: seq<Message>, summary: string, rest: seq<Message>)
    requires head == [] || (|head| == 1 && head[0].System?)
    ensures Shaped(tools, mode, head + ([SummaryMessage(summary)] + rest)) <==> Shaped(tools, mode, rest)
  {
    var behind := [SummaryMessage(summary)] + rest;
    PrefixOfOwn(tools, mode, [SummaryMessage(summary)], rest);
    if head == [] {
      assert [] + behind == behind;
    } else {
      PrefixOfOwn(tools, mode, head, behind);
    }
  }

  lemma KeptEnd(tools: Tools, mode: Mode, snapshot: seq<Message>, added: seq<Message>, m: nat)
    requires 0 < m <= |snapshot| && Shaped(tools, mode, snapshot + added)
    ensures Shaped(tools, mode, LastOf(snapshot, m) + added) <==> !LastOf(snapshot, m)[0].Tool?
  {
    var i := |snapshot| - m;
    assert (snapshot + added)[i..] == LastOf(snapshot, m) + added;
    ShapedFrom(tools, mode, snapshot + added, i);
  }

  /** A message without calls in front changes nothing about the shape of the rest. */
  lemma PrefixOfOwn(tools: Tools, mode: Mode, one: seq<Message>, rest: seq<Message>)
    requires |one| == 1 && !one[0].Tool? && CallsOf(one[0]) == []
    ensures Shaped(tools, mode, one + rest) <==> Shaped(tools, mode, rest)
  {
    assert (one + rest)[1..] == rest;
  }

  // ----- When to compact -----

  function Strength(action: Action): nat {
    match action
    case NoAction => 0
    case Summarize => 1
    case Full => 2
  }

  /** More tokens or more turns never call for less, however the ratio is rounded. */
  lemma CheckIsMonotone(cfg: Config, contextWindow: int, tokens: int, tokens': int, turns: int, turns': int, fl: real -> real)
    requires Rounding(fl) && tokens <= tokens' && turns <= turns'
    ensures Strength(Check(cfg, contextWindow, tokens, turns, fl)) <= Strength(Check(cfg, contextWindow, tokens', turns', fl))
  {
    if contextWindow > 0 {
      RatioGrows(fl(tokens as real), fl(tokens' as real), fl(contextWindow as real));
    }
  }

  /** Without rounding the check compares the tokens with the thresholds' shares of the window. */
  lemma CheckComparesShares(cfg: Config, contextWindow: int, tokens: int, turns: int)
    requires contextWindow > 0
    ensures Rounding((x: real) => x)
    ensures var action := Check(cfg, contextWindow, tokens, turns, (x: real) => x);
            var window := contextWindow as real;
            && (action == Full <==> cfg.compressThreshold > 0.0 && tokens as real >= cfg.compressThreshold * window)
            && (action == NoAction <==>
                  && (cfg.compressThreshold > 0.0 ==> tokens as real < cfg.compressThreshold * window)
                  && (cfg.summarizeThreshold > 0.0 ==> tokens as real < cfg.summarizeThreshold * window)
                  && (cfg.summarizeTurns > 0 ==> turns < cfg.summarizeTurns))
  {
    ShareOf(tokens as real, contextWindow as real, cfg.compressThreshold);
    ShareOf(tokens as real, contextWindow as real, cfg.summarizeThreshold);
  }

  lemma ShareOf(tokens: real, window: real, share: real)
    requires window > 0.0
    ensures tokens / window >= share <==> tokens >= share * window
  {
    assert (tokens / window) * window == tokens;
  }

  lemma RatioGrows(a: real, b: real, w: real)
    requires a <= b && w > 0.0
    ensures a / w <= b / w
  {
  }
}
