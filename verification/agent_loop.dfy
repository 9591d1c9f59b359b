/**
  The agent's turn loop: provider replies, tool calls run in parallel, and the
  transcript they leave. What the provider and the tools answer is input.
  */
module AgentLoop {
  import opened Prelude

  datatype ToolCall = ToolCall(id: string, name: string, arguments: string)

  datatype ToolResult = ToolResult(callID: string, output: string, error: string)

  datatype Message =
    | System(content: string)
    | User(content: string)
    | Assistant(content: string, calls: seq<ToolCall>)
    | Tool(result: ToolResult)

  /** A call the provider asks for, with what the tool would answer to it. */
  datatype Job = Job(call: ToolCall, outcome: Result<string, string>)

  datatype Chunk = Chunk(content: string, job: Option<Job>, done: bool)

  /** What the provider answers in one turn: an error, a whole reply, or a stream. */
  datatype Turn = Unavailable(error: string) | Reply(content: string, jobs: seq<Job>) | Streamed(chunks: seq<Chunk>)

  /** The registered tools; true for those that stream their output. */
  type Tools = map<string, bool>

  // ----- Running tools -----

  function NotFound(name: string): string {
    "tool \"" + name + "\" not found"
  }

  function Executed(tools: Tools, j: Job): (r: ToolResult)
    ensures r.callID == j.call.id
    ensures j.call.name !in tools ==> r.output == "" && r.error == "tool \"" + j.call.name + "\" not found"
    ensures j.call.name in tools ==> (j.outcome == Ok(r.output) && r.error == "") || (j.outcome == Err(r.error) && r.output == "")
  {
    if j.call.name !in tools then ToolResult(j.call.id, "", NotFound(j.call.name))
    else match j.outcome
      case Ok(output) => ToolResult(j.call.id, output, "")
      case Err(error) => ToolResult(j.call.id, "", error)
  }

  function Indices(n: nat): (s: set<int>)
    ensures forall i :: i in s <==> 0 <= i < n
  {
    if n == 0 then {} else Indices(n - 1) + {n - 1}
  }

  /** Whatever order the workers finish in, result i is that of call i. */
  method ExecuteParallel(tools: Tools, jobs: seq<Job>) returns (results: seq<ToolResult>)
    ensures |results| == |jobs|
    ensures forall i | 0 <= i < |jobs| :: results[i] == Executed(tools, jobs[i])
  {
    var slots := new ToolResult[|jobs|](_ => ToolResult("", "", ""));
    var running := Indices(|jobs|);
    while running != {}
      invariant forall i | i in running :: 0 <= i < |jobs|
      invariant forall i | 0 <= i < |jobs| && i !in running :: slots[i] == Executed(tools, jobs[i])
      decreases |running|
    {
      SomeMember(running);
      var i :| i in running;
      slots[i] := Executed(tools, jobs[i]);
      running := running - {i};
    }
    results := slots[..];
  }

  function Calls(jobs: seq<Job>): (calls: seq<ToolCall>)
    ensures |calls| == |jobs| && forall i | 0 <= i < |jobs| :: calls[i] == jobs[i].call
  {
    if jobs == [] then [] else [jobs[0].call] + Calls(jobs[1..])
  }

  function Results(tools: Tools, jobs: seq<Job>): (messages: seq<Message>)
    ensures |messages| == |jobs| && forall i | 0 <= i < |jobs| :: messages[i] == Tool(Executed(tools, jobs[i]))
  {
    if jobs == [] then [] else [Tool(Executed(tools, jobs[0]))] + Results(tools, jobs[1..])
  }

  predicate IsStreamingTool(tools: Tools, name: string) {
    name in tools && tools[name]
  }

  function Pick(tools: Tools, jobs: seq<Job>, streaming: bool): seq<Job> {
    if jobs == [] then []
    else (if IsStreamingTool(tools, jobs[0].call.name) == streaming then [jobs[0]] else []) + Pick(tools, jobs[1..], streaming)
  }

  // ----- One turn -----

  datatype Status = Continue | Stop | Fail(error: string)

  /** What a turn adds to the session, and how the loop goes on. */
  datatype Effect = Effect(appended: seq<Message>, status: Status)

  /** Reading a stream: it ends the turn early, or hands over its content and calls. */
  datatype Reading = Finished(content: string) | Drained(content: string, jobs: seq<Job>)

  function Read(chunks: seq<Chunk>, content: string, jobs: seq<Job>): Reading {
    if chunks == [] then Drained(content, jobs)
    else
      var c := chunks[0];
      var jobs' := if c.job.Some? then jobs + [c.job.value] else jobs;
      if c.done && jobs' == [] then Finished(content + c.content)
      else Read(chunks[1..], content + c.content, jobs')
  }

  function StreamEffect(tools: Tools, reading: Reading): Effect {
    match reading
    case Finished(content) => Effect([Assistant(content, [])], Stop)
    case Drained(content, jobs) =>
      if jobs == [] then Effect([], Continue)
      else Effect([Assistant(content, Calls(jobs))] + (Results(tools, Pick(tools, jobs, false)) + Results(tools, Pick(tools, jobs, true))), Continue)
  }

  function TurnEffect(tools: Tools, turn: Turn): Effect {
    match turn
    case Unavailable(error) => Effect([], Fail(error))
    case Reply(content, jobs) =>
      if jobs == [] then Effect([Assistant(content, [])], Stop)
      else Effect([Assistant(content, Calls(jobs))] + Results(tools, jobs), Continue)
    case Streamed(chunks) => StreamEffect(tools, Read(chunks, "", []))
  }

  // ----- The loop -----

  datatype Outcome = Success | Failed(error: string) | MaxTurnsExceeded

  datatype Run = Run(appended: seq<Message>, outcome: Outcome, requests: nat)
  {
    function After(before: seq<Message>, made: nat): Run { Run(before + appended, outcome, made + requests) }
  }

  function Looped(tools: Tools, turns: seq<Turn>): (run: Run)
    ensures run.requests <= |turns|
  {
    if turns == [] then Run([], MaxTurnsExceeded, 0)
    else
      var effect := TurnEffect(tools, turns[0]);
      match effect.status
      case Stop => Run(effect.appended, Success, 1)
      case Fail(error) => Run(effect.appended, Failed(error), 1)
      case Continue =>
        var rest := Looped(tools, turns[1..]);
        Run(effect.appended + rest.appended, rest.outcome, rest.requests + 1)
  }

  lemma LoopedStep(tools: Tools, turn: Turn, rest: seq<Turn>, before: seq<Message>, made: nat)
    ensures var effect := TurnEffect(tools, turn);
            var run := Looped(tools, [turn] + rest).After(before, made);
            match effect.status
            case Stop => run == Run(before + effect.appended, Success, made + 1)
            case Fail(error) => run == Run(before + effect.appended, Failed(error), made + 1)
            case Continue => run == Looped(tools, rest).After(before + effect.appended, made + 1)
  {
    var effect := TurnEffect(tools, turn);
    assert ([turn] + rest)[1..] == rest;
    Associate(before, effect.appended, Looped(tools, rest).appended);
  }

  class Agent {
    const tools: Tools
    const maxTurns: int
    var messages: seq<Message>
    var turnCount: nat

    constructor (tools: Tools, maxTurns: int)
      ensures this.tools == tools && this.maxTurns == maxTurns && messages == [] && turnCount == 0
    {
      this.tools, this.maxTurns := tools, maxTurns;
      messages, turnCount := [], 0;
    }

    method AddResults(results: seq<ToolResult>, ghost jobs: seq<Job>)
      requires |results| == |jobs| && forall i | 0 <= i < |jobs| :: results[i] == Executed(tools, jobs[i])
      modifies this`messages
      ensures messages == old(messages) + Results(tools, jobs)
    {
      for i := 0 to |results|
        invariant messages == old(messages) + Results(tools, jobs)[..i]
      {
        messages := messages + [Tool(results[i])];
      }
    }

    method ExecuteToolsAndCollect(jobs: seq<Job>)
      modifies this`messages
      ensures messages == old(messages) + Results(tools, jobs)
    {
      var results := ExecuteParallel(tools, jobs);
      AddResults(results, jobs);
    }

    method SplitJobs(jobs: seq<Job>) returns (normal: seq<Job>, streaming: seq<Job>)
      ensures normal == Pick(tools, jobs, false) && streaming == Pick(tools, jobs, true)
    {
      normal, streaming := [], [];
      for i := 0 to |jobs|
        invariant normal + Pick(tools, jobs[i..], false) == Pick(tools, jobs, false)
        invariant streaming + Pick(tools, jobs[i..], true) == Pick(tools, jobs, true)
      {
        Uncons(jobs, i);
        if IsStreamingTool(tools, jobs[i].call.name) {
          streaming := streaming + [jobs[i]];
        } else {
          normal := normal + [jobs[i]];
        }
      }
    }

    /** Streaming tools run one after the other. */
    method ExecuteStreaming(jobs: seq<Job>)
      modifies this`messages
      ensures messages == old(messages) + Results(tools, jobs)
    {
      for i := 0 to |jobs|
        invariant messages == old(messages) + Results(tools, jobs)[..i]
      {
        messages := messages + [Tool(Executed(tools, jobs[i]))];
      }
    }

    method ReadStream(chunks: seq<Chunk>) returns (reading: Reading)
      ensures reading == Read(chunks, "", [])
    {
      var content, jobs := "", [];
      assert chunks[0..] == chunks;
      for i := 0 to |chunks|
        invariant Read(chunks[i..], content, jobs) == Read(chunks, "", [])
      {
        Uncons(chunks, i);
        var chunk := chunks[i];
        content := content + chunk.content;
        if chunk.job.Some? {
          jobs := jobs + [chunk.job.value];
        }
        if chunk.done && |jobs| == 0 {
          return Finished(content);
        }
      }
      reading := Drained(content, jobs);
    }

    method StreamTurn(chunks: seq<Chunk>) returns (status: Status)
      modifies this`messages
      ensures var effect := StreamEffect(tools, Read(chunks, "", []));
              messages == old(messages) + effect.appended && status == effect.status
    {
      var reading := ReadStream(chunks);
      if reading.Finished? {
        messages := messages + [Assistant(reading.content, [])];
        return Stop;
      }
      if |reading.jobs| > 0 {
        ghost var start, asked := messages, [Assistant(reading.content, Calls(reading.jobs))];
        messages := messages + [Assistant(reading.content, Calls(reading.jobs))];
        var normal, streaming := SplitJobs(reading.jobs);
        ExecuteToolsAndCollect(normal);
        ExecuteStreaming(streaming);
        Associate(start, asked, Results(tools, normal) + Results(tools, streaming));
        Associate(start + asked, Results(tools, normal), Results(tools, streaming));
      }
      status := Continue;
    }

    method ReplyTurn(content: string, jobs: seq<Job>) returns (status: Status)
      modifies this`messages
      ensures var effect := TurnEffect(tools, Reply(content, jobs));
              messages == old(messages) + effect.appended && status == effect.status
    {
      ghost var start, asked := messages, [Assistant(content, Calls(jobs))];
      messages := messages + [Assistant(content, Calls(jobs))];
      if |jobs| == 0 {
        return Stop;
      }
      ExecuteToolsAndCollect(jobs);
      Associate(start, asked, Results(tools, jobs));
      status := Continue;
    }

    method ExecuteTurn(turn: Turn) returns (status: Status)
      modifies this`messages
      ensures var effect := TurnEffect(tools, turn);
              messages == old(messages) + effect.appended && status == effect.status
    {
      match turn {
        case Unavailable(error) => status := Fail(error);
        case Streamed(chunks) => status := StreamTurn(chunks);
        case Reply(content, jobs) =>
          status := ReplyTurn(content, jobs);
      }
    }

    /** The turns the provider is asked for: no more than the limit allows. */
    function Limited(turns: seq<Turn>): seq<Turn>
      requires |turns| >= maxTurns
    {
      if maxTurns <= 0 then [] else turns[..maxTurns]
    }

    method RunLoop(prompt: string, turns: seq<Turn>) returns (outcome: Outcome, requests: nat)
      requires |turns| >= maxTurns
      modifies this
      ensures var run := Looped(tools, Limited(turns));
              && messages == old(messages) + ([User(prompt)] + run.appended)
              && outcome == run.outcome && requests == run.requests
              && turnCount == old(turnCount) + run.requests - (if run.outcome.Failed? then 1 else 0)
      ensures requests <= if maxTurns > 0 then maxTurns else 0
      ensures outcome.MaxTurnsExceeded? ==> requests == if maxTurns > 0 then maxTurns else 0
    {
      ghost var start, limited := messages, Limited(turns);
      ghost var run := Looped(tools, limited);
      messages := messages + [User(prompt)];
      requests := 0;
      ghost var appended: seq<Message> := [];
      while requests < maxTurns
        invariant requests <= |limited|
        invariant turnCount == old(turnCount) + requests
        invariant messages == (start + [User(prompt)]) + appended
        invariant run == Looped(tools, limited[requests..]).After(appended, requests)
      {
        ghost var effect, rest := TurnEffect(tools, turns[requests]), limited[requests + 1..];
        Uncons(limited, requests);
        LoopedStep(tools, turns[requests], rest, appended, requests);
        Associate(start + [User(prompt)], appended, effect.appended);
        Associate(start, [User(prompt)], appended + effect.appended);
        var status := ExecuteTurn(turns[requests]);
        requests := requests + 1;
        match status {
          case Fail(error) => return Failed(error), requests;
          case Stop =>
            turnCount := turnCount + 1;
            return Success, requests;
          case Continue => turnCount := turnCount + 1;
        }
        appended := appended + effect.appended;
      }
      Associate(start, [User(prompt)], appended);
      outcome := MaxTurnsExceeded;
    }
  }

  // ----- The shape of the transcript -----

  function PickCalls(tools: Tools, calls: seq<ToolCall>, streaming: bool): seq<ToolCall> {
    if calls == [] then []
    else (if IsStreamingTool(tools, calls[0].name) == streaming then [calls[0]] else []) + PickCalls(tools, calls[1..], streaming)
  }

  /** The order in which calls are answered: as asked, or normal tools before streaming ones. */
  function Arranged(tools: Tools, streamed: bool, calls: seq<ToolCall>): seq<ToolCall> {
    if streamed then PickCalls(tools, calls, false) + PickCalls(tools, calls, true) else calls
  }

  lemma MovedToFront<T>(a: seq<T>, x: T, b: seq<T>)
    ensures multiset(a + ([x] + b)) == multiset([x] + (a + b))
  {
  }

  lemma {:induction false} ArrangedIsAPermutation(tools: Tools, streamed: bool, calls: seq<ToolCall>)
    ensures multiset(Arranged(tools, streamed, calls)) == multiset(calls)
    ensures |Arranged(tools, streamed, calls)| == |calls|
  {
    if streamed && calls != [] {
      var normal, streaming := PickCalls(tools, calls[1..], false), PickCalls(tools, calls[1..], true);
      ArrangedIsAPermutation(tools, streamed, calls[1..]);
      if IsStreamingTool(tools, calls[0].name) {
        assert [] + normal == normal;
        MovedToFront(normal, calls[0], streaming);
      } else {
        assert [] + streaming == streaming;
        Associate([calls[0]], normal, streaming);
      }
      Uncons(calls, 0);
    }
  }

  /** First the calls of tools that do not stream or are unknown, then those that do. */
  lemma NormalToolsComeFirst(tools: Tools, calls: seq<ToolCall>) returns (k: nat)
    ensures k <= |Arranged(tools, true, calls)|
    ensures forall i | 0 <= i < |Arranged(tools, true, calls)| ::
              var name := Arranged(tools, true, calls)[i].name; (name in tools && tools[name]) <==> k <= i
  {
    k := |PickCalls(tools, calls, false)|;
    AllOfOneKind(tools, calls, false);
    AllOfOneKind(tools, calls, true);
    forall i | 0 <= i < |Arranged(tools, true, calls)|
      ensures var name := Arranged(tools, true, calls)[i].name; (name in tools && tools[name]) <==> k <= i
    {
      if i < k {
        assert OfKind(tools, PickCalls(tools, calls, false)[i], false);
      } else {
        assert OfKind(tools, PickCalls(tools, calls, true)[i - k], true);
      }
    }
  }

  predicate OfKind(tools: Tools, call: ToolCall, streaming: bool) {
    (call.name in tools && tools[call.name]) == streaming
  }

  lemma {:induction false} AllOfOneKind(tools: Tools, calls: seq<ToolCall>, streaming: bool)
    ensures forall c | c in PickCalls(tools, calls, streaming) :: OfKind(tools, c, streaming)
  {
    if calls != [] {
      AllOfOneKind(tools, calls[1..], streaming);
      assert OfKind(tools, calls[0], streaming) <==> IsStreamingTool(tools, calls[0].name) == streaming;
    }
  }

  /** Calls of one kind stay in the order they were asked in. */
  lemma {:induction false} PickedInOrder(tools: Tools, a: seq<ToolCall>, b: seq<ToolCall>, streaming: bool)
    ensures PickCalls(tools, a + b, streaming) == PickCalls(tools, a, streaming) + PickCalls(tools, b, streaming)
  {
    if a == [] {
      assert a + b == b;
    } else {
      assert (a + b)[1..] == a[1..] + b;
      PickedInOrder(tools, a[1..], b, streaming);
    }
  }

  predicate Answers(messages: seq<Message>, calls: seq<ToolCall>) {
    && |messages| == |calls|
    && forall i | 0 <= i < |calls| :: messages[i].Tool? && messages[i].result.callID == calls[i].id
  }

  /** A session that only Prompt, only Stream, or both have written. */
  datatype Mode = Prompted | Streaming | Mixed

  predicate Allows(mode: Mode, streamed: bool) {
    mode == Mixed || (mode == Streaming) == streamed
  }

  /** The answers to the calls, in one of the arrangements the mode allows. */
  predicate AnsweredIn(tools: Tools, mode: Mode, messages: seq<Message>, calls: seq<ToolCall>) {
    || (Allows(mode, false) && Answers(messages, Arranged(tools, false, calls)))
    || (Allows(mode, true) && Answers(messages, Arranged(tools, true, calls)))
  }

  lemma AnsweredLength(tools: Tools, mode: Mode, messages: seq<Message>, calls: seq<ToolCall>)
    requires AnsweredIn(tools, mode, messages, calls)
    ensures |messages| == |calls| && forall i | 0 <= i < |messages| :: messages[i].Tool?
  {
    ArrangedIsAPermutation(tools, false, calls);
    ArrangedIsAPermutation(tools, true, calls);
  }

  /**
    Every assistant message is followed at once by one tool message for each of its
    calls, in an arrangement the mode allows, and there are no other tool messages.
    */
  predicate Shaped(tools: Tools, mode: Mode, messages: seq<Message>)
    decreases |messages|
  {
    messages == [] || (Begins(tools, mode, messages) && Shaped(tools, mode, messages[1 + |CallsOf(messages[0])|..]))
  }

  /** The first message is not an answer, and the answers to its calls follow it. */
  predicate Begins(tools: Tools, mode: Mode, messages: seq<Message>)
    requires messages != []
  {
    var calls := CallsOf(messages[0]);
    !messages[0].Tool? && |calls| < |messages| && AnsweredIn(tools, mode, messages[1..1 + |calls|], calls)
  }

  function CallsOf(m: Message): seq<ToolCall> {
    if m.Assistant? then m.calls else []
  }

  lemma BeginsLonger(tools: Tools, mode: Mode, a: seq<Message>, b: seq<Message>)
    requires a != [] && Begins(tools, mode, a)
    ensures Begins(tools, mode, a + b)
    ensures (a + b)[1 + |CallsOf(a[0])|..] == a[1 + |CallsOf(a[0])|..] + b
  {
    var n := 1 + |CallsOf(a[0])|;
    SliceOfLonger(a, b, 1, n);
    assert (a + b)[n..] == a[n..] + b;
  }

  lemma SliceOfLonger<T>(a: seq<T>, b: seq<T>, i: nat, j: nat)
    requires i <= j <= |a|
    ensures (a + b)[i..j] == a[i..j]
  {
  }

  lemma {:induction false} ShapedConcat(tools: Tools, mode: Mode, a: seq<Message>, b: seq<Message>)
    requires Shaped(tools, mode, a) && Shaped(tools, mode, b)
    ensures Shaped(tools, mode, a + b)
    decreases |a|
  {
    if a == [] {
      assert a + b == b;
    } else {
      BeginsLonger(tools, mode, a, b);
      ShapedConcat(tools, mode, a[1 + |CallsOf(a[0])|..], b);
    }
  }

  /** The end of a shaped list is shaped exactly when it does not begin inside the answers to some calls. */
  lemma {:induction false} ShapedFrom(tools: Tools, mode: Mode, messages: seq<Message>, i: nat)
    requires Shaped(tools, mode, messages) && i <= |messages|
    ensures Shaped(tools, mode, messages[i..]) <==> i == |messages| || !messages[i].Tool?
    decreases |messages|
  {
    if messages != [] && i > 0 {
      var n := 1 + |CallsOf(messages[0])|;
      if i < n {
        AnsweredLength(tools, mode, messages[1..n], CallsOf(messages[0]));
        assert messages[1..n][i - 1].Tool?;
        assert messages[i..][0] == messages[1..n][i - 1];
      } else {
        ShapedFrom(tools, mode, messages[n..], i - n);
        assert messages[n..][i - n..] == messages[i..];
      }
    }
  }

  /** The turns come from calls this kind of session allows. */
  predicate OneKind(turns: seq<Turn>, mode: Mode) {
    forall i | 0 <= i < |turns| :: (turns[i].Reply? ==> Allows(mode, false)) && (turns[i].Streamed? ==> Allows(mode, true))
  }

  lemma {:induction false} PickedCalls(tools: Tools, jobs: seq<Job>, streaming: bool)
    ensures Calls(Pick(tools, jobs, streaming)) == PickCalls(tools, Calls(jobs), streaming)
  {
    if jobs != [] {
      PickedCalls(tools, jobs[1..], streaming);
      assert Calls(jobs)[1..] == Calls(jobs[1..]);
      assert [jobs[0]][1..] == [] && ([jobs[0]] + Pick(tools, jobs[1..], streaming))[1..] == Pick(tools, jobs[1..], streaming);
    }
  }

  /** One exchange: the assistant message and the answers to its calls. */
  lemma ExchangeIsShaped(tools: Tools, mode: Mode, content: string, calls: seq<ToolCall>, answers: seq<Message>)
    requires AnsweredIn(tools, mode, answers, calls)
    ensures Shaped(tools, mode, [Assistant(content, calls)] + answers)
  {
    AnsweredLength(tools, mode, answers, calls);
    var messages := [Assistant(content, calls)] + answers;
    assert messages[1..1 + |calls|] == answers && messages[1 + |calls|..] == [];
  }

  lemma ResultsAnswer(tools: Tools, jobs: seq<Job>)
    ensures Answers(Results(tools, jobs), Calls(jobs))
  {
  }

  lemma AnswersConcat(a: seq<Message>, b: seq<Message>, x: seq<ToolCall>, y: seq<ToolCall>)
    requires Answers(a, x) && Answers(b, y)
    ensures Answers(a + b, x + y)
  {
  }

  lemma TurnIsShaped(tools: Tools, mode: Mode, turn: Turn)
    requires (turn.Reply? ==> Allows(mode, false)) && (turn.Streamed? ==> Allows(mode, true))
    ensures Shaped(tools, mode, TurnEffect(tools, turn).appended)
  {
    match turn {
      case Unavailable(_) =>
      case Reply(content, jobs) =>
        ResultsAnswer(tools, jobs);
        ExchangeIsShaped(tools, mode, content, Calls(jobs), Results(tools, jobs));
        assert jobs == [] ==> [Assistant(content, [])] + [] == [Assistant(content, [])];
      case Streamed(chunks) =>
        var reading := Read(chunks, "", []);
        if reading.Finished? {
          ExchangeIsShaped(tools, mode, reading.content, [], []);
        } else {
          var normal, streaming := Pick(tools, reading.jobs, false), Pick(tools, reading.jobs, true);
          ResultsAnswer(tools, normal);
          ResultsAnswer(tools, streaming);
          PickedCalls(tools, reading.jobs, false);
          PickedCalls(tools, reading.jobs, true);
          AnswersConcat(Results(tools, normal), Results(tools, streaming), Calls(normal), Calls(streaming));
          ExchangeIsShaped(tools, mode, reading.content, Calls(reading.jobs), Results(tools, normal) + Results(tools, streaming));
        }
    }
  }

  lemma {:induction false} LoopIsShaped(tools: Tools, mode: Mode, turns: seq<Turn>)
    requires OneKind(turns, mode)
    ensures Shaped(tools, mode, Looped(tools, turns).appended)
  {
    if turns != [] {
      TurnIsShaped(tools, mode, turns[0]);
      assert forall i | 0 <= i < |turns[1..]| :: turns[1..][i] == turns[i + 1];
      LoopIsShaped(tools, mode, turns[1..]);
      if TurnEffect(tools, turns[0]).status.Continue? {
        ShapedConcat(tools, mode, TurnEffect(tools, turns[0]).appended, Looped(tools, turns[1..]).appended);
      }
    }
  }

  /** A run keeps the shape of the whole session, whatever the provider and the tools answer. */
  lemma RunKeepsTheShape(tools: Tools, mode: Mode, session: seq<Message>, prompt: string, turns: seq<Turn>)
    requires Shaped(tools, mode, session) && OneKind(turns, mode)
    ensures Shaped(tools, mode, session + ([User(prompt)] + Looped(tools, turns).appended))
  {
    LoopIsShaped(tools, mode, turns);
    assert ([User(prompt)] + Looped(tools, turns).appended)[1..] == Looped(tools, turns).appended;
    ShapedConcat(tools, mode, session, [User(prompt)] + Looped(tools, turns).appended);
  }

  function CallIds(calls: seq<ToolCall>): seq<string> {
    if calls == [] then [] else [calls[0].id] + CallIds(calls[1..])
  }

  function AnswerIds(messages: seq<Message>): seq<string>
    requires forall i | 0 <= i < |messages| :: messages[i].Tool?
  {
    if messages == [] then [] else [messages[0].result.callID] + AnswerIds(messages[1..])
  }

  lemma {:induction false} AnswerIdsAreCallIds(messages: seq<Message>, calls: seq<ToolCall>)
    requires Answers(messages, calls)
    ensures AnswerIds(messages) == CallIds(calls)
  {
    if calls != [] {
      assert forall i | 0 <= i < |calls| - 1 :: messages[1..][i] == messages[i + 1] && calls[1..][i] == calls[i + 1];
      AnswerIdsAreCallIds(messages[1..], calls[1..]);
    }
  }

  lemma {:induction false} CallIdsConcat(a: seq<ToolCall>, b: seq<ToolCall>)
    ensures CallIds(a + b) == CallIds(a) + CallIds(b)
  {
    if a == [] {
      assert a + b == b;
    } else {
      assert (a + b)[1..] == a[1..] + b;
      CallIdsConcat(a[1..], b);
    }
  }

  lemma {:induction false} ArrangedIds(tools: Tools, calls: seq<ToolCall>)
    ensures multiset(CallIds(PickCalls(tools, calls, false)) + CallIds(PickCalls(tools, calls, true))) == multiset(CallIds(calls))
  {
    if calls != [] {
      var normal, streaming := PickCalls(tools, calls[1..], false), PickCalls(tools, calls[1..], true);
      ArrangedIds(tools, calls[1..]);
      CallIdsConcat([calls[0]], normal);
      CallIdsConcat([calls[0]], streaming);
      assert [calls[0]][1..] == [];
      if IsStreamingTool(tools, calls[0].name) {
        assert [] + normal == normal;
        MovedToFront(CallIds(normal), calls[0].id, CallIds(streaming));
      } else {
        assert [] + streaming == streaming;
        Associate([calls[0].id], CallIds(normal), CallIds(streaming));
      }
    }
  }

  /** The call IDs answered after an assistant message are those it asked for, each as often as asked. */
  lemma AnsweredIds(tools: Tools, mode: Mode, messages: seq<Message>, calls: seq<ToolCall>)
    requires AnsweredIn(tools, mode, messages, calls)
    ensures |messages| == |calls| && (forall i | 0 <= i < |messages| :: messages[i].Tool?)
    ensures multiset(AnswerIds(messages)) == multiset(CallIds(calls))
  {
    AnsweredLength(tools, mode, messages, calls);
    var streamed := !Answers(messages, Arranged(tools, false, calls));
    AnswerIdsAreCallIds(messages, Arranged(tools, streamed, calls));
    CallIdsConcat(PickCalls(tools, calls, false), PickCalls(tools, calls, true));
    ArrangedIds(tools, calls);
  }

  // ----- How a run ends -----

  /** A reply that asks for no tool, or a stream with a final chunk that no call comes before. */
  predicate Answered(turn: Turn) {
    || (turn.Reply? && turn.jobs == [])
    || (turn.Streamed? && exists k: nat | k < |turn.chunks| :: EndsReply(turn.chunks, k))
  }

  lemma StatusExactly(tools: Tools, turn: Turn)
    ensures TurnEffect(tools, turn).status == Stop <==> Answered(turn)
    ensures TurnEffect(tools, turn).status.Fail? <==> turn.Unavailable?
    ensures turn.Unavailable? ==> TurnEffect(tools, turn).status == Fail(turn.error)
  {
    if turn.Streamed? { ReadingIsExact(turn.chunks); }
  }

  /**
    The loop asks for turns until the first that answers without a call, or fails,
    and reports what that one did; it gives up when all it may ask for do neither.
    */
  lemma {:induction false} LoopStopsExactly(tools: Tools, turns: seq<Turn>)
    ensures var run, n := Looped(tools, turns), Looped(tools, turns).requests;
            && (forall i | 0 <= i < n - 1 :: !Answered(turns[i]) && !turns[i].Unavailable?)
            && match run.outcome
               case Success => n > 0 && Answered(turns[n - 1])
               case Failed(e) => n > 0 && turns[n - 1] == Unavailable(e)
               case MaxTurnsExceeded => n == |turns| && (n > 0 ==> !Answered(turns[n - 1]) && !turns[n - 1].Unavailable?)
  {
    if turns != [] {
      StatusExactly(tools, turns[0]);
      if TurnEffect(tools, turns[0]).status.Continue? {
        LoopStopsExactly(tools, turns[1..]);
        assert forall i | 0 < i < |turns| :: turns[i] == turns[1..][i - 1];
      }
    }
  }

  /** Success leaves a call-free assistant message as the last one. */
  lemma {:induction false} SuccessEndsCallFree(tools: Tools, turns: seq<Turn>)
    requires Looped(tools, turns).outcome == Success
    ensures var appended := Looped(tools, turns).appended;
            appended != [] && appended[|appended| - 1].Assistant? && appended[|appended| - 1].calls == []
  {
    if TurnEffect(tools, turns[0]).status.Continue? {
      SuccessEndsCallFree(tools, turns[1..]);
    }
  }

  function Contents(chunks: seq<Chunk>): string {
    if chunks == [] then "" else Contents(chunks[..|chunks| - 1]) + chunks[|chunks| - 1].content
  }

  function Jobs(chunks: seq<Chunk>): seq<Job> {
    if chunks == [] then []
    else Jobs(chunks[..|chunks| - 1]) + (match chunks[|chunks| - 1].job case Some(j) => [j] case None => [])
  }

  /** The chunks' texts and calls are put together in the order they came. */
  lemma {:induction false} ChunksInOrder(a: seq<Chunk>, b: seq<Chunk>)
    ensures Contents(a + b) == Contents(a) + Contents(b) && Jobs(a + b) == Jobs(a) + Jobs(b)
    ensures |b| == 1 ==> Contents(b) == b[0].content && Jobs(b) == if b[0].job.Some? then [b[0].job.value] else []
    decreases |b|
  {
    if b == [] {
      assert a + b == a;
    } else {
      var front, last := b[..|b| - 1], b[|b| - 1];
      assert (a + b)[..|a + b| - 1] == a + front;
      ChunksInOrder(a, front);
      Associate(Contents(a), Contents(front), last.content);
      Associate(Jobs(a), Jobs(front), match last.job case Some(j) => [j] case None => []);
    }
  }

  /** A final chunk with no call in it or before it. */
  predicate EndsReply(chunks: seq<Chunk>, k: nat)
    requires k < |chunks|
  {
    chunks[k].done && Jobs(chunks[..k + 1]) == []
  }

  predicate EndsFirstAt(chunks: seq<Chunk>, k: nat)
    requires k < |chunks|
  {
    EndsReply(chunks, k) && forall j: nat | j < k :: !EndsReply(chunks, j)
  }

  /** A stream is read to its first final chunk without a call so far, or to its end. */
  predicate ReadExactly(chunks: seq<Chunk>, reading: Reading) {
    match reading
    case Finished(content) => exists k: nat | k < |chunks| :: EndsFirstAt(chunks, k) && content == Contents(chunks[..k + 1])
    case Drained(content, jobs) =>
      content == Contents(chunks) && jobs == Jobs(chunks) && forall k: nat | k < |chunks| :: !EndsReply(chunks, k)
  }

  lemma ReadingIsExact(chunks: seq<Chunk>)
    ensures ReadExactly(chunks, Read(chunks, "", []))
  {
    ReadingFrom(chunks, 0);
    assert chunks[..0] == [] && chunks[0..] == chunks;
  }

  lemma {:induction false} ReadingFrom(chunks: seq<Chunk>, i: nat)
    requires i <= |chunks| && forall j: nat | j < i :: !EndsReply(chunks, j)
    ensures ReadExactly(chunks, Read(chunks[i..], Contents(chunks[..i]), Jobs(chunks[..i])))
    decreases |chunks| - i
  {
    if i == |chunks| {
      assert chunks[..i] == chunks;
    } else if EndsReply(chunks, i) {
      ReadingStep(chunks, i);
      EndedThere(chunks, i);
    } else {
      ReadingStep(chunks, i);
      ReadingFrom(chunks, i + 1);
    }
  }

  lemma EndedThere(chunks: seq<Chunk>, k: nat)
    requires k < |chunks| && EndsFirstAt(chunks, k)
    ensures ReadExactly(chunks, Finished(Contents(chunks[..k + 1])))
  {
  }

  lemma ReadingStep(chunks: seq<Chunk>, i: nat)
    requires i < |chunks|
    ensures Read(chunks[i..], Contents(chunks[..i]), Jobs(chunks[..i]))
            == if EndsReply(chunks, i) then Finished(Contents(chunks[..i + 1]))
               else Read(chunks[i + 1..], Contents(chunks[..i + 1]), Jobs(chunks[..i + 1]))
  {
    assert chunks[..i + 1][..i] == chunks[..i];
    assert chunks[i..][1..] == chunks[i + 1..];
    assert Jobs(chunks[..i]) + [] == Jobs(chunks[..i]);
  }

  // ----- What the transcript records -----

  /** How much of a stream is read: up to its first final chunk without a call so far, or all of it. */
  function ReadLength(chunks: seq<Chunk>, from: nat): (n: nat)
    requires from <= |chunks|
    ensures from <= n <= |chunks|
    decreases |chunks| - from
  {
    if from == |chunks| then from
    else if EndsReply(chunks, from) then from + 1
    else ReadLength(chunks, from + 1)
  }

  /** Some chunk ends the reply, or the stream holds a call. */
  predicate SaysSomething(chunks: seq<Chunk>) {
    Jobs(chunks) != [] || exists k: nat | k < |chunks| :: EndsReply(chunks, k)
  }

  function ReadPart(chunks: seq<Chunk>): seq<Chunk> {
    chunks[..ReadLength(chunks, 0)]
  }

  /** What a turn should leave: the reply with its content and calls, and what the tools answered. */
  function TurnRecord(tools: Tools, turn: Turn): seq<Message> {
    match turn
    case Unavailable(_) => []
    case Reply(content, jobs) => [Assistant(content, Calls(jobs))] + Results(tools, jobs)
    case Streamed(chunks) =>
      if !SaysSomething(chunks) then []
      else
        var read := ReadPart(chunks);
        var jobs := Jobs(read);
        [Assistant(Contents(read), Calls(jobs))] + (Results(tools, Pick(tools, jobs, false)) + Results(tools, Pick(tools, jobs, true)))
  }

  function Records(tools: Tools, turns: seq<Turn>): seq<Message> {
    if turns == [] then [] else TurnRecord(tools, turns[0]) + Records(tools, turns[1..])
  }

  lemma {:induction false} ReadLengthIs(chunks: seq<Chunk>, from: nat)
    requires from <= |chunks|
    ensures var n := ReadLength(chunks, from);
            && (forall k: nat | from <= k < n - 1 :: !EndsReply(chunks, k))
            && ((n > from && EndsReply(chunks, n - 1)) || n == |chunks|)
    decreases |chunks| - from
  {
    if from < |chunks| && !EndsReply(chunks, from) { ReadLengthIs(chunks, from + 1); }
  }

  lemma ReadLengthFirst(chunks: seq<Chunk>, k: nat)
    requires k < |chunks| && EndsFirstAt(chunks, k)
    ensures ReadLength(chunks, 0) == k + 1
  {
    ReadLengthIs(chunks, 0);
  }

  lemma ReadLengthAll(chunks: seq<Chunk>)
    requires forall k: nat | k < |chunks| :: !EndsReply(chunks, k)
    ensures ReadLength(chunks, 0) == |chunks|
  {
    ReadLengthIs(chunks, 0);
  }

  lemma NoJobs(tools: Tools, message: Message)
    ensures [message] + (Results(tools, Pick(tools, [], false)) + Results(tools, Pick(tools, [], true))) == [message]
  {
  }

  lemma StreamIsRecorded(tools: Tools, chunks: seq<Chunk>)
    ensures TurnEffect(tools, Streamed(chunks)).appended == TurnRecord(tools, Streamed(chunks))
  {
    ReadingIsExact(chunks);
    match Read(chunks, "", []) {
      case Finished(content) =>
        var k: nat :| k < |chunks| && EndsFirstAt(chunks, k) && content == Contents(chunks[..k + 1]);
        ReadLengthFirst(chunks, k);
        NoJobs(tools, Assistant(content, []));
      case Drained(content, jobs) =>
        ReadLengthAll(chunks);
        assert chunks[..|chunks|] == chunks;
    }
  }

  lemma TurnIsRecorded(tools: Tools, turn: Turn)
    ensures TurnEffect(tools, turn).appended == TurnRecord(tools, turn)
  {
    match turn {
      case Unavailable(_) =>
      case Streamed(chunks) => StreamIsRecorded(tools, chunks);
      case Reply(content, jobs) => assert jobs == [] ==> [Assistant(content, [])] + [] == [Assistant(content, [])];
    }
  }

  /**
    In every run, of Prompt or Stream, the transcript is the turns' replies, each
    with its content, its calls and the answers of the tools, in order, up to the
    turn the loop stopped at.
    */
  lemma {:induction false} RepliesAreRecorded(tools: Tools, turns: seq<Turn>)
    ensures Looped(tools, turns).appended == Records(tools, turns[..Looped(tools, turns).requests])
  {
    if turns != [] {
      var n := Looped(tools, turns).requests;
      TurnIsRecorded(tools, turns[0]);
      assert turns[..n][1..] == turns[1..][..n - 1];
      if TurnEffect(tools, turns[0]).status.Continue? {
        RepliesAreRecorded(tools, turns[1..]);
      } else {
        assert turns[1..][..0] == [];
      }
    }
  }

  /**
    The exception is exact: a streamed turn leaves nothing, and the loop asks again,
    if and only if no chunk ends the reply and the stream holds no call.
    */
  lemma StreamIsLostExactly(tools: Tools, chunks: seq<Chunk>)
    ensures TurnEffect(tools, Streamed(chunks)) == Effect([], Continue) <==> !SaysSomething(chunks)
  {
    StreamIsRecorded(tools, chunks);
    ReadingIsExact(chunks);
  }

  /** A stream that is cut off after some text: the text is lost. */
  lemma TextIsLost(tools: Tools)
    ensures TurnEffect(tools, Streamed([Chunk("hello", None, false)])) == Effect([], Continue)
    ensures Contents([Chunk("hello", None, false)]) == "hello"
  {
    var chunks := [Chunk("hello", None, false)];
    assert chunks[1..] == [] && chunks[..0] == [];
  }

  // ----- The answers are the tools' -----

  /** The tool results in the transcript. */
  function Heard(messages: seq<Message>): seq<ToolResult> {
    if messages == [] then []
    else (if messages[0].Tool? then [messages[0].result] else []) + Heard(messages[1..])
  }

  /** The calls a turn makes, each with what its tool answers. */
  function JobsOf(turn: Turn): seq<Job> {
    match turn
    case Unavailable(_) => []
    case Reply(_, jobs) => jobs
    case Streamed(chunks) => Jobs(ReadPart(chunks))
  }

  function JobsOfAll(turns: seq<Turn>): seq<Job> {
    if turns == [] then [] else JobsOf(turns[0]) + JobsOfAll(turns[1..])
  }

  function Outcomes(tools: Tools, jobs: seq<Job>): seq<ToolResult> {
    if jobs == [] then [] else [Executed(tools, jobs[0])] + Outcomes(tools, jobs[1..])
  }

  lemma HeardCons(message: Message, rest: seq<Message>)
    ensures Heard([message] + rest) == (if message.Tool? then [message.result] else []) + Heard(rest)
  {
    assert ([message] + rest)[1..] == rest;
  }

  lemma {:induction false} HeardConcat(a: seq<Message>, b: seq<Message>)
    ensures Heard(a + b) == Heard(a) + Heard(b)
  {
    if a == [] {
      assert a + b == b;
    } else {
      HeardConcat(a[1..], b);
      Uncons(a, 0);
      Associate([a[0]], a[1..], b);
      HeardCons(a[0], a[1..]);
      HeardCons(a[0], a[1..] + b);
    }
  }

  lemma {:induction false} HeardResults(tools: Tools, jobs: seq<Job>)
    ensures Heard(Results(tools, jobs)) == Outcomes(tools, jobs)
  {
    if jobs != [] {
      HeardResults(tools, jobs[1..]);
      assert Results(tools, jobs)[1..] == Results(tools, jobs[1..]);
    }
  }

  lemma {:induction false} OutcomesConcat(tools: Tools, a: seq<Job>, b: seq<Job>)
    ensures Outcomes(tools, a + b) == Outcomes(tools, a) + Outcomes(tools, b)
  {
    if a == [] {
      assert a + b == b;
    } else {
      assert (a + b)[1..] == a[1..] + b;
      OutcomesConcat(tools, a[1..], b);
    }
  }

  lemma {:induction false} PickedOutcomes(tools: Tools, jobs: seq<Job>)
    ensures multiset(Outcomes(tools, Pick(tools, jobs, false)) + Outcomes(tools, Pick(tools, jobs, true)))
            == multiset(Outcomes(tools, jobs))
  {
    if jobs != [] {
      var normal, streaming := Pick(tools, jobs[1..], false), Pick(tools, jobs[1..], true);
      PickedOutcomes(tools, jobs[1..]);
      OutcomesConcat(tools, [jobs[0]], normal);
      OutcomesConcat(tools, [jobs[0]], streaming);
      assert [jobs[0]][1..] == [];
      if IsStreamingTool(tools, jobs[0].call.name) {
        assert [] + normal == normal;
        MovedToFront(Outcomes(tools, normal), Executed(tools, jobs[0]), Outcomes(tools, streaming));
      } else {
        assert [] + streaming == streaming;
        Associate([Executed(tools, jobs[0])], Outcomes(tools, normal), Outcomes(tools, streaming));
      }
    }
  }

  lemma ReplyIsHeard(tools: Tools, message: Message, answers: seq<Message>)
    requires message.Assistant?
    ensures Heard([message] + answers) == Heard(answers)
  {
    assert ([message] + answers)[1..] == answers;
  }

  lemma TurnIsHeard(tools: Tools, turn: Turn)
    ensures multiset(Heard(TurnRecord(tools, turn))) == multiset(Outcomes(tools, JobsOf(turn)))
  {
    match turn {
      case Unavailable(_) =>
      case Reply(content, jobs) =>
        ReplyIsHeard(tools, Assistant(content, Calls(jobs)), Results(tools, jobs));
        HeardResults(tools, jobs);
      case Streamed(chunks) =>
        var read := ReadPart(chunks);
        var normal, streaming := Pick(tools, Jobs(read), false), Pick(tools, Jobs(read), true);
        if SaysSomething(chunks) {
          ReplyIsHeard(tools, Assistant(Contents(read), Calls(Jobs(read))), Results(tools, normal) + Results(tools, streaming));
          HeardConcat(Results(tools, normal), Results(tools, streaming));
          HeardResults(tools, normal);
          HeardResults(tools, streaming);
          PickedOutcomes(tools, Jobs(read));
        } else {
          ReadLengthAll(chunks);
          assert chunks[..|chunks|] == chunks;
        }
    }
  }

  lemma {:induction false} RecordsAreHeard(tools: Tools, turns: seq<Turn>)
    ensures multiset(Heard(Records(tools, turns))) == multiset(Outcomes(tools, JobsOfAll(turns)))
  {
    if turns != [] {
      TurnIsHeard(tools, turns[0]);
      RecordsAreHeard(tools, turns[1..]);
      HeardConcat(TurnRecord(tools, turns[0]), Records(tools, turns[1..]));
      OutcomesConcat(tools, JobsOf(turns[0]), JobsOfAll(turns[1..]));
    }
  }

  /**
    In every run the tool results in the transcript are, each as often, exactly what
    the tools answered to the calls of the turns: nothing is dropped, repeated or
    given to another call, and a call of a tool that does not exist gets an error.
    */
  lemma AnswersAreTheTools(tools: Tools, turns: seq<Turn>)
    ensures var run := Looped(tools, turns);
            multiset(Heard(run.appended)) == multiset(Outcomes(tools, JobsOfAll(turns[..run.requests])))
  {
    RepliesAreRecorded(tools, turns);
    RecordsAreHeard(tools, turns[..Looped(tools, turns).requests]);
  }
}
