/**
  Reassembling tool calls from the deltas of a streamed completion, and the
  unstreamed response they must agree with.
  */
module StreamCalls {
  import opened Prelude
  import opened AgentLoop

  datatype FuncDelta = FuncDelta(name: string, arguments: string)

  datatype Delta = Delta(index: int, id: string, func: Option<FuncDelta>)

  datatype Choice = Choice(content: string, deltas: seq<Delta>, finish: Option<string>)

  datatype TokenUsage = TokenUsage(prompt: int, completion: int, total: int, cached: int, reasoning: int)

  /** One server event; the end of the list is the end of the stream without a final mark. */
  datatype Event =
    | Completion(choices: seq<Choice>, usage: Option<TokenUsage>)
    | Malformed(error: string)
    | Broken(error: string)
    | Finish

  datatype OutChunk = OutChunk(content: string, call: Option<ToolCall>, done: bool, usage: Option<TokenUsage>)

  // ----- What a list of deltas means -----

  /** The deltas of one call, in the order they came. */
  function Projection(deltas: seq<Delta>, index: int): seq<Delta> {
    if deltas == [] then []
    else
      var last := deltas[|deltas| - 1];
      Projection(deltas[..|deltas| - 1], index) + (if last.index == index then [last] else [])
  }

  /** The last ID that was given. */
  function IdOf(deltas: seq<Delta>): string {
    if deltas == [] then ""
    else if deltas[|deltas| - 1].id != "" then deltas[|deltas| - 1].id
    else IdOf(deltas[..|deltas| - 1])
  }

  predicate NamesIt(d: Delta) {
    d.func.Some? && d.func.value.name != ""
  }

  function NameOf(deltas: seq<Delta>): string {
    if deltas == [] then ""
    else if NamesIt(deltas[|deltas| - 1]) then deltas[|deltas| - 1].func.value.name
    else NameOf(deltas[..|deltas| - 1])
  }

  function Piece(d: Delta): string {
    if d.func.Some? then d.func.value.arguments else ""
  }

  function ArgumentsOf(deltas: seq<Delta>): string {
    if deltas == [] then "" else ArgumentsOf(deltas[..|deltas| - 1]) + Piece(deltas[|deltas| - 1])
  }

  function CallOf(deltas: seq<Delta>): ToolCall {
    ToolCall(IdOf(deltas), NameOf(deltas), ArgumentsOf(deltas))
  }

  predicate Ascending(indices: seq<int>) {
    forall i, j | 0 <= i < j < |indices| :: indices[i] < indices[j]
  }

  function Insert(indices: seq<int>, index: int): (r: seq<int>)
    requires Ascending(indices)
    ensures Ascending(r) && forall i :: i in r <==> i == index || i in indices
  {
    if indices == [] || index < indices[0] then [index] + indices
    else if index == indices[0] then indices
    else
      var rest := Insert(indices[1..], index);
      assert forall j | 0 <= j < |rest| :: rest[j] in rest;
      [indices[0]] + rest
  }

  function Indices(deltas: seq<Delta>): (indices: seq<int>)
    ensures Ascending(indices)
  {
    if deltas == [] then [] else Insert(Indices(deltas[..|deltas| - 1]), deltas[|deltas| - 1].index)
  }

  function CallsAt(deltas: seq<Delta>, indices: seq<int>): seq<ToolCall> {
    if indices == [] then [] else [CallOf(Projection(deltas, indices[0]))] + CallsAt(deltas, indices[1..])
  }

  /** The calls of the deltas, by ascending index. */
  function Assembled(deltas: seq<Delta>): seq<ToolCall> {
    CallsAt(deltas, Indices(deltas))
  }

  // ----- What the stream emits -----

  function CallChunk(call: ToolCall): OutChunk {
    OutChunk("", Some(call), false, None)
  }

  function CallChunks(calls: seq<ToolCall>): seq<OutChunk> {
    if calls == [] then [] else [CallChunk(calls[0])] + CallChunks(calls[1..])
  }

  function ChoiceOut(choice: Choice, seen: seq<Delta>): seq<OutChunk> {
    (if choice.finish == Some("tool_calls") then CallChunks(Assembled(seen + choice.deltas)) else [])
    + [OutChunk(choice.content, None, choice.finish.Some?, None)]
  }

  function ChoicesOut(choices: seq<Choice>, seen: seq<Delta>): seq<OutChunk> {
    if choices == [] then [] else ChoiceOut(choices[0], seen) + ChoicesOut(choices[1..], seen + choices[0].deltas)
  }

  function DeltasOf(choices: seq<Choice>): seq<Delta> {
    if choices == [] then [] else choices[0].deltas + DeltasOf(choices[1..])
  }

  function Newer(usage: Option<TokenUsage>, earlier: Option<TokenUsage>): Option<TokenUsage> {
    if usage.Some? then usage else earlier
  }

  function Emitted(events: seq<Event>, seen: seq<Delta>, usage: Option<TokenUsage>): seq<OutChunk> {
    if events == [] then []
    else
      match events[0]
      case Broken(error) => [OutChunk("[stream error: " + error + "]", None, true, None)]
      case Finish => if usage.Some? then [OutChunk("", None, true, usage)] else []
      case Malformed(error) =>
        [OutChunk("[stream error: malformed data: " + error + "]", None, false, None)] + Emitted(events[1..], seen, usage)
      case Completion(choices, u) =>
        ChoicesOut(choices, seen) + Emitted(events[1..], seen + DeltasOf(choices), Newer(u, usage))
  }

  // ----- The pending calls -----

  datatype Pending = Pending(id: string, name: string, args: string)

  predicate Holds(pending: map<int, Pending>, deltas: seq<Delta>) {
    && (forall i | i in pending :: i in Indices(deltas))
    && (forall i | i in Indices(deltas) :: i in pending && PendingIs(pending[i], Projection(deltas, i)))
  }

  predicate PendingIs(p: Pending, deltas: seq<Delta>) {
    ToolCall(p.id, p.name, p.args) == CallOf(deltas)
  }

  function Extended(p: Pending, d: Delta): Pending {
    Pending(if d.id != "" then d.id else p.id, if NamesIt(d) then d.func.value.name else p.name, p.args + Piece(d))
  }

  lemma ExtendedIs(p: Pending, deltas: seq<Delta>, d: Delta)
    requires PendingIs(p, deltas)
    ensures PendingIs(Extended(p, d), deltas + [d])
  {
    assert (deltas + [d])[..|deltas|] == deltas;
  }

  lemma ProjectionSnoc(deltas: seq<Delta>, d: Delta, index: int)
    ensures Projection(deltas + [d], index) == Projection(deltas, index) + (if d.index == index then [d] else [])
    ensures Indices(deltas + [d]) == Insert(Indices(deltas), d.index)
  {
    assert (deltas + [d])[..|deltas|] == deltas;
  }

  lemma {:induction false} NoProjection(deltas: seq<Delta>, index: int)
    requires index !in Indices(deltas)
    ensures Projection(deltas, index) == []
  {
    if deltas != [] { NoProjection(deltas[..|deltas| - 1], index); }
  }

  lemma HoldsLonger(pending: map<int, Pending>, deltas: seq<Delta>, d: Delta)
    requires Holds(pending, deltas)
    ensures var p := if d.index in pending then pending[d.index] else Pending("", "", "");
            Holds(pending[d.index := Extended(p, d)], deltas + [d])
  {
    var p := if d.index in pending then pending[d.index] else Pending("", "", "");
    var later := pending[d.index := Extended(p, d)];
    if d.index !in pending { NoProjection(deltas, d.index); }
    ProjectionSnoc(deltas, d, d.index);
    forall i | i in Indices(deltas + [d]) ensures i in later && PendingIs(later[i], Projection(deltas + [d], i)) {
      ProjectionSnoc(deltas, d, i);
      if i == d.index {
        ExtendedIs(p, Projection(deltas, i), d);
      } else {
        assert Projection(deltas, i) + [] == Projection(deltas, i);
      }
    }
  }

  // ----- Reading the stream -----

  method AddDelta(pending: map<int, Pending>, d: Delta, ghost seen: seq<Delta>) returns (pending': map<int, Pending>)
    requires Holds(pending, seen)
    ensures Holds(pending', seen + [d])
  {
    HoldsLonger(pending, seen, d);
    var call := if d.index in pending then pending[d.index] else Pending("", "", "");
    if d.id != "" {
      call := call.(id := d.id);
    }
    if d.func.Some? {
      if d.func.value.name != "" {
        call := call.(name := d.func.value.name);
      }
      call := call.(args := call.args + d.func.value.arguments);
    }
    pending' := pending[d.index := call];
  }

  method AddDeltas(pending: map<int, Pending>, deltas: seq<Delta>, ghost seen: seq<Delta>) returns (pending': map<int, Pending>)
    requires Holds(pending, seen)
    ensures Holds(pending', seen + deltas)
  {
    pending' := pending;
    assert seen + deltas[..0] == seen;
    for i := 0 to |deltas|
      invariant Holds(pending', seen + deltas[..i])
    {
      UpTo(seen, deltas, i);
      pending' := AddDelta(pending', deltas[i], seen + deltas[..i]);
    }
    assert deltas[..|deltas|] == deltas;
  }

  /** The keys in ascending order, whatever order the map gives them in. */
  method SortedKeys(keys: set<int>) returns (indices: seq<int>)
    ensures Ascending(indices) && forall i :: i in indices <==> i in keys
  {
    indices := [];
    var rest := keys;
    while rest != {}
      invariant Ascending(indices) && rest <= keys
      invariant forall i :: i in indices <==> i in keys && i !in rest
      decreases |rest|
    {
      SomeMember(rest);
      var i :| i in rest;
      indices := Insert(indices, i);
      rest := rest - {i};
    }
  }

  lemma {:induction false} OneAscendingOrder(a: seq<int>, b: seq<int>)
    requires Ascending(a) && Ascending(b) && forall i :: i in a <==> i in b
    ensures a == b
  {
    assert a != [] ==> a[0] in a;
    assert b != [] ==> b[0] in b;
    if a != [] {
      forall i ensures i in a[1..] <==> i in b[1..] {
        TailMembers(a, i);
        TailMembers(b, i);
      }
      OneAscendingOrder(a[1..], b[1..]);
    }
  }

  lemma TailMembers(a: seq<int>, i: int)
    requires a != [] && Ascending(a)
    ensures i in a[1..] <==> i in a && i != a[0]
  {
  }

  lemma FirstCall(seen: seq<Delta>, index: int, rest: seq<int>)
    ensures CallChunks(CallsAt(seen, [index] + rest))
            == [CallChunk(CallOf(Projection(seen, index)))] + CallChunks(CallsAt(seen, rest))
  {
    assert ([index] + rest)[1..] == rest;
    var call := CallOf(Projection(seen, index));
    assert ([call] + CallsAt(seen, rest))[1..] == CallsAt(seen, rest);
  }

  method EmitCalls(pending: map<int, Pending>, ghost seen: seq<Delta>) returns (out: seq<OutChunk>)
    requires Holds(pending, seen)
    ensures out == CallChunks(Assembled(seen))
  {
    var indices := SortedKeys(pending.Keys);
    OneAscendingOrder(indices, Indices(seen));
    out := [];
    for k := 0 to |indices|
      invariant out + CallChunks(CallsAt(seen, indices[k..])) == CallChunks(Assembled(seen))
    {
      assert indices[k] in indices;
      var p := pending[indices[k]];
      Uncons(indices, k);
      FirstCall(seen, indices[k], indices[k + 1..]);
      Associate(out, [CallChunk(ToolCall(p.id, p.name, p.args))], CallChunks(CallsAt(seen, indices[k + 1..])));
      out := out + [CallChunk(ToolCall(p.id, p.name, p.args))];
    }
  }

  /** What was emitted and seen so far, with what the rest will add, is everything. */
  ghost predicate Reading(out: seq<OutChunk>, now: seq<Delta>, rest: seq<Choice>, allOut: seq<OutChunk>, allDeltas: seq<Delta>) {
    out + ChoicesOut(rest, now) == allOut && now + DeltasOf(rest) == allDeltas
  }

  lemma ReadingStep(out: seq<OutChunk>, now: seq<Delta>, choice: Choice, rest: seq<Choice>, allOut: seq<OutChunk>, allDeltas: seq<Delta>)
    requires Reading(out, now, [choice] + rest, allOut, allDeltas)
    ensures Reading(out + ChoiceOut(choice, now), now + choice.deltas, rest, allOut, allDeltas)
  {
    assert ([choice] + rest)[1..] == rest;
    Associate(now, choice.deltas, DeltasOf(rest));
    Associate(out, ChoiceOut(choice, now), ChoicesOut(rest, now + choice.deltas));
  }

  method ReadChoices(pending: map<int, Pending>, choices: seq<Choice>, ghost seen: seq<Delta>)
    returns (pending': map<int, Pending>, out: seq<OutChunk>)
    requires Holds(pending, seen)
    ensures Holds(pending', seen + DeltasOf(choices)) && out == ChoicesOut(choices, seen)
  {
    pending', out := pending, [];
    ghost var now, allOut, allDeltas := seen, ChoicesOut(choices, seen), seen + DeltasOf(choices);
    assert choices[0..] == choices;
    for i := 0 to |choices|
      invariant Holds(pending', now) && Reading(out, now, choices[i..], allOut, allDeltas)
    {
      Uncons(choices, i);
      ReadingStep(out, now, choices[i], choices[i + 1..], allOut, allDeltas);
      var chunks;
      pending', chunks := ReadChoice(pending', choices[i], now);
      out := out + chunks;
      now := now + choices[i].deltas;
    }
    assert out + [] == out && now + [] == now;
  }

  method ReadChoice(pending: map<int, Pending>, choice: Choice, ghost seen: seq<Delta>)
    returns (pending': map<int, Pending>, out: seq<OutChunk>)
    requires Holds(pending, seen)
    ensures Holds(pending', seen + choice.deltas) && out == ChoiceOut(choice, seen)
  {
    pending' := AddDeltas(pending, choice.deltas, seen);
    out := [];
    if choice.finish == Some("tool_calls") {
      out := EmitCalls(pending', seen + choice.deltas);
    }
    out := out + [OutChunk(choice.content, None, choice.finish.Some?, None)];
  }

  method ReadStream(events: seq<Event>) returns (out: seq<OutChunk>)
    ensures out == Emitted(events, [], None)
  {
    out := [];
    var pending: map<int, Pending>, lastUsage := map[], None;
    ghost var seen: seq<Delta> := [];
    assert events[0..] == events;
    for i := 0 to |events|
      invariant Holds(pending, seen)
      invariant out + Emitted(events[i..], seen, lastUsage) == Emitted(events, [], None)
    {
      assert events[i..][1..] == events[i + 1..];
      match events[i] {
        case Broken(error) => return out + [OutChunk("[stream error: " + error + "]", None, true, None)];
        case Finish =>
          if lastUsage.Some? {
            out := out + [OutChunk("", None, true, lastUsage)];
          }
          return;
        case Malformed(error) =>
          out := out + [OutChunk("[stream error: malformed data: " + error + "]", None, false, None)];
        case Completion(choices, usage) =>
          var chunks;
          Associate(out, ChoicesOut(choices, seen), Emitted(events[i + 1..], seen + DeltasOf(choices), Newer(usage, lastUsage)));
          pending, chunks := ReadChoices(pending, choices, seen);
          if usage.Some? {
            lastUsage := usage;
          }
          out := out + chunks;
          seen := seen + DeltasOf(choices);
      }
    }
  }

  // ----- The calls depend on the projections only -----

  lemma {:induction false} IndexedExactly(deltas: seq<Delta>, index: int)
    ensures index in Indices(deltas) <==> Projection(deltas, index) != []
  {
    if deltas != [] { IndexedExactly(deltas[..|deltas| - 1], index); }
  }

  lemma {:induction false} CallsAtSame(a: seq<Delta>, b: seq<Delta>, indices: seq<int>)
    requires forall k | 0 <= k < |indices| :: CallOf(Projection(a, indices[k])) == CallOf(Projection(b, indices[k]))
    ensures CallsAt(a, indices) == CallsAt(b, indices)
  {
    if indices != [] {
      assert forall k | 0 <= k < |indices| - 1 :: indices[1..][k] == indices[k + 1];
      CallsAtSame(a, b, indices[1..]);
    }
  }

  /** However the deltas of different calls are interleaved, the assembled calls are the same. */
  lemma InterleavingDoesNotMatter(a: seq<Delta>, b: seq<Delta>)
    requires forall i :: Projection(a, i) == Projection(b, i)
    ensures Assembled(a) == Assembled(b)
  {
    forall i ensures i in Indices(a) <==> i in Indices(b) {
      IndexedExactly(a, i);
      IndexedExactly(b, i);
    }
    OneAscendingOrder(Indices(a), Indices(b));
    CallsAtSame(a, b, Indices(a));
  }

  // ----- The unstreamed response -----

  datatype ChatToolCall = ChatToolCall(id: string, name: string, arguments: string)

  /** How one call may be cut into deltas: ID and name given at least once if not empty and never otherwise, the arguments in pieces. */
  predicate Fragments(deltas: seq<Delta>, call: ChatToolCall) {
    && deltas != []
    && (forall i | 0 <= i < |deltas| :: deltas[i].id == "" || deltas[i].id == call.id)
    && (call.id != "" ==> exists i | 0 <= i < |deltas| :: deltas[i].id == call.id)
    && (forall i | 0 <= i < |deltas| :: NamesIt(deltas[i]) ==> deltas[i].func.value.name == call.name)
    && (call.name != "" ==> exists i | 0 <= i < |deltas| :: NamesIt(deltas[i]))
    && ArgumentsOf(deltas) == call.arguments
  }

  /** A stream of a whole message: call i is cut into the deltas of index i, in any interleaving. */
  predicate FragmentsMessage(deltas: seq<Delta>, calls: seq<ChatToolCall>) {
    && (forall i | 0 <= i < |calls| :: Fragments(Projection(deltas, i), calls[i]))
    && (forall k | 0 <= k < |deltas| :: 0 <= deltas[k].index < |calls|)
  }

  /** `Unset` is the zero value, which a response without choices keeps. */
  datatype StopReason = Unset | EndTurn | MaxTokens

  datatype ChatChoice = ChatChoice(content: Option<string>, calls: seq<ChatToolCall>, finish: string)

  datatype Response = Response(content: string, calls: seq<ToolCall>, stop: StopReason)

  function ProviderCalls(calls: seq<ChatToolCall>): (r: seq<ToolCall>)
    ensures |r| == |calls|
    ensures forall i | 0 <= i < |calls| :: r[i] == ToolCall(calls[i].id, calls[i].name, calls[i].arguments)
  {
    if calls == [] then []
    else [ToolCall(calls[0].id, calls[0].name, calls[0].arguments)] + ProviderCalls(calls[1..])
  }

  method CopyCalls(calls: seq<ChatToolCall>) returns (r: seq<ToolCall>)
    ensures r == ProviderCalls(calls)
  {
    r := [];
    for i := 0 to |calls|
      invariant r + ProviderCalls(calls[i..]) == ProviderCalls(calls)
    {
      Uncons(calls, i);
      Associate(r, [ToolCall(calls[i].id, calls[i].name, calls[i].arguments)], ProviderCalls(calls[i + 1..]));
      r := r + [ToolCall(calls[i].id, calls[i].name, calls[i].arguments)];
    }
  }

  method ToProviderResponse(choices: seq<ChatChoice>) returns (r: Response)
    ensures choices == [] ==> r == Response("", [], Unset)
    ensures choices != [] ==>
              r == Response(if choices[0].content.Some? then choices[0].content.value else "",
                            ProviderCalls(choices[0].calls),
                            if choices[0].finish == "length" then MaxTokens else EndTurn)
  {
    if |choices| == 0 {
      return Response("", [], Unset);
    }
    var choice := choices[0];
    var calls := CopyCalls(choice.calls);
    r := Response(if choice.content.Some? then choice.content.value else "", calls, if choice.finish == "length" then MaxTokens else EndTurn);
  }

  lemma {:induction false} LastIdIs(deltas: seq<Delta>, id: string)
    requires forall i | 0 <= i < |deltas| :: deltas[i].id == "" || deltas[i].id == id
    ensures IdOf(deltas) == if exists i | 0 <= i < |deltas| :: deltas[i].id != "" then id else ""
  {
    if deltas != [] { LastIdIs(deltas[..|deltas| - 1], id); }
  }

  lemma {:induction false} LastNameIs(deltas: seq<Delta>, name: string)
    requires forall i | 0 <= i < |deltas| :: NamesIt(deltas[i]) ==> deltas[i].func.value.name == name
    ensures NameOf(deltas) == if exists i | 0 <= i < |deltas| :: NamesIt(deltas[i]) then name else ""
  {
    if deltas != [] { LastNameIs(deltas[..|deltas| - 1], name); }
  }

  lemma FragmentsReassemble(deltas: seq<Delta>, call: ChatToolCall)
    requires Fragments(deltas, call)
    ensures CallOf(deltas) == ToolCall(call.id, call.name, call.arguments)
  {
    LastIdIs(deltas, call.id);
    LastNameIs(deltas, call.name);
  }

  function Range(lo: nat, hi: nat): (r: seq<int>)
    requires lo <= hi
    ensures |r| == hi - lo && forall i | 0 <= i < |r| :: r[i] == lo + i
    decreases hi - lo
  {
    if lo == hi then [] else [lo] + Range(lo + 1, hi)
  }

  lemma RangeMembers(lo: nat, hi: nat)
    requires lo <= hi
    ensures Ascending(Range(lo, hi)) && forall i :: i in Range(lo, hi) <==> lo <= i < hi
  {
    forall i | lo <= i < hi ensures i in Range(lo, hi) {
      assert Range(lo, hi)[i - lo] == i;
    }
  }

  lemma {:induction false} CallsAtRange(deltas: seq<Delta>, calls: seq<ChatToolCall>, from: nat)
    requires from <= |calls|
    requires forall i | 0 <= i < |calls| :: CallOf(Projection(deltas, i)) == ToolCall(calls[i].id, calls[i].name, calls[i].arguments)
    ensures CallsAt(deltas, Range(from, |calls|)) == ProviderCalls(calls)[from..]
    decreases |calls| - from
  {
    if from < |calls| {
      CallsAtRange(deltas, calls, from + 1);
      assert Range(from, |calls|)[1..] == Range(from + 1, |calls|);
      Uncons(ProviderCalls(calls), from);
    }
  }

  lemma {:induction false} IndicesAreGiven(deltas: seq<Delta>, n: nat)
    requires forall k | 0 <= k < |deltas| :: 0 <= deltas[k].index < n
    ensures forall i | i in Indices(deltas) :: 0 <= i < n
  {
    if deltas != [] { IndicesAreGiven(deltas[..|deltas| - 1], n); }
  }

  /** Every fragmentation of a message reassembles to the calls of the unstreamed response. */
  lemma StreamedEqualsUnstreamed(deltas: seq<Delta>, calls: seq<ChatToolCall>)
    requires FragmentsMessage(deltas, calls)
    ensures Assembled(deltas) == ProviderCalls(calls)
  {
    IndicesAreGiven(deltas, |calls|);
    RangeMembers(0, |calls|);
    forall i ensures i in Indices(deltas) <==> i in Range(0, |calls|) {
      if 0 <= i < |calls| {
        assert Fragments(Projection(deltas, i), calls[i]);
        IndexedExactly(deltas, i);
      }
    }
    OneAscendingOrder(Indices(deltas), Range(0, |calls|));
    forall i | 0 <= i < |calls| ensures CallOf(Projection(deltas, i)) == ToolCall(calls[i].id, calls[i].name, calls[i].arguments) {
      assert Fragments(Projection(deltas, i), calls[i]);
      FragmentsReassemble(Projection(deltas, i), calls[i]);
    }
    CallsAtRange(deltas, calls, 0);
  }

  // ----- When calls are emitted -----

  function CallsIn(out: seq<OutChunk>): seq<ToolCall> {
    if out == [] then [] else (if out[0].call.Some? then [out[0].call.value] else []) + CallsIn(out[1..])
  }

  /** The choices read before the stream ends or breaks. */
  function AllChoices(events: seq<Event>): seq<Choice> {
    if events == [] then []
    else
      match events[0]
      case Broken(_) => []
      case Finish => []
      case Malformed(_) => AllChoices(events[1..])
      case Completion(choices, _) => choices + AllChoices(events[1..])
  }

  predicate Calling(choice: Choice) {
    choice.finish == Some("tool_calls")
  }

  /** At every "tool_calls" finish, all the calls assembled so far. */
  function FinishedCalls(choices: seq<Choice>): seq<ToolCall> {
    if choices == [] then []
    else
      FinishedCalls(choices[..|choices| - 1])
      + (if Calling(choices[|choices| - 1]) then Assembled(DeltasOf(choices)) else [])
  }

  lemma {:induction false} CallsInConcat(a: seq<OutChunk>, b: seq<OutChunk>)
    ensures CallsIn(a + b) == CallsIn(a) + CallsIn(b)
  {
    if a == [] {
      assert a + b == b;
    } else {
      CallsInConcat(a[1..], b);
      CallsInCons(a[0], a[1..] + b);
      CallsInCons(a[0], a[1..]);
      ConsConcat(a, b);
      Associate(if a[0].call.Some? then [a[0].call.value] else [], CallsIn(a[1..]), CallsIn(b));
    }
  }

  lemma CallsInCons(chunk: OutChunk, rest: seq<OutChunk>)
    ensures CallsIn([chunk] + rest) == (if chunk.call.Some? then [chunk.call.value] else []) + CallsIn(rest)
  {
    assert ([chunk] + rest)[1..] == rest;
  }

  lemma {:induction false} CallsInChunks(calls: seq<ToolCall>)
    ensures CallsIn(CallChunks(calls)) == calls
  {
    if calls != [] {
      CallsInChunks(calls[1..]);
      assert CallChunks(calls)[1..] == CallChunks(calls[1..]);
    }
  }

  lemma {:induction false} DeltasOfConcat(a: seq<Choice>, b: seq<Choice>)
    ensures DeltasOf(a + b) == DeltasOf(a) + DeltasOf(b)
  {
    if a == [] {
      assert a + b == b;
    } else {
      assert (a + b)[1..] == a[1..] + b;
      DeltasOfConcat(a[1..], b);
      Associate(a[0].deltas, DeltasOf(a[1..]), DeltasOf(b));
    }
  }

  lemma DeltasOfOne(choice: Choice)
    ensures DeltasOf([choice]) == choice.deltas
  {
    assert [choice][1..] == [];
  }

  lemma ChoiceCalls(choice: Choice, before: seq<Choice>)
    ensures CallsIn(ChoiceOut(choice, DeltasOf(before))) == if Calling(choice) then Assembled(DeltasOf(before + [choice])) else []
  {
    var calls := Assembled(DeltasOf(before) + choice.deltas);
    var end := [OutChunk(choice.content, None, choice.finish.Some?, None)];
    DeltasOfConcat(before, [choice]);
    DeltasOfOne(choice);
    assert CallsIn(end) == [] by { assert end[1..] == []; }
    CallsInConcat(CallChunks(calls), end);
    CallsInChunks(calls);
    assert [] + end == end;
  }

  lemma OneMoreChoice(c: Choice, rest: seq<Choice>, before: seq<Choice>)
    ensures FinishedCalls(before) + CallsIn(ChoicesOut([c] + rest, DeltasOf(before)))
            == FinishedCalls(before + [c]) + CallsIn(ChoicesOut(rest, DeltasOf(before + [c])))
  {
    var first, later := ChoiceOut(c, DeltasOf(before)), ChoicesOut(rest, DeltasOf(before + [c]));
    DeltasOfConcat(before, [c]);
    DeltasOfOne(c);
    assert ([c] + rest)[1..] == rest;
    CallsInConcat(first, later);
    ChoiceCalls(c, before);
    Associate(FinishedCalls(before), CallsIn(first), CallsIn(later));
    FinishedCallsSnoc(before, c);
  }

  lemma FinishedCallsSnoc(before: seq<Choice>, c: Choice)
    ensures FinishedCalls(before + [c]) == FinishedCalls(before) + (if Calling(c) then Assembled(DeltasOf(before + [c])) else [])
  {
    assert (before + [c])[..|before + [c]| - 1] == before;
  }

  lemma {:induction false} ChoicesCalls(choices: seq<Choice>, before: seq<Choice>)
    ensures FinishedCalls(before) + CallsIn(ChoicesOut(choices, DeltasOf(before))) == FinishedCalls(before + choices)
    decreases |choices|
  {
    if choices == [] {
      assert before + choices == before;
    } else {
      OneMoreChoice(choices[0], choices[1..], before);
      ChoicesCalls(choices[1..], before + [choices[0]]);
      Associate(before, [choices[0]], choices[1..]);
      Uncons(choices, 0);
    }
  }

  lemma {:induction false} EmittedCallsFrom(events: seq<Event>, before: seq<Choice>, usage: Option<TokenUsage>)
    ensures FinishedCalls(before) + CallsIn(Emitted(events, DeltasOf(before), usage)) == FinishedCalls(before + AllChoices(events))
    decreases |events|
  {
    assert before + [] == before;
    if events != [] {
      match events[0] {
        case Broken(error) => NoCalls(OutChunk("[stream error: " + error + "]", None, true, None), []);
        case Finish => NoCalls(OutChunk("", None, true, usage), []);
        case Malformed(error) =>
          EmittedCallsFrom(events[1..], before, usage);
          NoCalls(OutChunk("[stream error: malformed data: " + error + "]", None, false, None), Emitted(events[1..], DeltasOf(before), usage));
        case Completion(choices, u) =>
          ChoicesCalls(choices, before);
          DeltasOfConcat(before, choices);
          CallsInConcat(ChoicesOut(choices, DeltasOf(before)), Emitted(events[1..], DeltasOf(before + choices), Newer(u, usage)));
          EmittedCallsFrom(events[1..], before + choices, Newer(u, usage));
          Associate(before, choices, AllChoices(events[1..]));
          Associate(FinishedCalls(before), CallsIn(ChoicesOut(choices, DeltasOf(before))),
            CallsIn(Emitted(events[1..], DeltasOf(before + choices), Newer(u, usage))));
      }
    }
  }

  lemma NoCalls(chunk: OutChunk, rest: seq<OutChunk>)
    requires chunk.call == None
    ensures CallsIn([chunk] + rest) == CallsIn(rest)
    ensures rest == [] ==> CallsIn([chunk]) == []
  {
    assert ([chunk] + rest)[1..] == rest;
  }

  /** The calls a stream emits, whatever else it holds: all those assembled so far, at every "tool_calls" finish. */
  lemma EmittedCalls(events: seq<Event>)
    ensures CallsIn(Emitted(events, [], None)) == FinishedCalls(AllChoices(events))
  {
    EmittedCallsFrom(events, [], None);
    assert [] + AllChoices(events) == AllChoices(events);
  }

  lemma {:induction false} NotCalling(before: seq<Choice>, after: seq<Choice>)
    requires forall i | 0 <= i < |after| :: !Calling(after[i])
    ensures FinishedCalls(before + after) == FinishedCalls(before)
    decreases |after|
  {
    if after == [] {
      assert before + after == before;
    } else {
      assert (before + after)[..|before + after| - 1] == before + after[..|after| - 1];
      NotCalling(before, after[..|after| - 1]);
    }
  }

  function Finishes(choices: seq<Choice>): nat {
    if choices == [] then 0 else Finishes(choices[..|choices| - 1]) + (if Calling(choices[|choices| - 1]) then 1 else 0)
  }

  function Repeated(calls: seq<ToolCall>, n: nat): (r: seq<ToolCall>)
    ensures |r| == n * |calls|
  {
    if n == 0 then [] else Repeated(calls, n - 1) + calls
  }

  /** When no delta comes any more, every finish emits the same calls. */
  lemma {:induction false} LaterFinishesRepeat(before: seq<Choice>, after: seq<Choice>, calls: seq<ToolCall>, deltas: seq<Delta>)
    requires forall i | 0 <= i < |after| :: after[i].deltas == []
    requires FinishedCalls(before) == calls && DeltasOf(before) == deltas
    ensures DeltasOf(before + after) == deltas
    ensures FinishedCalls(before + after) == calls + Repeated(Assembled(deltas), Finishes(after))
    decreases |after|
  {
    if after == [] {
      assert before + after == before && calls + [] == calls;
    } else {
      var front, last := after[..|after| - 1], after[|after| - 1];
      LaterFinishesRepeat(before, front, calls, deltas);
      OneFinishMore(before + front, last, calls, deltas, Finishes(front));
      JoinedAgain(before, after);
    }
  }

  lemma JoinedAgain<T>(a: seq<T>, b: seq<T>)
    requires b != []
    ensures (a + b[..|b| - 1]) + [b[|b| - 1]] == a + b
  {
  }

  lemma OneFinishMore(choices: seq<Choice>, last: Choice, calls: seq<ToolCall>, deltas: seq<Delta>, n: nat)
    requires last.deltas == [] && DeltasOf(choices) == deltas
    requires FinishedCalls(choices) == calls + Repeated(Assembled(deltas), n)
    ensures DeltasOf(choices + [last]) == deltas
    ensures FinishedCalls(choices + [last]) == calls + Repeated(Assembled(deltas), if Calling(last) then n + 1 else n)
  {
    DeltasOfConcat(choices, [last]);
    DeltasOfOne(last);
    assert deltas + [] == deltas;
    FinishedCallsSnoc(choices, last);
    Associate(calls, Repeated(Assembled(deltas), n), Assembled(deltas));
  }

  /** The choices up to the first finish, which is the last with deltas, and those after it. */
  ghost predicate CompleteAtTheFirstFinish(choices: seq<Choice>, before: seq<Choice>, first: Choice, after: seq<Choice>) {
    && choices == (before + [first]) + after && Calling(first)
    && (forall i | 0 <= i < |before| :: !Calling(before[i]))
    && (forall i | 0 <= i < |after| :: after[i].deltas == [])
  }

  /**
    When all deltas come at or before the first finish, the calls are emitted once
    per finish, because the pending ones are not cleared; so, if there are any,
    they are emitted once exactly when there is one finish.
    */
  lemma CallsRepeatPerFinish(events: seq<Event>, before: seq<Choice>, first: Choice, after: seq<Choice>)
    requires CompleteAtTheFirstFinish(AllChoices(events), before, first, after)
    ensures var calls := Assembled(DeltasOf(before + [first]));
            && CallsIn(Emitted(events, [], None)) == Repeated(calls, Finishes(AllChoices(events)))
            && (calls != [] ==> (CallsIn(Emitted(events, [], None)) == calls <==> Finishes(AllChoices(events)) == 1))
  {
    EmittedCalls(events);
    FinishedCallsRepeat(before, first, after);
    if Assembled(DeltasOf(before + [first])) != [] {
      RepeatedOnce(Assembled(DeltasOf(before + [first])), Finishes(AllChoices(events)));
    }
  }

  lemma {:induction false} FinishedCallsRepeat(before: seq<Choice>, first: Choice, after: seq<Choice>)
    requires CompleteAtTheFirstFinish((before + [first]) + after, before, first, after)
    ensures Finishes((before + [first]) + after) == 1 + Finishes(after)
    ensures FinishedCalls((before + [first]) + after)
            == Repeated(Assembled(DeltasOf(before + [first])), 1 + Finishes(after))
  {
    FirstFinish(before, first);
    RepeatedAfter(before + [first], after, DeltasOf(before + [first]));
  }

  lemma {:induction false} RepeatedAfter(upTo: seq<Choice>, after: seq<Choice>, deltas: seq<Delta>)
    requires Finishes(upTo) == 1 && DeltasOf(upTo) == deltas && FinishedCalls(upTo) == Assembled(deltas)
    requires forall i | 0 <= i < |after| :: after[i].deltas == []
    ensures Finishes(upTo + after) == 1 + Finishes(after)
    ensures FinishedCalls(upTo + after) == Repeated(Assembled(deltas), 1 + Finishes(after))
  {
    FinishesConcat(upTo, after);
    LaterCallsRepeat(upTo, after, deltas, Finishes(after));
  }

  lemma {:induction false} LaterCallsRepeat(upTo: seq<Choice>, after: seq<Choice>, deltas: seq<Delta>, n: nat)
    requires DeltasOf(upTo) == deltas && FinishedCalls(upTo) == Assembled(deltas) && n == Finishes(after)
    requires forall i | 0 <= i < |after| :: after[i].deltas == []
    ensures FinishedCalls(upTo + after) == Repeated(Assembled(deltas), 1 + n)
  {
    LaterFinishesRepeat(upTo, after, Assembled(deltas), deltas);
    RepeatedFirst(Assembled(deltas), n);
  }

  lemma FirstFinish(before: seq<Choice>, first: Choice)
    requires Calling(first) && forall i | 0 <= i < |before| :: !Calling(before[i])
    ensures Finishes(before + [first]) == 1 && FinishedCalls(before + [first]) == Assembled(DeltasOf(before + [first]))
  {
    NotCalling([], before);
    assert [] + before == before;
    FinishedCallsSnoc(before, first);
    FinishesConcat(before, [first]);
    NoFinishes(before);
    OneFinish(first);
  }

  lemma RepeatedOnce(calls: seq<ToolCall>, n: nat)
    requires calls != []
    ensures Repeated(calls, n) == calls <==> n == 1
  {
    assert Repeated(calls, 1) == Repeated(calls, 0) + calls;
    if n > 1 { assert n * |calls| > |calls|; }
  }

  lemma OneFinish(choice: Choice)
    requires Calling(choice)
    ensures Finishes([choice]) == 1
  {
    assert [choice][..0] == [];
  }

  lemma {:induction false} NoFinishes(choices: seq<Choice>)
    requires forall i | 0 <= i < |choices| :: !Calling(choices[i])
    ensures Finishes(choices) == 0
  {
    if choices != [] { NoFinishes(choices[..|choices| - 1]); }
  }

  lemma {:induction false} FinishesConcat(a: seq<Choice>, b: seq<Choice>)
    ensures Finishes(a + b) == Finishes(a) + Finishes(b)
    decreases |b|
  {
    if b == [] {
      assert a + b == a;
    } else {
      assert (a + b)[..|a + b| - 1] == a + b[..|b| - 1];
      FinishesConcat(a, b[..|b| - 1]);
    }
  }

  lemma {:induction false} RepeatedFirst(calls: seq<ToolCall>, n: nat)
    ensures calls + Repeated(calls, n) == Repeated(calls, n + 1)
  {
    if n > 0 {
      RepeatedFirst(calls, n - 1);
      Associate(calls, Repeated(calls, n - 1), calls);
    } else {
      assert calls + [] == [] + calls;
    }
  }

  /** A stream with one finish, whose deltas are fragments of a message, emits exactly the calls of the unstreamed response. */
  lemma OneFinishEmitsTheMessage(events: seq<Event>, before: seq<Choice>, first: Choice, after: seq<Choice>, calls: seq<ChatToolCall>)
    requires AllChoices(events) == (before + [first]) + after && Calling(first)
    requires forall i | 0 <= i < |before| :: !Calling(before[i])
    requires forall i | 0 <= i < |after| :: !Calling(after[i])
    requires FragmentsMessage(DeltasOf(before + [first]), calls)
    ensures CallsIn(Emitted(events, [], None)) == ProviderCalls(calls)
  {
    EmittedCalls(events);
    NotCalling(before + [first], after);
    NotCalling([], before);
    assert [] + before == before;
    FinishedCallsSnoc(before, first);
    StreamedEqualsUnstreamed(DeltasOf(before + [first]), calls);
  }

  /** A whole message, and a finish for it that comes n times more: its calls come n + 1 times. */
  lemma SecondFinishRepeats(events: seq<Event>, before: seq<Choice>, first: Choice, after: seq<Choice>, calls: seq<ChatToolCall>)
    requires CompleteAtTheFirstFinish(AllChoices(events), before, first, after)
    requires FragmentsMessage(DeltasOf(before + [first]), calls)
    ensures CallsIn(Emitted(events, [], None)) == Repeated(ProviderCalls(calls), Finishes(AllChoices(events)))
  {
    CallsRepeatPerFinish(events, before, first, after);
    StreamedEqualsUnstreamed(DeltasOf(before + [first]), calls);
  }

  // ----- What else the stream emits -----

  /** The arguments are the pieces put together in the order they came. */
  lemma {:induction false} ArgumentsInOrder(a: seq<Delta>, b: seq<Delta>)
    ensures ArgumentsOf(a + b) == ArgumentsOf(a) + ArgumentsOf(b)
    ensures |b| == 1 ==> ArgumentsOf(b) == if b[0].func.Some? then b[0].func.value.arguments else ""
    decreases |b|
  {
    if b == [] {
      assert a + b == a;
    } else {
      var front, last := b[..|b| - 1], b[|b| - 1];
      assert (a + b)[..|a + b| - 1] == a + front;
      ArgumentsInOrder(a, front);
      Associate(ArgumentsOf(a), ArgumentsOf(front), Piece(last));
    }
  }

  /** The last ID that says something is the one that counts. */
  lemma {:induction false} LastIdCounts(deltas: seq<Delta>)
    ensures IdOf(deltas) == "" ==> forall i | 0 <= i < |deltas| :: deltas[i].id == ""
    ensures IdOf(deltas) != "" ==>
              exists k :: 0 <= k < |deltas| && deltas[k].id == IdOf(deltas) && forall j | k < j < |deltas| :: deltas[j].id == ""
  {
    if deltas != [] {
      var n := |deltas| - 1;
      LastIdCounts(deltas[..n]);
      if deltas[n].id == "" && IdOf(deltas) != "" {
        var k :| 0 <= k < n && deltas[..n][k].id == IdOf(deltas[..n]) && forall j | k < j < n :: deltas[..n][j].id == "";
        assert deltas[k].id == IdOf(deltas);
        forall j | k < j < |deltas| ensures deltas[j].id == "" { assert j < n ==> deltas[..n][j].id == ""; }
      } else if IdOf(deltas) == "" {
        forall i | 0 <= i < |deltas| ensures deltas[i].id == "" { assert i < n ==> deltas[..n][i].id == ""; }
      }
    }
  }

  /** And so is the last name. */
  lemma {:induction false} LastNameCounts(deltas: seq<Delta>)
    ensures NameOf(deltas) == "" ==> forall i | 0 <= i < |deltas| :: !NamesIt(deltas[i])
    ensures NameOf(deltas) != "" ==>
              exists k :: 0 <= k < |deltas| && NamesIt(deltas[k]) && deltas[k].func.value.name == NameOf(deltas)
                       && forall j | k < j < |deltas| :: !NamesIt(deltas[j])
  {
    if deltas != [] {
      var n := |deltas| - 1;
      LastNameCounts(deltas[..n]);
      if !NamesIt(deltas[n]) && NameOf(deltas) != "" {
        var k :| 0 <= k < n && NamesIt(deltas[..n][k]) && deltas[..n][k].func.value.name == NameOf(deltas[..n])
                 && forall j | k < j < n :: !NamesIt(deltas[..n][j]);
        assert NamesIt(deltas[k]);
        forall j | k < j < |deltas| ensures !NamesIt(deltas[j]) { assert j < n ==> !NamesIt(deltas[..n][j]); }
      } else if NameOf(deltas) == "" {
        forall i | 0 <= i < |deltas| ensures !NamesIt(deltas[i]) { assert i < n ==> !NamesIt(deltas[..n][i]); }
      }
    }
  }

  function WithoutCalls(out: seq<OutChunk>): seq<OutChunk> {
    if out == [] then [] else (if out[0].call.Some? then [] else [out[0]]) + WithoutCalls(out[1..])
  }

  function ChoiceTexts(choices: seq<Choice>): seq<OutChunk> {
    if choices == [] then []
    else [OutChunk(choices[0].content, None, choices[0].finish.Some?, None)] + ChoiceTexts(choices[1..])
  }

  /** One chunk for every choice, one for every event that cannot be read, and at the end the usage given last. */
  function Texts(events: seq<Event>, usage: Option<TokenUsage>): seq<OutChunk> {
    if events == [] then []
    else
      match events[0]
      case Broken(error) => [OutChunk("[stream error: " + error + "]", None, true, None)]
      case Finish => if usage.Some? then [OutChunk("", None, true, usage)] else []
      case Malformed(error) => [OutChunk("[stream error: malformed data: " + error + "]", None, false, None)] + Texts(events[1..], usage)
      case Completion(choices, u) => ChoiceTexts(choices) + Texts(events[1..], if u.Some? then u else usage)
  }

  lemma {:induction false} WithoutCallsConcat(a: seq<OutChunk>, b: seq<OutChunk>)
    ensures WithoutCalls(a + b) == WithoutCalls(a) + WithoutCalls(b)
  {
    if a == [] {
      assert a + b == b;
    } else {
      assert (a + b)[1..] == a[1..] + b;
      WithoutCallsConcat(a[1..], b);
    }
  }

  lemma {:induction false} CallsAreLeftOut(calls: seq<ToolCall>)
    ensures WithoutCalls(CallChunks(calls)) == []
  {
    if calls != [] {
      CallsAreLeftOut(calls[1..]);
      assert ([CallChunk(calls[0])] + CallChunks(calls[1..]))[1..] == CallChunks(calls[1..]);
    }
  }

  lemma ChoiceText(choice: Choice, seen: seq<Delta>)
    ensures WithoutCalls(ChoiceOut(choice, seen)) == [OutChunk(choice.content, None, choice.finish.Some?, None)]
  {
    var calls := if choice.finish == Some("tool_calls") then CallChunks(Assembled(seen + choice.deltas)) else [];
    var own := [OutChunk(choice.content, None, choice.finish.Some?, None)];
    WithoutCallsConcat(calls, own);
    CallsAreLeftOut(Assembled(seen + choice.deltas));
    assert own[1..] == [];
  }

  lemma {:induction false} ChoicesText(choices: seq<Choice>, seen: seq<Delta>)
    ensures WithoutCalls(ChoicesOut(choices, seen)) == ChoiceTexts(choices)
  {
    if choices != [] {
      ChoiceText(choices[0], seen);
      ChoicesText(choices[1..], seen + choices[0].deltas);
      WithoutCallsConcat(ChoiceOut(choices[0], seen), ChoicesOut(choices[1..], seen + choices[0].deltas));
    }
  }

  /** Apart from the calls, the stream is the choices' texts in order, the errors, and the usage given last. */
  lemma {:induction false} TextsAreEmitted(events: seq<Event>, seen: seq<Delta>, usage: Option<TokenUsage>)
    ensures WithoutCalls(Emitted(events, seen, usage)) == Texts(events, usage)
    decreases |events|
  {
    if events != [] {
      match events[0] {
        case Broken(error) => assert [OutChunk("[stream error: " + error + "]", None, true, None)][1..] == [];
        case Finish => assert [OutChunk("", None, true, usage)][1..] == [];
        case Malformed(error) =>
          TextsAreEmitted(events[1..], seen, usage);
          WithoutCallsConcat([OutChunk("[stream error: malformed data: " + error + "]", None, false, None)], Emitted(events[1..], seen, usage));
          assert [OutChunk("[stream error: malformed data: " + error + "]", None, false, None)][1..] == [];
        case Completion(choices, u) =>
          ChoicesText(choices, seen);
          TextsAreEmitted(events[1..], seen + DeltasOf(choices), Newer(u, usage));
          WithoutCallsConcat(ChoicesOut(choices, seen), Emitted(events[1..], seen + DeltasOf(choices), Newer(u, usage)));
      }
    }
  }

  /** A call is followed by another call or by the chunk that says its choice is finished. */
  predicate CallsAreFinished(out: seq<OutChunk>) {
    forall i | 0 <= i < |out| && out[i].call.Some? :: i + 1 < |out| && (out[i + 1].call.Some? || out[i + 1].done)
  }

  lemma FinishedConcat(a: seq<OutChunk>, b: seq<OutChunk>)
    requires CallsAreFinished(a) && CallsAreFinished(b)
    ensures CallsAreFinished(a + b)
  {
    forall i | 0 <= i < |a + b| && (a + b)[i].call.Some?
      ensures i + 1 < |a + b| && ((a + b)[i + 1].call.Some? || (a + b)[i + 1].done)
    {
      if i < |a| { assert a[i].call.Some?; } else { assert b[i - |a|].call.Some?; }
    }
  }

  lemma {:induction false} CallChunksAre(calls: seq<ToolCall>)
    ensures |CallChunks(calls)| == |calls| && forall i | 0 <= i < |calls| :: CallChunks(calls)[i] == CallChunk(calls[i])
  {
    if calls != [] { CallChunksAre(calls[1..]); }
  }

  lemma {:induction false} ChoicesAreFinished(choices: seq<Choice>, seen: seq<Delta>)
    ensures CallsAreFinished(ChoicesOut(choices, seen))
  {
    if choices != [] {
      CallChunksAre(Assembled(seen + choices[0].deltas));
      assert CallsAreFinished(ChoiceOut(choices[0], seen));
      ChoicesAreFinished(choices[1..], seen + choices[0].deltas);
      FinishedConcat(ChoiceOut(choices[0], seen), ChoicesOut(choices[1..], seen + choices[0].deltas));
    }
  }

  /** So no reader that stops at a finish misses the calls. */
  lemma {:induction false} CallsComeBeforeTheirFinish(events: seq<Event>, seen: seq<Delta>, usage: Option<TokenUsage>)
    ensures CallsAreFinished(Emitted(events, seen, usage))
    decreases |events|
  {
    if events != [] {
      match events[0] {
        case Broken(_) =>
        case Finish =>
        case Malformed(error) =>
          CallsComeBeforeTheirFinish(events[1..], seen, usage);
          FinishedConcat([OutChunk("[stream error: malformed data: " + error + "]", None, false, None)], Emitted(events[1..], seen, usage));
        case Completion(choices, u) =>
          ChoicesAreFinished(choices, seen);
          CallsComeBeforeTheirFinish(events[1..], seen + DeltasOf(choices), Newer(u, usage));
          FinishedConcat(ChoicesOut(choices, seen), Emitted(events[1..], seen + DeltasOf(choices), Newer(u, usage)));
      }
    }
  }
}
