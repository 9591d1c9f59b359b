/**
  The consuming side of the scheduler: the pass that acks what was pending when
  the process started, and the periodic delivery of cron results.
  */
module CronConsumer {
  import opened Prelude
  import opened Decimals
  import opened BrokerTables
  import opened SqliteBroker

  const CRON_RESULT := "cron_result"
  const MAX_ACK_MESSAGES: nat := 1000
  const ACK_BATCH: nat := 100

  ghost function Members(ids: seq<int>): set<int> {
    set i | 0 <= i < |ids| :: ids[i]
  }

  ghost function Batch(pending: set<int>): set<int> {
    Members(Lowest(pending, ACK_BATCH))
  }

  /** Which Consume and which AckAll calls fail, numbered by the round of the loop. */
  datatype CallFaults = CallFaults(consume: iset<nat>, ack: iset<nat>)

  /** What is still pending when the loop ends, and how many Consume calls it made. */
  ghost function Drain(pending: set<int>, acked: nat, round: nat, faults: CallFaults): (r: (set<int>, nat))
    requires acked < MAX_ACK_MESSAGES
    decreases MAX_ACK_MESSAGES - acked
  {
    if round in faults.consume || pending == {} then (pending, round + 1)
    else
      var left := if round in faults.ack then pending else pending - Batch(pending);
      var acked' := acked + Min(|pending|, ACK_BATCH);
      if acked' >= MAX_ACK_MESSAGES then (left, round + 1) else Drain(left, acked', round + 1, faults)
  }

  /** One round of the loop. */
  lemma DrainRound(pending: set<int>, acked: nat, round: nat, faults: CallFaults)
    requires acked < MAX_ACK_MESSAGES
    ensures round in faults.consume || pending == {} ==> Drain(pending, acked, round, faults) == (pending, round + 1)
    ensures round !in faults.consume && pending != {} ==>
      var left := if round in faults.ack then pending else pending - Batch(pending);
      var acked' := acked + Min(|pending|, ACK_BATCH);
      && |pending - Batch(pending)| == |pending| - Min(|pending|, ACK_BATCH)
      && Drain(pending, acked, round, faults)
         == if acked' >= MAX_ACK_MESSAGES then (left, round + 1) else Drain(left, acked', round + 1, faults)
  {
    BatchSize(pending);
  }

  lemma BatchSize(pending: set<int>)
    ensures pending != {} ==> |pending| > 0
    ensures |Batch(pending)| == Min(|pending|, ACK_BATCH) && Batch(pending) <= pending
    ensures |pending - Batch(pending)| == |pending| - Min(|pending|, ACK_BATCH)
  {
    LowestIsTheLeast(pending, ACK_BATCH);
    MembersSize(Lowest(pending, ACK_BATCH));
    assert pending == (pending - Batch(pending)) + Batch(pending);
  }

  lemma {:induction false} MembersSize(ids: seq<int>)
    requires Ascending(ids)
    ensures |Members(ids)| == |ids|
  {
    if ids != [] {
      var front, last := ids[..|ids| - 1], ids[|ids| - 1];
      MembersSize(front);
      MembersSnoc(front, last);
      assert front + [last] == ids;
      assert last !in Members(front);
    }
  }

  lemma MembersSnoc(ids: seq<int>, id: int)
    ensures Members(ids + [id]) == Members(ids) + {id}
  {
    var longer := ids + [id];
    assert longer[|ids|] == id;
    forall x | x in Members(ids) ensures x in Members(longer) {
      var i :| 0 <= i < |ids| && ids[i] == x;
      assert longer[i] == x;
    }
  }

  // ----- The loop -----

  lemma {:induction false} PrintedIdsParse(ids: seq<int>)
    requires forall i | 0 <= i < |ids| :: 0 <= ids[i] <= MAX_INT64
    ensures ParseAll(seq(|ids|, i requires 0 <= i < |ids| => Decimal(ids[i]))) == Some(ids)
    decreases |ids|
  {
    if ids != [] {
      var printed := seq(|ids|, i requires 0 <= i < |ids| => Decimal(ids[i]));
      var front := ids[..|ids| - 1];
      assert printed[..|ids| - 1] == seq(|front|, i requires 0 <= i < |front| => Decimal(front[i]));
      PrintedIdsParse(front);
      ParsePrinted(ids[|ids| - 1]);
      assert front + [ids[|ids| - 1]] == ids;
    }
  }

  function IdsOf(msgs: seq<Message>): seq<string> {
    seq(|msgs|, i requires 0 <= i < |msgs| => msgs[i].id)
  }

  /** Receipts of `session` for the messages in `ids`. */
  ghost function Acked(ids: set<int>, session: string): set<(int, string)> {
    set id | id in ids :: (id, session)
  }

  ghost function AllPending(b: Broker, session: string, now: int): set<int>
    reads b
  {
    Pending(b.State(), CRON_RESULT, "", session, now)
  }

  /** One fetched batch is acked as a whole, or not at all. */
  method AckBatch(b: Broker, msgs: seq<Message>, session: string, now: int, fails: bool, ghost limit: nat)
    requires BrokerTables.Valid(b.State())
    requires var ids := Lowest(AllPending(b, session, now), limit);
             (forall i | 0 <= i < |ids| :: ids[i] in b.messages && ids[i] >= 0) && msgs == MessagesOf(b.State(), ids)
    modifies b`receipts
    ensures var batch := if fails then {} else Members(Lowest(old(AllPending(b, session, now)), limit));
            && b.receipts == old(b.receipts) + Acked(batch, session)
            && AllPending(b, session, now) == old(AllPending(b, session, now)) - batch
  {
    if fails {
      return;
    }
    ghost var ids := Lowest(AllPending(b, session, now), limit);
    LowestIsTheLeast(AllPending(b, session, now), limit);
    assert IdsOf(msgs) == seq(|ids|, i requires 0 <= i < |ids| => Decimal(ids[i]));
    PrintedIdsParse(ids);
    var ok := b.AckAll(IdsOf(msgs), session);
    assert Receipts(ids, session) == Acked(Members(ids), session);
  }

  /** The body of the loop: fetch a batch and ack it. */
  method FetchAndAck(b: Broker, session: string, now: int, ackFails: bool, ghost before: set<int>)
    returns (fetched: nat, ghost after: set<int>)
    requires BrokerTables.Valid(b.State()) && AllPending(b, session, now) == before
    modifies b`receipts
    ensures AllPending(b, session, now) == after
    ensures after == (if ackFails then before else before - Batch(before)) && after <= before
    ensures fetched == Min(|before|, ACK_BATCH) && (fetched == 0 <==> before == {}) && (fetched == 0 ==> after == before)
    ensures b.receipts == old(b.receipts) + Acked(before - after, session)
  {
    BatchSize(before);
    LowestIsTheLeast(before, ACK_BATCH);
    var msgs := b.Consume(CRON_RESULT, "", session, ACK_BATCH, now);
    fetched := |msgs|;
    if fetched > 0 {
      AckBatch(b, msgs, session, now, ackFails, ACK_BATCH);
    }
    after := if ackFails then before else before - Batch(before);
    assert before - after == if ackFails then {} else Batch(before);
  }

  /** One round of the loop, and whether it is the last. */
  method AckRound(b: Broker, session: string, now: int, round: nat, acked: nat, faults: CallFaults, ghost before: set<int>)
    returns (acked': nat, last: bool, ghost left: set<int>)
    requires BrokerTables.Valid(b.State()) && AllPending(b, session, now) == before && acked < MAX_ACK_MESSAGES
    modifies b`receipts
    ensures AllPending(b, session, now) == left && left <= before
    ensures b.receipts == old(b.receipts) + Acked(before - left, session)
    ensures last ==> Drain(before, acked, round, faults) == (left, round + 1)
    ensures !last ==> acked < acked' < MAX_ACK_MESSAGES
                      && Drain(before, acked, round, faults) == Drain(left, acked', round + 1, faults)
  {
    left, acked' := before, acked;
    DrainRound(before, acked, round, faults);
    if round in faults.consume {
      assert before - left == {};
      return acked', true, left;
    }
    var fetched;
    fetched, left := FetchAndAck(b, session, now, round in faults.ack, before);
    if fetched == 0 {
      return acked', true, left;
    }
    acked' := acked + fetched;
    last := acked' >= MAX_ACK_MESSAGES;
  }

  /**
    `ackAllExisting` at a fixed clock with no concurrent publish: the acked
    messages are receipts of this session, and what stays pending and the number
    of Consume calls are those of Drain.
    */
  method AckAllExisting(b: Broker, session: string, now: int, faults: CallFaults)
    returns (calls: nat, ghost all: set<int>, ghost left: set<int>)
    requires BrokerTables.Valid(b.State())
    modifies b`receipts
    ensures all == old(AllPending(b, session, now)) && left == AllPending(b, session, now)
    ensures (left, calls) == Drain(all, 0, 0, faults)
    ensures b.receipts == old(b.receipts) + Acked(all - left, session)
  {
    all := AllPending(b, session, now);
    left := all;
    ghost var start := b.receipts;
    var acked: nat := 0;
    calls := 0;
    assert all - left == {};
    while true
      invariant acked < MAX_ACK_MESSAGES && left <= all && AllPending(b, session, now) == left
      invariant b.receipts == start + Acked(all - left, session)
      invariant Drain(left, acked, calls, faults) == Drain(all, 0, 0, faults)
      decreases MAX_ACK_MESSAGES - acked
    {
      ghost var before := left;
      var last;
      acked, last, left := AckRound(b, session, now, calls, acked, faults, before);
      AckedMore(all, before, left, start, session);
      calls := calls + 1;
      if last {
        return;
      }
    }
  }

  lemma AckedMore(all: set<int>, before: set<int>, after: set<int>, start: set<(int, string)>, session: string)
    requires after <= before <= all
    ensures start + Acked(all - before, session) + Acked(before - after, session) == start + Acked(all - after, session)
  {
    assert (all - before) + (before - after) == all - after;
  }

  // ----- What the loop comes to -----

  const NO_FAULT := CallFaults(iset{}, iset{})
  ghost const ACKS_FAIL := CallFaults(iset{}, iset n: nat | true)

  lemma {:induction false} LowestInTwo(s: set<int>, a: nat, b: nat)
    ensures Lowest(s, a + b) == Lowest(s, a) + Lowest(s - Members(Lowest(s, a)), b)
    decreases a
  {
    if a == 0 || s == {} {
      assert s - Members([]) == s;
    } else {
      var m := Least(s);
      var first := Lowest(s - {m}, a - 1);
      LowestInTwo(s - {m}, a - 1, b);
      assert (s - {m}) - Members(first) == s - Members([m] + first) by {
        assert ([m] + first)[0] == m;
        forall x | x in Members(first) ensures x in Members([m] + first) {
          var i :| 0 <= i < |first| && first[i] == x;
          assert ([m] + first)[i + 1] == x;
        }
      }
    }
  }

  /** Taking a batch and then the rest is taking the lowest at once. */
  lemma TakenTogether(pending: set<int>, take: nat)
    requires take >= ACK_BATCH
    ensures var left := pending - Batch(pending);
            pending - Members(Lowest(pending, take)) == left - Members(Lowest(left, take - ACK_BATCH))
  {
    var left := pending - Batch(pending);
    LowestInTwo(pending, ACK_BATCH, take - ACK_BATCH);
    MembersConcat(Lowest(pending, ACK_BATCH), Lowest(left, take - ACK_BATCH));
  }

  /** A short batch, or the one that makes it 1000, takes all that is to be taken. */
  lemma LastBatch(pending: set<int>, acked: nat, round: nat)
    requires acked < MAX_ACK_MESSAGES && acked % ACK_BATCH == 0 && pending != {}
    requires |pending| < ACK_BATCH || acked + ACK_BATCH == MAX_ACK_MESSAGES
    ensures Drain(pending, acked, round, NO_FAULT).0 == pending - Members(Lowest(pending, MAX_ACK_MESSAGES - acked))
  {
    DrainRound(pending, acked, round, NO_FAULT);
    if |pending| < ACK_BATCH {
      var left := pending - Batch(pending);
      TakenTogether(pending, MAX_ACK_MESSAGES - acked);
      assert left == {};
      DrainRound(left, acked + |pending|, round + 1, NO_FAULT);
    }
  }

  lemma DrainFullBatch(pending: set<int>, acked: nat, round: nat)
    requires acked + ACK_BATCH < MAX_ACK_MESSAGES && |pending| >= ACK_BATCH && pending != {}
    ensures Drain(pending, acked, round, NO_FAULT) == Drain(pending - Batch(pending), acked + ACK_BATCH, round + 1, NO_FAULT)
  {
  }

  lemma NextBatch(acked: nat)
    requires acked < MAX_ACK_MESSAGES && acked % ACK_BATCH == 0 && acked + ACK_BATCH != MAX_ACK_MESSAGES
    ensures acked + ACK_BATCH < MAX_ACK_MESSAGES && (acked + ACK_BATCH) % ACK_BATCH == 0
  {
  }

  /** With a working broker: exactly the lowest ids are acked, `MAX_ACK_MESSAGES` at most. */
  lemma {:induction false} DrainWithoutFaults(pending: set<int>, acked: nat, round: nat)
    requires acked < MAX_ACK_MESSAGES && acked % ACK_BATCH == 0
    ensures Drain(pending, acked, round, NO_FAULT).0 == pending - Members(Lowest(pending, MAX_ACK_MESSAGES - acked))
    decreases MAX_ACK_MESSAGES - acked
  {
    if pending != {} {
      if |pending| < ACK_BATCH || acked + ACK_BATCH == MAX_ACK_MESSAGES {
        LastBatch(pending, acked, round);
      } else {
        NextBatch(acked);
        var left, take := pending - Batch(pending), MAX_ACK_MESSAGES - acked;
        DrainFullBatch(pending, acked, round);
        DrainWithoutFaults(left, acked + ACK_BATCH, round + 1);
        TakenTogether(pending, take);
      }
    }
  }

  /** A short batch is the last that is not empty, so ten full batches or eleven calls end the loop. */
  lemma {:induction false} CallsWithoutFaults(pending: set<int>, acked: nat, round: nat)
    requires acked < MAX_ACK_MESSAGES && acked == ACK_BATCH * round
    ensures Drain(pending, acked, round, NO_FAULT).1
            == if |pending| + acked >= MAX_ACK_MESSAGES then 10 else round + (|pending| + ACK_BATCH - 1) / ACK_BATCH + 1
    decreases MAX_ACK_MESSAGES - acked
  {
    if pending != {} {
      DrainRound(pending, acked, round, NO_FAULT);
      var left := pending - Batch(pending);
      if |pending| < ACK_BATCH {
        assert left == {};
      } else if acked + ACK_BATCH < MAX_ACK_MESSAGES {
        CallsWithoutFaults(left, acked + ACK_BATCH, round + 1);
      }
    }
  }

  lemma MembersConcat(a: seq<int>, b: seq<int>)
    ensures Members(a + b) == Members(a) + Members(b)
  {
    forall x | x in Members(a) ensures x in Members(a + b) {
      var i :| 0 <= i < |a| && a[i] == x;
      assert (a + b)[i] == x;
    }
    forall x | x in Members(b) ensures x in Members(a + b) {
      var i :| 0 <= i < |b| && b[i] == x;
      assert (a + b)[|a| + i] == x;
    }
  }

  /**
    With a working broker, a fixed clock and no concurrent publish, the pass acks
    exactly the min(N, 1000) lowest-id pending messages, in at most 11 calls.
    */
  lemma AcksExactlyTheLowestThousand(pending: set<int>)
    ensures var (left, calls) := Drain(pending, 0, 0, NO_FAULT);
            && left == pending - Members(Lowest(pending, MAX_ACK_MESSAGES))
            && |pending - left| == Min(|pending|, MAX_ACK_MESSAGES)
            && calls == (if |pending| >= MAX_ACK_MESSAGES then 10 else (|pending| + ACK_BATCH - 1) / ACK_BATCH + 1)
            && calls <= 11
  {
    DrainWithoutFaults(pending, 0, 0);
    CallsWithoutFaults(pending, 0, 0);
    LowestIsTheLeast(pending, MAX_ACK_MESSAGES);
    MembersSize(Lowest(pending, MAX_ACK_MESSAGES));
    assert pending - (pending - Members(Lowest(pending, MAX_ACK_MESSAGES))) == Members(Lowest(pending, MAX_ACK_MESSAGES));
  }

  /** Whatever fails, the loop ends within 1000 calls. */
  lemma {:induction false} DrainIsBounded(pending: set<int>, acked: nat, round: nat, faults: CallFaults)
    requires acked < MAX_ACK_MESSAGES
    ensures round < Drain(pending, acked, round, faults).1 <= round + (MAX_ACK_MESSAGES - acked)
    ensures Drain(pending, acked, round, faults).0 <= pending
    decreases MAX_ACK_MESSAGES - acked
  {
    if round !in faults.consume && pending != {} {
      BatchSize(pending);
      var left := if round in faults.ack then pending else pending - Batch(pending);
      var acked' := acked + Min(|pending|, ACK_BATCH);
      if acked' < MAX_ACK_MESSAGES { DrainIsBounded(left, acked', round + 1, faults); }
    }
  }

  /** How many batches of size `b` it takes to count up to `need`. */
  function BatchesFor(need: nat, b: nat): nat
    requires b > 0
  {
    if need <= b then 1 else 1 + BatchesFor(need - b, b)
  }

  lemma {:induction false} BatchesAtMost(need: nat, b: nat, k: nat)
    requires b > 0 && k > 0
    ensures BatchesFor(need, b) <= k <==> need <= k * b
  {
    if k > 1 && need > b {
      BatchesAtMost(need - b, b, k - 1);
      assert (k - 1) * b == k * b - b;
    } else if k > 1 {
      assert k * b >= b;
    }
  }

  /** When every AckAll fails the same batch comes back until its size, counted again each time, adds up to 1000. */
  lemma {:induction false} DrainWhenAcksFail(pending: set<int>, acked: nat, round: nat)
    requires acked < MAX_ACK_MESSAGES && pending != {} && |pending| > 0
    ensures Drain(pending, acked, round, ACKS_FAIL)
            == (pending, round + BatchesFor(MAX_ACK_MESSAGES - acked, Min(|pending|, ACK_BATCH)))
    decreases MAX_ACK_MESSAGES - acked
  {
    var b := Min(|pending|, ACK_BATCH);
    if acked + b < MAX_ACK_MESSAGES {
      DrainWhenAcksFail(pending, acked + b, round + 1);
    }
  }

  /** So the bound of 11 calls survives failing acks exactly when nothing, or at least 91 messages, are pending. */
  lemma ElevenCallsExactly(pending: set<int>)
    ensures Drain(pending, 0, 0, ACKS_FAIL).1 <= 11 <==> pending == {} || |pending| >= 91
  {
    BatchSize(pending);
    if pending != {} {
      DrainWhenAcksFail(pending, 0, 0);
      BatchesAtMost(MAX_ACK_MESSAGES, Min(|pending|, ACK_BATCH), 11);
    }
  }

  // ----- Periodic delivery -----

  /** A consumed message is shown when its payload decodes and it names a channel. */
  predicate Shown(m: Message, decodable: iset<string>) {
    m.row.payload in decodable && m.row.channelId != ""
  }

  function ShownOf(msgs: seq<Message>, decodable: iset<string>): seq<Message> {
    if msgs == [] then []
    else
      var rest, m := ShownOf(msgs[..|msgs| - 1], decodable), msgs[|msgs| - 1];
      if Shown(m, decodable) then rest + [m] else rest
  }

  lemma {:induction false} ShownExactly(msgs: seq<Message>, decodable: iset<string>)
    ensures forall m :: m in ShownOf(msgs, decodable) <==> m in msgs && m.row.payload in decodable && m.row.channelId != ""
  {
    if msgs != [] {
      ShownExactly(msgs[..|msgs| - 1], decodable);
      assert msgs == msgs[..|msgs| - 1] + [msgs[|msgs| - 1]];
    }
  }

  lemma {:induction false} ShownInOrder(a: seq<Message>, b: seq<Message>, decodable: iset<string>)
    ensures ShownOf(a + b, decodable) == ShownOf(a, decodable) + ShownOf(b, decodable)
    decreases |b|
  {
    if b == [] {
      assert a + b == a;
    } else {
      assert (a + b)[..|a + b| - 1] == a + b[..|b| - 1];
      ShownInOrder(a, b[..|b| - 1], decodable);
    }
  }

  method ShowAll(msgs: seq<Message>, decodable: iset<string>) returns (shown: seq<Message>)
    ensures shown == ShownOf(msgs, decodable)
  {
    shown := [];
    for i := 0 to |msgs|
      invariant shown == ShownOf(msgs[..i], decodable)
    {
      assert msgs[..i + 1][..i] == msgs[..i];
      if Shown(msgs[i], decodable) {
        shown := shown + [msgs[i]];
      }
    }
    assert msgs[..|msgs|] == msgs;
  }

  /**
    `consumeOnce`: the 50 lowest pending results are shown in id order, except
    those that do not decode or have no channel, and all of them are acked. Only
    a failed ack leaves them to be shown again.
    */
  method ConsumeOnce(b: Broker, session: string, now: int, decodable: iset<string>, ackFails: bool) returns (shown: seq<Message>)
    requires BrokerTables.Valid(b.State())
    modifies b`receipts
    ensures var all := old(AllPending(b, session, now)); var ids := Lowest(all, 50);
            && (forall i | 0 <= i < |ids| :: ids[i] in old(b.messages) && ids[i] >= 0)
            && shown == ShownOf(MessagesOf(old(b.State()), ids), decodable)
            && AllPending(b, session, now) == (if ackFails then all else all - Members(ids))
            && b.messages == old(b.messages)
  {
    var msgs := b.Consume(CRON_RESULT, "", session, 50, now);
    shown := ShowAll(msgs, decodable);
    if |msgs| > 0 {
      AckBatch(b, msgs, session, now, ackFails, 50);
    } else {
      assert Members(Lowest(AllPending(b, session, now), 50)) == {};
    }
  }
}
