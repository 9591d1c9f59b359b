/**
  Message delivery over whole runs of the broker: every statement of every
  process, in any order. A message a session has acked is not handed to it
  again, and one it has not acked is not lost to it, with the exact exceptions.
  */
module Delivery {
  import opened Decimals
  import opened BrokerTables

  datatype Op =
    | Locking(locks: map<string, Lease>)
    | Register(info: SessionInfo, now: int)
    | Unregister(session: string)
    | Heartbeat(session: string, now: int)
    | Publish(row: MessageRow)
    | Consume
    | Ack(ids: seq<int>, session: string)
    | ExpireSessions(now: int)
    | ExpireMessages(now: int)
    | DeleteBatch(gone: set<int>)
    | DropOrphans
    | StartupPurge

  /** One statement, or one transaction, takes the tables from `t` to `u`. */
  ghost predicate Step(t: Tables, op: Op, u: Tables) {
    match op
    case Locking(locks) => u == t.(locks := locks)
    case Register(info, now) => u == AfterRegister(t, info, now)
    case Unregister(session) => u == AfterUnregister(t, session)
    case Heartbeat(session, now) => u == AfterHeartbeat(t, session, now)
    case Publish(row) => u == if t.nextId <= MAX_INT64 then AfterPublish(t, row) else t
    case Consume => u == t
    case Ack(ids, session) => u == AfterAck(t, ids, session)
    case ExpireSessions(now) => u == AfterExpireSessions(t, now)
    case ExpireMessages(now) => u == AfterExpireMessages(t, now)
    case DeleteBatch(gone) => BatchDeleted(t, gone, u)
    case DropOrphans => u == AfterDropOrphans(t)
    case StartupPurge => u == AfterStartupPurge(t)
  }

  ghost predicate Run(ts: seq<Tables>, ops: seq<Op>) {
    |ts| == |ops| + 1 && forall i | 0 <= i < |ops| :: Step(ts[i], ops[i], ts[i + 1])
  }

  // ----- At most once after the ack -----

  /** `id` was issued and `session` cannot be handed it: the row is gone or acked. */
  ghost predicate Settled(t: Tables, id: int, session: string) {
    id < t.nextId && (id in t.messages ==> (id, session) in t.receipts)
  }

  /** The two statements that drop receipts of a session whose messages still exist. */
  predicate Forgets(t: Tables, op: Op, session: string) {
    op == Unregister(session) || (op.StartupPurge? && session !in t.sessions)
  }

  lemma SettledOneStep(t: Tables, op: Op, u: Tables, id: int, session: string)
    requires Step(t, op, u) && Settled(t, id, session) && !Forgets(t, op, session)
    ensures Settled(u, id, session)
  {
  }

  /**
    After `session` acks a message that was published, no later Consume for that
    session returns it, through any publishes, consumes, acks, registrations and
    statements of cleanup passes, complete or not and interleaved in any way.
    The row id is never issued again.
    */
  lemma {:induction false} AckedIsNeverRedelivered(ts: seq<Tables>, ops: seq<Op>, i: nat, j: nat, id: int, session: string,
                                                  topic: string, channelId: string, now: int)
    requires Run(ts, ops) && i < j <= |ops|
    requires ops[i].Ack? && ops[i].session == session && id in ops[i].ids && id < ts[i].nextId
    requires forall k | i < k < j :: !Forgets(ts[k], ops[k], session)
    ensures Settled(ts[j], id, session)
    ensures id !in Pending(ts[j], topic, channelId, session, now)
    decreases j
  {
    if j == i + 1 {
      assert Step(ts[i], ops[i], ts[i + 1]);
      var k :| 0 <= k < |ops[i].ids| && ops[i].ids[k] == id;
      assert (ops[i].ids[k], session) in Receipts(ops[i].ids, session);
    } else {
      AckedIsNeverRedelivered(ts, ops, i, j - 1, id, session, topic, channelId, now);
      assert Step(ts[j - 1], ops[j - 1], ts[j]);
      SettledOneStep(ts[j - 1], ops[j - 1], ts[j], id, session);
    }
  }

  /**
    The exceptions are exact: a step makes an acked, still stored message
    available to the session again if and only if it forgets the session's
    receipts. The cron scheduler never registers its consuming session, so the
    start of any other process is such a step for it.
    */
  lemma RedeliveredExactlyWhenForgotten(t: Tables, op: Op, u: Tables, id: int, session: string)
    requires Valid(t) && Step(t, op, u)
    requires id in t.messages && (id, session) in t.receipts
    ensures id in u.messages && (id, session) !in u.receipts <==> Forgets(t, op, session)
  {
    if !Forgets(t, op, session) {
      SettledOneStep(t, op, u, id, session);
    } else {
      assert id in u.messages;
    }
  }

  // ----- Nothing is lost before the ack -----

  /** `id` is stored as `row`, for the channel of the registered `session`, and not acked by it. */
  ghost predicate Owed(t: Tables, id: int, row: MessageRow, session: string) {
    && id in t.messages && t.messages[id] == row && id < t.nextId
    && session in t.sessions && t.sessions[session].channelId == row.channelId
    && (id, session) !in t.receipts
  }

  /** What can end the debt: the session's own ack, its leaving the channel, or age. */
  predicate Discharges(t: Tables, op: Op, id: int, row: MessageRow, session: string) {
    match op
    case Ack(ids, who) => who == session && id in ids
    case Unregister(who) => who == session
    case Register(info, now) => info.id == session && info.channelId != row.channelId
    case ExpireMessages(now) => row.createdAt < now - MESSAGE_TTL
    case ExpireSessions(now) => session in t.sessions && t.sessions[session].lastHeartbeat < now - SESSION_TTL
    case _ => false
  }

  /** And each of these does end it, whatever the step is. */
  lemma OwedUntilDischarged(t: Tables, op: Op, u: Tables, id: int, row: MessageRow, session: string)
    requires Valid(t) && Step(t, op, u) && id in t.messages && t.messages[id] == row
    requires session in t.sessions && t.sessions[session].channelId == row.channelId && (id, session) !in t.receipts
    ensures Discharges(t, op, id, row, session)
            <==> !(id in u.messages && session in u.sessions && u.sessions[session].channelId == row.channelId
                   && (id, session) !in u.receipts)
  {
    if Discharges(t, op, id, row, session) {
      if op.Ack? {
        var i :| 0 <= i < |op.ids| && op.ids[i] == id;
        assert (op.ids[i], session) in Receipts(op.ids, session);
      }
    } else {
      OwedOneStep(t, op, u, id, row, session);
    }
  }

  lemma OwedOneStep(t: Tables, op: Op, u: Tables, id: int, row: MessageRow, session: string)
    requires Step(t, op, u) && Owed(t, id, row, session)
    requires !Discharges(t, op, id, row, session)
    ensures Owed(u, id, row, session)
  {
    match op {
      case Ack(ids, who) => assert (id, session) !in Receipts(ids, who);
      case DeleteBatch(gone) => assert id !in CollectibleOf(t);
      case _ =>
    }
  }

  ghost predicate Undischarged(ts: seq<Tables>, ops: seq<Op>, i: nat, j: nat, id: int, row: MessageRow, session: string)
    requires j <= |ops| < |ts|
  {
    forall k | i <= k < j :: !Discharges(ts[k], ops[k], id, row, session)
  }

  lemma {:induction false} OwedStays(ts: seq<Tables>, ops: seq<Op>, i: nat, j: nat, id: int, row: MessageRow, session: string)
    requires Run(ts, ops) && i <= j <= |ops|
    requires Owed(ts[i], id, row, session) && Undischarged(ts, ops, i, j, id, row, session)
    ensures Owed(ts[j], id, row, session)
    decreases j
  {
    if i < j {
      OwedStays(ts, ops, i, j - 1, id, row, session);
      OwedNext(ts, ops, i, j, id, row, session);
    }
  }

  lemma OwedNext(ts: seq<Tables>, ops: seq<Op>, i: nat, j: nat, id: int, row: MessageRow, session: string)
    requires Run(ts, ops) && i < j <= |ops|
    requires Owed(ts[j - 1], id, row, session) && Undischarged(ts, ops, i, j, id, row, session)
    ensures Owed(ts[j], id, row, session)
  {
    assert Step(ts[j - 1], ops[j - 1], ts[j]);
    OwedOneStep(ts[j - 1], ops[j - 1], ts[j], id, row, session);
  }

  lemma OwedIsPending(t: Tables, id: int, row: MessageRow, session: string, now: int)
    requires Owed(t, id, row, session) && row.createdAt > now - MESSAGE_TTL
    ensures id in Pending(t, row.topic, row.channelId, session, now)
  {
  }

  /**
    A message for a registered session's channel stays available to it until the
    session acks it, leaves, stops heartbeating past the TTL, or the message
    itself expires; other sessions' acks never take it away, and no statement that
    comes between those of a cleanup pass makes the pass take it.
    */
  lemma UnackedIsNeverLost(ts: seq<Tables>, ops: seq<Op>, i: nat, j: nat, id: int, row: MessageRow, session: string, now: int)
    requires Run(ts, ops) && i <= j <= |ops| && id < ts[i].nextId
    requires id in ts[i].messages && ts[i].messages[id] == row && (id, session) !in ts[i].receipts
    requires session in ts[i].sessions && ts[i].sessions[session].channelId == row.channelId
    requires row.createdAt > now - MESSAGE_TTL && Undischarged(ts, ops, i, j, id, row, session)
    ensures id in Pending(ts[j], row.topic, row.channelId, session, now)
    ensures id in ts[j].messages && ts[j].messages[id] == row && (id, session) !in ts[j].receipts
  {
    OwedStays(ts, ops, i, j, id, row, session);
    OwedIsPending(ts[j], id, row, session, now);
  }

  // ----- What deletes a message -----

  /** Expiry by age, or a batch while every registered session of the channel has acked the message. */
  predicate Deletes(t: Tables, op: Op, id: int) {
    id in t.messages &&
    match op
    case ExpireMessages(now) => t.messages[id].createdAt < now - MESSAGE_TTL
    case DeleteBatch(gone) => id in gone && Delivered(id, t.messages[id].channelId, t.sessions, t.receipts)
    case _ => false
  }

  lemma DeletedExactly(t: Tables, op: Op, u: Tables, id: int)
    requires Valid(t) && Step(t, op, u) && id in t.messages
    ensures id !in u.messages <==> Deletes(t, op, id)
    ensures id in u.messages ==> u.messages[id] == t.messages[id]
  {
    if op.DeleteBatch? && id in op.gone {
      assert id in CollectibleOf(t);
    }
  }

  lemma {:induction false} RunKeepsValid(ts: seq<Tables>, ops: seq<Op>, n: nat)
    requires Run(ts, ops) && n <= |ops| && Valid(ts[0])
    ensures Valid(ts[n])
  {
    if n > 0 {
      RunKeepsValid(ts, ops, n - 1);
      assert Step(ts[n - 1], ops[n - 1], ts[n]);
    }
  }

  /**
    In every run, a message that is gone was deleted at some step that found it
    too old, or acked by every session registered for its channel at that step.
    */
  lemma {:induction false} GoneMeansDeliveredOrExpired(ts: seq<Tables>, ops: seq<Op>, i: nat, j: nat, id: int) returns (k: nat)
    requires Run(ts, ops) && i <= j <= |ops| && Valid(ts[0])
    requires id in ts[i].messages && id !in ts[j].messages
    ensures i <= k < j && Deletes(ts[k], ops[k], id) && ts[k].messages[id] == ts[i].messages[id]
  {
    k := i;
    while id in ts[k + 1].messages
      invariant i <= k < j && id in ts[k].messages && ts[k].messages[id] == ts[i].messages[id]
      decreases j - k
    {
      RunKeepsValid(ts, ops, k);
      assert Step(ts[k], ops[k], ts[k + 1]);
      DeletedExactly(ts[k], ops[k], ts[k + 1], id);
      k := k + 1;
    }
    RunKeepsValid(ts, ops, k);
    assert Step(ts[k], ops[k], ts[k + 1]);
    DeletedExactly(ts[k], ops[k], ts[k + 1], id);
  }

  /**
    After a batch that is not full, whatever came before and between, every stored
    message is one that some registered session of its channel has not acked.
    */
  lemma ShortBatchLeavesTheUndelivered(ts: seq<Tables>, ops: seq<Op>, k: nat, id: int)
    requires Run(ts, ops) && k < |ops| && ops[k].DeleteBatch? && |ops[k].gone| < CLEANUP_BATCH
    requires id in ts[k + 1].messages
    ensures exists s :: s in ts[k + 1].sessions
                     && ts[k + 1].sessions[s].channelId == ts[k + 1].messages[id].channelId
                     && (id, s) !in ts[k + 1].receipts
  {
    assert Step(ts[k], ops[k], ts[k + 1]);
    ShortBatchDrains(ts[k], ops[k].gone, ts[k + 1]);
    assert id !in CollectibleOf(ts[k + 1]);
  }

  /** A session that never registered has no such guarantee: one pass may delete what it has not seen. */
  lemma UnregisteredConsumerLosesMessages(t: Tables, now: int, u: Tables, id: int)
    requires Cleaned(t, now, NO_FAULTS, u)
    requires id in t.messages && forall s | s in t.sessions :: t.sessions[s].channelId != t.messages[id].channelId
    requires |Collectible(u.sessions, Unexpired(t.messages, now), t.receipts)| <= CLEANUP_BATCH * CLEANUP_ROUNDS
    ensures id !in u.messages
  {
    CleanupKeepsExactlyTheUndelivered(t, now, u, id);
  }
}
