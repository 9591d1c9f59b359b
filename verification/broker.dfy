/** The broker's methods over the tables they change. */
module SqliteBroker {
  import opened Prelude
  import opened Decimals
  import opened BrokerTables

  /** A message as `Consume` hands it out: its row id printed in decimal. */
  datatype Message = Message(id: string, row: MessageRow)

  /** What selecting from the pending rows means for the rows. */
  lemma ConsumedAreThePending(t: Tables, topic: string, channelId: string, session: string, now: int, bound: nat, out: seq<Message>)
    requires BrokerTables.Valid(t)
    requires var ids := Lowest(Pending(t, topic, channelId, session, now), bound);
             (forall i | 0 <= i < |ids| :: ids[i] in t.messages && ids[i] >= 0) && out == MessagesOf(t, ids)
    ensures |out| <= bound
    ensures forall i | 0 <= i < |out| :: exists id: nat ::
              id in t.messages && out[i] == Message(Decimal(id), t.messages[id]) && (id, session) !in t.receipts
    ensures forall m | m in out ::
              && m.row.topic == topic && (channelId == "" || m.row.channelId == channelId)
              && m.row.createdAt > now - MESSAGE_TTL
    ensures forall id | id in t.messages && t.messages[id].topic == topic && (channelId == "" || t.messages[id].channelId == channelId)
              && t.messages[id].createdAt > now - MESSAGE_TTL && (id, session) !in t.receipts ::
              || (id > 0 && Message(Decimal(id), t.messages[id]) in out)
              || (|out| == bound && forall m | m in out :: Precedes(m.id, id))
  {
    var s := Pending(t, topic, channelId, session, now);
    var ids := Lowest(s, bound);
    LowestIsTheLeast(s, bound);
    forall i | 0 <= i < |out|
      ensures exists id: nat :: id in t.messages && out[i] == Message(Decimal(id), t.messages[id]) && (id, session) !in t.receipts
    {
      assert ids[i] in s;
    }
    forall id | id in s
      ensures || (id > 0 && Message(Decimal(id), t.messages[id]) in out)
              || (|out| == bound && forall m | m in out :: Precedes(m.id, id))
    {
      if id in ids {
        var i :| 0 <= i < |ids| && ids[i] == id;
        assert out[i] == Message(Decimal(id), t.messages[id]);
      } else {
        LowestTakesAll(s, bound, id);
        forall i | 0 <= i < |out| ensures Precedes(out[i].id, id) {
          ParsePrinted(ids[i]);
        }
      }
    }
  }

  /** Only the limit leaves a member out. */
  lemma LowestTakesAll(s: set<int>, limit: nat, x: int)
    requires x in s && x !in Lowest(s, limit)
    ensures |Lowest(s, limit)| == limit
  {
    LowestIsTheLeast(s, limit);
    var taken := set i | i in Lowest(s, limit);
    if |Lowest(s, limit)| < limit {
      MembersCount(Lowest(s, limit));
      SubsetOfSameSize(taken, s);
    }
  }

  lemma {:induction false} MembersCount(ids: seq<int>)
    requires Ascending(ids)
    ensures |set i | i in ids| == |ids|
  {
    if ids != [] {
      var n := |ids| - 1;
      MembersCount(ids[..n]);
      assert ids[n] !in ids[..n];
      assert (set i | i in ids) == (set i | i in ids[..n]) + {ids[n]};
    }
  }

  ghost function MessagesOf(t: Tables, ids: seq<int>): seq<Message>
    requires forall i | 0 <= i < |ids| :: ids[i] in t.messages && ids[i] >= 0
  {
    seq(|ids|, i requires 0 <= i < |ids| => Message(Decimal(ids[i]), t.messages[ids[i]]))
  }

  /** The printed row id is lower. */
  predicate Precedes(printed: string, id: int) {
    ParseInt64(printed).Some? && ParseInt64(printed).value < id
  }

  method LeastId(s: set<int>) returns (m: int)
    requires s != {}
    ensures m == Least(s)
  {
    SomeMember(s);
    m :| m in s;
    var rest := s - {m};
    while rest != {}
      invariant m in s && rest <= s
      invariant forall x | x in s :: x in rest || m <= x
      decreases |rest|
    {
      SomeMember(rest);
      var x :| x in rest;
      if x < m { m := x; }
      rest := rest - {x};
    }
  }

  /** `count` members of `s`, whichever the query plan yields first. */
  method PickRows(s: set<int>, count: nat) returns (picked: set<int>)
    requires count <= |s|
    ensures picked <= s && |picked| == count
  {
    picked := {};
    var rest := s;
    while |picked| < count
      invariant picked <= s && rest == s - picked
      invariant |picked| <= count && |picked| + |rest| == |s|
    {
      SomeMember(rest);
      var x :| x in rest;
      picked, rest := picked + {x}, rest - {x};
    }
  }

  /** ORDER BY id ASC LIMIT limit. */
  method OrderAndLimit(s: set<int>, limit: nat) returns (ids: seq<int>)
    ensures ids == Lowest(s, limit)
  {
    var rest := s;
    ids := [];
    ghost var left := limit;
    while rest != {} && |ids| < limit
      invariant left == limit - |ids| >= 0 && ids + Lowest(rest, left) == Lowest(s, limit)
      decreases |rest|
    {
      var id := LeastId(rest);
      assert ids + ([id] + Lowest(rest - {id}, left - 1)) == (ids + [id]) + Lowest(rest - {id}, left - 1);
      ids, rest, left := ids + [id], rest - {id}, left - 1;
    }
    assert ids + [] == ids;
  }

  /** How the deletion rounds of a cleanup pass end. */
  datatype RoundsEnd = Drained | Cancelled | Failed

  class Broker {
    var locks: map<string, Lease>
    var sessions: map<string, SessionRow>
    var messages: map<int, MessageRow>
    var nextId: int
    var receipts: set<(int, string)>

    ghost function State(): Tables
      reads this
    {
      Tables(locks, sessions, messages, nextId, receipts)
    }

    constructor ()
      ensures BrokerTables.Valid(State())
      ensures State() == Tables(map[], map[], map[], 1, {})
    {
      locks, sessions, messages, nextId, receipts := map[], map[], map[], 1, {};
    }

    // ----- Lease -----

    method TryAcquire(name: string, holder: string, ttl: nat, now: int) returns (acquired: bool)
      modifies this`locks
      ensures acquired <==> name !in old(locks) || old(locks)[name].expiresAt < now
      ensures acquired <==> CanAcquire(Row(old(locks), name), now)
      ensures locks == if acquired then old(locks)[name := Lease(holder, now, now + ttl)] else old(locks)
    {
      if name in locks && !(locks[name].expiresAt < now) {
        return false;
      }
      locks := locks[name := Lease(holder, now, now + ttl)];
      acquired := locks[name].holder == holder;
    }

    method Renew(name: string, holder: string, ttl: nat, now: int) returns (renewed: bool)
      modifies this`locks
      ensures renewed <==> name in old(locks) && old(locks)[name].holder == holder && now < old(locks)[name].expiresAt
      ensures renewed <==> CanRenew(Row(old(locks), name), holder, now)
      ensures locks == if renewed then old(locks)[name := old(locks)[name].(expiresAt := now + ttl)] else old(locks)
    {
      renewed := name in locks && locks[name].holder == holder && locks[name].expiresAt > now;
      if renewed {
        locks := locks[name := locks[name].(expiresAt := now + ttl)];
      }
    }

    method Release(name: string, holder: string)
      modifies this`locks
      ensures locks == if name in old(locks) && old(locks)[name].holder == holder then old(locks) - {name} else old(locks)
    {
      if name in locks && locks[name].holder == holder {
        locks := locks - {name};
      }
    }

    // ----- Sessions -----

    method Register(info: SessionInfo, now: int)
      modifies this`sessions
      ensures State() == AfterRegister(old(State()), info, now)
      ensures info.id in sessions && sessions - {info.id} == old(sessions) - {info.id}
      ensures var row := sessions[info.id];
              && row.channelId == info.channelId && row.pid == info.pid && row.lastHeartbeat == now
              && row.startedAt == if info.id in old(sessions) then old(sessions)[info.id].startedAt else info.startedAt
    {
      if info.id in sessions {
        sessions := sessions[info.id := sessions[info.id].(channelId := info.channelId, pid := info.pid, lastHeartbeat := now)];
      } else {
        sessions := sessions[info.id := SessionRow(info.channelId, info.pid, info.startedAt, now)];
      }
    }

    method Unregister(session: string)
      modifies this`sessions, this`receipts
      ensures State() == AfterUnregister(old(State()), session)
      ensures session !in sessions && sessions == old(sessions) - {session}
      ensures forall r :: r in receipts <==> r in old(receipts) && r.1 != session
    {
      receipts := set r | r in receipts && r.1 != session;
      sessions := sessions - {session};
    }

    method Heartbeat(session: string, now: int) returns (found: bool)
      modifies this`sessions
      ensures found <==> session in old(sessions)
      ensures State() == AfterHeartbeat(old(State()), session, now)
      ensures found ==> session in sessions && sessions[session] == old(sessions)[session].(lastHeartbeat := now)
      ensures sessions - {session} == old(sessions) - {session}
    {
      found := session in sessions;
      if found {
        sessions := sessions[session := sessions[session].(lastHeartbeat := now)];
      }
    }

    method CleanStaleReceipts()
      modifies this`receipts
      ensures State() == AfterStartupPurge(old(State()))
      ensures forall r :: r in receipts <==> r in old(receipts) && r.1 in sessions
    {
      receipts := set r | r in receipts && r.1 in sessions;
    }

    // ----- Messages -----

    /** Fails, as AUTOINCREMENT does, when the row ids are used up. A missing creation time means now. */
    method Publish(topic: string, channelId: string, payload: string, createdAt: Option<int>, now: int) returns (ok: bool)
      requires BrokerTables.Valid(State())
      modifies this`messages, this`nextId
      ensures BrokerTables.Valid(State())
      ensures ok <==> old(nextId) <= MAX_INT64
      ensures State() == if ok
        then AfterPublish(old(State()), MessageRow(topic, channelId, payload, if createdAt.Some? then createdAt.value else now))
        else old(State())
      ensures ok ==> nextId == old(nextId) + 1 && messages - {old(nextId)} == old(messages)
      ensures ok ==> old(nextId) in messages
                     && messages[old(nextId)] == MessageRow(topic, channelId, payload, if createdAt.Some? then createdAt.value else now)
    {
      if nextId > MAX_INT64 {
        return false;
      }
      var created := match createdAt case Some(t) => t case None => now;
      messages := messages[nextId := MessageRow(topic, channelId, payload, created)];
      nextId := nextId + 1;
      ok := true;
    }

    /** The lowest-id unexpired messages of the topic (and channel) that `session` has no receipt for. */
    method Consume(topic: string, channelId: string, session: string, limit: int, now: int) returns (out: seq<Message>)
      requires BrokerTables.Valid(State())
      ensures var ids := Lowest(Pending(State(), topic, channelId, session, now), if limit <= 0 then 50 else limit);
              && (forall i | 0 <= i < |ids| :: ids[i] in messages && ids[i] >= 0)
              && out == MessagesOf(State(), ids)
      ensures |out| <= if limit <= 0 then 50 else limit
      ensures forall i | 0 <= i < |out| :: exists id: nat ::
                id in messages && out[i] == Message(Decimal(id), messages[id]) && (id, session) !in receipts
      ensures forall m | m in out ::
                && m.row.topic == topic && (channelId == "" || m.row.channelId == channelId)
                && m.row.createdAt > now - MESSAGE_TTL
      ensures forall id | id in messages && messages[id].topic == topic && (channelId == "" || messages[id].channelId == channelId)
                && messages[id].createdAt > now - MESSAGE_TTL && (id, session) !in receipts ::
                || (id > 0 && Message(Decimal(id), messages[id]) in out)
                || (|out| == (if limit <= 0 then 50 else limit) && forall m | m in out :: Precedes(m.id, id))
    {
      var bound: nat := if limit <= 0 then 50 else limit;
      var selected := set id | id in messages
        && messages[id].topic == topic
        && (channelId != "" ==> messages[id].channelId == channelId)
        && messages[id].createdAt > now - MESSAGE_TTL
        && (id, session) !in receipts;
      assert selected == Pending(State(), topic, channelId, session, now);
      var ids := OrderAndLimit(selected, bound);
      LowestIsTheLeast(selected, bound);
      out := Scanned(ids);
      ConsumedAreThePending(State(), topic, channelId, session, now, bound, out);
    }

    /** The rows with these ids as messages. */
    method Scanned(ids: seq<int>) returns (out: seq<Message>)
      requires forall i | 0 <= i < |ids| :: ids[i] in messages && ids[i] >= 0
      ensures out == MessagesOf(State(), ids)
    {
      out := [];
      for i := 0 to |ids|
        invariant |out| == i
        invariant forall k | 0 <= k < i :: out[k] == Message(Decimal(ids[k]), messages[ids[k]])
      {
        out := out + [Message(Decimal(ids[i]), messages[ids[i]])];
      }
    }

    method Ack(msgId: string, session: string) returns (ok: bool)
      modifies this`receipts
      ensures ok <==> ParseInt64(msgId).Some?
      ensures State() == if ok then AfterAck(old(State()), [ParseInt64(msgId).value], session) else old(State())
      ensures receipts == old(receipts) + if ok then {(ParseInt64(msgId).value, session)} else {}
    {
      match ParseInt64(msgId) {
        case None => ok := false;
        case Some(id) =>
          receipts := receipts + {(id, session)};
          ok := true;
          assert Receipts([id], session) == {(id, session)} by {
            assert [id][0] == id;
          }
      }
    }

    /** One transaction: an id that does not parse rolls every insert back. */
    method AckAll(msgIds: seq<string>, session: string) returns (ok: bool)
      modifies this`receipts
      ensures ok <==> ParseAll(msgIds).Some?
      ensures State() == if ok then AfterAck(old(State()), ParseAll(msgIds).value, session) else old(State())
      ensures ok <==> forall i | 0 <= i < |msgIds| :: ParseInt64(msgIds[i]).Some?
      ensures ok ==> forall r :: r in receipts <==>
                r in old(receipts) || (r.1 == session && exists i :: 0 <= i < |msgIds| && ParseInt64(msgIds[i]) == Some(r.0))
    {
      ParsedEach(msgIds);
      var pending := receipts;
      for i := 0 to |msgIds|
        invariant receipts == old(receipts) && ParseAll(msgIds[..i]).Some?
        invariant pending == receipts + Receipts(ParseAll(msgIds[..i]).value, session)
      {
        var front := msgIds[..i + 1];
        assert front[..i] == msgIds[..i];
        match ParseInt64(msgIds[i]) {
          case None =>
            ParseAllPrefix(msgIds, i + 1);
            return false;
          case Some(id) =>
            var ids := ParseAll(msgIds[..i]).value;
            ReceiptsSnoc(ids, id, session);
            pending := pending + {(id, session)};
        }
      }
      assert msgIds[..|msgIds|] == msgIds;
      receipts := pending;
      ok := true;
      ParsedReceipts(msgIds, session);
    }

    // ----- Cleanup -----

    method ExpireSessions(now: int)
      modifies this`sessions
      ensures State() == AfterExpireSessions(old(State()), now)
      ensures forall s :: s in sessions <==> s in old(sessions) && now - old(sessions)[s].lastHeartbeat <= SESSION_TTL
      ensures forall s | s in sessions :: sessions[s] == old(sessions)[s]
    {
      sessions := LiveSessions(sessions, now);
    }

    method ExpireMessages(now: int)
      modifies this`messages
      ensures State() == AfterExpireMessages(old(State()), now)
      ensures forall id :: id in messages <==> id in old(messages) && now - old(messages)[id].createdAt <= MESSAGE_TTL
      ensures forall id | id in messages :: messages[id] == old(messages)[id]
    {
      messages := Unexpired(messages, now);
    }

    method DeleteBatch() returns (batch: set<int>)
      modifies this`messages
      ensures BatchDeleted(old(State()), batch, State())
      ensures messages == old(messages) - batch && batch <= old(messages).Keys && |batch| <= CLEANUP_BATCH
      ensures forall id | id in batch :: forall s | s in sessions && sessions[s].channelId == old(messages)[id].channelId :: (id, s) in receipts
      ensures |batch| < CLEANUP_BATCH ==> forall id | id in messages ::
                exists s :: s in sessions && sessions[s].channelId == messages[id].channelId && (id, s) !in receipts
    {
      var deletable := Collectible(sessions, messages, receipts);
      batch := PickRows(deletable, Min(|deletable|, CLEANUP_BATCH));
      ShortBatchDrains(State(), batch, State().(messages := messages - batch));
      messages := messages - batch;
      assert |batch| < CLEANUP_BATCH ==> forall id | id in messages :: id !in CollectibleOf(State());
    }

    method DropOrphans()
      modifies this`receipts
      ensures State() == AfterDropOrphans(old(State()))
      ensures forall r :: r in receipts <==> r in old(receipts) && r.0 in messages
    {
      receipts := set r | r in receipts && r.0 in messages;
    }

    /** A batch after others have removed `gone` of the rows collectible at the start. */
    method DeleteRound(ghost first: Tables, ghost gone: set<int>, ghost trace: seq<Tables>, ghost now: int, ghost i: nat)
      returns (short: bool, ghost more: set<int>, ghost longer: seq<Tables>)
      requires SoFar(first, gone, trace, now, State()) && |gone| == CLEANUP_BATCH * i && |trace| == i + 1
      modifies this`messages
      ensures SoFar(first, more, longer, now, State()) && |longer| == i + 2
      ensures if short then CLEANUP_BATCH * i <= |more| == |CollectibleOf(first)| < CLEANUP_BATCH * (i + 1)
              else |more| == CLEANUP_BATCH * (i + 1)
    {
      CollectibleAfterDelete(first.sessions, first.messages, first.receipts, gone);
      ghost var from := State();
      var batch := DeleteBatch();
      more := BatchGone(first.messages, CollectibleOf(first), gone, batch);
      longer := TracedBatch(trace, first, now, from, batch, State());
      short := |batch| < CLEANUP_BATCH;
    }

    /** The deletion rounds: each removes up to CLEANUP_BATCH collectible rows, and a short batch is the last. */
    method DeleteDelivered(cancelAt: nat, batchAt: nat, applied: bool, ghost now: int) returns (end: RoundsEnd, ghost trace: seq<Tables>)
      modifies this`messages
      ensures RoundsEnded(old(State()), State(), cancelAt, batchAt, applied, end)
      ensures Traces(trace, old(State()), now, State()) && |trace| <= CLEANUP_ROUNDS + 1
    {
      ghost var first, gone := State(), {};
      trace := [State()];
      assert messages - gone == messages;
      for i := 0 to CLEANUP_ROUNDS
        invariant i <= cancelAt && i <= batchAt
        invariant SoFar(first, gone, trace, now, State()) && |gone| == CLEANUP_BATCH * i && |trace| == i + 1
      {
        if i == cancelAt || (i == batchAt && !applied) {
          end := if i == cancelAt then Cancelled else Failed;
          EndOfRounds(first, gone, cancelAt, batchAt, applied, i, end);
          return;
        }
        var short;
        short, gone, trace := DeleteRound(first, gone, trace, now, i);
        if i == batchAt || short {
          end := if i == batchAt then Failed else Drained;
          EndOfRounds(first, gone, cancelAt, batchAt, applied, i + 1, end);
          return;
        }
      }
      EndOfRounds(first, gone, cancelAt, batchAt, applied, CLEANUP_ROUNDS, Drained);
      end := Drained;
    }

    /**
      A pass nothing comes between, with its failing statements as input. `trace`
      shows it as at most 103 statements that commit one by one, which is how
      Delivery interleaves them with those of other processes.
      */
    method Cleanup(now: int, faults: Faults) returns (ok: bool, ghost trace: seq<Tables>)
      requires BrokerTables.Valid(State())
      modifies this`sessions, this`messages, this`receipts
      ensures BrokerTables.Valid(State())
      ensures Cleaned(old(State()), now, faults, State())
      ensures ok <==> Succeeds(old(State()), now, faults)
      ensures Traces(trace, old(State()), now, State()) && |trace| <= CLEANUP_ROUNDS + 4
    {
      ghost var first := State();
      trace := Expire(now, faults.sessions, faults.expiry);
      ghost var from := State();
      var end;
      ghost var rounds;
      end, rounds := DeleteDelivered(faults.cancelAt, faults.batchAt, faults.applied, now);
      trace := TracedMore(trace, rounds, first, now, from, State());
      ghost var deleted := State();
      if end != Cancelled && !faults.receipts {
        DropOrphans();
        trace := TracedMore(trace, [deleted, State()], first, now, deleted, State());
      }
      ok := !faults.sessions && !faults.expiry && !faults.receipts && end == Drained;
      PassIsCleaned(first, from, deleted, State(), now, faults, end);
    }

    /** The first two statements of a pass. */
    method Expire(now: int, sessionsFail: bool, expiryFails: bool) returns (ghost trace: seq<Tables>)
      modifies this`sessions, this`messages
      ensures sessions == if sessionsFail then old(sessions) else LiveSessions(old(sessions), now)
      ensures messages == if expiryFails then old(messages) else Unexpired(old(messages), now)
      ensures Traces(trace, old(State()), now, State()) && |trace| <= 3
    {
      trace := [State()];
      if !sessionsFail {
        ExpireSessions(now);
        trace := trace + [State()];
      }
      if !expiryFails {
        ExpireMessages(now);
        trace := trace + [State()];
      }
    }
  }

  /** How far the rounds came, and why they ended, by where they were to be cancelled or to fail. */
  ghost predicate RoundsEnded(t: Tables, u: Tables, cancelAt: nat, batchAt: nat, applied: bool, end: RoundsEnd) {
    var e, f := CollectibleOf(t), Faults(false, false, cancelAt, batchAt, applied, false);
    && u == t.(messages := u.messages) && Trimmed(t.messages, u.messages, e, Rounds(f))
    && end == if BrokerTables.Cancelled(f, |e|) then Cancelled else if BatchFailed(f, |e|) then Failed else Drained
  }

  /** The rounds so far have taken `gone` away, statement by statement. */
  ghost predicate SoFar(first: Tables, gone: set<int>, trace: seq<Tables>, now: int, t: Tables) {
    gone <= CollectibleOf(first) && t == first.(messages := first.messages - gone) && Traces(trace, first, now, t)
  }

  /** `i` rounds have taken effect; only the last of them may have been short, or have failed. */
  lemma EndOfRounds(t: Tables, gone: set<int>, cancelAt: nat, batchAt: nat, applied: bool, i: nat, end: RoundsEnd)
    requires gone <= CollectibleOf(t) && i <= CLEANUP_ROUNDS
    requires |gone| == CLEANUP_BATCH * i || (i > 0 && CLEANUP_BATCH * (i - 1) <= |gone| == |CollectibleOf(t)| < CLEANUP_BATCH * i)
    requires match end
             case Cancelled => i == cancelAt <= batchAt && i < CLEANUP_ROUNDS && |gone| == CLEANUP_BATCH * i
             case Failed =>
               batchAt < CLEANUP_ROUNDS && batchAt < cancelAt
               && if applied then i == batchAt + 1 else i == batchAt && |gone| == CLEANUP_BATCH * i
             case Drained => i <= cancelAt && i <= batchAt && (i == CLEANUP_ROUNDS || |gone| < CLEANUP_BATCH * i)
    ensures RoundsEnded(t, t.(messages := t.messages - gone), cancelAt, batchAt, applied, end)
  {
    SubsetSize(gone, CollectibleOf(t));
    TrimmedBy(t.messages, gone, CollectibleOf(t), Rounds(Faults(false, false, cancelAt, batchAt, applied, false)));
  }

  /** Nothing of the pass fails, and no failing round is reached. */
  ghost predicate Succeeds(t: Tables, now: int, f: Faults) {
    var kept := if f.expiry then t.messages else Unexpired(t.messages, now);
    var e := Collectible(if f.sessions then t.sessions else LiveSessions(t.sessions, now), kept, t.receipts);
    !f.sessions && !f.expiry && !f.receipts && !BrokerTables.Cancelled(f, |e|) && !BatchFailed(f, |e|)
  }

  lemma PassIsCleaned(t: Tables, expired: Tables, deleted: Tables, u: Tables, now: int, f: Faults, end: RoundsEnd)
    requires BrokerTables.Valid(t)
    requires expired == t.(sessions := if f.sessions then t.sessions else LiveSessions(t.sessions, now),
                           messages := if f.expiry then t.messages else Unexpired(t.messages, now))
    requires RoundsEnded(expired, deleted, f.cancelAt, f.batchAt, f.applied, end)
    requires u == if end != Cancelled && !f.receipts then AfterDropOrphans(deleted) else deleted
    ensures BrokerTables.Valid(u) && Cleaned(t, now, f, u)
    ensures Succeeds(t, now, f) <==> !f.sessions && !f.expiry && !f.receipts && end == Drained
  {
    assert forall id | id in u.messages :: id in expired.messages && id in t.messages;
  }

  /** The states a pass goes through, statement by statement. */
  ghost predicate Traces(trace: seq<Tables>, from: Tables, now: int, end: Tables) {
    && trace != [] && trace[0] == from && trace[|trace| - 1] == end
    && forall i | 0 <= i < |trace| - 1 :: CleanupStatement(trace[i], now, trace[i + 1])
  }

  lemma TracedMore(trace: seq<Tables>, more: seq<Tables>, first: Tables, now: int, from: Tables, end: Tables) returns (whole: seq<Tables>)
    requires Traces(trace, first, now, from) && Traces(more, from, now, end)
    ensures Traces(whole, first, now, end) && |whole| == |trace| + |more| - 1
  {
    whole := trace + more[1..];
    forall i | 0 <= i < |whole| - 1 ensures CleanupStatement(whole[i], now, whole[i + 1]) {
      if i + 1 < |trace| {
        assert CleanupStatement(trace[i], now, trace[i + 1]);
      } else {
        assert CleanupStatement(more[i + 1 - |trace|], now, more[i + 2 - |trace|]);
      }
    }
  }

  lemma TracedBatch(trace: seq<Tables>, first: Tables, now: int, from: Tables, batch: set<int>, end: Tables) returns (whole: seq<Tables>)
    requires Traces(trace, first, now, from) && BatchDeleted(from, batch, end)
    ensures Traces(whole, first, now, end) && |whole| == |trace| + 1
  {
    whole := TracedMore(trace, [from, end], first, now, from, end);
  }

  lemma BatchGone(before: map<int, MessageRow>, e: set<int>, gone: set<int>, batch: set<int>) returns (more: set<int>)
    requires gone <= e && batch <= e - gone && |batch| == Min(|e - gone|, CLEANUP_BATCH)
    ensures more == gone + batch && more <= e && (before - gone) - batch == before - more
    ensures |more| == |gone| + |batch| <= |e| && (|batch| < CLEANUP_BATCH ==> |more| == |e|)
  {
    more := gone + batch;
    assert e == (e - gone) + gone;
  }

  lemma ReceiptsSnoc(ids: seq<int>, id: int, session: string)
    ensures Receipts(ids + [id], session) == Receipts(ids, session) + {(id, session)}
  {
    var longer := ids + [id];
    assert longer[|ids|] == id;
    forall r | r in Receipts(ids, session) ensures r in Receipts(longer, session) {
      var i :| 0 <= i < |ids| && r == (ids[i], session);
      assert longer[i] == ids[i];
    }
  }

  lemma {:induction false} ParsedEach(ids: seq<string>)
    ensures ParseAll(ids).Some? <==> forall i | 0 <= i < |ids| :: ParseInt64(ids[i]).Some?
    ensures ParseAll(ids).Some? ==> |ParseAll(ids).value| == |ids|
    ensures ParseAll(ids).Some? ==> forall i | 0 <= i < |ids| :: ParseInt64(ids[i]) == Some(ParseAll(ids).value[i])
  {
    if ids != [] {
      var n := |ids| - 1;
      ParsedEach(ids[..n]);
      assert forall i | 0 <= i < |ids| :: ids[i] == if i < n then ids[..n][i] else ids[n];
    }
  }

  lemma ParsedReceipts(ids: seq<string>, session: string)
    requires ParseAll(ids).Some?
    ensures forall r :: r in Receipts(ParseAll(ids).value, session)
                        <==> r.1 == session && exists i :: 0 <= i < |ids| && ParseInt64(ids[i]) == Some(r.0)
  {
    ParsedEach(ids);
    var values := ParseAll(ids).value;
    forall r: (int, string) | r.1 == session && exists i :: 0 <= i < |ids| && ParseInt64(ids[i]) == Some(r.0)
      ensures r in Receipts(values, session)
    {
      var i :| 0 <= i < |ids| && ParseInt64(ids[i]) == Some(r.0);
      assert values[i] == r.0;
    }
  }

  /** An id that does not parse spoils every list it stands in. */
  lemma {:induction false} ParseAllPrefix(ids: seq<string>, n: nat)
    requires n <= |ids| && ParseAll(ids[..n]).None?
    ensures ParseAll(ids).None?
    decreases |ids|
  {
    if n < |ids| {
      var front := ids[..|ids| - 1];
      assert front[..n] == ids[..n];
      ParseAllPrefix(front, n);
    } else {
      assert ids[..n] == ids;
    }
  }
}
