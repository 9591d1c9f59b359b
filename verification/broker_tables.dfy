/**
  The coordination database as values: its four tables, and what each SQL
  statement of the broker leaves in them. Instants are microseconds.
  */
module BrokerTables {
  import opened Prelude
  import opened Decimals

  const SESSION_TTL: int := 90_000_000
  const MESSAGE_TTL: int := 7 * 24 * 3600 * 1_000_000
  const CLEANUP_BATCH: nat := 1000
  const CLEANUP_ROUNDS: nat := 100

  datatype Lease = Lease(holder: string, acquiredAt: int, expiresAt: int)
  datatype SessionInfo = SessionInfo(id: string, channelId: string, pid: int, startedAt: int)
  datatype SessionRow = SessionRow(channelId: string, pid: int, startedAt: int, lastHeartbeat: int)
  datatype MessageRow = MessageRow(topic: string, channelId: string, payload: string, createdAt: int)

  /** `receipts` holds (message id, session id) pairs; `nextId` is the AUTOINCREMENT counter. */
  datatype Tables = Tables(
    locks: map<string, Lease>,
    sessions: map<string, SessionRow>,
    messages: map<int, MessageRow>,
    nextId: int,
    receipts: set<(int, string)>)

  predicate Valid(t: Tables) {
    1 <= t.nextId <= MAX_INT64 + 1 && forall id | id in t.messages :: 1 <= id < t.nextId
  }

  // ----- Lease rows -----

  function Row(locks: map<string, Lease>, name: string): Option<Lease> {
    if name in locks then Some(locks[name]) else None
  }

  /** The upsert takes a missing row, or one that expired strictly before `now`. */
  predicate CanAcquire(row: Option<Lease>, now: int) {
    row.None? || row.value.expiresAt < now
  }

  predicate CanRenew(row: Option<Lease>, holder: string, now: int) {
    row.Some? && row.value.holder == holder && row.value.expiresAt > now
  }

  // ----- Sessions -----

  function AfterRegister(t: Tables, info: SessionInfo, now: int): Tables {
    var started := if info.id in t.sessions then t.sessions[info.id].startedAt else info.startedAt;
    t.(sessions := t.sessions[info.id := SessionRow(info.channelId, info.pid, started, now)])
  }

  function AfterUnregister(t: Tables, session: string): Tables {
    t.(sessions := t.sessions - {session}, receipts := set r | r in t.receipts && r.1 != session)
  }

  function AfterHeartbeat(t: Tables, session: string, now: int): Tables {
    if session in t.sessions
    then t.(sessions := t.sessions[session := t.sessions[session].(lastHeartbeat := now)])
    else t
  }

  /** The startup purge: receipts of sessions that are not registered. */
  function AfterStartupPurge(t: Tables): Tables {
    t.(receipts := set r | r in t.receipts && r.1 in t.sessions)
  }

  // ----- Messages -----

  function AfterPublish(t: Tables, row: MessageRow): Tables {
    t.(messages := t.messages[t.nextId := row], nextId := t.nextId + 1)
  }

  /** What `Consume` selects from, before ordering and limiting. An empty channel means any. */
  function Pending(t: Tables, topic: string, channelId: string, session: string, now: int): set<int> {
    set id | id in t.messages
      && t.messages[id].topic == topic
      && (channelId != "" ==> t.messages[id].channelId == channelId)
      && t.messages[id].createdAt > now - MESSAGE_TTL
      && (id, session) !in t.receipts
  }

  /** `ids`, parsed; None when one of them is not an int64. */
  function ParseAll(ids: seq<string>): Option<seq<int>> {
    if ids == [] then Some([])
    else match (ParseAll(ids[..|ids| - 1]), ParseInt64(ids[|ids| - 1]))
      case (Some(front), Some(id)) => Some(front + [id])
      case _ => None
  }

  function Receipts(ids: seq<int>, session: string): set<(int, string)> {
    set i | 0 <= i < |ids| :: (ids[i], session)
  }

  function AfterAck(t: Tables, ids: seq<int>, session: string): Tables {
    t.(receipts := t.receipts + Receipts(ids, session))
  }

  // ----- Ordering by id -----

  lemma LeastExists(s: set<int>)
    requires s != {}
    ensures exists m :: m in s && forall x | x in s :: m <= x
  {
    SomeMember(s);
    var x :| x in s;
    if s != {x} {
      LeastExists(s - {x});
      var m :| m in s - {x} && forall y | y in s - {x} :: m <= y;
      var least := if x < m then x else m;
      forall y | y in s ensures least <= y {
        assert y == x || y in s - {x};
      }
      assert least in s;
    }
  }

  ghost function Least(s: set<int>): (m: int)
    requires s != {}
    ensures m in s && forall x | x in s :: m <= x
  {
    LeastExists(s);
    var m :| m in s && forall x | x in s :: m <= x;
    m
  }

  ghost predicate Ascending(ids: seq<int>) {
    forall i, j | 0 <= i < j < |ids| :: ids[i] < ids[j]
  }

  /** The `limit` least members in ascending order: ORDER BY id ASC LIMIT limit. */
  ghost function Lowest(s: set<int>, limit: nat): seq<int>
    decreases s
  {
    if limit == 0 || s == {} then []
    else [Least(s)] + Lowest(s - {Least(s)}, limit - 1)
  }

  lemma {:induction false} LowestIsTheLeast(s: set<int>, limit: nat)
    ensures |Lowest(s, limit)| == Min(|s|, limit)
    ensures Ascending(Lowest(s, limit))
    ensures forall i | 0 <= i < |Lowest(s, limit)| :: Lowest(s, limit)[i] in s
    ensures forall i, x | 0 <= i < |Lowest(s, limit)| && x in s && x !in Lowest(s, limit) :: Lowest(s, limit)[i] < x
    decreases limit
  {
    if limit > 0 && s != {} {
      LowestIsTheLeast(s - {Least(s)}, limit - 1);
      forall x | x in s ensures x == Least(s) || x in s - {Least(s)} { }
    }
  }

  // ----- Cleanup -----

  /**
    Which of the pass's statements fail. `cancelAt` and `batchAt` number the
    deletion round that finds the context cancelled or whose DELETE, or the count
    of its rows, fails; CLEANUP_ROUNDS or more means none does. `applied` says that
    the failing round's DELETE took effect all the same.
    */
  datatype Faults = Faults(sessions: bool, expiry: bool, cancelAt: nat, batchAt: nat, applied: bool, receipts: bool)

  const NO_FAULTS := Faults(false, false, CLEANUP_ROUNDS, CLEANUP_ROUNDS, false, false)

  function LiveSessions(sessions: map<string, SessionRow>, now: int): map<string, SessionRow> {
    map s | s in sessions && sessions[s].lastHeartbeat >= now - SESSION_TTL :: sessions[s]
  }

  function Unexpired(messages: map<int, MessageRow>, now: int): map<int, MessageRow> {
    map id | id in messages && messages[id].createdAt >= now - MESSAGE_TTL :: messages[id]
  }

  /** Every registered session of the message's channel has acked it; true when there is none. */
  predicate Delivered(id: int, channelId: string, sessions: map<string, SessionRow>, receipts: set<(int, string)>) {
    forall s | s in sessions && sessions[s].channelId == channelId :: (id, s) in receipts
  }

  function Collectible(sessions: map<string, SessionRow>, messages: map<int, MessageRow>,
                       receipts: set<(int, string)>): set<int> {
    set id | id in messages && Delivered(id, messages[id].channelId, sessions, receipts)
  }

  // The statements of a cleanup pass. Each commits by itself, so statements of
  // other processes may come between them.

  function AfterExpireSessions(t: Tables, now: int): Tables {
    t.(sessions := LiveSessions(t.sessions, now))
  }

  function AfterExpireMessages(t: Tables, now: int): Tables {
    t.(messages := Unexpired(t.messages, now))
  }

  function CollectibleOf(t: Tables): set<int> {
    Collectible(t.sessions, t.messages, t.receipts)
  }

  /** One DELETE with its LIMIT: any 1000 of the collectible rows, or all of them when there are fewer. */
  predicate BatchDeleted(t: Tables, gone: set<int>, u: Tables) {
    && gone <= CollectibleOf(t) && |gone| == Min(|CollectibleOf(t)|, CLEANUP_BATCH)
    && u == t.(messages := t.messages - gone)
  }

  function AfterDropOrphans(t: Tables): Tables {
    t.(receipts := set r | r in t.receipts && r.0 in t.messages)
  }

  /** One of these statements, with `now` the clock reading of the pass. */
  ghost predicate CleanupStatement(t: Tables, now: int, u: Tables) {
    || u == AfterExpireSessions(t, now)
    || u == AfterExpireMessages(t, now)
    || u == AfterDropOrphans(t)
    || (exists gone :: BatchDeleted(t, gone, u))
  }

  function Min(a: nat, b: nat): nat {
    if a < b then a else b
  }

  /** The rounds whose DELETE takes effect if there is always a full batch. */
  function Rounds(f: Faults): nat {
    Min(CLEANUP_ROUNDS, Min(f.cancelAt, if f.applied then f.batchAt + 1 else f.batchAt))
  }

  /** The pass meets the failing round only if every earlier batch was full. */
  predicate Cancelled(f: Faults, collectible: nat) {
    f.cancelAt < CLEANUP_ROUNDS && f.cancelAt <= f.batchAt && collectible >= CLEANUP_BATCH * f.cancelAt
  }

  predicate BatchFailed(f: Faults, collectible: nat) {
    f.batchAt < CLEANUP_ROUNDS && f.batchAt < f.cancelAt && collectible >= CLEANUP_BATCH * f.batchAt
  }

  /** Some of the collectible rows are gone, as many as `rounds` full batches hold, and nothing else. */
  ghost predicate Trimmed(before: map<int, MessageRow>, after: map<int, MessageRow>, e: set<int>, rounds: nat) {
    && after.Keys <= before.Keys
    && after == (map id | id in after.Keys :: before[id])
    && before.Keys - after.Keys <= e
    && |before.Keys - after.Keys| == Min(|e|, CLEANUP_BATCH * rounds)
  }

  /** What one cleanup pass at `now` may leave, whichever rows each batch picks. */
  ghost predicate Cleaned(t: Tables, now: int, f: Faults, u: Tables) {
    var kept := if f.expiry then t.messages else Unexpired(t.messages, now);
    var e := Collectible(u.sessions, kept, t.receipts);
    && u.locks == t.locks && u.nextId == t.nextId
    && u.sessions == (if f.sessions then t.sessions else LiveSessions(t.sessions, now))
    && Trimmed(kept, u.messages, e, Rounds(f))
    && u.receipts == (if f.receipts || Cancelled(f, |e|) then t.receipts
                      else set r | r in t.receipts && r.0 in u.messages)
  }

  lemma TrimmedBy(before: map<int, MessageRow>, gone: set<int>, e: set<int>, rounds: nat)
    requires gone <= e <= before.Keys && |gone| == Min(|e|, CLEANUP_BATCH * rounds)
    ensures Trimmed(before, before - gone, e, rounds)
  {
    assert before.Keys - (before - gone).Keys == gone;
  }

  // ----- What a cleanup pass guarantees -----

  /**
    A fault-free pass removes an unexpired message exactly when it is collectible,
    up to 100,000 of them; with at most that many, the survivors are exactly the
    unexpired messages some surviving session of their channel has not acked.
    */
  lemma CleanupKeepsExactlyTheUndelivered(t: Tables, now: int, u: Tables, id: int)
    requires Cleaned(t, now, NO_FAULTS, u)
    requires |Collectible(u.sessions, Unexpired(t.messages, now), t.receipts)| <= CLEANUP_BATCH * CLEANUP_ROUNDS
    ensures id in u.messages <==>
            && id in t.messages && t.messages[id].createdAt >= now - MESSAGE_TTL
            && exists s :: s in t.sessions && t.sessions[s].lastHeartbeat >= now - SESSION_TTL
                        && t.sessions[s].channelId == t.messages[id].channelId && (id, s) !in t.receipts
  {
    var kept := Unexpired(t.messages, now);
    var e := Collectible(u.sessions, kept, t.receipts);
    SubsetOfSameSize(kept.Keys - u.messages.Keys, e);
    assert id in u.messages <==> id in kept && id !in e;
  }

  /** A batch that is not full leaves nothing collectible, whatever was done before it. */
  lemma ShortBatchDrains(t: Tables, gone: set<int>, u: Tables)
    requires BatchDeleted(t, gone, u)
    ensures |gone| < CLEANUP_BATCH ==> CollectibleOf(u) == {}
  {
    if |gone| < CLEANUP_BATCH {
      SubsetOfSameSize(gone, CollectibleOf(t));
    }
    CollectibleAfterDelete(t.sessions, t.messages, t.receipts, gone);
  }

  lemma SubsetOfSameSize<T>(a: set<T>, b: set<T>)
    requires a <= b && |a| == |b|
    ensures a == b
  {
    if x :| x in b && x !in a {
      SubsetSize(a, b - {x});
    }
  }

  lemma {:induction false} SubsetSize<T>(a: set<T>, b: set<T>)
    requires a <= b
    ensures |a| <= |b|
  {
    if a != {} {
      var x :| x in a;
      SubsetSize(a - {x}, b - {x});
    }
  }

  /** Every pass, faulty or not, keeps an unexpired message that a surviving session of its channel has not acked. */
  lemma CleanupIsSafe(t: Tables, now: int, f: Faults, u: Tables, id: int, s: string)
    requires Cleaned(t, now, f, u)
    requires id in t.messages && t.messages[id].createdAt >= now - MESSAGE_TTL
    requires s in u.sessions && u.sessions[s].channelId == t.messages[id].channelId && (id, s) !in t.receipts
    ensures id in u.messages && u.messages[id] == t.messages[id]
  {
    var kept := if f.expiry then t.messages else Unexpired(t.messages, now);
    assert id !in Collectible(u.sessions, kept, t.receipts);
  }

  /** Deleting some messages does not change which of the others are collectible. */
  lemma CollectibleAfterDelete(sessions: map<string, SessionRow>, messages: map<int, MessageRow>,
                               receipts: set<(int, string)>, gone: set<int>)
    ensures Collectible(sessions, messages - gone, receipts) == Collectible(sessions, messages, receipts) - gone
  {
  }
}
