/**
  The channel manager: its table of entries by channel, the heartbeats by session
  and the local sessions, refined from one simple map of registered sessions.
  */
module ChannelManager {
  import opened Prelude

  datatype SessionID = SessionID(name: string)

  datatype ChannelID = ChannelID(name: string)

  /** A channel object; two objects may serve the same channel ID. */
  datatype Channel = Channel(id: ChannelID, object: int)

  datatype Entry = Entry(ch: Channel, sessionID: SessionID)

  // ----- The simple form -----

  /** The registered sessions with their channels, their last heartbeats, and the sessions marked local. */
  datatype State = State(owner: map<SessionID, Channel>, lastHB: map<SessionID, int>, local: set<SessionID>)

  predicate Valid(st: State) {
    st.lastHB.Keys == st.owner.Keys
  }

  function Registered(st: State, ch: Channel, s: SessionID, now: int): State {
    State(if s in st.owner then st.owner else st.owner[s := ch], st.lastHB[s := now], st.local)
  }

  function Unregistered(st: State, id: ChannelID, s: SessionID): State {
    if s in st.owner && st.owner[s].id != id then st
    else State(st.owner - {s}, st.lastHB - {s}, st.local - {s})
  }

  function Beaten(st: State, s: SessionID, now: int): State {
    if s in st.lastHB then st.(lastHB := st.lastHB[s := now]) else st
  }

  function MarkedLocal(st: State, s: SessionID): State {
    st.(local := st.local + {s})
  }

  /** Local, or heard from within the timeout. */
  predicate Live(lastHB: map<SessionID, int>, local: set<SessionID>, s: SessionID, now: int, timeout: int) {
    s in local || (s in lastHB && now - lastHB[s] <= timeout)
  }

  function Expired(st: State, now: int, timeout: int): State {
    State(map s | s in st.owner && Live(st.lastHB, st.local, s, now, timeout) :: st.owner[s],
          map s | s in st.lastHB && Live(st.lastHB, st.local, s, now, timeout) :: st.lastHB[s],
          st.local)
  }

  // ----- The table of entries -----

  type Table = map<ChannelID, seq<Entry>>

  function EntriesOf(channels: Table, id: ChannelID): seq<Entry> {
    if id in channels then channels[id] else []
  }

  predicate Distinct(entries: seq<Entry>) {
    forall i, j | 0 <= i < j < |entries| :: entries[i].sessionID != entries[j].sessionID
  }

  predicate Has(entries: seq<Entry>, s: SessionID) {
    exists i | 0 <= i < |entries| :: entries[i].sessionID == s
  }

  /** The entries are those of the channel's sessions, each once. */
  ghost predicate Lists(entries: seq<Entry>, id: ChannelID, owner: map<SessionID, Channel>) {
    && Distinct(entries)
    && (forall i | 0 <= i < |entries| ::
          entries[i].sessionID in owner && owner[entries[i].sessionID] == entries[i].ch && entries[i].ch.id == id)
    && (forall s | s in owner && owner[s].id == id :: Has(entries, s))
  }

  /** The table lists every session under its own channel, and no channel without sessions. */
  ghost predicate Tabulates(channels: Table, owner: map<SessionID, Channel>) {
    && (forall id :: Lists(EntriesOf(channels, id), id, owner))
    && (forall id | id in channels :: channels[id] != [])
  }

  /** In such a table a session has at most one entry. */
  lemma OneEntryPerSession(channels: Table, owner: map<SessionID, Channel>, a: ChannelID, i: nat, b: ChannelID, j: nat)
    requires Tabulates(channels, owner)
    requires a in channels && i < |channels[a]| && b in channels && j < |channels[b]|
    requires channels[a][i].sessionID == channels[b][j].sessionID
    ensures a == b && i == j
  {
    assert Lists(EntriesOf(channels, a), a, owner) && Lists(EntriesOf(channels, b), b, owner);
    assert EntriesOf(channels, a)[i].ch.id == a && EntriesOf(channels, b)[j].ch.id == b;
  }

  /** The registered sessions are those with an entry. */
  lemma RegisteredHaveEntries(channels: Table, owner: map<SessionID, Channel>, s: SessionID)
    requires Tabulates(channels, owner)
    ensures s in owner <==> exists id :: Has(EntriesOf(channels, id), s)
  {
    if s in owner {
      assert Lists(EntriesOf(channels, owner[s].id), owner[s].id, owner);
      assert Has(EntriesOf(channels, owner[s].id), s);
    }
    if id :| Has(EntriesOf(channels, id), s) {
      assert Lists(EntriesOf(channels, id), id, owner);
    }
  }

  // ----- Lists under the operations -----

  lemma ListsMore(entries: seq<Entry>, id: ChannelID, owner: map<SessionID, Channel>, ch: Channel, s: SessionID)
    requires Lists(entries, id, owner) && s !in owner
    ensures Lists(if ch.id == id then entries + [Entry(ch, s)] else entries, id, owner[s := ch])
  {
    var all := entries + [Entry(ch, s)];
    if ch.id == id {
      forall x | x in owner[s := ch] && owner[s := ch][x].id == id ensures Has(all, x) {
        if x == s {
          assert all[|entries|].sessionID == s;
        } else {
          assert Has(entries, x);
          var i :| 0 <= i < |entries| && entries[i].sessionID == x;
          assert all[i].sessionID == x;
        }
      }
    }
  }

  /** The place of the last entry taken by none, the place of the removed one by the last. */
  function SwapRemoved(entries: seq<Entry>, i: nat): seq<Entry>
    requires i < |entries|
  {
    entries[i := entries[|entries| - 1]][..|entries| - 1]
  }

  lemma ListsFewer(entries: seq<Entry>, id: ChannelID, owner: map<SessionID, Channel>, i: nat)
    requires Lists(entries, id, owner) && i < |entries|
    ensures Lists(SwapRemoved(entries, i), id, owner - {entries[i].sessionID})
  {
    var s, last, fewer := entries[i].sessionID, |entries| - 1, SwapRemoved(entries, i);
    forall k | 0 <= k < |fewer| ensures fewer[k] == entries[if k == i then last else k] && fewer[k].sessionID != s { }
    assert Distinct(fewer);
    forall x | x in owner - {s} && owner[x].id == id ensures Has(fewer, x) {
      assert Has(entries, x);
      var k :| 0 <= k < |entries| && entries[k].sessionID == x;
      assert fewer[if k == last then i else k].sessionID == x;
    }
  }

  lemma ListsOthers(entries: seq<Entry>, id: ChannelID, owner: map<SessionID, Channel>, s: SessionID)
    requires Lists(entries, id, owner) && (s in owner ==> owner[s].id != id)
    ensures Lists(entries, id, owner - {s}) && !Has(entries, s)
  {
  }

  // ----- Expiry of one channel -----

  /** The entries of live sessions, or those of the others, in order. */
  function Sifted(entries: seq<Entry>, live: bool, lastHB: map<SessionID, int>, local: set<SessionID>, now: int, timeout: int): seq<Entry> {
    if entries == [] then []
    else
      var last := entries[|entries| - 1];
      Sifted(entries[..|entries| - 1], live, lastHB, local, now, timeout)
      + (if Live(lastHB, local, last.sessionID, now, timeout) == live then [last] else [])
  }

  lemma {:induction false} SiftedMembers(entries: seq<Entry>, live: bool, lastHB: map<SessionID, int>, local: set<SessionID>, now: int, timeout: int)
    ensures var sifted := Sifted(entries, live, lastHB, local, now, timeout);
            && (forall i | 0 <= i < |sifted| :: sifted[i] in entries)
            && (forall s :: Has(sifted, s) <==> Has(entries, s) && Live(lastHB, local, s, now, timeout) == live)
            && (Distinct(entries) ==> Distinct(sifted))
  {
    if entries != [] {
      var front, last := entries[..|entries| - 1], entries[|entries| - 1];
      SiftedMembers(front, live, lastHB, local, now, timeout);
      var some := Sifted(front, live, lastHB, local, now, timeout);
      assert entries == front + [last];
      forall s ensures Has(entries, s) <==> Has(front, s) || last.sessionID == s { HasSnoc(front, last, s); }
      if Live(lastHB, local, last.sessionID, now, timeout) == live {
        forall s ensures Has(some + [last], s) <==> Has(some, s) || last.sessionID == s { HasSnoc(some, last, s); }
        if Distinct(entries) { DistinctSnoc(front, some, last); }
      } else {
        assert some + [] == some;
      }
    }
  }

  lemma DistinctSnoc(front: seq<Entry>, some: seq<Entry>, last: Entry)
    requires Distinct(front + [last]) && Distinct(some) && forall s :: Has(some, s) ==> Has(front, s)
    ensures Distinct(some + [last])
  {
    assert forall i | 0 <= i < |some| :: Has(some, some[i].sessionID);
    assert (front + [last])[|front|] == last;
    assert forall i | 0 <= i < |front| :: (front + [last])[i] == front[i];
  }

  lemma HasSnoc(entries: seq<Entry>, e: Entry, s: SessionID)
    ensures Has(entries + [e], s) <==> Has(entries, s) || e.sessionID == s
  {
    if Has(entries, s) {
      var i :| 0 <= i < |entries| && entries[i].sessionID == s;
      assert (entries + [e])[i].sessionID == s;
    }
    assert (entries + [e])[|entries|] == e;
  }

  ghost function OwnerWithout(owner: map<SessionID, Channel>, gone: seq<Entry>): map<SessionID, Channel> {
    map s | s in owner && !Has(gone, s) :: owner[s]
  }

  /** What is left of a channel's list, and the lists of the others, fit the sessions that are left. */
  lemma ListsLeft(entries: seq<Entry>, id: ChannelID, owner: map<SessionID, Channel>,
                  lastHB: map<SessionID, int>, local: set<SessionID>, now: int, timeout: int)
    requires Lists(entries, id, owner)
    ensures var gone := Sifted(entries, false, lastHB, local, now, timeout);
            && Lists(Sifted(entries, true, lastHB, local, now, timeout), id, OwnerWithout(owner, gone))
            && (forall s | Has(gone, s) :: s in owner && owner[s].id == id)
            && (forall other, rest | other != id && Lists(rest, other, owner) :: Lists(rest, other, OwnerWithout(owner, gone)))
  {
    SiftedMembers(entries, true, lastHB, local, now, timeout);
    SiftedMembers(entries, false, lastHB, local, now, timeout);
    var kept, gone := Sifted(entries, true, lastHB, local, now, timeout), Sifted(entries, false, lastHB, local, now, timeout);
    forall i | 0 <= i < |kept| ensures kept[i].sessionID in owner && owner[kept[i].sessionID] == kept[i].ch && kept[i].ch.id == id && !Has(gone, kept[i].sessionID) {
      assert kept[i] in entries;
      assert Has(kept, kept[i].sessionID);
    }
    forall s | Has(gone, s) ensures s in owner && owner[s].id == id { }
    forall other, rest | other != id && Lists(rest, other, owner) ensures Lists(rest, other, OwnerWithout(owner, gone)) { }
  }

  function ChannelsOf(entries: seq<Entry>): (channels: seq<Channel>)
    ensures |channels| == |entries| && forall i | 0 <= i < |entries| :: channels[i] == entries[i].ch
  {
    if entries == [] then [] else [entries[0].ch] + ChannelsOf(entries[1..])
  }

  lemma {:induction false} ChannelsOfConcat(a: seq<Entry>, b: seq<Entry>)
    ensures ChannelsOf(a + b) == ChannelsOf(a) + ChannelsOf(b)
  {
    if a == [] {
      assert a + b == b;
    } else {
      assert (a + b)[1..] == a[1..] + b;
      ChannelsOfConcat(a[1..], b);
    }
  }

  /** The entries of exactly the sessions that went, each once and with its own channel. */
  ghost predicate Went(closed: seq<Entry>, before: map<SessionID, Channel>, after: map<SessionID, Channel>) {
    && Distinct(closed)
    && (forall i | 0 <= i < |closed| :: closed[i].sessionID in before && closed[i].ch == before[closed[i].sessionID])
    && (forall s :: Has(closed, s) <==> s in before && s !in after)
    && (forall s | s in after :: s in before && after[s] == before[s])
  }

  lemma HasConcat(a: seq<Entry>, b: seq<Entry>, s: SessionID)
    ensures Has(a + b, s) <==> Has(a, s) || Has(b, s)
  {
    if Has(a, s) {
      var i :| 0 <= i < |a| && a[i].sessionID == s;
      assert (a + b)[i].sessionID == s;
    }
    if Has(b, s) {
      var i :| 0 <= i < |b| && b[i].sessionID == s;
      assert (a + b)[|a| + i].sessionID == s;
    }
  }

  lemma WentTwice(a: seq<Entry>, b: seq<Entry>, first: map<SessionID, Channel>, second: map<SessionID, Channel>, third: map<SessionID, Channel>)
    requires Went(a, first, second) && Went(b, second, third)
    ensures Went(a + b, first, third)
  {
    forall s ensures Has(a + b, s) <==> s in first && s !in third { HasConcat(a, b, s); }
    assert forall i | 0 <= i < |a| :: Has(a, a[i].sessionID);
    assert forall i | 0 <= i < |b| :: Has(b, b[i].sessionID);
  }

  /** What one channel's sifting takes away. */
  lemma SiftedWent(entries: seq<Entry>, id: ChannelID, owner: map<SessionID, Channel>,
                   lastHB: map<SessionID, int>, local: set<SessionID>, now: int, timeout: int)
    requires Lists(entries, id, owner)
    ensures var gone := Sifted(entries, false, lastHB, local, now, timeout);
            && Went(gone, owner, OwnerWithout(owner, gone))
            && forall s :: s in OwnerWithout(owner, gone) <==> s in owner && (owner[s].id != id || Live(lastHB, local, s, now, timeout))
  {
    SiftedMembers(entries, false, lastHB, local, now, timeout);
    var gone := Sifted(entries, false, lastHB, local, now, timeout);
    forall i | 0 <= i < |gone| ensures gone[i].sessionID in owner && gone[i].ch == owner[gone[i].sessionID] {
      assert gone[i] in entries;
    }
    forall s | s in owner && owner[s].id == id ensures Has(entries, s) { }
  }

  /** Expiry done but for the sessions of the channels in `rest`. */
  ghost predicate Swept(first: State, st: State, rest: set<ChannelID>, now: int, timeout: int) {
    && Valid(st) && st.local == first.local
    && (forall s :: s in st.owner <==>
          s in first.owner && (first.owner[s].id in rest || Live(first.lastHB, first.local, s, now, timeout)))
    && (forall s | s in st.owner :: s in first.lastHB && st.owner[s] == first.owner[s] && st.lastHB[s] == first.lastHB[s])
  }

  lemma SweptMore(first: State, st: State, next: State, rest: set<ChannelID>, id: ChannelID, now: int, timeout: int)
    requires Swept(first, st, rest, now, timeout)
    requires Valid(next) && next.local == st.local
    requires forall s :: s in next.owner <==> s in st.owner && (st.owner[s].id != id || Live(st.lastHB, st.local, s, now, timeout))
    requires forall s | s in next.owner :: next.owner[s] == st.owner[s] && next.lastHB[s] == st.lastHB[s]
    ensures Swept(first, next, rest - {id}, now, timeout)
  {
  }

  lemma SweptAll(first: State, st: State, now: int, timeout: int)
    requires Valid(first) && Swept(first, st, {}, now, timeout)
    ensures st == Expired(first, now, timeout)
  {
  }

  // ----- The manager -----

  class Manager {
    var channels: Table
    var lastHB: map<SessionID, int>
    var local: set<SessionID>
    ghost var owner: map<SessionID, Channel>

    ghost function View(): State
      reads this
    {
      State(owner, lastHB, local)
    }

    ghost predicate Ok()
      reads this
    {
      Tabulates(channels, owner) && Valid(View())
    }

    constructor ()
      ensures Ok() && View() == State(map[], map[], {})
    {
      channels, lastHB, local, owner := map[], map[], {}, map[];
    }

    method Register(ch: Channel, s: SessionID, now: int)
      requires Ok()
      modifies this
      ensures Ok() && View() == Registered(old(View()), ch, s, now)
      ensures s in lastHB && lastHB[s] == now && lastHB - {s} == old(lastHB) - {s} && local == old(local)
      ensures s in owner && owner[s] == (if s in old(owner) then old(owner)[s] else ch) && owner - {s} == old(owner) - {s}
    {
      if s in lastHB {
        lastHB := lastHB[s := now];
        return;
      }
      ghost var after := channels[ch.id := EntriesOf(channels, ch.id) + [Entry(ch, s)]];
      forall id ensures Lists(EntriesOf(after, id), id, owner[s := ch]) {
        ListsMore(EntriesOf(channels, id), id, owner, ch, s);
      }
      channels := channels[ch.id := EntriesOf(channels, ch.id) + [Entry(ch, s)]];
      lastHB := lastHB[s := now];
      owner := owner[s := ch];
    }

    /** The scan over the whole table that Unregister ends with. */
    method StillRegistered(s: SessionID) returns (found: bool)
      ensures found <==> exists id :: Has(EntriesOf(channels, id), s)
    {
      var rest := channels.Keys;
      while rest != {}
        invariant rest <= channels.Keys
        invariant forall id | id in channels && id !in rest :: !Has(channels[id], s)
        decreases |rest|
      {
        var id :| id in rest;
        if exists i | 0 <= i < |channels[id]| :: channels[id][i].sessionID == s {
          assert Has(EntriesOf(channels, id), s);
          return true;
        }
        rest := rest - {id};
      }
      found := false;
    }

    /** The removal of the channel's entry for the session, if it has one. */
    method RemoveEntry(id: ChannelID, s: SessionID)
      requires Ok()
      modifies this`channels, this`owner
      ensures owner == if s in old(owner) && old(owner)[s].id == id then old(owner) - {s} else old(owner)
      ensures Tabulates(channels, owner)
    {
      var entries := EntriesOf(channels, id);
      assert Lists(entries, id, owner);
      var i := 0;
      while i < |entries| && entries[i].sessionID != s
        invariant i <= |entries| && forall k | 0 <= k < i :: entries[k].sessionID != s
      {
        i := i + 1;
      }
      if i == |entries| {
        assert !Has(entries, s);
        return;
      }
      ghost var fewer, before := SwapRemoved(entries, i), channels;
      ListsFewer(entries, id, owner, i);
      entries := entries[i := entries[|entries| - 1]];
      entries := entries[..|entries| - 1];
      if |entries| == 0 {
        channels := channels - {id};
      } else {
        channels := channels[id := entries];
      }
      assert EntriesOf(channels, id) == fewer;
      forall other ensures Lists(EntriesOf(channels, other), other, owner - {s}) {
        if other != id {
          assert EntriesOf(channels, other) == EntriesOf(before, other);
          ListsOthers(EntriesOf(before, other), other, owner, s);
        }
      }
      owner := owner - {s};
    }

    method Unregister(id: ChannelID, s: SessionID)
      requires Ok()
      modifies this
      ensures Ok() && View() == Unregistered(old(View()), id, s)
      ensures s in old(owner) && old(owner)[s].id != id ==> owner == old(owner) && lastHB == old(lastHB) && local == old(local)
      ensures !(s in old(owner) && old(owner)[s].id != id) ==>
                owner == old(owner) - {s} && lastHB == old(lastHB) - {s} && local == old(local) - {s}
    {
      RemoveEntry(id, s);
      RegisteredHaveEntries(channels, owner, s);
      var found := StillRegistered(s);
      if found {
        return;
      }
      lastHB := lastHB - {s};
      local := local - {s};
      assert owner - {s} == owner;
    }

    method Heartbeat(s: SessionID, now: int) returns (ok: bool)
      requires Ok()
      modifies this`lastHB
      ensures Ok() && View() == Beaten(old(View()), s, now)
      ensures lastHB == if s in old(owner) then old(lastHB)[s := now] else old(lastHB)
      ensures ok <==> s in old(owner)
    {
      if s !in lastHB {
        return false;
      }
      lastHB := lastHB[s := now];
      ok := true;
    }

    method MarkLocal(s: SessionID)
      requires Ok()
      modifies this`local
      ensures Ok() && View() == MarkedLocal(old(View()), s)
      ensures local == old(local) + {s}
    {
      local := local + {s};
    }
  
    /** One channel's turn in the expiry pass: the heartbeats of expired sessions go as the list is sifted. */
    method ExpireChannel(entries: seq<Entry>, now: int, timeout: int) returns (kept: seq<Entry>, gone: seq<Entry>)
      requires Distinct(entries)
      modifies this`lastHB, this`local
      ensures kept == Sifted(entries, true, old(lastHB), old(local), now, timeout)
      ensures gone == Sifted(entries, false, old(lastHB), old(local), now, timeout)
      ensures local == old(local)
      ensures forall s :: s in lastHB <==> s in old(lastHB) && !Has(gone, s)
      ensures forall s | s in lastHB :: lastHB[s] == old(lastHB)[s]
    {
      kept, gone := [], [];
      for i := 0 to |entries|
        invariant kept == Sifted(entries[..i], true, old(lastHB), old(local), now, timeout)
        invariant gone == Sifted(entries[..i], false, old(lastHB), old(local), now, timeout)
        invariant local == old(local)
        invariant forall s :: s in lastHB <==> s in old(lastHB) && !Has(gone, s)
        invariant forall s | s in lastHB :: lastHB[s] == old(lastHB)[s]
      {
        var e := entries[i];
        assert entries[..i + 1][..i] == entries[..i];
        SiftedMembers(entries[..i], false, old(lastHB), old(local), now, timeout);
        assert !Has(entries[..i], e.sessionID);
        if e.sessionID in local || (e.sessionID in lastHB && now - lastHB[e.sessionID] <= timeout) {
          kept := kept + [e];
        } else {
          forall s ensures Has(gone + [e], s) <==> Has(gone, s) || e.sessionID == s { HasSnoc(gone, e, s); }
          lastHB := lastHB - {e.sessionID};
          local := local - {e.sessionID};
          gone := gone + [e];
        }
      }
      assert entries[..|entries|] == entries;
    }

    /** The turn of one channel, with the table and the sessions afterwards. */
    method ExpireOne(id: ChannelID, now: int, timeout: int) returns (gone: seq<Entry>)
      requires Ok() && id in channels
      modifies this
      ensures Ok() && local == old(local) && old(channels.Keys) - {id} <= channels.Keys
      ensures forall s :: s in owner <==> s in old(owner) && (old(owner)[s].id != id || Live(old(lastHB), old(local), s, now, timeout))
      ensures forall s | s in owner :: lastHB[s] == old(lastHB)[s]
      ensures Went(gone, old(owner), owner)
    {
      var entries := EntriesOf(channels, id);
      assert Lists(entries, id, owner);
      ListsLeft(entries, id, owner, lastHB, local, now, timeout);
      SiftedWent(entries, id, owner, lastHB, local, now, timeout);
      var kept;
      kept, gone := ExpireChannel(entries, now, timeout);
      KeepList(id, kept, OwnerWithout(owner, gone));
    }

    /** The table with one list replaced, or dropped when it is empty. */
    method KeepList(id: ChannelID, kept: seq<Entry>, ghost left: map<SessionID, Channel>)
      requires Tabulates(channels, owner) && Lists(kept, id, left)
      requires forall other, rest | other != id && Lists(rest, other, owner) :: Lists(rest, other, left)
      modifies this`channels, this`owner
      ensures owner == left && Tabulates(channels, owner) && old(channels.Keys) - {id} <= channels.Keys
    {
      ghost var before := channels;
      if |kept| == 0 {
        channels := channels - {id};
      } else {
        channels := channels[id := kept];
      }
      assert EntriesOf(channels, id) == kept;
      forall other ensures Lists(EntriesOf(channels, other), other, left) {
        if other != id {
          assert EntriesOf(channels, other) == EntriesOf(before, other);
          assert Lists(EntriesOf(before, other), other, owner);
        }
      }
      owner := left;
    }

    /**
      The expiry pass. It removes and closes exactly the sessions that are neither
      local nor heard from within the timeout, in whatever order the table is visited.
      */
    method ExpireStale(now: int, timeout: int) returns (toClose: seq<Channel>, ghost closed: seq<Entry>)
      requires Ok()
      modifies this
      ensures Ok() && View() == Expired(old(View()), now, timeout)
      ensures local == old(local)
      ensures forall s :: s in owner <==> s in old(owner) && (s in local || now - old(lastHB)[s] <= timeout)
      ensures toClose == ChannelsOf(closed) && Went(closed, old(owner), owner)
    {
      toClose, closed := [], [];
      var rest := channels.Keys;
      forall s | s in owner ensures owner[s].id in rest {
        assert Lists(EntriesOf(channels, owner[s].id), owner[s].id, owner);
      }
      while rest != {}
        invariant Ok() && rest <= channels.Keys
        invariant Swept(old(View()), View(), rest, now, timeout)
        invariant toClose == ChannelsOf(closed) && Went(closed, old(owner), owner)
        decreases |rest|
      {
        ghost var before := View();
        var id :| id in rest;
        var gone := ExpireOne(id, now, timeout);
        SweptMore(old(View()), before, View(), rest, id, now, timeout);
        rest := rest - {id};
        WentTwice(closed, gone, old(owner), before.owner, owner);
        ChannelsOfConcat(closed, gone);
        toClose := toClose + ChannelsOf(gone);
        closed := closed + gone;
      }
      SweptAll(old(View()), View(), now, timeout);
    }
  }

  // ----- Runs -----

  datatype Op =
    | Register(ch: Channel, s: SessionID, now: int)
    | Unregister(id: ChannelID, s: SessionID)
    | Heartbeat(s: SessionID, now: int)
    | MarkLocal(s: SessionID)
    | ExpireStale(now: int, timeout: int)

  function After(st: State, op: Op): State {
    match op
    case Register(ch, s, now) => Registered(st, ch, s, now)
    case Unregister(id, s) => Unregistered(st, id, s)
    case Heartbeat(s, now) => Beaten(st, s, now)
    case MarkLocal(s) => MarkedLocal(st, s)
    case ExpireStale(now, timeout) => Expired(st, now, timeout)
  }

  function Run(st: State, ops: seq<Op>): State {
    if ops == [] then st else After(Run(st, ops[..|ops| - 1]), ops[|ops| - 1])
  }

  /** The time the session was last heard from, by a heartbeat or a repeated registration. */
  function LastBeat(ops: seq<Op>, s: SessionID, start: int): int {
    if ops == [] then start
    else
      var last := ops[|ops| - 1];
      if (last.Heartbeat? || last.Register?) && last.s == s then last.now else LastBeat(ops[..|ops| - 1], s, start)
  }

  /** Marked local at the start or in the run. */
  predicate IsLocal(ops: seq<Op>, s: SessionID, start: bool) {
    start || exists k | 0 <= k < |ops| :: ops[k] == MarkLocal(s)
  }

  /** What a step asks of a session that is to stay registered with its channel. */
  predicate Spares(op: Op, before: seq<Op>, s: SessionID, id: ChannelID, local: bool, beat: int) {
    SparesIn(op, s, id, IsLocal(before, s, local), LastBeat(before, s, beat))
  }

  predicate AllSpare(ops: seq<Op>, s: SessionID, id: ChannelID, local: bool, beat: int) {
    forall k | 0 <= k < |ops| :: Spares(ops[k], ops[..k], s, id, local, beat)
  }

  lemma {:induction false} RunKeepsValid(st: State, ops: seq<Op>)
    requires Valid(st)
    ensures Valid(Run(st, ops))
  {
    if ops != [] { RunKeepsValid(st, ops[..|ops| - 1]); }
  }

  /** The session is registered with its channel, was last heard from then, and is local or not. */
  predicate Stands(st: State, s: SessionID, ch: Channel, beat: int, local: bool) {
    s in st.owner && st.owner[s] == ch && s in st.lastHB && st.lastHB[s] == beat && (s in st.local <==> local)
  }

  function BeatAfter(op: Op, s: SessionID, beat: int): int {
    if (op.Heartbeat? || op.Register?) && op.s == s then op.now else beat
  }

  predicate SparesIn(op: Op, s: SessionID, id: ChannelID, local: bool, beat: int) {
    match op
    case Unregister(other, t) => t != s || other != id
    case ExpireStale(now, timeout) => local || now - beat <= timeout
    case _ => true
  }

  lemma SparedOnce(st: State, op: Op, s: SessionID, ch: Channel, beat: int, local: bool)
    requires Stands(st, s, ch, beat, local) && SparesIn(op, s, ch.id, local, beat)
    ensures Stands(After(st, op), s, ch, BeatAfter(op, s, beat), local || op == MarkLocal(s))
  {
  }

  lemma RunSnoc(st: State, front: seq<Op>, last: Op, s: SessionID, start: int)
    ensures Run(st, front + [last]) == After(Run(st, front), last)
    ensures LastBeat(front + [last], s, start) == BeatAfter(last, s, LastBeat(front, s, start))
  {
    assert (front + [last])[..|front|] == front;
  }

  /** While every step spares it, a session keeps its channel, and its heartbeat and local mark are what the run made them. */
  lemma {:induction false} SparedStays(st: State, ops: seq<Op>, s: SessionID)
    requires Valid(st) && s in st.owner && AllSpare(ops, s, st.owner[s].id, s in st.local, st.lastHB[s])
    ensures Stands(Run(st, ops), s, st.owner[s], LastBeat(ops, s, st.lastHB[s]), IsLocal(ops, s, s in st.local))
  {
    if ops != [] {
      var n := |ops| - 1;
      SparedBefore(ops, n, s, st.owner[s].id, s in st.local, st.lastHB[s]);
      SparedStays(st, ops[..n], s);
      assert Spares(ops[n], ops[..n], s, st.owner[s].id, s in st.local, st.lastHB[s]);
      SparedOnce(Run(st, ops[..n]), ops[n], s, st.owner[s], LastBeat(ops[..n], s, st.lastHB[s]), IsLocal(ops[..n], s, s in st.local));
      RunSnoc(st, ops[..n], ops[n], s, st.lastHB[s]);
      LocalSnoc(ops[..n], ops[n], s, s in st.local);
      assert ops == ops[..n] + [ops[n]];
    }
  }

  lemma LocalSnoc(front: seq<Op>, last: Op, s: SessionID, start: bool)
    ensures IsLocal(front + [last], s, start) <==> IsLocal(front, s, start) || last == MarkLocal(s)
  {
    if exists k | 0 <= k < |front| :: front[k] == MarkLocal(s) {
      var k :| 0 <= k < |front| && front[k] == MarkLocal(s);
      assert (front + [last])[k] == MarkLocal(s);
    }
    assert (front + [last])[|front|] == last;
  }

  /** The first step that does not spare it takes the session away. */
  lemma UnsparedGoes(st: State, ops: seq<Op>, s: SessionID, k: nat)
    requires Valid(st) && s in st.owner && k < |ops|
    requires AllSpare(ops[..k], s, st.owner[s].id, s in st.local, st.lastHB[s])
    requires !Spares(ops[k], ops[..k], s, st.owner[s].id, s in st.local, st.lastHB[s])
    ensures s !in Run(st, ops[..k + 1]).owner
  {
    SparedStays(st, ops[..k], s);
    assert ops[..k + 1][..k] == ops[..k];
  }

  /**
    A session stays registered throughout a run exactly when no step unregisters it
    from its channel and at every expiry it is local or was heard from in time.
    */
  lemma StaysExactly(st: State, ops: seq<Op>, s: SessionID)
    requires Valid(st) && s in st.owner
    ensures (forall k: nat | k <= |ops| :: s in Run(st, ops[..k]).owner)
            <==> AllSpare(ops, s, st.owner[s].id, s in st.local, st.lastHB[s])
  {
    if AllSpare(ops, s, st.owner[s].id, s in st.local, st.lastHB[s]) {
      forall k: nat | k <= |ops| ensures s in Run(st, ops[..k]).owner {
        SparedBefore(ops, k, s, st.owner[s].id, s in st.local, st.lastHB[s]);
        SparedStays(st, ops[..k], s);
      }
    } else {
      var k := FirstUnsparing(ops, s, st.owner[s].id, s in st.local, st.lastHB[s]);
      UnsparedGoes(st, ops, s, k);
    }
  }

  lemma SparedBefore(ops: seq<Op>, k: nat, s: SessionID, id: ChannelID, local: bool, beat: int)
    requires k <= |ops| && AllSpare(ops, s, id, local, beat)
    ensures AllSpare(ops[..k], s, id, local, beat)
  {
    assert forall j | 0 <= j < k :: ops[..k][j] == ops[j] && ops[..k][..j] == ops[..j];
  }

  lemma FirstUnsparing(ops: seq<Op>, s: SessionID, id: ChannelID, local: bool, beat: int) returns (k: nat)
    requires !AllSpare(ops, s, id, local, beat)
    ensures k < |ops| && AllSpare(ops[..k], s, id, local, beat) && !Spares(ops[k], ops[..k], s, id, local, beat)
  {
    k := 0;
    while Spares(ops[k], ops[..k], s, id, local, beat)
      invariant k < |ops| && forall j | 0 <= j < k :: Spares(ops[j], ops[..j], s, id, local, beat)
      decreases |ops| - k
    {
      k := k + 1;
    }
    assert forall j | 0 <= j < k :: ops[..k][j] == ops[j] && ops[..k][..j] == ops[..j];
  }

  /** A local session is never expired. */
  lemma LocalNeverExpires(st: State, ops: seq<Op>, s: SessionID)
    requires Valid(st) && s in st.owner && s in st.local
    requires forall k | 0 <= k < |ops| :: ops[k] != Unregister(st.owner[s].id, s)
    ensures s in Run(st, ops).owner && Run(st, ops).owner[s] == st.owner[s]
  {
    SparedStays(st, ops, s);
  }
}
