/**
  The scheduler's two maps over the entries of its cron object: which entry
  runs a job, and the schedule string it was registered with.
  */
module EntryIndex {

  datatype Entry<Id, S> = Entry(jobId: Id, schedule: S)

  /** `entries` and `lastEntry` belong to the cron object; `jobs` and `schedules` to the scheduler. */
  datatype Index<Id(==), S> = Index(entries: map<nat, Entry<Id, S>>, lastEntry: nat, jobs: map<Id, nat>, schedules: map<Id, S>)

  function Empty<Id(==), S>(): Index<Id, S> {
    Index(map[], 0, map[], map[])
  }

  /** `removeJobEntryLocked`. */
  function Removed<Id(==), S>(ix: Index<Id, S>, id: Id): Index<Id, S> {
    if id in ix.jobs
    then ix.(entries := ix.entries - {ix.jobs[id]}, jobs := ix.jobs - {id}, schedules := ix.schedules - {id})
    else ix
  }

  /** `registerEntry`: a new entry under the next id of the cron object. */
  function Registered<Id(==), S>(ix: Index<Id, S>, id: Id, schedule: S): Index<Id, S> {
    var e := ix.lastEntry + 1;
    Index(ix.entries[e := Entry(id, schedule)], e, ix.jobs[id := e], ix.schedules[id := schedule])
  }

  /** `scheduleJobLocked`: the old entry goes first, whether or not the new schedule can be registered. */
  function Scheduled<Id(==), S>(ix: Index<Id, S>, id: Id, schedule: S, can: bool): Index<Id, S> {
    var r := Removed(ix, id);
    if can then Registered(r, id, schedule) else r
  }

  // ----- Consistency -----

  /** Entry `e` is the one the maps have for its job. */
  predicate Indexed<Id(==), S>(ix: Index<Id, S>, e: nat) {
    e in ix.entries && ix.entries[e].jobId in ix.jobs && ix.jobs[ix.entries[e].jobId] == e
  }

  /** The entries that run although no map knows them. */
  function Leaked<Id(==), S>(ix: Index<Id, S>): set<nat> {
    set e | e in ix.entries && !Indexed(ix, e)
  }

  /** Equal key sets, and every job of the maps has a live entry for its own id and schedule. */
  ghost predicate Sound<Id(!new), S>(ix: Index<Id, S>) {
    && ix.jobs.Keys == ix.schedules.Keys
    && (forall id | id in ix.jobs :: ix.jobs[id] in ix.entries && ix.entries[ix.jobs[id]] == Entry(id, ix.schedules[id]))
    && (forall e | e in ix.entries :: e <= ix.lastEntry)
  }

  /** Sound, and the job map is a bijection onto the live entries. */
  ghost predicate Consistent<Id(!new), S>(ix: Index<Id, S>) {
    Sound(ix) && Leaked(ix) == {}
  }

  /** What Consistent says of the job map: distinct jobs have distinct entries, and every live entry is some job's. */
  lemma ConsistentIsABijection<Id(!new), S>(ix: Index<Id, S>)
    requires Consistent(ix)
    ensures forall a, b | a in ix.jobs && b in ix.jobs && ix.jobs[a] == ix.jobs[b] :: a == b
    ensures forall e | e in ix.entries :: exists id :: id in ix.jobs && ix.jobs[id] == e
    ensures ix.jobs.Values == ix.entries.Keys
  {
    forall e | e in ix.entries ensures exists id :: id in ix.jobs && ix.jobs[id] == e {
      assert e !in Leaked(ix);
      assert ix.entries[e].jobId in ix.jobs;
    }
  }

  /** Removing a job removes its own entry and no other; what had leaked stays leaked. */
  lemma RemovedKeeps<Id(!new), S>(ix: Index<Id, S>, id: Id)
    requires Sound(ix)
    ensures Sound(Removed(ix, id)) && Leaked(Removed(ix, id)) == Leaked(ix)
    ensures Removed(ix, id).jobs == ix.jobs - {id} && Removed(ix, id).schedules == ix.schedules - {id}
  {
    var r := Removed(ix, id);
    if id in ix.jobs {
      forall other | other in r.jobs ensures r.jobs[other] != ix.jobs[id] {
        assert ix.entries[ix.jobs[other]].jobId == other;
      }
      forall e ensures e in Leaked(r) <==> e in Leaked(ix) {
        if e in r.entries {
          assert Indexed(r, e) <==> Indexed(ix, e);
        }
      }
    }
  }

  lemma RegisteredKeeps<Id(!new), S>(ix: Index<Id, S>, id: Id, schedule: S)
    requires Sound(ix) && id !in ix.jobs
    ensures Sound(Registered(ix, id, schedule)) && Leaked(Registered(ix, id, schedule)) == Leaked(ix)
  {
    var r := Registered(ix, id, schedule);
    forall e ensures e in Leaked(r) <==> e in Leaked(ix) {
      if e in ix.entries {
        assert Indexed(r, e) <==> Indexed(ix, e);
      }
    }
  }

  lemma ScheduledKeeps<Id(!new), S>(ix: Index<Id, S>, id: Id, schedule: S, can: bool)
    requires Sound(ix)
    ensures Sound(Scheduled(ix, id, schedule, can)) && Leaked(Scheduled(ix, id, schedule, can)) == Leaked(ix)
    ensures id in Scheduled(ix, id, schedule, can).jobs <==> can
  {
    RemovedKeeps(ix, id);
    if can { RegisteredKeeps(Removed(ix, id), id, schedule); }
  }

  // ----- Runs -----

  datatype Op<Id, S> = Schedule(id: Id, schedule: S, can: bool) | Unschedule(id: Id)

  function Apply<Id(==), S>(ix: Index<Id, S>, op: Op<Id, S>): Index<Id, S> {
    match op
    case Schedule(id, schedule, can) => Scheduled(ix, id, schedule, can)
    case Unschedule(id) => Removed(ix, id)
  }

  function AfterOps<Id(==), S>(ix: Index<Id, S>, ops: seq<Op<Id, S>>): Index<Id, S>
    decreases |ops|
  {
    if ops == [] then ix else Apply(AfterOps(ix, ops[..|ops| - 1]), ops[|ops| - 1])
  }

  lemma {:induction false} RunKeepsLeaked<Id(!new), S>(ix: Index<Id, S>, ops: seq<Op<Id, S>>)
    requires Sound(ix)
    ensures Sound(AfterOps(ix, ops)) && Leaked(AfterOps(ix, ops)) == Leaked(ix)
    decreases |ops|
  {
    if ops != [] {
      var op, before := ops[|ops| - 1], AfterOps(ix, ops[..|ops| - 1]);
      RunKeepsLeaked(ix, ops[..|ops| - 1]);
      match op {
        case Schedule(id, schedule, can) => ScheduledKeeps(before, id, schedule, can);
        case Unschedule(id) => RemovedKeeps(before, id);
      }
    }
  }

  /** In every run of schedule and unschedule calls from a new scheduler the maps fit the cron entries. */
  lemma RunsAreConsistent<Id(!new), S>(ops: seq<Op<Id, S>>)
    ensures Consistent(AfterOps(Empty<Id, S>(), ops))
  {
    RunKeepsLeaked(Empty<Id, S>(), ops);
  }

  // ----- Which calls matter to an id -----

  predicate IsOn<Id(==), S>(op: Op<Id, S>, id: Id) {
    op.id == id
  }

  /** The calls for one id, in their order. */
  function On<Id(==), S>(ops: seq<Op<Id, S>>, id: Id): seq<Op<Id, S>>
    decreases |ops|
  {
    if ops == [] then []
    else On(ops[..|ops| - 1], id) + (if IsOn(ops[|ops| - 1], id) then [ops[|ops| - 1]] else [])
  }

  /** The two indexes agree on whether the id is scheduled, and how. */
  predicate Alike<Id(==), S(==)>(a: Index<Id, S>, b: Index<Id, S>, id: Id) {
    && (id in a.jobs <==> id in b.jobs)
    && (id in a.jobs ==> id in a.schedules && id in b.schedules && a.schedules[id] == b.schedules[id])
  }

  lemma AppliedAlike<Id, S>(a: Index<Id, S>, b: Index<Id, S>, op: Op<Id, S>, id: Id)
    requires Alike(a, b, id)
    ensures Alike(Apply(a, op), if IsOn(op, id) then Apply(b, op) else b, id)
  {
  }

  /** However the calls for different ids are interleaved, an id is scheduled by its own calls alone. */
  lemma {:induction false} OnlyItsCallsMatter<Id, S>(ix: Index<Id, S>, ops: seq<Op<Id, S>>, id: Id)
    requires id in ix.jobs ==> id in ix.schedules
    ensures Alike(AfterOps(ix, ops), AfterOps(ix, On(ops, id)), id)
    decreases |ops|
  {
    if ops != [] {
      var front, last := ops[..|ops| - 1], ops[|ops| - 1];
      OnlyItsCallsMatter(ix, front, id);
      AppliedAlike(AfterOps(ix, front), AfterOps(ix, On(front, id)), last, id);
      if IsOn(last, id) {
        assert (On(front, id) + [last])[..|On(front, id)|] == On(front, id);
      } else {
        assert On(front, id) + [] == On(front, id);
      }
    }
  }

  // ----- becomeLeader -----

  /** The first locked section puts a new cron object in place; the maps still speak of the old one. */
  function Swapped<Id(==), S>(ix: Index<Id, S>): Index<Id, S> {
    ix.(entries := map[], lastEntry := 0)
  }

  /** The second, in `rescheduleAllJobs`, empties the maps. */
  function Cleared<Id(==), S>(ix: Index<Id, S>): Index<Id, S> {
    ix.(jobs := map[], schedules := map[])
  }

  lemma {:induction false} EntryIdsBounded<Id(!new), S>(ix: Index<Id, S>, ops: seq<Op<Id, S>>)
    requires forall e | e in ix.entries :: e <= ix.lastEntry
    ensures forall e | e in AfterOps(ix, ops).entries :: e <= AfterOps(ix, ops).lastEntry
    decreases |ops|
  {
    if ops != [] { EntryIdsBounded(ix, ops[..|ops| - 1]); }
  }

  /**
    `window` is what other threads do between the two locked sections and
    `later` everything after. The entries registered in the window, and only
    those, run on unknown to the maps until the cron object is replaced; so the
    maps end up consistent exactly when the new cron object has no entry at the
    moment the maps are emptied.
    */
  lemma BecomeLeaderExact<Id(!new), S>(ix: Index<Id, S>, window: seq<Op<Id, S>>, later: seq<Op<Id, S>>)
    ensures var w := AfterOps(Swapped(ix), window); var f := AfterOps(Cleared(w), later);
            && Sound(f) && Leaked(f) == w.entries.Keys
            && (Consistent(f) <==> w.entries == map[])
  {
    var w := AfterOps(Swapped(ix), window);
    EntryIdsBounded(Swapped(ix), window);
    assert Leaked(Cleared(w)) == w.entries.Keys;
    RunKeepsLeaked(Cleared(w), later);
    assert w.entries.Keys == {} <==> w.entries == map[];
  }

  /**
    The window is real: a call that saw the leader flag up before the step-down
    schedules its job in it, the reschedule of the stored jobs adds the job
    again, and two live entries run it.
    */
  lemma ScheduleInTheWindowRunsTwice<Id(!new), S>(ix: Index<Id, S>, id: Id, schedule: S) returns (e1: nat, e2: nat)
    requires Sound(ix)
    ensures var f := AfterOps(Cleared(AfterOps(Swapped(ix), [Schedule(id, schedule, true)])), [Schedule(id, schedule, true)]);
            && e1 != e2 && e1 in f.entries && e2 in f.entries
            && f.entries[e1] == f.entries[e2] == Entry(id, schedule)
  {
    var op: Op<Id, S> := Schedule(id, schedule, true);
    assert [op][..0] == [];
    assert AfterOps(Swapped(ix), [op]) == Apply(Swapped(ix), op);
    var c := Cleared(AfterOps(Swapped(ix), [op]));
    assert AfterOps(c, [op]) == Apply(c, op);
    e1, e2 := 1, 2;
  }

  /** Nothing scheduled in the window: nothing leaks. */
  lemma {:induction false} QuietWindow<Id(!new), S>(ix: Index<Id, S>, window: seq<Op<Id, S>>)
    requires forall i | 0 <= i < |window| :: window[i].Unschedule? || !window[i].can
    ensures AfterOps(Swapped(ix), window).entries == map[]
    decreases |window|
  {
    if window != [] { QuietWindow(ix, window[..|window| - 1]); }
  }

  // ----- syncJobs -----

  /** What the store says of a job, and whether its schedule could be registered at this moment. */
  datatype Want<S> = Want(active: bool, schedule: S, can: bool)

  /** The job is already scheduled as the store wants it. */
  predicate Current<Id(==), S(==)>(ix: Index<Id, S>, want: map<Id, Want<S>>, id: Id) {
    id in want && id in ix.jobs && id in ix.schedules && ix.schedules[id] == want[id].schedule
  }

  /** The job should be scheduled when the pass ends. */
  predicate Kept<Id(==), S(==)>(ix: Index<Id, S>, want: map<Id, Want<S>>, id: Id) {
    id in want && want[id].active && (Current(ix, want, id) || want[id].can)
  }

  /** During the first loop: ids in `rest` are as before, the others are gone unless active in the store. */
  ghost predicate Pruned<Id(!new), S>(ix0: Index<Id, S>, ix: Index<Id, S>, want: map<Id, Want<S>>, rest: set<Id>) {
    && Sound(ix) && Leaked(ix) == Leaked(ix0)
    && (forall id :: id in ix.jobs <==> id in ix0.jobs && (id in rest || (id in want && want[id].active)))
    && (forall id | id in ix.jobs :: id in ix0.schedules && ix.jobs[id] == ix0.jobs[id] && ix.schedules[id] == ix0.schedules[id])
  }

  /** During the second loop: ids in `rest` are still to be looked at. */
  ghost predicate SyncedBut<Id(!new), S>(ix0: Index<Id, S>, ix: Index<Id, S>, want: map<Id, Want<S>>, rest: set<Id>) {
    && Sound(ix) && Leaked(ix) == Leaked(ix0)
    && (forall id :: id in ix.jobs <==>
          if id in rest then id in ix0.jobs && id in want && want[id].active else Kept(ix0, want, id))
    && (forall id | id in ix.jobs && id !in rest :: ix.schedules[id] == want[id].schedule)
    && (forall id | id in ix.jobs && (id in rest || Current(ix0, want, id)) ::
          id in ix0.jobs && id in ix0.schedules && ix.jobs[id] == ix0.jobs[id] && ix.schedules[id] == ix0.schedules[id])
  }

  lemma PruneStep<Id(!new), S>(ix0: Index<Id, S>, ix: Index<Id, S>, want: map<Id, Want<S>>, rest: set<Id>, id: Id)
    requires Sound(ix0) && Pruned(ix0, ix, want, rest) && id in rest && rest <= ix0.jobs.Keys
    ensures var u := if id in want && want[id].active then ix else Removed(ix, id);
            Pruned(ix0, u, want, rest - {id})
  {
    RemovedKeeps(ix, id);
  }

  lemma PruneDone<Id(!new), S>(ix0: Index<Id, S>, ix: Index<Id, S>, want: map<Id, Want<S>>)
    requires Sound(ix0) && Pruned(ix0, ix, want, {})
    ensures SyncedBut(ix0, ix, want, want.Keys)
  {
  }

  /** What the second loop does with one job of the store. */
  function SyncOne<Id(==), S(==)>(ix: Index<Id, S>, want: map<Id, Want<S>>, id: Id): Index<Id, S>
    requires id in want
  {
    if want[id].active && !(id in ix.jobs && id in ix.schedules && ix.schedules[id] == want[id].schedule)
    then Scheduled(ix, id, want[id].schedule, want[id].can)
    else ix
  }

  lemma SyncStep<Id(!new), S>(ix0: Index<Id, S>, ix: Index<Id, S>, want: map<Id, Want<S>>, rest: set<Id>, id: Id)
    requires Sound(ix0) && SyncedBut(ix0, ix, want, rest) && id in rest && rest <= want.Keys
    ensures SyncedBut(ix0, SyncOne(ix, want, id), want, rest - {id})
  {
    if SyncOne(ix, want, id) == ix {
      SyncLeaves(ix0, ix, want, rest, id);
    } else {
      SyncSchedules(ix0, ix, want, rest, id);
    }
  }

  lemma SyncLeaves<Id(!new), S>(ix0: Index<Id, S>, ix: Index<Id, S>, want: map<Id, Want<S>>, rest: set<Id>, id: Id)
    requires Sound(ix0) && SyncedBut(ix0, ix, want, rest) && id in rest && rest <= want.Keys && SyncOne(ix, want, id) == ix
    ensures SyncedBut(ix0, ix, want, rest - {id})
  {
    if want[id].active && !(id in ix.jobs && id in ix.schedules && ix.schedules[id] == want[id].schedule) {
      ScheduledKeeps(ix, id, want[id].schedule, want[id].can);
    }
  }

  lemma SyncSchedules<Id(!new), S>(ix0: Index<Id, S>, ix: Index<Id, S>, want: map<Id, Want<S>>, rest: set<Id>, id: Id)
    requires Sound(ix0) && SyncedBut(ix0, ix, want, rest) && id in rest && rest <= want.Keys && SyncOne(ix, want, id) != ix
    ensures SyncedBut(ix0, SyncOne(ix, want, id), want, rest - {id})
  {
    ScheduledKeeps(ix, id, want[id].schedule, want[id].can);
    RemovedKeeps(ix, id);
  }
}
