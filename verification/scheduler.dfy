/**
  The scheduler's methods over its maps, its cron object and the job store.
  Each method is one call that no other call interrupts; what can happen between
  the locked sections of `becomeLeader` is in EntryIndex.
  */
module CronScheduler {
  import opened Prelude
  import opened JobStore
  import opened EntryIndex

  const MAX_CRON_JOBS: nat := 100

  /** What the cron parser accepts, and which strings are RFC 3339 timestamps of which instant. */
  datatype Grammar = Grammar(cron: iset<string>, timestamps: imap<string, int>)

  /** A schedule can be registered: a cron expression that parses, or a timestamp still ahead. */
  predicate CanSchedule(g: Grammar, job: Job, now: int) {
    if job.oneShot then job.schedule in g.timestamps && now < g.timestamps[job.schedule] else job.schedule in g.cron
  }

  /** The job's NextRun once a schedule call has tried it; `cronNext` is what cron says of a new entry. */
  function NextRunAfter(g: Grammar, job: Job, now: int, cronNext: Option<int>): Option<int> {
    if job.oneShot then
      if job.schedule in g.timestamps && now <= g.timestamps[job.schedule] then Some(g.timestamps[job.schedule]) else job.nextRun
    else if job.schedule in g.cron && cronNext.Some? then cronNext
    else job.nextRun
  }

  function WantOf(g: Grammar, job: Job, now: int): Want<string> {
    Want(job.status == STATUS_ACTIVE, job.schedule, CanSchedule(g, job, now))
  }

  /** The store's jobs by id; a later one of the same id wins. */
  function ById(list: seq<Job>): (m: map<string, Job>)
    ensures forall id | id in m :: m[id] in list && m[id].id == id
  {
    if list == [] then map[] else ById(list[..|list| - 1])[list[|list| - 1].id := list[|list| - 1]]
  }

  lemma {:induction false} LastJobOfAnIdCounts(list: seq<Job>, i: nat)
    requires i < |list| && forall k | i < k < |list| :: list[k].id != list[i].id
    ensures list[i].id in ById(list) && ById(list)[list[i].id] == list[i]
  {
    if i < |list| - 1 { LastJobOfAnIdCounts(list[..|list| - 1], i); }
  }

  /** A schedule call reads the clock twice: when it checks a timestamp, and when cron asks for the next instant. */
  datatype Clock = Clock(checked: int, registered: int)

  predicate Forward(c: Clock) {
    c.checked <= c.registered
  }

  ghost function Wanted(g: Grammar, stored: map<string, Job>, clock: map<string, Clock>): map<string, Want<string>>
    requires stored.Keys <= clock.Keys
  {
    map id | id in stored :: WantOf(g, stored[id], clock[id].registered)
  }

  /** The schedule calls `rescheduleAllJobs` makes for a listing. */
  function Reschedule(g: Grammar, list: seq<Job>, clock: seq<Clock>): seq<EntryIndex.Op<string, string>>
    requires |list| <= |clock|
  {
    if list == [] then []
    else
      var n := |list| - 1;
      var rest, job := Reschedule(g, list[..n], clock), list[n];
      if job.status == STATUS_ACTIVE then rest + [Schedule(job.id, job.schedule, CanSchedule(g, job, clock[n].registered))] else rest
  }

  /** The record of a job after a run, before it is written. */
  function Ran(job: Job, now: int, next: Option<int>): Job {
    job.(lastRun := Some(now), runCount := job.runCount + 1,
         nextRun := if !job.oneShot && next.Some? then next else job.nextRun,
         status := if job.oneShot then STATUS_COMPLETED else job.status)
  }

  // ----- The calls as steps on the store and the index -----

  datatype Cron = Cron(files: Files, index: Index<string, string>)

  function Removing(c: Cron, readId: string): (r: (Cron, Option<StoreError>)) {
    match ParseReadId(readId)
    case Err(e) => (c, Some(e))
    case Ok((id, token)) =>
      (Cron(JobStore.Apply(c.files, Remove(id, token)), Removed(c.index, id)), DeleteError(c.files, id, token))
  }

  function ReadFor(c: Cron, readId: string): Result<Job, StoreError> {
    match ParseReadId(readId)
    case Err(e) => Err(e)
    case Ok((id, token)) => ReadResult(c.files, id, token)
  }

  function Pausing(c: Cron, readId: string, uuid: string): (r: (Cron, Option<StoreError>)) {
    match ReadFor(c, readId)
    case Err(e) => (c, Some(e))
    case Ok(job) => (Cron(JobStore.Apply(c.files, Put(job.(status := STATUS_PAUSED), uuid)), Removed(c.index, job.id)), None)
  }

  /** None when the read id is rejected, the job is not paused, or a leader cannot schedule it. */
  function Resuming(c: Cron, readId: string, leader: bool, g: Grammar, clock: Clock, cronNext: Option<int>, uuid: string)
    : (r: (Cron, Option<Job>))
  {
    match ReadFor(c, readId)
    case Err(_) => (c, None)
    case Ok(read) =>
      if read.status != STATUS_PAUSED then (c, None)
      else
        var job := read.(status := STATUS_ACTIVE);
        if !leader then
          (c.(files := JobStore.Apply(c.files, Put(job, uuid))), Some(Stamp(job, uuid)))
        else
          var can := CanSchedule(g, job, clock.registered);
          var next := job.(nextRun := NextRunAfter(g, job, clock.checked, cronNext));
          var index := Scheduled(c.index, job.id, job.schedule, can);
          if can then (Cron(JobStore.Apply(c.files, Put(next, uuid)), index), Some(Stamp(next, uuid))) else (c.(index := index), None)
  }

  /** Persisted first, then scheduled by a leader; a known next run is persisted by a second write. */
  function Adding(c: Cron, job: Job, leader: bool, g: Grammar, start: int, clock: Clock, cronNext: Option<int>,
                  uuid: string, uuid2: string): (r: (Cron, bool))
  {
    if |c.files| >= MAX_CRON_JOBS || !CanSchedule(g, job, start) || !ValidId(job.id) then (c, false)
    else
      var created := JobStore.Apply(c.files, Put(job, uuid));
      if !leader then (c.(files := created), true)
      else
        var next := NextRunAfter(g, job, clock.checked, cronNext);
        (Cron(if next.Some? then JobStore.Apply(created, Put(job.(nextRun := next), uuid2)) else created,
              Scheduled(c.index, job.id, job.schedule, CanSchedule(g, job, clock.registered))), true)
  }

  /** The locked section at the end of a run: whether there is a record to write, and what becomes of the index. */
  function Checked(index: Index<string, string>, job: Job, now: int, next: Option<int>): (Option<Job>, Index<string, string>) {
    (if job.id in index.jobs then Some(Ran(job, now, next)) else None,
     if job.oneShot then Removed(index, job.id) else index)
  }

  // What the calls come to, said of the job they are for.

  /** The read id has this id, and its token opens the stored job. */
  predicate Opened(c: Cron, readId: string, id: string) {
    id in c.files && c.files[id].readToken != "" && readId == id + ":" + c.files[id].readToken
  }

  predicate IsRemoved(c: Cron, d: Cron, id: string) {
    id !in d.files && d.files == c.files - {id} && id !in d.index.jobs && d.index.jobs == c.index.jobs - {id}
  }

  predicate IsPaused(c: Cron, d: Cron, id: string) {
    && id in c.files && id in d.files && d.files - {id} == c.files - {id}
    && SameJob(d.files[id], c.files[id].(status := "paused")) && d.index.jobs == c.index.jobs - {id}
  }

  predicate IsResumed(c: Cron, d: Cron, id: string) {
    && id in c.files && id in d.files && d.files - {id} == c.files - {id} && c.files[id].status == "paused"
    && SameJob(d.files[id].(nextRun := c.files[id].nextRun), c.files[id].(status := "active"))
  }

  lemma OpenedBy(c: Cron, readId: string)
    requires WellNamed(c.files) && ReadFor(c, readId).Ok?
    ensures Opened(c, readId, ReadFor(c, readId).value.id)
    ensures ReadFor(c, readId).value == c.files[ReadFor(c, readId).value.id]
  {
    ParsedReadIdIsThePrint(readId);
  }

  lemma RemovingMeans(c: Cron, readId: string)
    ensures var (d, error) := Removing(c, readId);
            error.None? ==> exists id, token :: readId == id + ":" + token && IsRemoved(c, d, id)
  {
    var (d, error) := Removing(c, readId);
    if error.None? {
      ParsedReadIdIsThePrint(readId);
      var (id, token) := ParseReadId(readId).value;
      assert readId == id + ":" + token && IsRemoved(c, d, id);
    }
  }

  lemma PausingMeans(c: Cron, readId: string, uuid: string)
    requires WellNamed(c.files)
    ensures var (d, error) := Pausing(c, readId, uuid);
            if error.Some? then d == c else exists id :: Opened(c, readId, id) && IsPaused(c, d, id)
  {
    if ReadFor(c, readId).Ok? {
      OpenedBy(c, readId);
      var id := ReadFor(c, readId).value.id;
      assert Opened(c, readId, id) && IsPaused(c, Pausing(c, readId, uuid).0, id);
    }
  }

  lemma ResumingMeans(c: Cron, readId: string, leader: bool, g: Grammar, clock: Clock, cronNext: Option<int>, uuid: string)
    requires WellNamed(c.files)
    ensures var (d, resumed) := Resuming(c, readId, leader, g, clock, cronNext, uuid);
            && (resumed.None? ==> d.files == c.files)
            && (resumed.Some? ==>
                  exists id :: Opened(c, readId, id) && IsResumed(c, d, id)
                               && if leader then id in d.index.jobs else d.index == c.index)
  {
    var (d, resumed) := Resuming(c, readId, leader, g, clock, cronNext, uuid);
    if resumed.Some? {
      OpenedBy(c, readId);
      var id := ReadFor(c, readId).value.id;
      assert Opened(c, readId, id) && IsResumed(c, d, id);
    }
  }

  method JobsById(list: seq<Job>) returns (m: map<string, Job>)
    ensures m == ById(list)
  {
    m := map[];
    for i := 0 to |list|
      invariant m == ById(list[..i])
    {
      assert list[..i + 1][..i] == list[..i];
      m := m[list[i].id := list[i]];
    }
    assert list[..|list|] == list;
  }

  class Scheduler {
    const store: Store
    var entries: map<nat, Entry<string, string>>
    var lastEntry: nat
    var jobs: map<string, nat>
    var jobSchedules: map<string, string>
    var isLeader: bool

    ghost function View(): Index<string, string>
      reads this
    {
      Index(entries, lastEntry, jobs, jobSchedules)
    }

    constructor (store: Store)
      ensures this.store == store && View() == Empty() && !isLeader
    {
      this.store := store;
      entries, lastEntry, jobs, jobSchedules, isLeader := map[], 0, map[], map[], false;
    }

    // ----- Under the lock -----

    method RemoveJobEntryLocked(id: string)
      modifies this`entries, this`jobs, this`jobSchedules
      ensures View() == Removed(old(View()), id)
    {
      if id in jobs {
        entries := entries - {jobs[id]};
        jobs := jobs - {id};
        jobSchedules := jobSchedules - {id};
      }
    }

    method RegisterEntry(job: Job)
      modifies this`entries, this`lastEntry, this`jobs, this`jobSchedules
      ensures View() == Registered(old(View()), job.id, job.schedule)
    {
      lastEntry := lastEntry + 1;
      entries := entries[lastEntry := Entry(job.id, job.schedule)];
      jobs := jobs[job.id := lastEntry];
      jobSchedules := jobSchedules[job.id := job.schedule];
    }

    /** The one-shot branch reads the clock twice and registers nothing that would not fire. */
    method ScheduleJobLocked(job: Job, g: Grammar, clock: Clock, cronNext: Option<int>)
      returns (ok: bool, nextRun: Option<int>)
      requires Forward(clock)
      modifies this`entries, this`lastEntry, this`jobs, this`jobSchedules
      ensures ok <==> CanSchedule(g, job, clock.registered)
      ensures nextRun == NextRunAfter(g, job, clock.checked, cronNext)
      ensures ok ==> if job.oneShot then job.schedule in g.timestamps && clock.registered < g.timestamps[job.schedule] else job.schedule in g.cron
      ensures !ok ==> if job.oneShot then job.schedule !in g.timestamps || g.timestamps[job.schedule] <= clock.registered else job.schedule !in g.cron
      ensures ok && job.oneShot ==> nextRun == Some(g.timestamps[job.schedule])
      ensures ok && !job.oneShot ==> nextRun == if cronNext.Some? then cronNext else job.nextRun
      ensures View() == Scheduled(old(View()), job.id, job.schedule, ok)
    {
      nextRun := job.nextRun;
      if job.id in jobs {
        RemoveJobEntryLocked(job.id);
      }
      if job.oneShot {
        if job.schedule !in g.timestamps {
          return false, nextRun;
        }
        var t := g.timestamps[job.schedule];
        if t < clock.checked {
          return false, nextRun;
        }
        nextRun := Some(t);
        if !(clock.registered < t) {
          return false, nextRun;
        }
        RegisterEntry(job);
      } else {
        if job.schedule !in g.cron {
          return false, nextRun;
        }
        RegisterEntry(job);
        if cronNext.Some? {
          nextRun := cronNext;
        }
      }
      ok := true;
    }

    // ----- Reconciling with the store -----

    /**
      A sync pass that saw a change. Afterwards the scheduled ids are exactly the
      store's active jobs that were already scheduled with the same schedule
      string or whose schedule could be registered when the pass came to them,
      each under the store's schedule string; entries of unchanged jobs stay.
      */
    method SyncJobs(list: seq<Job>, g: Grammar, clock: map<string, Clock>)
      requires Sound(View()) && forall j | j in list :: j.id in clock && Forward(clock[j.id])
      modifies this`entries, this`lastEntry, this`jobs, this`jobSchedules
      ensures var want := Wanted(g, ById(list), clock);
              && SyncedBut(old(View()), View(), want, {})
              && (forall id :: id in jobs <==> Kept(old(View()), want, id))
              && (forall id | id in jobs :: id in want && jobSchedules[id] == want[id].schedule)
      ensures Sound(View()) && Leaked(View()) == Leaked(old(View()))
    {
      var storeIds := JobsById(list);
      ghost var before, want := View(), Wanted(g, storeIds, clock);
      UnscheduleInactive(storeIds, want);
      PruneDone(before, View(), want);
      ScheduleActive(storeIds, g, clock, before);
    }

    /** The first loop: what left the store, or is not active there, is unscheduled. */
    method UnscheduleInactive(storeIds: map<string, Job>, ghost want: map<string, Want<string>>)
      requires Sound(View()) && want.Keys == storeIds.Keys
      requires forall id | id in storeIds :: want[id].active <==> storeIds[id].status == STATUS_ACTIVE
      modifies this`entries, this`jobs, this`jobSchedules
      ensures Pruned(old(View()), View(), want, {})
    {
      ghost var before := View();
      var rest := jobs.Keys;
      while rest != {}
        invariant rest <= before.jobs.Keys && Pruned(before, View(), want, rest)
        decreases |rest|
      {
        var id :| id in rest;
        PruneStep(before, View(), want, rest, id);
        if id !in storeIds || storeIds[id].status != STATUS_ACTIVE {
          RemoveJobEntryLocked(id);
        }
        rest := rest - {id};
      }
    }

    /** The second loop: new and changed active jobs are scheduled. */
    method ScheduleActive(storeIds: map<string, Job>, g: Grammar, clock: map<string, Clock>, ghost before: Index<string, string>)
      requires storeIds.Keys <= clock.Keys && Sound(before)
      requires forall id | id in storeIds :: storeIds[id].id == id && Forward(clock[id])
      requires SyncedBut(before, View(), Wanted(g, storeIds, clock), storeIds.Keys)
      modifies this`entries, this`lastEntry, this`jobs, this`jobSchedules
      ensures SyncedBut(before, View(), Wanted(g, storeIds, clock), {})
    {
      ghost var want := Wanted(g, storeIds, clock);
      var rest := storeIds.Keys;
      while rest != {}
        invariant rest <= storeIds.Keys && SyncedBut(before, View(), want, rest)
        decreases |rest|
      {
        var id :| id in rest;
        SyncStep(before, View(), want, rest, id);
        SyncOneJob(id, storeIds[id], g, clock[id], want);
        rest := rest - {id};
      }
    }

    method SyncOneJob(id: string, job: Job, g: Grammar, clock: Clock, ghost want: map<string, Want<string>>)
      requires Forward(clock) && job.id == id && jobs.Keys <= jobSchedules.Keys
      requires id in want && want[id] == WantOf(g, job, clock.registered)
      modifies this`entries, this`lastEntry, this`jobs, this`jobSchedules
      ensures View() == SyncOne(old(View()), want, id)
    {
      if job.status == STATUS_ACTIVE {
        if id !in jobs || jobSchedules[id] != job.schedule {
          var ok, next := ScheduleJobLocked(job, g, clock, None);
        }
      }
    }

    /** The first locked section of `becomeLeader`. */
    method SwapCron()
      modifies this`entries, this`lastEntry
      ensures View() == Swapped(old(View()))
    {
      entries, lastEntry := map[], 0;
    }

    /** With nothing between its locked sections. A listing that fails leaves the new leader with nothing scheduled. */
    method RescheduleAllJobs(list: Option<seq<Job>>, g: Grammar, clock: seq<Clock>)
      requires list.Some? ==> |list.value| <= |clock|
      requires forall i | 0 <= i < |clock| :: Forward(clock[i])
      modifies this`entries, this`lastEntry, this`jobs, this`jobSchedules
      ensures View() == AfterOps(Cleared(old(View())), if list.Some? then Reschedule(g, list.value, clock) else [])
    {
      jobs, jobSchedules := map[], map[];
      if list.None? {
        return;
      }
      ghost var cleared := View();
      for i := 0 to |list.value|
        invariant View() == AfterOps(cleared, Reschedule(g, list.value[..i], clock))
      {
        var job := list.value[i];
        var upTo := list.value[..i + 1];
        assert upTo[..i] == list.value[..i] && upTo[i] == job;
        if job.status == STATUS_ACTIVE {
          var ok, next := ScheduleJobLocked(job, g, clock[i], None);
          ghost var ops := Reschedule(g, list.value[..i], clock);
          ghost var op := Schedule(job.id, job.schedule, ok);
          assert (ops + [op])[..|ops|] == ops;
        }
      }
      assert list.value[..|list.value|] == list.value;
    }

    // ----- Calls from outside -----

    ghost function Both(): Cron
      reads this, store
    {
      Cron(store.files, View())
    }

    /**
      Unschedules before the token is checked: a rejected call leaves the store
      alone but stops a job that was scheduled.
      */
    method RemoveJob(readId: string) returns (error: Option<StoreError>)
      modifies this`entries, this`jobs, this`jobSchedules, store
      ensures (Both(), error) == Removing(old(Both()), readId)
      ensures error.None? ==> exists id, token :: readId == id + ":" + token && IsRemoved(old(Both()), Both(), id)
    {
      RemovingMeans(Both(), readId);
      match ParseReadId(readId) {
        case Err(e) => return Some(e);
        case Ok((id, token)) =>
          RemoveJobEntryLocked(id);
          error := store.Delete(id, token);
      }
    }

    method PauseJob(readId: string, uuid: string) returns (error: Option<StoreError>)
      requires WellNamed(store.files)
      modifies this`entries, this`jobs, this`jobSchedules, store
      ensures (Both(), error) == Pausing(old(Both()), readId, uuid)
      ensures error.Some? ==> Both() == old(Both())
      ensures error.None? ==> exists id :: Opened(old(Both()), readId, id) && IsPaused(old(Both()), Both(), id)
    {
      PausingMeans(Both(), readId, uuid);
      match ParseReadId(readId) {
        case Err(e) => return Some(e);
        case Ok((id, token)) =>
          var read := store.Read(id, token);
          if read.Err? {
            return Some(read.error);
          }
          RemoveJobEntryLocked(id);
          var updated := store.Update(read.value.(status := STATUS_PAUSED), uuid);
          error := None;
      }
    }

    method ResumeJob(readId: string, g: Grammar, clock: Clock, cronNext: Option<int>, uuid: string)
      returns (resumed: Option<Job>)
      requires WellNamed(store.files) && Forward(clock)
      modifies this`entries, this`lastEntry, this`jobs, this`jobSchedules, store
      ensures (Both(), resumed) == Resuming(old(Both()), readId, isLeader, g, clock, cronNext, uuid)
      ensures resumed.None? ==> store.files == old(store.files)
      ensures resumed.Some? ==>
                exists id :: Opened(old(Both()), readId, id) && IsResumed(old(Both()), Both(), id)
                             && if isLeader then id in Both().index.jobs else Both().index == old(Both()).index
    {
      ResumingMeans(Both(), readId, isLeader, g, clock, cronNext, uuid);
      match ParseReadId(readId) {
        case Err(_) => return None;
        case Ok((id, token)) =>
          var read := store.Read(id, token);
          if read.Err? || read.value.status != STATUS_PAUSED {
            return None;
          }
          var job := read.value.(status := STATUS_ACTIVE);
          if isLeader {
            var ok, next := ScheduleJobLocked(job, g, clock, cronNext);
            if !ok {
              return None;
            }
            job := job.(nextRun := next);
          }
          var updated := store.Update(job, uuid);
          resumed := Some(updated.value);
      }
    }

    /** The locked section after a run of a job; `next` is what cron says of its entry. */
    method UpdateLocked(job: Job, now: int, next: Option<int>) returns (record: Option<Job>)
      modifies this`entries, this`jobs, this`jobSchedules
      ensures (record, View()) == Checked(old(View()), job, now, next)
      ensures record.Some? <==> job.id in old(jobs)
      ensures job.oneShot ==> job.id !in jobs
      ensures record.Some? ==>
                var r := record.value;
                && r.lastRun == Some(now) && r.runCount == job.runCount + 1
                && r.status == (if job.oneShot then STATUS_COMPLETED else job.status)
                && r.nextRun == (if !job.oneShot && next.Some? then next else job.nextRun)
                && r.(lastRun := job.lastRun, runCount := job.runCount, status := job.status, nextRun := job.nextRun) == job
    {
      var updated := job.(lastRun := Some(now), runCount := job.runCount + 1);
      var stillScheduled := job.id in jobs;
      if !job.oneShot {
        if stillScheduled && next.Some? {
          updated := updated.(nextRun := next);
        }
      } else {
        updated := updated.(status := STATUS_COMPLETED);
        RemoveJobEntryLocked(job.id);
      }
      record := if stillScheduled then Some(updated) else None;
    }

    /** The write comes after the unlock, so CronRuns lets other steps come between. */
    method UpdateAndPersistJob(job: Job, now: int, next: Option<int>, uuid: string) returns (stillScheduled: bool)
      modifies this`entries, this`jobs, this`jobSchedules, store
      ensures var (record, index) := Checked(old(View()), job, now, next);
              && stillScheduled == record.Some? && View() == index
              && store.files == if record.Some? then JobStore.Apply(old(store.files), Put(record.value, uuid)) else old(store.files)
    {
      var toUpdate := UpdateLocked(job, now, next);
      stillScheduled := toUpdate.Some?;
      if stillScheduled {
        var written := store.Update(toUpdate.value, uuid);
      }
    }

    method AddJob(job: Job, g: Grammar, start: int, clock: Clock, cronNext: Option<int>, uuid: string, uuid2: string)
      returns (added: bool)
      requires Forward(clock)
      modifies this`entries, this`lastEntry, this`jobs, this`jobSchedules, store
      ensures (Both(), added) == Adding(old(Both()), job, isLeader, g, start, clock, cronNext, uuid, uuid2)
      ensures added <==> |old(store.files)| < 100 && ValidId(job.id)
                         && if job.oneShot then job.schedule in g.timestamps && start < g.timestamps[job.schedule] else job.schedule in g.cron
      ensures added ==> job.id in store.files && store.files - {job.id} == old(store.files) - {job.id}
      ensures added ==> SameJob(store.files[job.id].(nextRun := job.nextRun), job)
      ensures added && isLeader && job.id in jobs && cronNext.Some? && !job.oneShot ==> store.files[job.id].nextRun == cronNext
      ensures !added || !isLeader ==> View() == old(View())
    {
      if |store.files| >= MAX_CRON_JOBS || !CanSchedule(g, job, start) {
        return false;
      }
      var created := store.Create(job, uuid);
      if created.Err? {
        return false;
      }
      if isLeader {
        var ok, next := ScheduleJobLocked(job, g, clock, cronNext);
        if next.Some? {
          var updated := store.Update(job.(nextRun := next), uuid2);
        }
      }
      added := true;
    }
  }

  /**
    A RemoveJob that returns an error changes nothing exactly when its read id does
    not parse or the job was not scheduled here.
    */
  lemma RejectedRemoveChangesNothingExactly(c: Cron, readId: string)
    requires Removing(c, readId).1.Some?
    ensures Removing(c, readId).0.files == c.files
    ensures Removing(c, readId).0 == c
            <==> ParseReadId(readId).Err? || ParseReadId(readId).value.0 !in c.index.jobs
  {
    if ParseReadId(readId).Ok? {
      var id := ParseReadId(readId).value.0;
      assert id in c.index.jobs ==> id !in Removed(c.index, id).jobs;
    }
  }

  /** The failing input: a stored and scheduled job, and a read id with an old token. */
  lemma OldTokenUnschedules(c: Cron, id: string, oldToken: string)
    requires WellNamed(c.files) && id in c.files && id in c.index.jobs
    requires oldToken != "" && oldToken != c.files[id].readToken
    ensures var (after, error) := Removing(c, id + ":" + oldToken);
            error == Some(Modified) && after.files == c.files && id in after.files && id !in after.index.jobs
  {
    ReadIdRoundTrip(Stamp(c.files[id], oldToken));
  }

  /**
    `becomeLeader` with the store listed as `list`. Each schedule call for a listed
    job takes the lock anew, so `later` is what they and the calls of other threads
    come to in any interleaving. After a quiet window the maps are consistent, and
    an id for which no other call came is scheduled exactly when the last active
    job with that id in the listing could be registered.
    */
  lemma BecomeLeaderSchedulesTheStore(ix: Index<string, string>, window: seq<EntryIndex.Op<string, string>>,
                                      later: seq<EntryIndex.Op<string, string>>, g: Grammar, list: seq<Job>, clock: seq<Clock>)
    requires AfterOps(Swapped(ix), window).entries == map[] && |list| <= |clock|
    ensures var f := AfterOps(Cleared(AfterOps(Swapped(ix), window)), later);
            && Consistent(f)
            && forall id | On(later, id) == On(Reschedule(g, list, clock), id) :: id in f.jobs <==> Scheduling(g, list, clock, id)
  {
    var cleared := Cleared(AfterOps(Swapped(ix), window));
    BecomeLeaderExact(ix, window, later);
    RescheduledIds(cleared, g, list, clock);
    forall id | On(later, id) == On(Reschedule(g, list, clock), id)
      ensures id in AfterOps(cleared, later).jobs <==> Scheduling(g, list, clock, id)
    {
      OnlyItsCallsMatter(cleared, later, id);
      OnlyItsCallsMatter(cleared, Reschedule(g, list, clock), id);
    }
  }

  /** The last active job with this id in the listing has a schedule that can be registered. */
  predicate Scheduling(g: Grammar, list: seq<Job>, clock: seq<Clock>, id: string)
    requires |list| <= |clock|
  {
    if list == [] then false
    else
      var n := |list| - 1;
      if list[n].id == id && list[n].status == STATUS_ACTIVE then CanSchedule(g, list[n], clock[n].registered)
      else Scheduling(g, list[..n], clock, id)
  }

  lemma {:induction false} RescheduledIds(ix: Index<string, string>, g: Grammar, list: seq<Job>, clock: seq<Clock>)
    requires ix.jobs == map[] && Sound(ix) && |list| <= |clock|
    ensures forall id :: id in AfterOps(ix, Reschedule(g, list, clock)).jobs <==> Scheduling(g, list, clock, id)
    decreases |list|
  {
    if list != [] {
      var n := |list| - 1;
      RescheduledIds(ix, g, list[..n], clock);
      if list[n].status == STATUS_ACTIVE {
        var ops := Reschedule(g, list[..n], clock);
        var can := CanSchedule(g, list[n], clock[n].registered);
        var op := Schedule(list[n].id, list[n].schedule, can);
        assert (ops + [op])[..|ops|] == ops;
        RunKeepsLeaked(ix, ops);
        ScheduledJobs(AfterOps(ix, ops), list[n].id, list[n].schedule, can);
      }
    }
  }

  lemma ScheduledJobs<Id(!new), S>(ix: Index<Id, S>, id: Id, schedule: S, can: bool)
    requires Sound(ix)
    ensures forall other :: other in Scheduled(ix, id, schedule, can).jobs <==> if other == id then can else other in ix.jobs
  {
  }
}
