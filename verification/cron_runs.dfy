/**
  Runs of a leading scheduler among other processes. Every call is a thread that
  takes its accesses to the job files and its locked sections one by one, and
  the steps of other threads, of jobs that run, and other processes' writes may
  come between any two of them.
  */
module CronRuns {
  import opened Prelude
  import opened JobStore
  import opened EntryIndex
  import opened CronScheduler

  /** What a thread has still to do. */
  datatype Thread =
    | Fired(id: string)                    // a job's run: read the job
    | Running(job: Job)                    // ... then check that it is still scheduled
    | Listing(listed: map<string, Job>)    // a sync: read more files, or apply what was read
    | Creating(job: Job)                   // AddJob: write the new job
    | SchedulingNew(job: Job)              // ... then schedule it
    | Deleting(id: string, token: string)  // RemoveJob, after it unscheduled the job: check the token
    | Unlinking(id: string)                // ... then delete the file
    | Unscheduling(job: Job)               // PauseJob, after it read the job
    | SchedulingResumed(job: Job)          // ResumeJob, after it read the job
    | Writing(job: Job)                    // the last step of a run, PauseJob, ResumeJob or AddJob
    | Ended

  datatype State = State(cron: Cron, threads: map<nat, Thread>)

  datatype Op =
    | Fire(t: nat, id: string)
    | Load(t: nat)
    | Check(t: nat, now: int, next: Option<int>)
    | StartSync(t: nat)
    | ReadFile(t: nat, id: string)
    | ApplySync(t: nat, g: Grammar, clocks: map<string, Clock>)
    | AddJob(t: nat, job: Job, g: Grammar, start: int)
    | Create(t: nat, uuid: string, leads: bool)
    | RemoveJob(t: nat, readId: string)
    | Verify(t: nat)
    | Unlink(t: nat)
    | PauseJob(t: nat, readId: string)
    | TakeOff(t: nat)
    | ResumeJob(t: nat, readId: string, leads: bool)
    | PutOn(t: nat, g: Grammar, clock: Clock, cronNext: Option<int>)
    | Write(t: nat, uuid: string)
    | Elsewhere(change: JobStore.Op)

  /** What a step does to the store or the index. */
  datatype Change =
    | Nothing
    | Stored(change: JobStore.Op)
    | Unscheduled(id: string)
    | Rescheduled(job: Job, can: bool)
    | Synced(listed: map<string, Job>, g: Grammar, clocks: map<string, Clock>)

  // ----- Steps -----

  predicate Enabled(s: State, op: Op) {
    match op
    case Fire(t, _) => t !in s.threads
    case Load(t) => t in s.threads && s.threads[t].Fired?
    case Check(t, _, _) => t in s.threads && s.threads[t].Running?
    case StartSync(t) => t !in s.threads
    case ReadFile(t, id) => t in s.threads && s.threads[t].Listing? && id in s.cron.files
    case ApplySync(t, _, clocks) => t in s.threads && s.threads[t].Listing? && s.threads[t].listed.Keys <= clocks.Keys
    case AddJob(t, _, _, _) => t !in s.threads
    case Create(t, _, _) => t in s.threads && s.threads[t].Creating?
    case RemoveJob(t, _) => t !in s.threads
    case Verify(t) => t in s.threads && s.threads[t].Deleting?
    case Unlink(t) => t in s.threads && s.threads[t].Unlinking?
    case PauseJob(t, _) => t !in s.threads
    case TakeOff(t) => t in s.threads && s.threads[t].Unscheduling?
    case ResumeJob(t, _, _) => t !in s.threads
    case PutOn(t, _, _, _) => t in s.threads && (s.threads[t].SchedulingNew? || s.threads[t].SchedulingResumed?)
    case Write(t, _) => t in s.threads && s.threads[t].Writing?
    case Elsewhere(_) => true
  }

  /** What becomes of the thread that takes the step. */
  function Next(s: State, op: Op): Thread
    requires Enabled(s, op)
  {
    match op
    case Fire(_, id) => if id in s.cron.index.jobs then Fired(id) else Ended
    case Load(t) => (match ReadResult(s.cron.files, s.threads[t].id, "") case Ok(job) => Running(job) case Err(_) => Ended)
    case Check(t, now, next) =>
      (match Checked(s.cron.index, s.threads[t].job, now, next).0 case Some(record) => Writing(record) case None => Ended)
    case StartSync(_) => Listing(map[])
    case ReadFile(t, id) => Listing(s.threads[t].listed[id := s.cron.files[id]])
    case ApplySync(_, _, _) => Ended
    case AddJob(_, job, g, start) =>
      if |s.cron.files| < MAX_CRON_JOBS && CanSchedule(g, job, start) then Creating(job) else Ended
    case Create(t, _, leads) => if ValidId(s.threads[t].job.id) && leads then SchedulingNew(s.threads[t].job) else Ended
    case RemoveJob(_, readId) => (match ParseReadId(readId) case Ok((id, token)) => Deleting(id, token) case Err(_) => Ended)
    case Verify(t) =>
      if DeleteError(s.cron.files, s.threads[t].id, s.threads[t].token).None? then Unlinking(s.threads[t].id) else Ended
    case Unlink(_) => Ended
    case PauseJob(_, readId) => (match ReadFor(s.cron, readId) case Ok(job) => Unscheduling(job) case Err(_) => Ended)
    case TakeOff(t) => Writing(s.threads[t].job.(status := STATUS_PAUSED))
    case ResumeJob(_, readId, leads) =>
      (match ReadFor(s.cron, readId)
       case Err(_) => Ended
       case Ok(read) =>
         if read.status != STATUS_PAUSED then Ended
         else if leads then SchedulingResumed(read.(status := STATUS_ACTIVE))
         else Writing(read.(status := STATUS_ACTIVE)))
    case PutOn(t, g, clock, cronNext) =>
      var job := s.threads[t].job;
      var next := NextRunAfter(g, job, clock.checked, cronNext);
      if s.threads[t].SchedulingNew? then (if next.Some? then Writing(job.(nextRun := next)) else Ended)
      else if CanSchedule(g, job, clock.registered) then Writing(job.(nextRun := next))
      else Ended
    case Write(_, _) => Ended
    case Elsewhere(_) => Ended
  }

  function ThreadsAfter(s: State, op: Op): map<nat, Thread>
    requires Enabled(s, op)
  {
    if op.Elsewhere? then s.threads else s.threads[op.t := Next(s, op)]
  }

  function ChangeOf(s: State, op: Op): Change
    requires Enabled(s, op)
  {
    match op
    case Check(t, _, _) => if s.threads[t].job.oneShot then Unscheduled(s.threads[t].job.id) else Nothing
    case ApplySync(t, g, clocks) => Synced(s.threads[t].listed, g, clocks)
    case Create(t, uuid, _) => Stored(Put(s.threads[t].job, uuid))
    case RemoveJob(_, readId) => (match ParseReadId(readId) case Ok((id, _)) => Unscheduled(id) case Err(_) => Nothing)
    case Unlink(t) => Stored(Remove(s.threads[t].id, ""))
    case TakeOff(t) => Unscheduled(s.threads[t].job.id)
    case PutOn(t, g, clock, _) => Rescheduled(s.threads[t].job, CanSchedule(g, s.threads[t].job, clock.registered))
    case Write(t, uuid) => Stored(Put(s.threads[t].job, uuid))
    case Elsewhere(change) => Stored(change)
    case _ => Nothing
  }

  ghost predicate Changes(c: Cron, change: Change, d: Cron) {
    match change
    case Nothing => d == c
    case Stored(op) => d == c.(files := JobStore.Apply(c.files, op))
    case Unscheduled(id) => d == c.(index := Removed(c.index, id))
    case Rescheduled(job, can) => d == c.(index := Scheduled(c.index, job.id, job.schedule, can))
    case Synced(listed, g, clocks) =>
      listed.Keys <= clocks.Keys && d.files == c.files && SyncedBut(c.index, d.index, Wanted(g, listed, clocks), {})
  }

  ghost predicate Step(s: State, op: Op, u: State) {
    Enabled(s, op) && u.threads == ThreadsAfter(s, op) && Changes(s.cron, ChangeOf(s, op), u.cron)
  }

  ghost predicate Run(ss: seq<State>, ops: seq<Op>) {
    |ss| == |ops| + 1 && forall i | 0 <= i < |ops| :: Step(ss[i], ops[i], ss[i + 1])
  }

  // ----- What every step keeps -----

  predicate Valid(t: Thread) {
    match t
    case Running(job) => ValidId(job.id)
    case Unlinking(id) => ValidId(id)
    case SchedulingNew(job) => ValidId(job.id)
    case Unscheduling(job) => ValidId(job.id)
    case SchedulingResumed(job) => ValidId(job.id)
    case Writing(job) => ValidId(job.id)
    case _ => true
  }

  ghost predicate Base(s: State) {
    Sound(s.cron.index) && WellNamed(s.cron.files) && forall t | t in s.threads :: Valid(s.threads[t])
  }

  lemma ChangeKeepsBase(c: Cron, change: Change, d: Cron)
    requires Sound(c.index) && WellNamed(c.files) && Changes(c, change, d)
    ensures Sound(d.index) && WellNamed(d.files)
  {
    match change {
      case Stored(op) => ApplyKeepsWellNamed(c.files, op);
      case Unscheduled(id) => RemovedKeeps(c.index, id);
      case Rescheduled(job, can) => ScheduledKeeps(c.index, job.id, job.schedule, can);
      case _ =>
    }
  }

  lemma NextIsValid(s: State, op: Op)
    requires Base(s) && Enabled(s, op)
    ensures Valid(Next(s, op))
  {
  }

  lemma StepKeepsBase(s: State, op: Op, u: State)
    requires Base(s) && Step(s, op, u)
    ensures Base(u)
  {
    ChangeKeepsBase(s.cron, ChangeOf(s, op), u.cron);
    NextIsValid(s, op);
  }

  lemma {:induction false} RunKeepsBase(ss: seq<State>, ops: seq<Op>, n: nat)
    requires Run(ss, ops) && Base(ss[0]) && n <= |ops|
    ensures Base(ss[n])
  {
    if n > 0 {
      RunKeepsBase(ss, ops, n - 1);
      assert Step(ss[n - 1], ops[n - 1], ss[n]);
      StepKeepsBase(ss[n - 1], ops[n - 1], ss[n]);
    }
  }

  // ----- Scheduled means active in the store -----

  predicate IsActive(job: Job) {
    job.status == STATUS_ACTIVE
  }

  /** The job could be what the index has scheduled under the id. */
  predicate Fits(index: Index<string, string>, id: string, job: Job) {
    IsActive(job) && id in index.schedules && job.schedule == index.schedules[id]
  }

  /** If the id is scheduled, it is an active stored job under the stored schedule string. */
  predicate Mirrored(c: Cron, id: string) {
    id in c.index.jobs ==> id in c.files && Fits(c.index, id, c.files[id])
  }

  ghost predicate Mirrors(c: Cron) {
    forall id :: Mirrored(c, id)
  }

  /** The id is stored as an active job with this schedule string. */
  predicate StoredActive(files: Files, id: string, schedule: string) {
    id in files && IsActive(files[id]) && files[id].schedule == schedule
  }

  /** The change writes the id's file, or sets or removes its entry. */
  predicate Concerns(c: Cron, change: Change, id: string) {
    match change
    case Nothing => false
    case Stored(op) =>
      (match op
       case Put(job, _) => job.id == id && ValidId(id)
       case Refresh(_, _) => false
       case Remove(i, token) => i == id && DeleteError(c.files, id, token).None?)
    case Unscheduled(i) => i == id
    case Rescheduled(job, _) => job.id == id
    case Synced(_, _, _) => true
  }

  /**
    What a change that concerns the id must find for the id to be mirrored after
    it. A write must fit what is scheduled, a deletion must find nothing scheduled,
    and what is scheduled, alone or by a sync, must be what the store has at that
    moment.
    */
  ghost predicate Finds(c: Cron, change: Change, id: string)
    requires Concerns(c, change, id) && (change.Synced? ==> change.listed.Keys <= change.clocks.Keys)
  {
    match change
    case Stored(op) => id in c.index.jobs ==> op.Put? && Fits(c.index, id, op.job)
    case Unscheduled(_) => true
    case Rescheduled(job, can) => can ==> StoredActive(c.files, id, job.schedule)
    case Synced(listed, g, clocks) =>
      Kept(c.index, Wanted(g, listed, clocks), id) ==> StoredActive(c.files, id, listed[id].schedule)
  }

  lemma StoredMirrorsExactly(c: Cron, op: JobStore.Op, id: string)
    requires WellNamed(c.files)
    ensures var d := c.(files := JobStore.Apply(c.files, op));
            Mirrored(d, id) <==> if Concerns(c, Stored(op), id) then Finds(c, Stored(op), id) else Mirrored(c, id)
  {
  }

  lemma IndexMirrorsExactly(c: Cron, change: Change, d: Cron, id: string)
    requires Sound(c.index) && Changes(c, change, d) && (change.Unscheduled? || change.Rescheduled?)
    ensures Mirrored(d, id) <==> if Concerns(c, change, id) then Finds(c, change, id) else Mirrored(c, id)
  {
  }

  lemma SyncMirrorsExactly(c: Cron, change: Change, d: Cron, id: string)
    requires Changes(c, change, d) && change.Synced?
    ensures Mirrored(d, id) <==> Finds(c, change, id)
  {
    var want := Wanted(change.g, change.listed, change.clocks);
    assert id in d.index.jobs <==> Kept(c.index, want, id);
    assert id in d.index.jobs ==> d.index.schedules[id] == want[id].schedule;
  }

  /** From any state: after a change an id is mirrored exactly when the change found what it must, or did not concern the id. */
  lemma ChangeMirrorsExactly(c: Cron, change: Change, d: Cron, id: string)
    requires Sound(c.index) && WellNamed(c.files) && Changes(c, change, d)
    ensures Mirrored(d, id) <==> if Concerns(c, change, id) then Finds(c, change, id) else Mirrored(c, id)
  {
    match change {
      case Nothing =>
      case Stored(op) => StoredMirrorsExactly(c, op, id);
      case Synced(_, _, _) => SyncMirrorsExactly(c, change, d, id);
      case _ => IndexMirrorsExactly(c, change, d, id);
    }
  }

  // ----- Over runs -----

  ghost predicate ConcernsAt(ss: seq<State>, ops: seq<Op>, k: nat, id: string)
    requires k < |ops| < |ss|
  {
    Enabled(ss[k], ops[k]) && Concerns(ss[k].cron, ChangeOf(ss[k], ops[k]), id)
  }

  ghost predicate FindsAt(ss: seq<State>, ops: seq<Op>, k: nat, id: string)
    requires k < |ops| < |ss| && ConcernsAt(ss, ops, k, id)
  {
    Finds(ss[k].cron, ChangeOf(ss[k], ops[k]), id)
  }

  /** The last of the first n steps that concerns the id. */
  ghost function LastConcern(ss: seq<State>, ops: seq<Op>, n: nat, id: string): (k: Option<nat>)
    requires n <= |ops| < |ss|
    ensures k.Some? ==> k.value < n && ConcernsAt(ss, ops, k.value, id)
    ensures forall j: nat | j < n && (k.Some? ==> k.value < j) :: !ConcernsAt(ss, ops, j, id)
  {
    if n == 0 then None else if ConcernsAt(ss, ops, n - 1, id) then Some(n - 1) else LastConcern(ss, ops, n - 1, id)
  }

  /**
    At every moment of every run, a scheduled id is an active stored job under the
    stored schedule exactly when the last step that concerned it found what it
    must; whatever came before that step does not matter.
    */
  lemma {:induction false} MirroredByTheLastConcern(ss: seq<State>, ops: seq<Op>, n: nat, id: string)
    requires Run(ss, ops) && Base(ss[0]) && n <= |ops|
    ensures Mirrored(ss[n].cron, id)
            <==> match LastConcern(ss, ops, n, id)
                 case None => Mirrored(ss[0].cron, id)
                 case Some(k) => FindsAt(ss, ops, k, id)
  {
    if n > 0 {
      MirroredByTheLastConcern(ss, ops, n - 1, id);
      StepMirrorsExactly(ss, ops, n - 1, id);
    }
  }

  lemma StepMirrorsExactly(ss: seq<State>, ops: seq<Op>, k: nat, id: string)
    requires Run(ss, ops) && Base(ss[0]) && k < |ops|
    ensures Mirrored(ss[k + 1].cron, id)
            <==> if ConcernsAt(ss, ops, k, id) then FindsAt(ss, ops, k, id) else Mirrored(ss[k].cron, id)
  {
    RunKeepsBase(ss, ops, k);
    assert Step(ss[k], ops[k], ss[k + 1]);
    ChangeMirrorsExactly(ss[k].cron, ChangeOf(ss[k], ops[k]), ss[k + 1].cron, id);
  }

  /** So every scheduled id is one all the time exactly when every step finds what it must. */
  lemma ScheduledAreActiveAndStoredExactly(ss: seq<State>, ops: seq<Op>)
    requires Run(ss, ops) && Base(ss[0]) && Mirrors(ss[0].cron)
    ensures (forall n: nat | n <= |ops| :: Mirrors(ss[n].cron))
            <==> (forall k: nat, id | k < |ops| && ConcernsAt(ss, ops, k, id) :: FindsAt(ss, ops, k, id))
  {
    if forall k: nat, id | k < |ops| && ConcernsAt(ss, ops, k, id) :: FindsAt(ss, ops, k, id) {
      forall n: nat, id | n <= |ops| ensures Mirrored(ss[n].cron, id) {
        MirroredByTheLastConcern(ss, ops, n, id);
        assert Mirrored(ss[0].cron, id);
      }
      forall n: nat | n <= |ops| ensures Mirrors(ss[n].cron) { }
    } else {
      var k: nat, id :| k < |ops| && ConcernsAt(ss, ops, k, id) && !FindsAt(ss, ops, k, id);
      StepMirrorsExactly(ss, ops, k, id);
      assert !Mirrored(ss[k + 1].cron, id);
    }
  }

  // ----- Calls that nothing interrupts -----

  /** A step keeps the mirror when it finds what it must for every id it concerns. */
  lemma StepMirrors(s: State, op: Op, u: State)
    requires Base(s) && Step(s, op, u) && Mirrors(s.cron)
    requires forall id | Concerns(s.cron, ChangeOf(s, op), id) :: Finds(s.cron, ChangeOf(s, op), id)
    ensures Base(u) && Mirrors(u.cron)
  {
    StepKeepsBase(s, op, u);
    forall id ensures Mirrored(u.cron, id) {
      assert Mirrored(s.cron, id);
      ChangeMirrorsExactly(s.cron, ChangeOf(s, op), u.cron, id);
    }
  }

  // What the single steps do.

  lemma WriteDoes(s: State, t: nat, uuid: string, u: State)
    requires Step(s, Write(t, uuid), u)
    ensures t in s.threads && s.threads[t].Writing?
    ensures u.cron == s.cron.(files := JobStore.Apply(s.cron.files, Put(s.threads[t].job, uuid)))
  {
  }

  lemma CheckDoes(s: State, t: nat, now: int, next: Option<int>, u: State)
    requires Step(s, Check(t, now, next), u)
    ensures t in s.threads && s.threads[t].Running? && t in u.threads
    ensures var (record, index) := Checked(s.cron.index, s.threads[t].job, now, next);
            && u.cron == s.cron.(index := index)
            && u.threads[t] == match record case Some(job) => Writing(job) case None => Ended
  {
  }

  lemma TakeOffDoes(s: State, t: nat, u: State)
    requires Step(s, TakeOff(t), u)
    ensures t in s.threads && s.threads[t].Unscheduling?
    ensures t in u.threads && u.threads[t] == Writing(s.threads[t].job.(status := STATUS_PAUSED))
    ensures u.cron == s.cron.(index := Removed(s.cron.index, s.threads[t].job.id))
  {
  }

  lemma PutOnDoes(s: State, t: nat, g: Grammar, clock: Clock, cronNext: Option<int>, u: State)
    requires Step(s, PutOn(t, g, clock, cronNext), u)
    ensures t in s.threads && (s.threads[t].SchedulingNew? || s.threads[t].SchedulingResumed?)
    ensures var job := s.threads[t].job;
            var can, next := CanSchedule(g, job, clock.registered), NextRunAfter(g, job, clock.checked, cronNext);
            && u.cron == s.cron.(index := Scheduled(s.cron.index, job.id, job.schedule, can))
            && t in u.threads
            && u.threads[t] == if (if s.threads[t].SchedulingNew? then next.Some? else can) then Writing(job.(nextRun := next)) else Ended
  {
  }

  lemma PauseReads(s: State, t: nat, readId: string, u: State)
    requires Step(s, PauseJob(t, readId), u)
    ensures u.cron == s.cron && t in u.threads
    ensures u.threads[t] == match ReadFor(s.cron, readId) case Ok(job) => Unscheduling(job) case Err(_) => Ended
  {
  }

  lemma RemoveReads(s: State, t: nat, readId: string, u: State)
    requires Step(s, RemoveJob(t, readId), u)
    ensures t in u.threads
    ensures match ParseReadId(readId)
            case Ok((id, token)) => u.cron == s.cron.(index := Removed(s.cron.index, id)) && u.threads[t] == Deleting(id, token)
            case Err(_) => u.cron == s.cron && u.threads[t] == Ended
  {
  }

  lemma VerifyDoes(s: State, t: nat, u: State)
    requires Step(s, Verify(t), u)
    ensures t in s.threads && s.threads[t].Deleting? && t in u.threads && u.cron == s.cron
    ensures u.threads[t] == if DeleteError(s.cron.files, s.threads[t].id, s.threads[t].token).None? then Unlinking(s.threads[t].id)
                            else Ended
  {
  }

  lemma UnlinkDoes(s: State, t: nat, u: State)
    requires Step(s, Unlink(t), u)
    ensures t in s.threads && s.threads[t].Unlinking?
    ensures u.cron == s.cron.(files := JobStore.Apply(s.cron.files, Remove(s.threads[t].id, "")))
  {
  }

  lemma ResumeReads(s: State, t: nat, readId: string, u: State)
    requires Step(s, ResumeJob(t, readId, true), u)
    ensures u.cron == s.cron && t in u.threads
    ensures u.threads[t] == match ReadFor(s.cron, readId)
                            case Ok(job) => if job.status == STATUS_PAUSED then SchedulingResumed(job.(status := STATUS_ACTIVE)) else Ended
                            case Err(_) => Ended
  {
  }

  lemma AddChecks(s: State, t: nat, job: Job, g: Grammar, start: int, u: State)
    requires Step(s, AddJob(t, job, g, start), u)
    ensures u.cron == s.cron && t in u.threads
    ensures u.threads[t] == if |s.cron.files| < MAX_CRON_JOBS && CanSchedule(g, job, start) then Creating(job) else Ended
  {
  }

  lemma CreateDoes(s: State, t: nat, uuid: string, leads: bool, u: State)
    requires Step(s, Create(t, uuid, leads), u)
    ensures t in s.threads && s.threads[t].Creating? && t in u.threads
    ensures u.cron == s.cron.(files := JobStore.Apply(s.cron.files, Put(s.threads[t].job, uuid)))
    ensures u.threads[t] == if ValidId(s.threads[t].job.id) && leads then SchedulingNew(s.threads[t].job) else Ended
  {
  }

  // In one go the steps of a call are the call of CronScheduler, wherever it ends.

  /** The check and the record of a job's run are those of UpdateAndPersistJob. */
  lemma RecordInOneGo(s: State, u: State, v: State, t: nat, now: int, next: Option<int>, uuid: string)
    requires Step(s, Check(t, now, next), u) && Step(u, Write(t, uuid), v)
    ensures var (record, index) := Checked(s.cron.index, s.threads[t].job, now, next);
            && record.Some?
            && v.cron == Cron(JobStore.Apply(s.cron.files, Put(record.value, uuid)), index)
  {
    CheckDoes(s, t, now, next, u);
    WriteDoes(u, t, uuid, v);
  }

  lemma RecordEndsAtTheCheck(s: State, u: State, t: nat, now: int, next: Option<int>)
    requires Step(s, Check(t, now, next), u) && u.threads[t] == Ended
    ensures var (record, index) := Checked(s.cron.index, s.threads[t].job, now, next);
            record.None? && u.cron == Cron(s.cron.files, index)
  {
    CheckDoes(s, t, now, next, u);
  }


  lemma PauseInOneGo(s: State, u: State, v: State, w: State, t: nat, readId: string, uuid: string)
    requires Base(s) && Step(s, PauseJob(t, readId), u) && Step(u, TakeOff(t), v) && Step(v, Write(t, uuid), w)
    ensures w.cron == Pausing(s.cron, readId, uuid).0
  {
    PauseReads(s, t, readId, u);
    TakeOffDoes(u, t, v);
    WriteDoes(v, t, uuid, w);
  }

  lemma PauseEndsAtOnce(s: State, u: State, t: nat, readId: string, uuid: string)
    requires Base(s) && Step(s, PauseJob(t, readId), u) && u.threads[t] == Ended
    ensures u.cron == Pausing(s.cron, readId, uuid).0
  {
    PauseReads(s, t, readId, u);
  }

  lemma PauseMirrors(s: State, u: State, v: State, w: State, t: nat, readId: string, uuid: string)
    requires Base(s) && Mirrors(s.cron)
    requires Step(s, PauseJob(t, readId), u) && Step(u, TakeOff(t), v) && Step(v, Write(t, uuid), w)
    ensures Mirrors(w.cron)
  {
    StepMirrors(s, PauseJob(t, readId), u);
    StepMirrors(u, TakeOff(t), v);
    StepMirrors(v, Write(t, uuid), w);
  }

  lemma RemoveInOneGo(s: State, u: State, v: State, w: State, t: nat, readId: string)
    requires Base(s) && Step(s, RemoveJob(t, readId), u) && Step(u, Verify(t), v) && Step(v, Unlink(t), w)
    ensures w.cron == Removing(s.cron, readId).0
  {
    RemoveReads(s, t, readId, u);
    VerifyDoes(u, t, v);
    UnlinkDoes(v, t, w);
  }

  lemma RemoveEndsRejected(s: State, u: State, v: State, t: nat, readId: string)
    requires Base(s) && Step(s, RemoveJob(t, readId), u) && Step(u, Verify(t), v) && v.threads[t] == Ended
    ensures v.cron == Removing(s.cron, readId).0
  {
    RemoveReads(s, t, readId, u);
    VerifyDoes(u, t, v);
  }

  lemma RemoveEndsAtOnce(s: State, u: State, t: nat, readId: string)
    requires Base(s) && Step(s, RemoveJob(t, readId), u) && u.threads[t] == Ended
    ensures u.cron == Removing(s.cron, readId).0
  {
    RemoveReads(s, t, readId, u);
  }

  lemma RemoveMirrors(s: State, u: State, v: State, w: State, t: nat, readId: string)
    requires Base(s) && Mirrors(s.cron) && Step(s, RemoveJob(t, readId), u) && Step(u, Verify(t), v) && Step(v, Unlink(t), w)
    ensures Mirrors(w.cron)
  {
    StepMirrors(s, RemoveJob(t, readId), u);
    RemoveReads(s, t, readId, u);
    VerifyDoes(u, t, v);
    StepMirrors(u, Verify(t), v);
    TakenOff(s.cron.index, v.threads[t].id);
    StepMirrors(v, Unlink(t), w);
  }

  lemma TakenOff(index: Index<string, string>, id: string)
    requires Sound(index)
    ensures id !in Removed(index, id).jobs
  {
  }

  lemma ResumeInOneGo(s: State, u: State, v: State, w: State, t: nat, readId: string, g: Grammar, clock: Clock,
                      cronNext: Option<int>, uuid: string)
    requires Base(s) && Step(s, ResumeJob(t, readId, true), u)
    requires Step(u, PutOn(t, g, clock, cronNext), v) && Step(v, Write(t, uuid), w)
    ensures w.cron == Resuming(s.cron, readId, true, g, clock, cronNext, uuid).0
  {
    ResumeReads(s, t, readId, u);
    PutOnDoes(u, t, g, clock, cronNext, v);
    WriteDoes(v, t, uuid, w);
  }

  lemma ResumeEndsUnscheduled(s: State, u: State, v: State, t: nat, readId: string, g: Grammar, clock: Clock,
                              cronNext: Option<int>, uuid: string)
    requires Base(s) && Step(s, ResumeJob(t, readId, true), u)
    requires Step(u, PutOn(t, g, clock, cronNext), v) && v.threads[t] == Ended
    ensures v.cron == Resuming(s.cron, readId, true, g, clock, cronNext, uuid).0
  {
    ResumeReads(s, t, readId, u);
    PutOnDoes(u, t, g, clock, cronNext, v);
  }

  lemma ResumeEndsAtOnce(s: State, u: State, t: nat, readId: string, g: Grammar, clock: Clock, cronNext: Option<int>, uuid: string)
    requires Base(s) && Step(s, ResumeJob(t, readId, true), u) && u.threads[t] == Ended
    ensures u.cron == Resuming(s.cron, readId, true, g, clock, cronNext, uuid).0
  {
    ResumeReads(s, t, readId, u);
  }

  /** A follower's call schedules nothing. */
  lemma FollowerResumesInOneGo(s: State, u: State, v: State, t: nat, readId: string, g: Grammar, clock: Clock,
                               cronNext: Option<int>, uuid: string)
    requires Base(s) && Step(s, ResumeJob(t, readId, false), u) && Step(u, Write(t, uuid), v)
    ensures v.cron == Resuming(s.cron, readId, false, g, clock, cronNext, uuid).0
  {
    WriteDoes(u, t, uuid, v);
  }

  /** ResumeJob schedules a job that is still stored as paused; its last step mends that. */
  lemma ResumeMirrors(s: State, u: State, v: State, w: State, t: nat, readId: string, g: Grammar, clock: Clock,
                      cronNext: Option<int>, uuid: string)
    requires Base(s) && Mirrors(s.cron)
    requires Step(s, ResumeJob(t, readId, true), u) && Step(u, PutOn(t, g, clock, cronNext), v) && Step(v, Write(t, uuid), w)
    ensures Mirrors(w.cron)
  {
    StepMirrors(s, ResumeJob(t, readId, true), u);
    forall id ensures Mirrored(w.cron, id) {
      assert Mirrored(u.cron, id);
      PutOnThenWritten(u, v, w, t, g, clock, cronNext, uuid, id);
    }
  }

  lemma PutOnThenWritten(u: State, v: State, w: State, t: nat, g: Grammar, clock: Clock, cronNext: Option<int>, uuid: string, id: string)
    requires Base(u) && Step(u, PutOn(t, g, clock, cronNext), v) && Step(v, Write(t, uuid), w)
    ensures Mirrored(w.cron, id)
            <==> if u.threads[t].job.id == id then CanSchedule(g, u.threads[t].job, clock.registered) ==> IsActive(u.threads[t].job)
                 else Mirrored(u.cron, id)
  {
    var job := u.threads[t].job;
    StepKeepsBase(u, PutOn(t, g, clock, cronNext), v);
    PutOnWrites(u, v, t, g, clock, cronNext);
    IndexMirrorsExactly(u.cron, Rescheduled(job, CanSchedule(g, job, clock.registered)), v.cron, id);
    StoredMirrorsExactly(v.cron, Put(v.threads[t].job, uuid), id);
  }

  lemma PutOnWrites(u: State, v: State, t: nat, g: Grammar, clock: Clock, cronNext: Option<int>)
    requires Base(u) && Step(u, PutOn(t, g, clock, cronNext), v) && v.threads[t].Writing?
    ensures var job, written := u.threads[t].job, v.threads[t].job;
            && written.id == job.id && ValidId(job.id) && written.status == job.status && written.schedule == job.schedule
            && v.cron == u.cron.(index := Scheduled(u.cron.index, job.id, job.schedule, CanSchedule(g, job, clock.registered)))
  {
    PutOnDoes(u, t, g, clock, cronNext, v);
  }

  lemma AddEndsAtOnce(s: State, u: State, t: nat, job: Job, leads: bool, g: Grammar, start: int, clock: Clock,
                      cronNext: Option<int>, uuid: string, uuid2: string)
    requires Base(s) && Step(s, AddJob(t, job, g, start), u) && u.threads[t] == Ended
    ensures u.cron == Adding(s.cron, job, leads, g, start, clock, cronNext, uuid, uuid2).0
  {
    AddChecks(s, t, job, g, start, u);
  }

  /** A follower's call, or one with an invalid id, ends here. */
  lemma AddEndsUnscheduled(s: State, u: State, v: State, t: nat, job: Job, leads: bool, g: Grammar, start: int, clock: Clock,
                           cronNext: Option<int>, uuid: string, uuid2: string)
    requires Base(s) && Step(s, AddJob(t, job, g, start), u) && Step(u, Create(t, uuid, leads), v) && v.threads[t] == Ended
    ensures v.cron == Adding(s.cron, job, leads, g, start, clock, cronNext, uuid, uuid2).0
  {
    AddChecks(s, t, job, g, start, u);
    CreateDoes(u, t, uuid, leads, v);
  }

  lemma AddEndsScheduled(s: State, u: State, v: State, w: State, t: nat, job: Job, leads: bool, g: Grammar, start: int, clock: Clock,
                         cronNext: Option<int>, uuid: string, uuid2: string)
    requires Base(s) && Step(s, AddJob(t, job, g, start), u) && Step(u, Create(t, uuid, leads), v)
    requires Step(v, PutOn(t, g, clock, cronNext), w) && w.threads[t] == Ended
    ensures w.cron == Adding(s.cron, job, leads, g, start, clock, cronNext, uuid, uuid2).0
  {
    AddChecks(s, t, job, g, start, u);
    CreateDoes(u, t, uuid, leads, v);
    PutOnDoes(v, t, g, clock, cronNext, w);
  }

  lemma AddInOneGo(s: State, u: State, v: State, w: State, x: State, t: nat, job: Job, leads: bool, g: Grammar, start: int,
                   clock: Clock, cronNext: Option<int>, uuid: string, uuid2: string)
    requires Base(s) && Step(s, AddJob(t, job, g, start), u) && Step(u, Create(t, uuid, leads), v)
    requires Step(v, PutOn(t, g, clock, cronNext), w) && Step(w, Write(t, uuid2), x)
    ensures x.cron == Adding(s.cron, job, leads, g, start, clock, cronNext, uuid, uuid2).0
  {
    AddChecks(s, t, job, g, start, u);
    CreateDoes(u, t, uuid, leads, v);
    PutOnDoes(v, t, g, clock, cronNext, w);
    WriteDoes(w, t, uuid2, x);
  }

  /** What AddJob schedules was added as active. */
  lemma AddMirrorsExactly(s: State, u: State, v: State, w: State, t: nat, job: Job, g: Grammar, start: int,
                          clock: Clock, cronNext: Option<int>, uuid: string)
    requires Base(s) && Mirrors(s.cron)
    requires Step(s, AddJob(t, job, g, start), u) && Step(u, Create(t, uuid, true), v) && Step(v, PutOn(t, g, clock, cronNext), w)
    ensures Mirrors(w.cron) <==> (CanSchedule(g, job, clock.registered) ==> IsActive(job))
  {
    var can := CanSchedule(g, job, clock.registered);
    StepKeepsBase(s, AddJob(t, job, g, start), u);
    StepKeepsBase(u, Create(t, uuid, true), v);
    AddedSteps(s, u, v, w, t, job, g, start, clock, cronNext, uuid);
    forall id ensures Mirrored(w.cron, id) <==> (job.id == id && can ==> IsActive(job)) {
      assert Mirrored(s.cron, id);
      StoredMirrorsExactly(u.cron, Put(job, uuid), id);
      IndexMirrorsExactly(v.cron, Rescheduled(job, can), w.cron, id);
    }
    assert Mirrored(w.cron, job.id) <==> (can ==> IsActive(job));
  }

  lemma AddedSteps(s: State, u: State, v: State, w: State, t: nat, job: Job, g: Grammar, start: int,
                   clock: Clock, cronNext: Option<int>, uuid: string)
    requires Base(s)
    requires Step(s, AddJob(t, job, g, start), u) && Step(u, Create(t, uuid, true), v) && Step(v, PutOn(t, g, clock, cronNext), w)
    ensures u.cron == s.cron && ValidId(job.id) && v.cron == u.cron.(files := u.cron.files[job.id := Stamp(job, uuid)])
    ensures Changes(v.cron, Rescheduled(job, CanSchedule(g, job, clock.registered)), w.cron)
  {
    AddChecks(s, t, job, g, start, u);
    CreateDoes(u, t, uuid, true, v);
    PutOnDoes(v, t, g, clock, cronNext, w);
  }

  // ----- Syncs -----

  /**
    From any state, the locked section of a sync leaves every scheduled id an active
    stored job under the stored schedule exactly when every id it keeps is at that
    moment stored, active and under the schedule that was listed for it.
    */
  lemma SyncMirrorsAllExactly(s: State, op: Op, u: State)
    requires op.ApplySync? && Step(s, op, u)
    ensures var listed := s.threads[op.t].listed;
            var want := Wanted(op.g, listed, op.clocks);
            Mirrors(u.cron) <==> forall id | Kept(s.cron.index, want, id) :: StoredActive(s.cron.files, id, listed[id].schedule)
  {
    var listed := s.threads[op.t].listed;
    var want := Wanted(op.g, listed, op.clocks);
    forall id ensures Mirrored(u.cron, id)
      <==> (Kept(s.cron.index, want, id) ==> StoredActive(s.cron.files, id, listed[id].schedule))
    {
      SyncMirrorsExactly(s.cron, ChangeOf(s, op), u.cron, id);
    }
  }

  /** So a sync mends whatever was apart, if no listed job was written or deleted since its file was read. */
  lemma FreshSyncMirrors(s: State, op: Op, u: State)
    requires op.ApplySync? && Step(s, op, u)
    requires forall id | id in s.threads[op.t].listed :: id in s.cron.files && s.cron.files[id] == s.threads[op.t].listed[id]
    ensures Mirrors(u.cron)
  {
    SyncMirrorsAllExactly(s, op, u);
  }

  /** The locked section can always be carried out. */
  lemma SyncResult<Id(!new), S>(ix: Index<Id, S>, want: map<Id, Want<S>>) returns (after: Index<Id, S>)
    requires Sound(ix)
    ensures SyncedBut(ix, after, want, {})
  {
    after := ix;
    var rest := ix.jobs.Keys;
    while rest != {}
      invariant rest <= ix.jobs.Keys && Pruned(ix, after, want, rest)
      decreases |rest|
    {
      var id :| id in rest;
      PruneStep(ix, after, want, rest, id);
      after := if id in want && want[id].active then after else Removed(after, id);
      rest := rest - {id};
    }
    PruneDone(ix, after, want);
    rest := want.Keys;
    while rest != {}
      invariant rest <= want.Keys && SyncedBut(ix, after, want, rest)
      decreases |rest|
    {
      var id :| id in rest;
      SyncStep(ix, after, want, rest, id);
      after := SyncOne(after, want, id);
      rest := rest - {id};
    }
  }

  lemma Onward(ss: seq<State>, ops: seq<Op>, op: Op, u: State) returns (ss': seq<State>, ops': seq<Op>)
    requires Run(ss, ops) && Step(ss[|ss| - 1], op, u)
    ensures Run(ss', ops') && ss' == ss + [u] && ops' == ops + [op]
  {
    ss', ops' := ss + [u], ops + [op];
    forall i | 0 <= i < |ops'| ensures Step(ss'[i], ops'[i], ss'[i + 1]) {
      if i < |ops| { assert ss'[i] == ss[i] && ss'[i + 1] == ss[i + 1] && ops'[i] == ops[i]; }
    }
  }

  /** What PauseJob leaves when thread t takes its three steps. */
  function PausedBy(s: State, t: nat, id: string, uuid: string): State
    requires id in s.cron.files
  {
    State(Cron(s.cron.files[id := Stamp(s.cron.files[id].(status := STATUS_PAUSED), uuid)], Removed(s.cron.index, id)),
          s.threads[t := Ended])
  }

  lemma Pauses(ss0: seq<State>, ops0: seq<Op>, t: nat, id: string, uuid: string) returns (ss: seq<State>, ops: seq<Op>)
    requires Run(ss0, ops0)
    requires var s := ss0[|ss0| - 1];
             WellNamed(s.cron.files) && t !in s.threads && id in s.cron.files && s.cron.files[id].readToken != ""
    ensures Run(ss, ops) && ss[0] == ss0[0] && ss[|ss| - 1] == PausedBy(ss0[|ss0| - 1], t, id, uuid)
  {
    var s := ss0[|ss0| - 1];
    var job := s.cron.files[id];
    ReadIdRoundTrip(job);
    var u := s.(threads := s.threads[t := Unscheduling(job)]);
    var v := State(s.cron.(index := Removed(s.cron.index, id)), s.threads[t := Writing(job.(status := STATUS_PAUSED))]);
    ss, ops := Onward(ss0, ops0, PauseJob(t, ReadId(job)), u);
    assert ThreadsAfter(u, TakeOff(t)) == v.threads;
    ss, ops := Onward(ss, ops, TakeOff(t), v);
    assert ThreadsAfter(v, Write(t, uuid)) == s.threads[t := Ended];
    ss, ops := Onward(ss, ops, Write(t, uuid), PausedBy(s, t, id, uuid));
  }

  lemma ListsOne(ss0: seq<State>, ops0: seq<Op>, t: nat, id: string) returns (ss: seq<State>, ops: seq<Op>)
    requires Run(ss0, ops0) && t !in ss0[|ss0| - 1].threads && id in ss0[|ss0| - 1].cron.files
    ensures Run(ss, ops) && ss[0] == ss0[0]
    ensures var s := ss0[|ss0| - 1]; ss[|ss| - 1] == s.(threads := s.threads[t := Listing(map[id := s.cron.files[id]])])
  {
    var s := ss0[|ss0| - 1];
    var u := s.(threads := s.threads[t := Listing(map[])]);
    var v := s.(threads := s.threads[t := Listing(map[id := s.cron.files[id]])]);
    ss, ops := Onward(ss0, ops0, StartSync(t), u);
    assert map[][id := s.cron.files[id]] == map[id := s.cron.files[id]];
    assert ThreadsAfter(u, ReadFile(t, id)) == v.threads;
    ss, ops := Onward(ss, ops, ReadFile(t, id), v);
  }

  /**
    A run in which a sync parts what was together: it lists an active job, PauseJob
    unschedules it and stores it as paused, and the locked section schedules it
    again from the listing.
    */
  lemma StaleSyncSchedulesAPausedJob(s: State, id: string, g: Grammar, clock: Clock, uuid: string)
    returns (ss: seq<State>, ops: seq<Op>)
    requires Base(s) && s.threads == map[] && id in s.cron.files && IsActive(s.cron.files[id])
    requires s.cron.files[id].readToken != "" && !s.cron.files[id].oneShot && s.cron.files[id].schedule in g.cron
    ensures Run(ss, ops) && ss[0] == s
    ensures var end := ss[|ss| - 1].cron; id in end.index.jobs && id in end.files && end.files[id].status == STATUS_PAUSED
    ensures !Mirrors(ss[|ss| - 1].cron)
  {
    ss, ops := ListsOne([s], [], 0, id);
    ss, ops := Pauses(ss, ops, 1, id, uuid);
    var p, listed, clocks := ss[|ss| - 1], map[id := s.cron.files[id]], map[id := clock];
    RemovedKeeps(s.cron.index, id);
    var want := Wanted(g, listed, clocks);
    var index := SyncResult(p.cron.index, want);
    assert Kept(p.cron.index, want, id);
    ss, ops := Onward(ss, ops, ApplySync(0, g, clocks), State(p.cron.(index := index), ThreadsAfter(p, ApplySync(0, g, clocks))));
    assert STATUS_PAUSED[0] != STATUS_ACTIVE[0];
    assert !Mirrored(ss[|ss| - 1].cron, id);
  }

  // ----- A run of a job among other steps -----

  function Look(s: State, id: string): Option<Job> {
    if id in s.cron.files then Some(s.cron.files[id]) else None
  }

  predicate Records(op: Op, r: nat) {
    op.Write? && op.t == r
  }

  ghost predicate RecordedBetween(ops: seq<Op>, r: nat, n: nat, j: nat)
    requires j <= |ops|
  {
    exists m | n < m < j :: Records(ops[m], r)
  }

  /** Once a run has read its job it never reads again. */
  predicate HasRead(s: State, r: nat, job: Job) {
    r in s.threads && (s.threads[r] == Running(job) || s.threads[r].Writing? || s.threads[r] == Ended)
  }

  lemma ReadStays(s: State, op: Op, u: State, r: nat, job: Job)
    requires Step(s, op, u) && HasRead(s, r, job)
    ensures HasRead(u, r, job)
  {
  }

  lemma {:induction false} ReadOnce(ss: seq<State>, ops: seq<Op>, r: nat, job: Job, i: nat, n: nat)
    requires Run(ss, ops) && i <= n <= |ops| && HasRead(ss[i], r, job)
    ensures HasRead(ss[n], r, job)
    decreases n
  {
    if i < n {
      ReadOnce(ss, ops, r, job, i, n - 1);
      assert Step(ss[n - 1], ops[n - 1], ss[n]);
      ReadStays(ss[n - 1], ops[n - 1], ss[n], r, job);
    }
  }

  /** What a run has still to do after its check, if `record` is what the check left to write. */
  predicate ToRecord(s: State, r: nat, record: Option<Job>, recorded: bool) {
    r in s.threads && s.threads[r] == if record.Some? && !recorded then Writing(record.value) else Ended
  }

  lemma ToRecordStep(s: State, op: Op, u: State, r: nat, record: Option<Job>, recorded: bool)
    requires Step(s, op, u) && ToRecord(s, r, record, recorded)
    ensures ToRecord(u, r, record, recorded || Records(op, r))
    ensures Records(op, r) ==>
              record.Some? && !recorded && u.cron.files == JobStore.Apply(s.cron.files, Put(record.value, op.uuid))
  {
  }

  /** Between check and record, or for good when there is none, the run waits; the record is written at most once. */
  lemma {:induction false} AfterCheck(ss: seq<State>, ops: seq<Op>, r: nat, record: Option<Job>, n: nat, j: nat)
    requires Run(ss, ops) && n < j <= |ops| && ToRecord(ss[n + 1], r, record, false)
    ensures ToRecord(ss[j], r, record, RecordedBetween(ops, r, n, j))
    ensures record.None? ==> !RecordedBetween(ops, r, n, j)
    decreases j
  {
    if n + 1 < j {
      AfterCheck(ss, ops, r, record, n, j - 1);
      assert Step(ss[j - 1], ops[j - 1], ss[j]);
      ToRecordStep(ss[j - 1], ops[j - 1], ss[j], r, record, RecordedBetween(ops, r, n, j - 1));
      RecordedLonger(ops, r, n, j);
    }
  }

  lemma RecordedLonger(ops: seq<Op>, r: nat, n: nat, j: nat)
    requires n + 1 < j <= |ops|
    ensures RecordedBetween(ops, r, n, j) <==> RecordedBetween(ops, r, n, j - 1) || Records(ops[j - 1], r)
  {
    if RecordedBetween(ops, r, n, j) {
      var m :| n < m < j && Records(ops[m], r);
      assert m < j - 1 || m == j - 1;
    }
  }

  /** The step leaves the job's file as it is. */
  predicate Leaves(s: State, u: State, id: string) {
    Look(u, id) == Look(s, id)
  }

  lemma {:induction false} LeftAlone(ss: seq<State>, id: string, i: nat, j: nat)
    requires i <= j < |ss| && forall m | i <= m < j :: Leaves(ss[m], ss[m + 1], id)
    ensures Look(ss[j], id) == Look(ss[i], id)
    decreases j
  {
    if i < j {
      LeftAlone(ss, id, i, j - 1);
      assert Leaves(ss[j - 1], ss[j], id);
    }
  }

  /** A run that read its job at step i and was checked at step n. */
  ghost predicate IsRun(ss: seq<State>, ops: seq<Op>, r: nat, i: nat, n: nat) {
    && Run(ss, ops) && Base(ss[0]) && i < n < |ops|
    && ops[i] == Load(r) && r in ss[i + 1].threads && ss[i + 1].threads[r].Running?
    && ops[n].Check? && ops[n].t == r
  }

  /** The check goes by the job that was read. */
  lemma CheckedJobIsTheOneRead(ss: seq<State>, ops: seq<Op>, r: nat, i: nat, n: nat)
    requires IsRun(ss, ops, r, i, n)
    ensures var job := ss[i + 1].threads[r].job;
            && Look(ss[i], job.id) == Some(job) && ValidId(job.id)
            && r in ss[n].threads && ss[n].threads[r] == Running(job)
            && ToRecord(ss[n + 1], r, Checked(ss[n].cron.index, job, ops[n].now, ops[n].next).0, false)
  {
    assert Step(ss[i], ops[i], ss[i + 1]);
    RunKeepsBase(ss, ops, i);
    var job := ss[i + 1].threads[r].job;
    ReadOnce(ss, ops, r, job, i + 1, n);
    assert Step(ss[n], ops[n], ss[n + 1]);
  }

  /**
    Another step changes the job's file between a run's read and its record, at
    step k, and no later step but the record touches the file. When the run is
    over, the file is as that step left it, or gone as it left it, exactly when the
    locked check found the job no longer scheduled. Otherwise everything the
    step wrote is lost: the file is the job as it was read, with the run's marks.
    */
  lemma WriteDuringARunSurvivesExactly(ss: seq<State>, ops: seq<Op>, r: nat, i: nat, n: nat, k: nat, f: nat)
    requires IsRun(ss, ops, r, i, n) && n < f <= |ops| && i < k < f && r in ss[f].threads && ss[f].threads[r] == Ended
    requires forall m | n < m <= k :: !Records(ops[m], r)
    requires var id := ss[i + 1].threads[r].job.id;
             && (forall m | k < m < f && !Records(ops[m], r) :: Leaves(ss[m], ss[m + 1], id))
             && (forall m | n < m < f && Records(ops[m], r) && Look(ss[k + 1], id).Some? ::
                   ops[m].uuid != Look(ss[k + 1], id).value.readToken)
    ensures var read := ss[i + 1].threads[r].job;
            && (Look(ss[f], read.id) == Look(ss[k + 1], read.id) <==> read.id !in ss[n].cron.index.jobs)
            && (read.id in ss[n].cron.index.jobs ==>
                  exists uuid :: Look(ss[f], read.id) == Some(Stamp(Ran(read, ops[n].now, ops[n].next), uuid)))
  {
    var read := ss[i + 1].threads[r].job;
    var record := Checked(ss[n].cron.index, read, ops[n].now, ops[n].next).0;
    CheckedJobIsTheOneRead(ss, ops, r, i, n);
    AfterCheck(ss, ops, r, record, n, f);
    if record.None? {
      forall m | k + 1 <= m < f ensures Leaves(ss[m], ss[m + 1], read.id) {
        assert n < m ==> !Records(ops[m], r);
        if m <= n { assert !Records(ops[m], r) by { NoRecordBefore(ss, ops, r, i, n, m); } }
      }
      LeftAlone(ss, read.id, k + 1, f);
    } else {
      var m :| n < m < f && Records(ops[m], r);
      RecordStands(ss, ops, r, record.value, n, m, f);
    }
  }

  /** Before its check a run records nothing. */
  lemma NoRecordBefore(ss: seq<State>, ops: seq<Op>, r: nat, i: nat, n: nat, m: nat)
    requires IsRun(ss, ops, r, i, n) && i < m <= n
    ensures !Records(ops[m], r)
  {
    CheckedJobIsTheOneRead(ss, ops, r, i, n);
    if m < n && Records(ops[m], r) { RecordedEnds(ss, ops, r, m, n); }
  }

  lemma RecordedEnds(ss: seq<State>, ops: seq<Op>, r: nat, m: nat, n: nat)
    requires Run(ss, ops) && m < n <= |ops| && Records(ops[m], r)
    ensures r in ss[n].threads && ss[n].threads[r] == Ended
  {
    assert Step(ss[m], ops[m], ss[m + 1]);
    AfterCheck(ss, ops, r, None, m, n);
  }

  lemma RecordStands(ss: seq<State>, ops: seq<Op>, r: nat, record: Job, n: nat, m: nat, f: nat)
    requires Run(ss, ops) && n < m < f <= |ops| && Records(ops[m], r) && ValidId(record.id)
    requires ToRecord(ss[n + 1], r, Some(record), false)
    requires forall j | m < j < f && !Records(ops[j], r) :: Leaves(ss[j], ss[j + 1], record.id)
    ensures Look(ss[f], record.id) == Some(Stamp(record, ops[m].uuid))
  {
    AfterCheck(ss, ops, r, Some(record), n, m);
    assert Step(ss[m], ops[m], ss[m + 1]);
    ToRecordStep(ss[m], ops[m], ss[m + 1], r, Some(record), RecordedBetween(ops, r, n, m));
    forall j | m + 1 <= j < f ensures Leaves(ss[j], ss[j + 1], record.id) {
      RecordsOnce(ss, ops, r, record, n, m, j);
    }
    LeftAlone(ss, record.id, m + 1, f);
  }

  lemma RecordsOnce(ss: seq<State>, ops: seq<Op>, r: nat, record: Job, n: nat, m: nat, j: nat)
    requires Run(ss, ops) && n < m < j < |ops| && Records(ops[m], r) && ToRecord(ss[n + 1], r, Some(record), false)
    ensures !Records(ops[j], r)
  {
    AfterCheck(ss, ops, r, Some(record), n, j);
    assert Step(ss[j], ops[j], ss[j + 1]);
    ToRecordStep(ss[j], ops[j], ss[j + 1], r, Some(record), RecordedBetween(ops, r, n, j));
  }

  /**
    What a run's record must find. A recurring job's record leaves the job mirrored
    exactly when the job is not scheduled, or its stored status and schedule are
    still what the run read; a one-shot job's, exactly when it is not scheduled.
    */
  lemma RecordMirrorsExactly(ss: seq<State>, ops: seq<Op>, r: nat, i: nat, n: nat, m: nat)
    requires IsRun(ss, ops, r, i, n) && n < m < |ops| && Records(ops[m], r)
    requires Mirrored(ss[m].cron, ss[i + 1].threads[r].job.id)
    ensures var read := ss[i + 1].threads[r].job;
            var now := Look(ss[m], read.id);
            Mirrored(ss[m + 1].cron, read.id) <==>
              || read.id !in ss[m].cron.index.jobs
              || (!read.oneShot && now.Some? && now.value.status == read.status && now.value.schedule == read.schedule)
  {
    var read := ss[i + 1].threads[r].job;
    var record := Checked(ss[n].cron.index, read, ops[n].now, ops[n].next).0;
    CheckedJobIsTheOneRead(ss, ops, r, i, n);
    AfterCheck(ss, ops, r, record, n, m);
    RunKeepsBase(ss, ops, m);
    assert Step(ss[m], ops[m], ss[m + 1]);
    ChangeMirrorsExactly(ss[m].cron, ChangeOf(ss[m], ops[m]), ss[m + 1].cron, read.id);
    assert STATUS_COMPLETED[0] != STATUS_ACTIVE[0];
  }

  lemma Resumes(ss0: seq<State>, ops0: seq<Op>, t: nat, id: string, g: Grammar, clock: Clock, uuid: string)
    returns (ss: seq<State>, ops: seq<Op>)
    requires Run(ss0, ops0)
    requires var s := ss0[|ss0| - 1];
             && WellNamed(s.cron.files) && t !in s.threads && id in s.cron.files
             && s.cron.files[id].readToken != "" && s.cron.files[id].status == STATUS_PAUSED
             && !s.cron.files[id].oneShot && s.cron.files[id].schedule in g.cron
    ensures Run(ss, ops) && ss[0] == ss0[0]
    ensures var s, u := ss0[|ss0| - 1], ss[|ss| - 1];
            id in u.cron.index.jobs && id in u.cron.files && u.threads == s.threads[t := Ended]
  {
    var s := ss0[|ss0| - 1];
    var job := s.cron.files[id].(status := STATUS_ACTIVE);
    ReadIdRoundTrip(s.cron.files[id]);
    var u := s.(threads := s.threads[t := SchedulingResumed(job)]);
    ss, ops := Onward(ss0, ops0, ResumeJob(t, ReadId(s.cron.files[id]), true), u);
    var next := job.(nextRun := NextRunAfter(g, job, clock.checked, None));
    var v := State(s.cron.(index := Scheduled(s.cron.index, id, job.schedule, true)), s.threads[t := Writing(next)]);
    assert ThreadsAfter(u, PutOn(t, g, clock, None)) == v.threads;
    ss, ops := Onward(ss, ops, PutOn(t, g, clock, None), v);
    var w := State(v.cron.(files := JobStore.Apply(v.cron.files, Put(next, uuid))), s.threads[t := Ended]);
    assert ThreadsAfter(v, Write(t, uuid)) == w.threads;
    ss, ops := Onward(ss, ops, Write(t, uuid), w);
  }

  /** The end of a run that read a paused job. */
  lemma RecordsPaused(ss0: seq<State>, ops0: seq<Op>, job: Job, uuid: string) returns (ss: seq<State>, ops: seq<Op>)
    requires Run(ss0, ops0) && job.status == STATUS_PAUSED && !job.oneShot && ValidId(job.id)
    requires var s := ss0[|ss0| - 1]; 0 in s.threads && s.threads[0] == Running(job) && job.id in s.cron.index.jobs
    ensures Run(ss, ops) && ss[0] == ss0[0]
    ensures var end := ss[|ss| - 1].cron;
            job.id in end.index.jobs && job.id in end.files && end.files[job.id].status == STATUS_PAUSED
  {
    var s, record := ss0[|ss0| - 1], Ran(job, 0, None);
    var u := s.(threads := s.threads[0 := Writing(record)]);
    ss, ops := Onward(ss0, ops0, Check(0, 0, None), u);
    var v := State(u.cron.(files := JobStore.Apply(u.cron.files, Put(record, uuid))), u.threads[0 := Ended]);
    ss, ops := Onward(ss, ops, Write(0, uuid), v);
  }

  lemma ReadsPaused(s: State, id: string, uuid: string) returns (ss: seq<State>, ops: seq<Op>)
    requires Base(s) && s.threads == map[] && id in s.cron.index.jobs && id in s.cron.files && s.cron.files[id].readToken != ""
    ensures Run(ss, ops) && ss[0] == s
    ensures var u, paused := ss[|ss| - 1], Stamp(s.cron.files[id].(status := STATUS_PAUSED), uuid);
            && u.cron.files == s.cron.files[id := paused] && u.threads == map[0 := Running(paused), 1 := Ended]
  {
    var s1 := s.(threads := map[0 := Fired(id)]);
    ss, ops := Onward([s], [], Fire(0, id), s1);
    ss, ops := Pauses(ss, ops, 1, id, uuid);
    var u := ss[|ss| - 1];
    var paused := u.cron.files[id];
    ss, ops := Onward(ss, ops, Load(0), u.(threads := u.threads[0 := Running(paused)]));
    assert u.threads[0 := Running(paused)] == map[0 := Running(paused), 1 := Ended];
  }

  /**
    A run in which a job's record parts what was together, whole calls between its
    steps: a recurring job is paused after cron fired it and before it is read, and
    resumed before it is checked. The record pauses the job in the store while cron
    goes on running it.
    */
  lemma PausedInTheStoreWhileScheduled(s: State, id: string, g: Grammar, clock: Clock, uuids: seq<string>)
    returns (ss: seq<State>, ops: seq<Op>)
    requires Base(s) && Mirrors(s.cron) && s.threads == map[] && id in s.cron.index.jobs
    requires id in s.cron.files && s.cron.files[id].readToken != "" && !s.cron.files[id].oneShot && s.cron.files[id].schedule in g.cron
    requires |uuids| == 3 && uuids[0] != ""
    ensures Run(ss, ops) && ss[0] == s
    ensures var end := ss[|ss| - 1].cron; id in end.index.jobs && id in end.files && end.files[id].status == STATUS_PAUSED
    ensures !Mirrors(ss[|ss| - 1].cron)
  {
    var paused := Stamp(s.cron.files[id].(status := STATUS_PAUSED), uuids[0]);
    ss, ops := ReadsPaused(s, id, uuids[0]);
    ss, ops := Resumes(ss, ops, 2, id, g, clock, uuids[1]);
    ss, ops := RecordsPaused(ss, ops, paused, uuids[2]);
    assert STATUS_PAUSED[0] != STATUS_ACTIVE[0];
    assert !Mirrored(ss[|ss| - 1].cron, id);
  }
}
