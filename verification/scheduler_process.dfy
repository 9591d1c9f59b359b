/**
  One scheduler process as its threads see it: the caller of `Start` and `Stop`,
  the renew loop, the cron run loop with the jobs it fires, and the two loops
  `Stop` waits for. Each step is one read or write of shared state, so every
  interleaving of the threads is a run. `crons` lists every cron object the
  process ever made; `s.cron` is the last.
  */
module SchedulerProcess {
  import opened Prelude

  datatype Cron = Cron(running: bool, inFlight: nat)

  const NEW_CRON := Cron(false, 0)

  /**
    Where the caller of `Start` and then `Stop` is. `Stop` runs its check of the
    leader flag and the stop of the cron twice; `last` is the second time.
    */
  datatype MainPc =
    | NotStarted | StartReadsClock | StartAcquires(reading: int) | SetsFlag | StartsCron | SpawnsLoops | SpawnsConsumer
    | Serving
    | ChecksCron(last: bool) | ReadsCron(last: bool) | StopsCron(last: bool, ref: nat) | WaitsJobs(last: bool, ref: nat)
    | Cancels | WaitsForLoops
    | ChecksLease | Releases | ClosesStore | Closed

  /** Where the renew loop is. */
  datatype RenewPc =
    | NotSpawned | Selects | RenewReadsClock | Renews(reading: int)
    | StepsDown | DownStops(ref: nat) | DownWaits(ref: nat) | ClearsFlag
    | ReacquireReadsClock | Reacquires(reading: int)
    | SwapsCron | StopsOld(ref: nat) | WaitsOld(ref: nat) | Reschedules | RaisesFlag | StartsNewCron
    | Exited

  datatype Process = Process(
    main: MainPc,
    renew: RenewPc,
    isLeader: bool,
    crons: seq<Cron>,
    cancelled: bool,
    loops: nat)        // cleanup and consume loops still running

  /** What a step does outside the process. */
  datatype Io = Internal | ReadsClock(reading: int) | TriesAcquire(reading: int, granted: bool)
              | TriesRenew(reading: int, renewed: bool) | TriesRelease

  const INITIAL := Process(NotStarted, NotSpawned, false, [NEW_CRON], false, 0)

  predicate Wf(p: Process) {
    |p.crons| > 0
  }

  function Current(p: Process): nat
    requires Wf(p)
  {
    |p.crons| - 1
  }

  function Stopped(p: Process, ref: nat): Process
    requires ref < |p.crons|
  {
    p.(crons := p.crons[ref := p.crons[ref].(running := false)])
  }

  function Started(p: Process): Process
    requires Wf(p)
  {
    p.(crons := p.crons[Current(p) := p.crons[Current(p)].(running := true)])
  }

  predicate Idle(p: Process, ref: nat) {
    ref < |p.crons| && p.crons[ref].inFlight == 0
  }

  /** The renew loop never started or has returned, so `wg.Wait` does not wait for it. */
  predicate LoopDone(p: Process) {
    p.renew.NotSpawned? || p.renew.Exited?
  }

  function AfterCron(last: bool): MainPc {
    if last then ChecksLease else Cancels
  }

  // ----- Steps -----

  /** A step of `Start`. */
  ghost predicate StartStep(p: Process, io: Io, q: Process) {
    Wf(p) &&
    match p.main
    case NotStarted =>
      io == Internal && (q == p.(main := StartReadsClock)     // jobs listed
                         || q == p.(main := Serving))         // listing failed: Start returns the error
    case StartReadsClock => io.ReadsClock? && q == p.(main := StartAcquires(io.reading))
    case StartAcquires(r) =>
      io.TriesAcquire? && io.reading == r && q == p.(main := if io.granted then SetsFlag else SpawnsConsumer)
    case SetsFlag => io == Internal && q == p.(main := StartsCron, isLeader := true)
    case StartsCron => io == Internal && q == Started(p).(main := SpawnsLoops)
    case SpawnsLoops => io == Internal && q == p.(main := SpawnsConsumer, renew := Selects, loops := p.loops + 1)
    case SpawnsConsumer => io == Internal && q == p.(main := Serving, loops := p.loops + 1)
    case _ => false
  }

  /** A step of `Stop`. */
  ghost predicate StopStep(p: Process, io: Io, q: Process) {
    Wf(p) &&
    match p.main
    case Serving => io == Internal && q == p.(main := ChecksCron(false))
    case ChecksCron(last) => io == Internal && q == p.(main := if p.isLeader then ReadsCron(last) else AfterCron(last))
    case ReadsCron(last) => io == Internal && q == p.(main := StopsCron(last, Current(p)))
    case StopsCron(last, ref) => io == Internal && ref < |p.crons| && q == Stopped(p, ref).(main := WaitsJobs(last, ref))
    case WaitsJobs(last, ref) => io == Internal && Idle(p, ref) && q == p.(main := AfterCron(last))
    case Cancels => io == Internal && q == p.(main := WaitsForLoops, cancelled := true)
    case WaitsForLoops => io == Internal && p.loops == 0 && LoopDone(p) && q == p.(main := ChecksCron(true))
    case ChecksLease => io == Internal && q == p.(main := if p.isLeader then Releases else ClosesStore)
    case Releases => io == TriesRelease && q == p.(main := ClosesStore)
    case ClosesStore => io == Internal && q == p.(main := Closed)
    case _ => false
  }

  /** A step of the renew loop, `becomeLeader` included. */
  ghost predicate RenewStep(p: Process, io: Io, q: Process) {
    Wf(p) &&
    match p.renew
    case NotSpawned => false
    case Selects =>
      io == Internal && (q == p.(renew := RenewReadsClock) || (p.cancelled && q == p.(renew := Exited)))
    case RenewReadsClock => io.ReadsClock? && q == p.(renew := Renews(io.reading))
    case Renews(r) => io.TriesRenew? && io.reading == r && q == p.(renew := if io.renewed then Selects else StepsDown)
    case StepsDown => io == Internal && q == p.(renew := DownStops(Current(p)))
    case DownStops(ref) => io == Internal && ref < |p.crons| && q == Stopped(p, ref).(renew := DownWaits(ref))
    case DownWaits(ref) => io == Internal && Idle(p, ref) && q == p.(renew := ClearsFlag)
    case ClearsFlag => io == Internal && q == p.(renew := ReacquireReadsClock, isLeader := false)
    case ReacquireReadsClock => io.ReadsClock? && q == p.(renew := Reacquires(io.reading))
    case Reacquires(r) =>
      io.TriesAcquire? && io.reading == r && q == p.(renew := if io.granted then SwapsCron else Selects)
    case SwapsCron => io == Internal && q == p.(renew := StopsOld(Current(p)), crons := p.crons + [NEW_CRON])
    case StopsOld(ref) => io == Internal && ref < |p.crons| && q == Stopped(p, ref).(renew := WaitsOld(ref))
    case WaitsOld(ref) => io == Internal && Idle(p, ref) && q == p.(renew := Reschedules)
    case Reschedules => io == Internal && q == p.(renew := RaisesFlag)
    case RaisesFlag => io == Internal && q == p.(renew := StartsNewCron, isLeader := true)
    case StartsNewCron => io == Internal && q == Started(p).(renew := Selects)
    case Exited => false
  }

  /** A running cron fires a job, a job ends, or one of the other loops sees the cancellation. */
  ghost predicate BackgroundStep(p: Process, io: Io, q: Process) {
    io == Internal && (
    || (p.cancelled && p.loops > 0 && q == p.(loops := p.loops - 1))
    || (exists c :: 0 <= c < |p.crons| && p.crons[c].running
          && q == p.(crons := p.crons[c := p.crons[c].(inFlight := p.crons[c].inFlight + 1)]))
    || (exists c :: 0 <= c < |p.crons| && p.crons[c].inFlight > 0
          && q == p.(crons := p.crons[c := p.crons[c].(inFlight := p.crons[c].inFlight - 1)])))
  }

  ghost predicate ProcessStep(p: Process, io: Io, q: Process) {
    StartStep(p, io, q) || StopStep(p, io, q) || RenewStep(p, io, q) || BackgroundStep(p, io, q)
  }

  // ----- What every step keeps -----

  /** A cron object that runs, or has a job in flight. */
  predicate Live(p: Process, c: nat) {
    c < |p.crons| && (p.crons[c].running || p.crons[c].inFlight > 0)
  }

  predicate CurrentHalted(p: Process) {
    Wf(p) && !p.crons[|p.crons| - 1].running
  }

  predicate CurrentDead(p: Process) {
    Wf(p) && !Live(p, |p.crons| - 1)
  }

  predicate MainInv(p: Process) {
    match p.main
    case NotStarted => p.renew.NotSpawned? && !p.isLeader
    case StartReadsClock => p.renew.NotSpawned? && !p.isLeader
    case StartAcquires(_) => p.renew.NotSpawned? && !p.isLeader
    case SetsFlag => p.renew.NotSpawned?
    case StartsCron => p.renew.NotSpawned? && p.isLeader
    case SpawnsLoops => p.renew.NotSpawned?
    case ChecksCron(last) => last ==> LoopDone(p)
    case ReadsCron(last) => last ==> LoopDone(p)
    case StopsCron(last, ref) => last ==> LoopDone(p) && ref == |p.crons| - 1
    case WaitsJobs(last, ref) => last ==> LoopDone(p) && ref == |p.crons| - 1 && CurrentHalted(p)
    case ChecksLease => LoopDone(p) && CurrentDead(p)
    case Releases => LoopDone(p) && CurrentDead(p) && p.isLeader
    case ClosesStore => LoopDone(p) && CurrentDead(p)
    case Closed => LoopDone(p) && CurrentDead(p)
    case _ => true
  }

  predicate RenewInv(p: Process) {
    match p.renew
    case DownStops(ref) => ref == |p.crons| - 1
    case DownWaits(ref) => ref == |p.crons| - 1 && CurrentHalted(p)
    case ClearsFlag => CurrentDead(p)
    case ReacquireReadsClock => !p.isLeader
    case Reacquires(_) => !p.isLeader
    case SwapsCron => !p.isLeader
    case StopsOld(_) => !p.isLeader
    case WaitsOld(_) => !p.isLeader
    case Reschedules => !p.isLeader
    case RaisesFlag => !p.isLeader
    case StartsNewCron => p.isLeader
    case _ => true
  }

  /** Only the current cron object is ever live, and only while the leader flag is up. */
  ghost predicate LiveInv(p: Process) {
    forall c: nat | Live(p, c) :: c == |p.crons| - 1 && p.isLeader
  }

  ghost predicate Inv(p: Process) {
    Wf(p) && LiveInv(p) && MainInv(p) && RenewInv(p)
  }

  lemma InitialInv()
    ensures Inv(INITIAL)
  {
  }

  lemma StartStepKeepsInv(p: Process, io: Io, q: Process)
    requires Inv(p) && StartStep(p, io, q)
    ensures Inv(q)
  {
    forall c: nat | Live(q, c) ensures c == |q.crons| - 1 && q.isLeader {
      assert Live(p, c) ==> c == |p.crons| - 1 && p.isLeader;
    }
  }

  /** Stopping a cron makes nothing live. */
  lemma StoppedLive(p: Process, ref: nat)
    requires LiveInv(p) && ref < |p.crons|
    ensures LiveInv(Stopped(p, ref))
  {
    forall c: nat | Live(Stopped(p, ref), c) ensures c == |p.crons| - 1 && p.isLeader {
      assert Live(p, c);
    }
  }

  lemma StopStepKeepsLiveInv(p: Process, io: Io, q: Process)
    requires Inv(p) && StopStep(p, io, q)
    ensures Wf(q) && LiveInv(q)
  {
    if p.main.StopsCron? {
      StoppedLive(p, p.main.ref);
      assert q.crons == Stopped(p, p.main.ref).crons;
    } else {
      assert q.crons == p.crons && q.isLeader == p.isLeader;
    }
    forall c: nat | Live(q, c) ensures c == |q.crons| - 1 && q.isLeader {
      assert if p.main.StopsCron? then Live(Stopped(p, p.main.ref), c) else Live(p, c);
    }
  }

  lemma StopStepKeepsPcs(p: Process, io: Io, q: Process)
    requires Inv(p) && StopStep(p, io, q)
    ensures Wf(q) && MainInv(q) && RenewInv(q)
  {
    StopStepKeepsMain(p, io, q);
    StopStepKeepsRenew(p, io, q);
  }

  lemma StopStepKeepsMain(p: Process, io: Io, q: Process)
    requires Inv(p) && StopStep(p, io, q)
    ensures Wf(q) && MainInv(q)
  {
    if p.main.ChecksCron? && !p.isLeader {
      assert !Live(p, |p.crons| - 1);
    }
  }

  lemma StopStepKeepsRenew(p: Process, io: Io, q: Process)
    requires Inv(p) && StopStep(p, io, q)
    ensures Wf(q) && RenewInv(q)
  {
  }

  lemma RenewStepKeepsLiveInv(p: Process, io: Io, q: Process)
    requires Inv(p) && RenewStep(p, io, q)
    ensures Wf(q) && LiveInv(q)
  {
    forall c: nat | Live(q, c) ensures c == |q.crons| - 1 && q.isLeader {
      if c < |p.crons| {
        assert Live(p, c) ==> c == |p.crons| - 1 && p.isLeader;
      }
    }
  }

  lemma RenewStepKeepsPcs(p: Process, io: Io, q: Process)
    requires Inv(p) && RenewStep(p, io, q)
    ensures Wf(q) && MainInv(q) && RenewInv(q)
  {
  }

  lemma BackgroundStepKeepsInv(p: Process, io: Io, q: Process)
    requires Inv(p) && BackgroundStep(p, io, q)
    ensures Inv(q)
  {
    forall c: nat | Live(q, c) ensures Live(p, c) { }
  }

  lemma StepKeepsInv(p: Process, io: Io, q: Process)
    requires Inv(p) && ProcessStep(p, io, q)
    ensures Inv(q)
  {
    if StartStep(p, io, q) { StartStepKeepsInv(p, io, q); }
    else if StopStep(p, io, q) { StopStepKeepsLiveInv(p, io, q); StopStepKeepsPcs(p, io, q); }
    else if RenewStep(p, io, q) { RenewStepKeepsLiveInv(p, io, q); RenewStepKeepsPcs(p, io, q); }
    else { BackgroundStepKeepsInv(p, io, q); }
  }

  // ----- The cron of a leader runs -----

  /** `Stop` has not stopped the cron yet. */
  predicate BeforeStop(main: MainPc) {
    match main
    case ChecksCron(last) => !last
    case ReadsCron(last) => !last
    case StopsCron(last, _) => !last
    case NotStarted | StartReadsClock | StartAcquires(_) | SetsFlag | StartsCron | SpawnsLoops | SpawnsConsumer | Serving => true
    case _ => false
  }

  predicate StartedCron(main: MainPc) {
    !main.NotStarted? && !main.StartReadsClock? && !main.StartAcquires? && !main.SetsFlag? && !main.StartsCron?
  }

  /** The renew loop is neither stepping down nor becoming the leader. */
  predicate Renewing(renew: RenewPc) {
    renew.NotSpawned? || renew.Selects? || renew.RenewReadsClock? || renew.Renews? || renew.StepsDown? || renew.DownStops?
  }

  /** Until `Stop` stops it, the current cron runs exactly while the process leads and its renew loop goes on renewing. */
  predicate CronRuns(p: Process) {
    Wf(p) && (BeforeStop(p.main) ==>
      && !p.cancelled && !p.renew.Exited?
      && (p.crons[|p.crons| - 1].running <==> StartedCron(p.main) && p.isLeader && Renewing(p.renew)))
  }

  lemma StartStepKeepsCronRuns(p: Process, io: Io, q: Process)
    requires Inv(p) && CronRuns(p) && StartStep(p, io, q)
    ensures CronRuns(q)
  {
  }

  lemma StopStepKeepsCronRuns(p: Process, io: Io, q: Process)
    requires Inv(p) && CronRuns(p) && StopStep(p, io, q)
    ensures CronRuns(q)
  {
  }

  lemma RenewStepKeepsCronRuns(p: Process, io: Io, q: Process)
    requires Inv(p) && CronRuns(p) && RenewStep(p, io, q)
    ensures CronRuns(q)
  {
  }

  lemma StepKeepsCronRuns(p: Process, io: Io, q: Process)
    requires Inv(p) && CronRuns(p) && ProcessStep(p, io, q)
    ensures CronRuns(q)
  {
    if StartStep(p, io, q) { StartStepKeepsCronRuns(p, io, q); }
    else if StopStep(p, io, q) { StopStepKeepsCronRuns(p, io, q); }
    else if RenewStep(p, io, q) { RenewStepKeepsCronRuns(p, io, q); }
  }

  // ----- Runs -----

  ghost predicate Run(ps: seq<Process>, ios: seq<Io>) {
    && |ps| == |ios| + 1 && ps[0] == INITIAL
    && forall i | 0 <= i < |ios| :: ProcessStep(ps[i], ios[i], ps[i + 1])
  }

  lemma {:induction false} RunKeepsInv(ps: seq<Process>, ios: seq<Io>, n: nat)
    requires Run(ps, ios) && n < |ps|
    ensures Inv(ps[n])
  {
    if n == 0 {
      InitialInv();
    } else {
      RunKeepsInv(ps, ios, n - 1);
      StepKeepsInv(ps[n - 1], ios[n - 1], ps[n]);
    }
  }

  /**
    In every interleaving of `Stop` with step-down and re-election, at every
    step, a cron that runs or has a job in flight is the current one and the
    leader flag is up.
    */
  lemma LiveCronImpliesLeader(ps: seq<Process>, ios: seq<Io>, n: nat, c: nat)
    requires Run(ps, ios) && n < |ps| && c < |ps[n].crons| && (ps[n].crons[c].running || ps[n].crons[c].inFlight > 0)
    ensures ps[n].isLeader && c == |ps[n].crons| - 1
  {
    RunKeepsInv(ps, ios, n);
    assert Live(ps[n], c);
  }

  lemma {:induction false} RunKeepsCronRuns(ps: seq<Process>, ios: seq<Io>, n: nat)
    requires Run(ps, ios) && n < |ps|
    ensures CronRuns(ps[n])
  {
    if n > 0 {
      RunKeepsCronRuns(ps, ios, n - 1);
      RunKeepsInv(ps, ios, n - 1);
      StepKeepsCronRuns(ps[n - 1], ios[n - 1], ps[n]);
    }
  }

  /**
    In every run, while the process serves and its renew loop waits, its current
    cron runs exactly when it is the leader, after `Start` as after a re-election.
    */
  lemma LeaderRunsItsCron(ps: seq<Process>, ios: seq<Io>, n: nat)
    requires Run(ps, ios) && n < |ps| && ps[n].main.Serving? && (ps[n].renew.Selects? || ps[n].renew.NotSpawned?)
    ensures |ps[n].crons| > 0 && (ps[n].crons[|ps[n].crons| - 1].running <==> ps[n].isLeader)
  {
    RunKeepsCronRuns(ps, ios, n);
  }

  /** When the run store is closed, and from then on, no cron ever made is running and no job is in flight. */
  lemma {:induction false} NothingRunsAfterClose(ps: seq<Process>, ios: seq<Io>, m: nat, n: nat, c: nat)
    requires Run(ps, ios) && m <= n < |ps| && ps[m].main.Closed?
    ensures c < |ps[n].crons| ==> !ps[n].crons[c].running && ps[n].crons[c].inFlight == 0
    ensures ps[n].main.Closed? && LoopDone(ps[n])
  {
    if m < n {
      NothingRunsAfterClose(ps, ios, m, n - 1, c);
      RunKeepsInv(ps, ios, n - 1);
      assert ProcessStep(ps[n - 1], ios[n - 1], ps[n]);
    }
    RunKeepsInv(ps, ios, n);
    assert !Live(ps[n], c);
  }

  // ----- Stop comes to its end -----

  /** A running cron can fire a job at any time, whatever else the process does. */
  lemma RunningCronFires(p: Process, c: nat) returns (q: Process)
    requires c < |p.crons| && p.crons[c].running
    ensures ProcessStep(p, Internal, q) && |q.crons| == |p.crons| && q.crons[c].inFlight == p.crons[c].inFlight + 1
  {
    q := p.(crons := p.crons[c := p.crons[c].(inFlight := p.crons[c].inFlight + 1)]);
    assert BackgroundStep(p, Internal, q);
  }

  /** Every remembered cron exists, and whoever waits for the loops has cancelled them. */
  predicate Bounded(p: Process) {
    && (match p.main
        case StopsCron(_, ref) => ref < |p.crons|
        case WaitsJobs(_, ref) => ref < |p.crons|
        case WaitsForLoops => p.cancelled
        case _ => true)
    && match p.renew
       case DownStops(ref) => ref < |p.crons|
       case DownWaits(ref) => ref < |p.crons|
       case StopsOld(ref) => ref < |p.crons|
       case WaitsOld(ref) => ref < |p.crons|
       case _ => true
  }

  lemma StartStepKeepsBounded(p: Process, io: Io, q: Process)
    requires Wf(p) && Bounded(p) && StartStep(p, io, q)
    ensures Bounded(q)
  {
  }

  lemma StopStepKeepsBounded(p: Process, io: Io, q: Process)
    requires Wf(p) && Bounded(p) && StopStep(p, io, q)
    ensures Bounded(q)
  {
  }

  lemma RenewStepKeepsBounded(p: Process, io: Io, q: Process)
    requires Wf(p) && Bounded(p) && RenewStep(p, io, q)
    ensures Bounded(q)
  {
  }

  lemma BackgroundStepKeepsBounded(p: Process, io: Io, q: Process)
    requires Wf(p) && Bounded(p) && BackgroundStep(p, io, q)
    ensures Bounded(q)
  {
  }

  lemma StepKeepsBounded(p: Process, io: Io, q: Process)
    requires Wf(p) && Bounded(p) && ProcessStep(p, io, q)
    ensures Bounded(q)
  {
    if StartStep(p, io, q) { StartStepKeepsBounded(p, io, q); }
    else if StopStep(p, io, q) { StopStepKeepsBounded(p, io, q); }
    else if RenewStep(p, io, q) { RenewStepKeepsBounded(p, io, q); }
    else { BackgroundStepKeepsBounded(p, io, q); }
  }

  lemma {:induction false} RunKeepsBounded(ps: seq<Process>, ios: seq<Io>, n: nat)
    requires Run(ps, ios) && n < |ps|
    ensures Wf(ps[n]) && Bounded(ps[n])
  {
    RunKeepsInv(ps, ios, n);
    if n > 0 {
      RunKeepsBounded(ps, ios, n - 1);
      StepKeepsBounded(ps[n - 1], ios[n - 1], ps[n]);
    }
  }

  function Jobs(crons: seq<Cron>): nat {
    if crons == [] then 0 else Jobs(crons[..|crons| - 1]) + crons[|crons| - 1].inFlight
  }

  lemma {:induction false} JobEnds(crons: seq<Cron>, c: nat)
    requires c < |crons| && crons[c].inFlight > 0
    ensures Jobs(crons[c := crons[c].(inFlight := crons[c].inFlight - 1)]) == Jobs(crons) - 1
  {
    var n, fewer := |crons| - 1, crons[c := crons[c].(inFlight := crons[c].inFlight - 1)];
    if c < n {
      JobEnds(crons[..n], c);
      assert fewer[..n] == crons[..n][c := crons[c].(inFlight := crons[c].inFlight - 1)];
    } else {
      assert fewer[..n] == crons[..n];
    }
  }

  function Turn(last: bool): nat {
    if last then 4 else 10
  }

  /** Steps the caller has still to take, at most. */
  function MainLeft(main: MainPc): nat {
    match main
    case Closed => 0
    case ClosesStore => 1
    case Releases => 2
    case ChecksLease => 3
    case WaitsJobs(last, _) => Turn(last)
    case StopsCron(last, _) => Turn(last) + 1
    case ReadsCron(last) => Turn(last) + 2
    case ChecksCron(last) => Turn(last) + 3
    case WaitsForLoops => 8
    case Cancels => 9
    case Serving => 14
    case SpawnsConsumer => 15
    case SpawnsLoops => 16
    case StartsCron => 17
    case SetsFlag => 18
    case StartAcquires(_) => 19
    case StartReadsClock => 20
    case NotStarted => 21
  }

  /** Steps the renew loop has still to take once it is cancelled, if the database refuses it. */
  function RenewLeft(renew: RenewPc): nat {
    match renew
    case NotSpawned | Exited => 0
    case Selects => 1
    case Reacquires(_) => 2
    case ReacquireReadsClock => 3
    case ClearsFlag => 4
    case DownWaits(_) => 5
    case DownStops(_) => 6
    case StepsDown => 7
    case Renews(_) => 8
    case RenewReadsClock => 9
    case StartsNewCron => 2
    case RaisesFlag => 3
    case Reschedules => 4
    case WaitsOld(_) => 5
    case StopsOld(_) => 6
    case SwapsCron => 7
  }

  predicate Nearer(p: Process, q: Process) {
    || MainLeft(q.main) < MainLeft(p.main)
    || (q.main == p.main && RenewLeft(q.renew) < RenewLeft(p.renew))
    || (q.main == p.main && q.renew == p.renew && q.loops < p.loops)
    || (q.main == p.main && q.renew == p.renew && q.loops == p.loops && Jobs(q.crons) < Jobs(p.crons))
  }

  lemma MainGoesOn(p: Process) returns (io: Io, q: Process)
    requires Wf(p) && Bounded(p) && !p.main.Closed? && !p.main.WaitsForLoops?
    requires forall c: nat | c < |p.crons| :: p.crons[c].inFlight == 0
    ensures ProcessStep(p, io, q) && MainLeft(q.main) < MainLeft(p.main)
  {
    match p.main {
      case StartReadsClock => io, q := ReadsClock(0), p.(main := StartAcquires(0));
      case StartAcquires(r) => io, q := TriesAcquire(r, false), p.(main := SpawnsConsumer);
      case Releases => io, q := TriesRelease, p.(main := ClosesStore);
      case NotStarted => io, q := Internal, p.(main := StartReadsClock);
      case SetsFlag => io, q := Internal, p.(main := StartsCron, isLeader := true);
      case StartsCron => io, q := Internal, Started(p).(main := SpawnsLoops);
      case SpawnsLoops => io, q := Internal, p.(main := SpawnsConsumer, renew := Selects, loops := p.loops + 1);
      case SpawnsConsumer => io, q := Internal, p.(main := Serving, loops := p.loops + 1);
      case _ => io, q := StopGoesOn(p);
    }
  }

  lemma StopGoesOn(p: Process) returns (io: Io, q: Process)
    requires Wf(p) && Bounded(p) && !p.main.Closed? && !p.main.WaitsForLoops? && !p.main.Releases?
    requires MainLeft(p.main) <= 14
    requires forall c: nat | c < |p.crons| :: p.crons[c].inFlight == 0
    ensures StopStep(p, io, q) && MainLeft(q.main) < MainLeft(p.main)
  {
    io := Internal;
    match p.main {
      case Serving => q := p.(main := ChecksCron(false));
      case ChecksCron(last) => q := p.(main := if p.isLeader then ReadsCron(last) else AfterCron(last));
      case ReadsCron(last) => q := p.(main := StopsCron(last, Current(p)));
      case StopsCron(last, ref) => q := Stopped(p, ref).(main := WaitsJobs(last, ref));
      case WaitsJobs(last, ref) => q := p.(main := AfterCron(last));
      case Cancels => q := p.(main := WaitsForLoops, cancelled := true);
      case ChecksLease => q := p.(main := if p.isLeader then Releases else ClosesStore);
      case ClosesStore => q := p.(main := Closed);
    }
  }

  lemma RenewGoesOn(p: Process) returns (io: Io, q: Process)
    requires Wf(p) && Bounded(p) && p.cancelled && !LoopDone(p)
    requires forall c: nat | c < |p.crons| :: p.crons[c].inFlight == 0
    ensures RenewStep(p, io, q) && q.main == p.main && RenewLeft(q.renew) < RenewLeft(p.renew)
  {
    io := Internal;
    match p.renew {
      case Selects => q := p.(renew := Exited);
      case RenewReadsClock => io, q := ReadsClock(0), p.(renew := Renews(0));
      case Renews(r) => io, q := TriesRenew(r, false), p.(renew := StepsDown);
      case StepsDown => q := p.(renew := DownStops(Current(p)));
      case DownStops(ref) => q := Stopped(p, ref).(renew := DownWaits(ref));
      case DownWaits(ref) => q := p.(renew := ClearsFlag);
      case ClearsFlag => q := p.(renew := ReacquireReadsClock, isLeader := false);
      case ReacquireReadsClock => io, q := ReadsClock(0), p.(renew := Reacquires(0));
      case Reacquires(r) => io, q := TriesAcquire(r, false), p.(renew := Selects);
      case SwapsCron => q := p.(renew := StopsOld(Current(p)), crons := p.crons + [NEW_CRON]);
      case StopsOld(ref) => q := Stopped(p, ref).(renew := WaitsOld(ref));
      case WaitsOld(ref) => q := p.(renew := Reschedules);
      case Reschedules => q := p.(renew := RaisesFlag);
      case RaisesFlag => q := p.(renew := StartsNewCron, isLeader := true);
      case StartsNewCron => q := Started(p).(renew := Selects);
    }
  }

  /** Some step of the process brings it nearer to the end of `Stop`, even if the database refuses everything. */
  lemma GoesOn(p: Process) returns (io: Io, q: Process)
    requires Wf(p) && Bounded(p) && !p.main.Closed?
    ensures ProcessStep(p, io, q) && Nearer(p, q)
  {
    if c: nat :| c < |p.crons| && p.crons[c].inFlight > 0 {
      JobEnds(p.crons, c);
      io, q := Internal, p.(crons := p.crons[c := p.crons[c].(inFlight := p.crons[c].inFlight - 1)]);
      assert BackgroundStep(p, io, q);
    } else if !p.main.WaitsForLoops? {
      io, q := MainGoesOn(p);
    } else if !LoopDone(p) {
      io, q := RenewGoesOn(p);
    } else if p.loops > 0 {
      io, q := Internal, p.(loops := p.loops - 1);
      assert BackgroundStep(p, io, q);
    } else {
      io, q := Internal, p.(main := ChecksCron(true));
      assert StopStep(p, io, q);
    }
  }

  /**
    `Stop` cannot get stuck: every run, whatever `Start`, the renew loop and the
    jobs were at, goes on to one in which `Stop` has returned, whether or not any
    statement succeeds.
    */
  lemma {:induction false} StopCanEnd(ps: seq<Process>, ios: seq<Io>) returns (ps': seq<Process>, ios': seq<Io>)
    requires Run(ps, ios)
    ensures Run(ps', ios') && ps <= ps' && ios <= ios' && ps'[|ps'| - 1].main.Closed?
    decreases MainLeft(ps[|ps| - 1].main), RenewLeft(ps[|ps| - 1].renew), ps[|ps| - 1].loops, Jobs(ps[|ps| - 1].crons)
  {
    var p := ps[|ps| - 1];
    if p.main.Closed? {
      return ps, ios;
    }
    RunKeepsBounded(ps, ios, |ps| - 1);
    var io, q := GoesOn(p);
    assert forall i | 0 <= i < |ios + [io]| :: ProcessStep((ps + [q])[i], (ios + [io])[i], (ps + [q])[i + 1]);
    ps', ios' := StopCanEnd(ps + [q], ios + [io]);
  }
}
