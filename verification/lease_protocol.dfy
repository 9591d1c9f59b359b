/**
  Any number of scheduler processes sharing the lease row of one database.
  A statement uses a clock reading taken earlier than the instant it takes
  effect, and its reply may be lost. `log` is the history of the row.
  */
module LeaseProtocol {
  import opened Prelude
  import opened BrokerTables
  import opened SchedulerProcess

  const LEASE_TTL: int := 30_000_000

  /** A successful TryAcquire or Renew (read the clock at `issued`, took effect at `at`), or a Release. */
  datatype Event = Granted(holder: string, issued: int, at: int) | Released(holder: string, at: int)

  datatype System = System(procs: map<string, Process>, row: Option<Lease>, clock: int, log: seq<Event>)

  ghost predicate Init(s: System) {
    s.log == [] && forall h | h in s.procs :: s.procs[h] == INITIAL
  }

  function Until(e: Event): int
    requires e.Granted?
  {
    e.issued + LEASE_TTL
  }

  /** The row and the log after the statement of `h` takes effect. */
  function AfterAcquire(s: System, h: string, reading: int): System {
    s.(row := Some(Lease(h, reading, reading + LEASE_TTL)), log := s.log + [Granted(h, reading, s.clock)])
  }

  function AfterRenew(s: System, h: string, reading: int): System
    requires s.row.Some?
  {
    s.(row := Some(s.row.value.(expiresAt := reading + LEASE_TTL)), log := s.log + [Granted(h, reading, s.clock)])
  }

  function AfterRelease(s: System, h: string): System {
    s.(row := if s.row.Some? && s.row.value.holder == h then None else s.row, log := s.log + [Released(h, s.clock)])
  }

  /**
    What the database does for a step of `h`. A statement reported as failed may
    have failed, or have taken effect and lost its reply.
    */
  ghost predicate Effect(s: System, h: string, io: Io, u: System) {
    match io
    case Internal => u == s
    case ReadsClock(reading) => u == s && reading == s.clock
    case TriesAcquire(reading, granted) =>
      || (CanAcquire(s.row, reading) && u == AfterAcquire(s, h, reading))
      || (!granted && u == s)
    case TriesRenew(reading, renewed) =>
      || (CanRenew(s.row, h, reading) && u == AfterRenew(s, h, reading))
      || (!renewed && u == s)
    case TriesRelease => u == AfterRelease(s, h) || u == s
  }

  ghost predicate Moves(s: System, h: string, io: Io, q: Process, u: System) {
    && h in s.procs && ProcessStep(s.procs[h], io, q)
    && Effect(s.(procs := s.procs[h := q]), h, io, u)
  }

  ghost predicate Step(s: System, u: System) {
    || (u == s.(clock := u.clock) && s.clock <= u.clock)
    || (exists h, io, q :: Moves(s, h, io, q, u))
  }

  ghost predicate Run(ss: seq<System>) {
    |ss| > 0 && Init(ss[0]) && forall i | 0 <= i < |ss| - 1 :: Step(ss[i], ss[i + 1])
  }

  // ----- Grants -----

  ghost predicate ReleasedBetween(log: seq<Event>, holder: string, i: int, j: int) {
    exists k :: i < k < j && 0 <= k < |log| && log[k].Released? && log[k].holder == holder
  }

  /** Grant `i` has not been ended by its holder's Release. */
  ghost predicate Open(log: seq<Event>, i: nat) {
    i < |log| && log[i].Granted? && !ReleasedBetween(log, log[i].holder, i, |log|)
  }

  /**
    Grants of different holders hold disjoint intervals: before the later takes
    effect, the earlier was released or its TTL, counted from its own clock
    reading, ran out.
    */
  ghost predicate NoOverlap(log: seq<Event>) {
    forall i, j | 0 <= i < j < |log| && log[i].Granted? && log[j].Granted? && log[i].holder != log[j].holder ::
      ReleasedBetween(log, log[i].holder, i, j) || Until(log[i]) < log[j].at
  }

  /** An open grant is the row's, covered to its end, or its time is over. */
  ghost predicate Covered(s: System, i: nat)
    requires i < |s.log| && s.log[i].Granted?
  {
    || (s.row.Some? && s.row.value.holder == s.log[i].holder && Until(s.log[i]) <= s.row.value.expiresAt)
    || Until(s.log[i]) < s.clock
  }

  /** The clock reading a thread of the process is about to use. */
  function PendingReading(p: Process): Option<int> {
    if p.main.StartAcquires? then Some(p.main.reading)
    else if p.renew.Renews? || p.renew.Reacquires? then Some(p.renew.reading)
    else None
  }

  ghost predicate LogInv(s: System) {
    && (forall i: nat | Open(s.log, i) :: Covered(s, i))
    && (forall i | 0 <= i < |s.log| :: s.log[i].at <= s.clock)
    && (forall i | 0 <= i < |s.log| && s.log[i].Granted? :: s.log[i].issued <= s.log[i].at)
    && NoOverlap(s.log)
  }

  /** Past its release, and its flag is still up. */
  predicate HasStopped(p: Process) {
    (p.main.ClosesStore? || p.main.Closed?) && p.isLeader
  }

  ghost predicate ProcsInv(s: System) {
    && (forall h | h in s.procs :: Inv(s.procs[h]))
    && (forall h | h in s.procs && PendingReading(s.procs[h]).Some? ::
          PendingReading(s.procs[h]).value <= s.clock)
    && (forall h, i | h in s.procs && PendingReading(s.procs[h]).Some? && 0 <= i < |s.log| && s.log[i].holder == h ::
          s.log[i].at <= PendingReading(s.procs[h]).value)
    && (forall i | 0 <= i < |s.log| && s.log[i].Released? && s.log[i].holder in s.procs ::
          HasStopped(s.procs[s.log[i].holder]))
  }

  ghost predicate SystemInv(s: System) {
    LogInv(s) && ProcsInv(s)
  }

  // ----- Effects keep the log invariant -----

  lemma AppendKeepsOlder(log: seq<Event>, e: Event, i: nat)
    requires i < |log| && Open(log + [e], i)
    ensures Open(log, i) && !(e.Released? && e.holder == log[i].holder)
  {
    var longer := log + [e];
    forall k | i < k < |log| && log[k].Released? ensures log[k].holder != log[i].holder {
      assert longer[k] == log[k];
    }
    assert longer[|log|] == e;
  }

  /** A later grant leaves every open grant of another holder expired. */
  lemma GrantKeepsLogInv(s: System, u: System, h: string, reading: int)
    requires LogInv(s) && reading <= s.clock
    requires forall i | 0 <= i < |s.log| && s.log[i].holder == h :: s.log[i].at <= reading
    requires u.log == s.log + [Granted(h, reading, s.clock)] && u.clock == s.clock
    requires u.row.Some? && u.row.value.holder == h && u.row.value.expiresAt == reading + LEASE_TTL
    requires CanAcquire(s.row, reading) || CanRenew(s.row, h, reading)
    ensures LogInv(u)
  {
    forall i: nat | Open(u.log, i) ensures Covered(u, i) {
      if i < |s.log| {
        AppendKeepsOlder(s.log, Granted(h, reading, s.clock), i);
        assert Covered(s, i);
      }
    }
    forall i, j | 0 <= i < j < |u.log| && u.log[i].Granted? && u.log[j].Granted? && u.log[i].holder != u.log[j].holder
      ensures ReleasedBetween(u.log, u.log[i].holder, i, j) || Until(u.log[i]) < u.log[j].at
    {
      OverlapAfterGrant(s, u, h, reading, i, j);
    }
  }

  lemma OverlapAfterGrant(s: System, u: System, h: string, reading: int, i: nat, j: nat)
    requires LogInv(s) && reading <= s.clock
    requires u.log == s.log + [Granted(h, reading, s.clock)] && u.clock == s.clock
    requires CanAcquire(s.row, reading) || CanRenew(s.row, h, reading)
    requires i < j < |u.log| && u.log[i].Granted? && u.log[j].Granted? && u.log[i].holder != u.log[j].holder
    ensures ReleasedBetween(u.log, u.log[i].holder, i, j) || Until(u.log[i]) < u.log[j].at
  {
    assert u.log[i] == s.log[i];
    if j < |s.log| {
      assert u.log[j] == s.log[j];
      if ReleasedBetween(s.log, s.log[i].holder, i, j) {
        ReleasedBetweenLonger(s.log, u.log, s.log[i].holder, i, j);
      }
    } else if ReleasedBetween(s.log, s.log[i].holder, i, |s.log|) {
      ReleasedBetweenLonger(s.log, u.log, s.log[i].holder, i, j);
    } else {
      assert Open(s.log, i) && Covered(s, i);
    }
  }

  lemma ReleasedBetweenLonger(log: seq<Event>, longer: seq<Event>, holder: string, i: int, j: int)
    requires log <= longer && ReleasedBetween(log, holder, i, j)
    ensures ReleasedBetween(longer, holder, i, j)
  {
    var k :| i < k < j && 0 <= k < |log| && log[k].Released? && log[k].holder == holder;
    assert longer[k] == log[k];
  }

  lemma ReleaseKeepsLogInv(s: System, h: string)
    requires LogInv(s)
    ensures LogInv(AfterRelease(s, h))
  {
    var u := AfterRelease(s, h);
    forall i: nat | Open(u.log, i) ensures Covered(u, i) {
      AppendKeepsOlder(s.log, Released(h, s.clock), i);
      assert Covered(s, i);
    }
    forall i, j | 0 <= i < j < |u.log| && u.log[i].Granted? && u.log[j].Granted? && u.log[i].holder != u.log[j].holder
      ensures ReleasedBetween(u.log, u.log[i].holder, i, j) || Until(u.log[i]) < u.log[j].at
    {
      assert u.log[i] == s.log[i] && u.log[j] == s.log[j];
      if ReleasedBetween(s.log, s.log[i].holder, i, j) {
        ReleasedBetweenLonger(s.log, u.log, s.log[i].holder, i, j);
      }
    }
  }

  // ----- Every step keeps the invariant -----

  /** What a step's i/o says about the clock readings of the moving process, and how it goes on after its release. */
  predicate MoverFits(p: Process, io: Io, q: Process) {
    && (HasStopped(p) ==> HasStopped(q) && io.Internal?)
    && match io
       case TriesAcquire(reading, _) => PendingReading(p) == Some(reading) && PendingReading(q).None?
       case TriesRenew(reading, _) => PendingReading(p) == Some(reading) && PendingReading(q).None?
       case ReadsClock(reading) => PendingReading(q) == Some(reading)
       case Internal => PendingReading(q).None? || PendingReading(q) == PendingReading(p)
       case TriesRelease => HasStopped(q) && PendingReading(q).None?
  }

  lemma StartFits(p: Process, io: Io, q: Process)
    requires Inv(p) && StartStep(p, io, q)
    ensures MoverFits(p, io, q)
  {
  }

  lemma StopFits(p: Process, io: Io, q: Process)
    requires Inv(p) && StopStep(p, io, q)
    ensures MoverFits(p, io, q)
  {
  }

  lemma RenewFits(p: Process, io: Io, q: Process)
    requires Inv(p) && RenewStep(p, io, q)
    ensures MoverFits(p, io, q)
  {
  }

  lemma MoverFacts(p: Process, io: Io, q: Process)
    requires Inv(p) && ProcessStep(p, io, q)
    ensures Inv(q) && MoverFits(p, io, q)
  {
    StepKeepsInv(p, io, q);
    if StartStep(p, io, q) { StartFits(p, io, q); }
    else if StopStep(p, io, q) { StopFits(p, io, q); }
    else if RenewStep(p, io, q) { RenewFits(p, io, q); }
  }

  lemma MoveKeepsInv(s: System, h: string, io: Io, q: Process, u: System)
    requires SystemInv(s) && Moves(s, h, io, q, u)
    ensures SystemInv(u)
  {
    MoverFacts(s.procs[h], io, q);
    var s' := s.(procs := s.procs[h := q]);
    if u == s' {
      QuietMove(s, h, io, q);
    } else if io.TriesRelease? {
      ReleaseKeepsLogInv(s', h);
      ProcsAfterEvent(s, h, q, u, Released(h, s.clock));
    } else {
      GrantKeepsLogInv(s', u, h, io.reading);
      ProcsAfterEvent(s, h, q, u, Granted(h, io.reading, s.clock));
    }
  }

  /** A step without a database effect. */
  lemma QuietMove(s: System, h: string, io: Io, q: Process)
    requires SystemInv(s) && h in s.procs && Inv(q) && MoverFits(s.procs[h], io, q)
    requires io.ReadsClock? ==> io.reading == s.clock
    ensures SystemInv(s.(procs := s.procs[h := q]))
  {
    QuietProcs(s, h, io, q);
    QuietLog(s, s.(procs := s.procs[h := q]));
  }

  lemma QuietLog(s: System, u: System)
    requires LogInv(s) && u == s.(procs := u.procs)
    ensures LogInv(u)
  {
    forall i: nat | Open(u.log, i) ensures Covered(u, i) {
      assert Open(s.log, i) && Covered(s, i);
    }
  }

  lemma QuietProcs(s: System, h: string, io: Io, q: Process)
    requires SystemInv(s) && h in s.procs && Inv(q) && MoverFits(s.procs[h], io, q)
    requires io.ReadsClock? ==> io.reading == s.clock
    ensures ProcsInv(s.(procs := s.procs[h := q]))
  {
    var u := s.(procs := s.procs[h := q]);
    assert forall g | g in u.procs && g != h :: u.procs[g] == s.procs[g];
  }

  lemma ProcsAfterEvent(s: System, h: string, q: Process, u: System, e: Event)
    requires ProcsInv(s) && h in s.procs && Inv(q) && PendingReading(q).None?
    requires u.procs == s.procs[h := q] && u.clock == s.clock && u.log == s.log + [e] && e.holder == h
    requires e.Released? ==> HasStopped(q)
    requires HasStopped(s.procs[h]) ==> HasStopped(q)
    ensures ProcsInv(u)
  {
    assert forall g | g in u.procs && g != h :: u.procs[g] == s.procs[g];
    assert forall i | 0 <= i < |s.log| :: u.log[i] == s.log[i];
  }

  lemma TickKeepsInv(s: System, u: System)
    requires SystemInv(s) && u == s.(clock := u.clock) && s.clock <= u.clock
    ensures SystemInv(u)
  {
    forall i: nat | Open(u.log, i) ensures Covered(u, i) {
      assert Open(s.log, i) && Covered(s, i);
    }
  }

  lemma {:induction false} RunKeepsInv(ss: seq<System>, n: nat)
    requires Run(ss) && n < |ss|
    ensures SystemInv(ss[n])
  {
    if n == 0 {
      InitialInv();
    } else {
      RunKeepsInv(ss, n - 1);
      var s, u := ss[n - 1], ss[n];
      assert Step(s, u);
      if u == s.(clock := u.clock) && s.clock <= u.clock {
        TickKeepsInv(s, u);
      } else {
        var h, io, q :| Moves(s, h, io, q, u);
        MoveKeepsInv(s, h, io, q, u);
      }
    }
  }

  // ----- Safety over every run -----

  /** In every run, the holding intervals of different schedulers never overlap. */
  lemma LeaseIntervalsAreDisjoint(ss: seq<System>, n: nat, i: nat, j: nat)
    requires Run(ss) && n < |ss|
    requires i < j < |ss[n].log| && ss[n].log[i].Granted? && ss[n].log[j].Granted?
    requires ss[n].log[i].holder != ss[n].log[j].holder
    ensures || Until(ss[n].log[i]) < ss[n].log[j].at
            || exists k :: i < k < j && ss[n].log[k].Released? && ss[n].log[k].holder == ss[n].log[i].holder
  {
    RunKeepsInv(ss, n);
    if ReleasedBetween(ss[n].log, ss[n].log[i].holder, i, j) {
      var k :| i < k < j && 0 <= k < |ss[n].log| && ss[n].log[k].Released? && ss[n].log[k].holder == ss[n].log[i].holder;
    }
  }

  /** `h` has a grant younger than the TTL. */
  ghost predicate Fresh(s: System, h: string) {
    exists i :: 0 <= i < |s.log| && s.log[i].Granted? && s.log[i].holder == h && s.clock <= Until(s.log[i])
  }

  ghost predicate HasReleased(s: System, h: string) {
    exists k :: 0 <= k < |s.log| && s.log[k].Released? && s.log[k].holder == h
  }

  /** A fresh grant that its holder has not released is the lease row's. */
  lemma FreshHolderOwnsTheRow(ss: seq<System>, n: nat, h: string)
    requires Run(ss) && n < |ss| && Fresh(ss[n], h) && !HasReleased(ss[n], h)
    ensures ss[n].row.Some? && ss[n].row.value.holder == h && ss[n].clock <= ss[n].row.value.expiresAt
  {
    RunKeepsInv(ss, n);
    var s := ss[n];
    var i :| 0 <= i < |s.log| && s.log[i].Granted? && s.log[i].holder == h && s.clock <= Until(s.log[i]);
    assert Open(s.log, i) && Covered(s, i);
  }

  predicate Busy(c: Cron) {
    c.running || c.inFlight > 0
  }

  /**
    At most one scheduler has its leader flag up on a fresh grant it has not
    released; and at most one runs a cron, or still has a job in flight, on a
    fresh grant, whatever it released.
    */
  lemma OneFreshLeader(ss: seq<System>, n: nat, g: string, h: string)
    requires Run(ss) && n < |ss| && g in ss[n].procs && h in ss[n].procs && g != h
    requires Fresh(ss[n], g) && Fresh(ss[n], h)
    ensures !(ss[n].procs[g].isLeader && ss[n].procs[h].isLeader && !HasReleased(ss[n], g) && !HasReleased(ss[n], h))
    ensures forall c: nat, d: nat | c < |ss[n].procs[g].crons| && d < |ss[n].procs[h].crons| ::
              !(Busy(ss[n].procs[g].crons[c]) && Busy(ss[n].procs[h].crons[d]))
  {
    RunKeepsInv(ss, n);
    var s := ss[n];
    if !HasReleased(s, g) && !HasReleased(s, h) {
      FreshHolderOwnsTheRow(ss, n, g);
      FreshHolderOwnsTheRow(ss, n, h);
    }
    forall c: nat, d: nat | c < |s.procs[g].crons| && d < |s.procs[h].crons| && Busy(s.procs[g].crons[c]) && Busy(s.procs[h].crons[d])
      ensures false
    {
      LiveHasNotReleased(s, g, c);
      LiveHasNotReleased(s, h, d);
    }
  }

  /**
    Beside a scheduler that leads on a fresh, unreleased grant, another one with a
    fresh grant has its flag up exactly when it has given its lease back.
    */
  lemma SecondFlagExactly(ss: seq<System>, n: nat, g: string, h: string)
    requires Run(ss) && n < |ss| && g in ss[n].procs && h in ss[n].procs && g != h
    requires Fresh(ss[n], g) && Fresh(ss[n], h) && ss[n].procs[h].isLeader && !HasReleased(ss[n], h)
    ensures ss[n].procs[g].isLeader <==> HasReleased(ss[n], g)
  {
    OneFreshLeader(ss, n, g, h);
    RunKeepsInv(ss, n);
  }

  /** The lease goes back only after the cron is dead. */
  lemma LiveHasNotReleased(s: System, h: string, c: nat)
    requires SystemInv(s) && h in s.procs && Live(s.procs[h], c)
    ensures !HasReleased(s, h)
  {
    assert Inv(s.procs[h]);
  }

  // ----- A run that ends with two flags up -----

  function Last<T>(s: seq<T>): T
    requires s != []
  {
    s[|s| - 1]
  }

  lemma Onward(ss: seq<System>, h: string, io: Io, q: Process, u: System) returns (longer: seq<System>)
    requires Run(ss) && Moves(Last(ss), h, io, q, u)
    ensures Run(longer) && longer == ss + [u]
  {
    longer := ss + [u];
    forall i | 0 <= i < |longer| - 1 ensures Step(longer[i], longer[i + 1]) {
      if i + 1 < |ss| { assert longer[i] == ss[i] && longer[i + 1] == ss[i + 1]; } else { assert longer[i] == Last(ss); }
    }
  }

  /** Steps of one process that do nothing outside it. */
  ghost predicate Inside(ps: seq<Process>) {
    ps != [] && forall i | 0 <= i < |ps| - 1 :: ProcessStep(ps[i], Internal, ps[i + 1])
  }

  lemma {:induction false} InwardSteps(ss: seq<System>, h: string, ps: seq<Process>) returns (longer: seq<System>)
    requires Run(ss) && Inside(ps) && h in Last(ss).procs && Last(ss).procs[h] == ps[0]
    ensures Run(longer) && longer[0] == ss[0]
    ensures Last(longer) == Last(ss).(procs := Last(ss).procs[h := Last(ps)])
    decreases |ps|
  {
    if |ps| == 1 {
      longer := ss;
      assert Last(ss).procs == Last(ss).procs[h := ps[0]];
    } else {
      var u := Last(ss).(procs := Last(ss).procs[h := ps[1]]);
      assert ProcessStep(ps[0], Internal, ps[1]);
      longer := Onward(ss, h, Internal, ps[1], u);
      assert forall i | 0 <= i < |ps| - 1 :: ps[1..][i] == ps[i + 1];
      longer := InwardSteps(longer, h, ps[1..]);
      assert u.procs[h := Last(ps)] == Last(ss).procs[h := Last(ps)];
    }
  }

  /** A process that has started as the leader and serves. */
  const SERVING := Process(Serving, Selects, true, [Cron(true, 0)], false, 2)

  const HALTED := Process(WaitsForLoops, Exited, true, [Cron(false, 0)], true, 0)

  lemma StartsServing() returns (ps: seq<Process>)
    ensures Inside(ps) && ps[0] == INITIAL.(main := SetsFlag) && Last(ps) == SERVING
  {
    var p0 := INITIAL.(main := SetsFlag);
    var p1 := p0.(main := StartsCron, isLeader := true);
    var p2 := Started(p1).(main := SpawnsLoops);
    var p3 := p2.(main := SpawnsConsumer, renew := Selects, loops := 1);
    assert StartStep(p0, Internal, p1) && StartStep(p1, Internal, p2) && StartStep(p2, Internal, p3);
    assert StartStep(p3, Internal, SERVING);
    ps := [p0, p1, p2, p3, SERVING];
  }

  const CANCELLED := Process(WaitsForLoops, Selects, true, [Cron(false, 0)], true, 2)

  /** `Stop` stops the cron and cancels. */
  lemma StopsServing() returns (ps: seq<Process>)
    ensures Inside(ps) && ps[0] == SERVING && Last(ps) == CANCELLED
  {
    var p1 := SERVING.(main := ChecksCron(false));
    var p2 := p1.(main := ReadsCron(false));
    var p3 := p2.(main := StopsCron(false, 0));
    var p4 := Stopped(p3, 0).(main := WaitsJobs(false, 0));
    var p5 := p4.(main := Cancels);
    assert StopStep(SERVING, Internal, p1) && StopStep(p1, Internal, p2) && StopStep(p2, Internal, p3);
    assert StopStep(p3, Internal, p4) && StopStep(p4, Internal, p5) && StopStep(p5, Internal, CANCELLED);
    ps := [SERVING, p1, p2, p3, p4, p5, CANCELLED];
  }

  lemma LoopsEnd() returns (ps: seq<Process>)
    ensures Inside(ps) && ps[0] == CANCELLED && Last(ps) == HALTED
  {
    var p1 := CANCELLED.(renew := Exited);
    var p2 := p1.(loops := 1);
    assert RenewStep(CANCELLED, Internal, p1);
    assert BackgroundStep(p1, Internal, p2) && BackgroundStep(p2, Internal, HALTED);
    ps := [CANCELLED, p1, p2, HALTED];
  }

  /** The second stop of the cron, and then the release. */
  lemma ComesToRelease() returns (ps: seq<Process>)
    ensures Inside(ps) && ps[0] == HALTED && Last(ps) == HALTED.(main := Releases)
  {
    var p1 := HALTED.(main := ChecksCron(true));
    var p2 := p1.(main := ReadsCron(true));
    var p3 := p2.(main := StopsCron(true, 0));
    var p4 := Stopped(p3, 0).(main := WaitsJobs(true, 0));
    var p5 := p4.(main := ChecksLease);
    var p6 := HALTED.(main := Releases);
    assert StopStep(HALTED, Internal, p1) && StopStep(p1, Internal, p2) && StopStep(p2, Internal, p3);
    assert StopStep(p3, Internal, p4) && StopStep(p4, Internal, p5) && StopStep(p5, Internal, p6);
    ps := [HALTED, p1, p2, p3, p4, p5, p6];
  }

  /** A free or expired lease is taken by a process that has not started. */
  lemma Acquires(ss: seq<System>, h: string) returns (longer: seq<System>)
    requires Run(ss) && h in Last(ss).procs && Last(ss).procs[h] == INITIAL
    requires Last(ss).row.None? || Last(ss).row.value.expiresAt < Last(ss).clock
    ensures Run(longer) && longer[0] == ss[0]
    ensures var s := Last(ss);
            Last(longer) == AfterAcquire(s.(procs := s.procs[h := INITIAL.(main := SetsFlag)]), h, s.clock)
  {
    var s := Last(ss);
    var p1, p2, p3 := INITIAL.(main := StartReadsClock), INITIAL.(main := StartAcquires(s.clock)), INITIAL.(main := SetsFlag);
    var s1, s2 := s.(procs := s.procs[h := p1]), s.(procs := s.procs[h := p2]);
    assert StartStep(INITIAL, Internal, p1) && StartStep(p1, ReadsClock(s.clock), p2);
    assert StartStep(p2, TriesAcquire(s.clock, true), p3);
    longer := Onward(ss, h, Internal, p1, s1);
    assert s1.procs[h := p2] == s2.procs && s2.procs[h := p3] == s.procs[h := p3];
    longer := Onward(longer, h, ReadsClock(s.clock), p2, s2);
    longer := Onward(longer, h, TriesAcquire(s.clock, true), p3, AfterAcquire(s.(procs := s.procs[h := p3]), h, s.clock));
  }

  /** A leader comes to its release; nothing takes any time. */
  lemma LeadsAndStops(ss0: seq<System>, g: string) returns (ss: seq<System>)
    requires Run(ss0) && g in Last(ss0).procs && Last(ss0).procs[g] == INITIAL.(main := SetsFlag)
    ensures Run(ss) && ss[0] == ss0[0]
    ensures Last(ss) == Last(ss0).(procs := Last(ss0).procs[g := HALTED.(main := Releases)])
  {
    var ps := StartsServing();
    ss := InwardSteps(ss0, g, ps);
    ps := StopsServing();
    ss := InwardSteps(ss, g, ps);
    ps := LoopsEnd();
    ss := InwardSteps(ss, g, ps);
    ps := ComesToRelease();
    ss := InwardSteps(ss, g, ps);
    assert Last(ss).procs == Last(ss0).procs[g := HALTED.(main := Releases)];
  }

  lemma ReleasesIt(ss0: seq<System>, g: string) returns (ss: seq<System>)
    requires Run(ss0) && g in Last(ss0).procs && Last(ss0).procs[g] == HALTED.(main := Releases)
    ensures Run(ss) && ss[0] == ss0[0]
    ensures var s := Last(ss0); Last(ss) == AfterRelease(s.(procs := s.procs[g := HALTED.(main := ClosesStore)]), g)
  {
    var s, p := Last(ss0), HALTED.(main := ClosesStore);
    assert StopStep(s.procs[g], TriesRelease, p);
    ss := Onward(ss0, g, TriesRelease, p, AfterRelease(s.(procs := s.procs[g := p]), g));
  }

  lemma LeadsAndReleases(g: string, h: string) returns (ss: seq<System>)
    requires g != h
    ensures Run(ss) && ss[0] == System(map[g := INITIAL, h := INITIAL], None, 0, [])
    ensures var p := HALTED.(main := ClosesStore);
            Last(ss) == System(map[g := p, h := INITIAL], None, 0, [Granted(g, 0, 0), Released(g, 0)])
  {
    ss := [System(map[g := INITIAL, h := INITIAL], None, 0, [])];
    ss := Acquires(ss, g);
    ss := LeadsAndStops(ss, g);
    ss := ReleasesIt(ss, g);
    assert Last(ss).procs == map[g := HALTED.(main := ClosesStore), h := INITIAL];
    assert Last(ss).log == [Granted(g, 0, 0), Released(g, 0)];
  }

  /**
    The condition on releases is needed: `Stop` gives the lease back without
    lowering its flag. In this run of two processes, from the start, the second
    takes the lease that the first has just released, and both flags are up on
    grants younger than the TTL.
    */
  lemma ReleasedFlagStaysUp(g: string, h: string) returns (ss: seq<System>)
    requires g != h
    ensures Run(ss) && ss[0] == System(map[g := INITIAL, h := INITIAL], None, 0, [])
    ensures var u := Last(ss);
            && g in u.procs && h in u.procs && u.procs[g].isLeader && u.procs[h].isLeader
            && Fresh(u, g) && Fresh(u, h)
  {
    ss := LeadsAndReleases(g, h);
    ss := Acquires(ss, h);
    var ps := StartsServing();
    ss := InwardSteps(ss, h, ps);
    var u := Last(ss);
    assert u.log[0] == Granted(g, 0, 0) && u.log[2] == Granted(h, 0, 0);
  }

  // ----- Who can get, keep and regain the lease -----

  /** A thread of the process is about to try to acquire with this clock reading. */
  predicate Acquiring(p: Process, reading: int) {
    Wf(p) && (p.main == StartAcquires(reading) || p.renew == Reacquires(reading))
  }

  ghost predicate CanBeGranted(s: System, h: string, reading: int) {
    exists q, u :: Moves(s, h, TriesAcquire(reading, true), q, u)
  }

  ghost predicate CanBeRenewed(s: System, h: string, reading: int) {
    exists q, u :: Moves(s, h, TriesRenew(reading, true), q, u)
  }

  /** An attempt can be granted exactly when there is no row or the row ended before the attempt's clock reading. */
  lemma GrantedExactly(s: System, h: string, reading: int)
    requires h in s.procs && Acquiring(s.procs[h], reading)
    ensures CanBeGranted(s, h, reading) <==> s.row.None? || s.row.value.expiresAt < reading
  {
    if s.row.None? || s.row.value.expiresAt < reading {
      var p := s.procs[h];
      var q := if p.main == StartAcquires(reading) then p.(main := SetsFlag) else p.(renew := SwapsCron);
      assert if p.main == StartAcquires(reading) then StartStep(p, TriesAcquire(reading, true), q)
             else RenewStep(p, TriesAcquire(reading, true), q);
      assert Moves(s, h, TriesAcquire(reading, true), q, AfterAcquire(s.(procs := s.procs[h := q]), h, reading));
    }
  }

  /** A renewal can succeed exactly when the row is the process's and ends after the renewal's clock reading. */
  lemma RenewedExactly(s: System, h: string, reading: int)
    requires h in s.procs && Wf(s.procs[h]) && s.procs[h].renew == Renews(reading)
    ensures CanBeRenewed(s, h, reading) <==> s.row.Some? && s.row.value.holder == h && reading < s.row.value.expiresAt
  {
    if s.row.Some? && s.row.value.holder == h && reading < s.row.value.expiresAt {
      var q := s.procs[h].(renew := Selects);
      assert RenewStep(s.procs[h], TriesRenew(reading, true), q);
      assert Moves(s, h, TriesRenew(reading, true), q, AfterRenew(s.(procs := s.procs[h := q]), h, reading));
    }
  }

  /** A scheduler that renews before its unreleased grant runs out is not refused. */
  lemma FreshGrantIsRenewed(ss: seq<System>, n: nat, h: string, reading: int, i: nat)
    requires Run(ss) && n < |ss| && h in ss[n].procs && ss[n].procs[h].renew == Renews(reading)
    requires i < |ss[n].log| && ss[n].log[i].Granted? && ss[n].log[i].holder == h && ss[n].clock < Until(ss[n].log[i])
    requires !HasReleased(ss[n], h)
    ensures CanBeRenewed(ss[n], h, reading)
  {
    RunKeepsInv(ss, n);
    assert Open(ss[n].log, i) && Covered(ss[n], i);
    assert PendingReading(ss[n].procs[h]).Some?;
    RenewedExactly(ss[n], h, reading);
  }

  lemma Tick(ss: seq<System>, now: int) returns (longer: seq<System>)
    requires Run(ss) && Last(ss).clock <= now
    ensures Run(longer) && longer[0] == ss[0] && Last(longer) == Last(ss).(clock := now)
  {
    longer := ss + [Last(ss).(clock := now)];
    forall i | 0 <= i < |longer| - 1 ensures Step(longer[i], longer[i + 1]) {
      if i + 1 < |ss| { assert longer[i] == ss[i] && longer[i + 1] == ss[i + 1]; } else { assert longer[i] == Last(ss); }
    }
  }

  /** Time passes until the row, if there is one, has expired. */
  lemma RowExpires(ss: seq<System>) returns (longer: seq<System>)
    requires Run(ss)
    ensures Run(longer) && longer[0] == ss[0] && Last(longer) == Last(ss).(clock := Last(longer).clock)
    ensures Last(longer).row.None? || Last(longer).row.value.expiresAt < Last(longer).clock
  {
    var s := Last(ss);
    longer := Tick(ss, if s.row.Some? && s.row.value.expiresAt >= s.clock then s.row.value.expiresAt + 1 else s.clock);
  }

  /**
    From every reachable state, whoever holds the lease and whatever became of it,
    a process that starts can come to lead with its cron running, by time and its
    own steps alone.
    */
  lemma StarterCanTakeOver(ss: seq<System>, h: string) returns (longer: seq<System>)
    requires Run(ss) && h in Last(ss).procs && Last(ss).procs[h] == INITIAL
    ensures Run(longer) && longer[0] == ss[0]
    ensures var s, u := Last(ss), Last(longer);
            && u.procs == s.procs[h := SERVING] && SERVING.isLeader && SERVING.crons[0].running
            && u.row == Some(Lease(h, u.clock, u.clock + LEASE_TTL))
  {
    longer := RowExpires(ss);
    longer := Acquires(longer, h);
    var ps := StartsServing();
    longer := InwardSteps(longer, h, ps);
    assert Last(longer).procs == Last(ss).procs[h := SERVING];
  }

  /** From the swap of the cron to the start of the new one. */
  lemma BecomesLeader(p: Process) returns (ps: seq<Process>)
    requires Inv(p) && p.renew.SwapsCron?
    ensures Inside(ps) && ps[0] == p
    ensures Last(ps).main == p.main && Last(ps).renew.Selects? && Last(ps).isLeader
    ensures |Last(ps).crons| > 0 && Last(ps).crons[|Last(ps).crons| - 1].running
  {
    var c := Current(p);
    assert !Live(p, c);
    var p1 := p.(renew := StopsOld(c), crons := p.crons + [NEW_CRON]);
    var p2 := Stopped(p1, c).(renew := WaitsOld(c));
    var p3 := p2.(renew := Reschedules);
    var p4 := p3.(renew := RaisesFlag);
    var p5 := p4.(renew := StartsNewCron, isLeader := true);
    var p6 := Started(p5).(renew := Selects);
    assert RenewStep(p, Internal, p1) && RenewStep(p1, Internal, p2) && RenewStep(p2, Internal, p3);
    assert RenewStep(p3, Internal, p4) && RenewStep(p4, Internal, p5) && RenewStep(p5, Internal, p6);
    ps := [p, p1, p2, p3, p4, p5, p6];
  }

  /** And so can a process that has stepped down, when it tries to reacquire. */
  lemma DeposedCanLeadAgain(ss: seq<System>, h: string) returns (longer: seq<System>)
    requires Run(ss) && h in Last(ss).procs && Last(ss).procs[h].renew.ReacquireReadsClock?
    ensures Run(longer) && longer[0] == ss[0] && h in Last(longer).procs
    ensures var p, u := Last(longer).procs[h], Last(longer);
            && p.main == Last(ss).procs[h].main && p.renew.Selects? && p.isLeader
            && |p.crons| > 0 && p.crons[|p.crons| - 1].running
            && u.row == Some(Lease(h, u.clock, u.clock + LEASE_TTL))
  {
    longer := RowExpires(ss);
    var s := Last(longer);
    var p := s.procs[h];
    RunKeepsInv(ss, |ss| - 1);
    var p1, p2 := p.(renew := Reacquires(s.clock)), p.(renew := SwapsCron);
    assert RenewStep(p, ReadsClock(s.clock), p1) && RenewStep(p1, TriesAcquire(s.clock, true), p2);
    var s1, s2 := s.(procs := s.procs[h := p1]), s.(procs := s.procs[h := p2]);
    longer := Onward(longer, h, ReadsClock(s.clock), p1, s1);
    assert s1.procs[h := p2] == s2.procs;
    longer := Onward(longer, h, TriesAcquire(s.clock, true), p2, AfterAcquire(s2, h, s.clock));
    RunKeepsInv(longer, |longer| - 1);
    assert Last(longer).procs[h] == p2 && Inv(Last(longer).procs[h]);
    var ps := BecomesLeader(p2);
    longer := InwardSteps(longer, h, ps);
  }

  // ----- A lease that nobody uses -----

  /** What a served leader has become when one renewal failed and the lease was not free to take again. */
  const DEPOSED := Process(Serving, Selects, false, [Cron(false, 0)], false, 2)

  lemma StepsDownServing() returns (ps: seq<Process>)
    ensures Inside(ps) && ps[0] == SERVING.(renew := StepsDown) && Last(ps) == DEPOSED.(renew := ReacquireReadsClock)
  {
    var p0 := SERVING.(renew := StepsDown);
    var p1 := p0.(renew := DownStops(0));
    var p2 := Stopped(p1, 0).(renew := DownWaits(0));
    var p3 := p2.(renew := ClearsFlag);
    var p4 := DEPOSED.(renew := ReacquireReadsClock);
    assert RenewStep(p0, Internal, p1) && RenewStep(p1, Internal, p2) && RenewStep(p2, Internal, p3) && RenewStep(p3, Internal, p4);
    ps := [p0, p1, p2, p3, p4];
  }

  lemma TicksAndRenews(ss: seq<System>, h: string, p: Process) returns (longer: seq<System>)
    requires Run(ss) && Last(ss).procs == map[h := p] && Wf(p) && p.renew.Selects?
    ensures Run(longer) && longer[0] == ss[0]
    ensures Last(longer) == Last(ss).(procs := map[h := p.(renew := Renews(Last(ss).clock))])
  {
    var s := Last(ss);
    var p1, p2 := p.(renew := RenewReadsClock), p.(renew := Renews(s.clock));
    assert RenewStep(p, Internal, p1) && RenewStep(p1, ReadsClock(s.clock), p2);
    var s1, s2 := s.(procs := map[h := p1]), s.(procs := map[h := p2]);
    assert s.procs[h := p1] == s1.procs && s1.procs[h := p2] == s2.procs;
    longer := Onward(ss, h, Internal, p1, s1);
    longer := Onward(longer, h, ReadsClock(s.clock), p2, s2);
  }

  /**
    A leader whose renewal fails once, say because the database was busy, still
    has the row, so its attempt to reacquire is refused like anyone else's.
    */
  lemma OneFailedRenewal(h: string) returns (ss: seq<System>)
    ensures Run(ss) && ss[0] == System(map[h := INITIAL], None, 0, []) && |ss| >= 2
    ensures Last(ss) == System(map[h := DEPOSED], Some(Lease(h, 0, LEASE_TTL)), 0, [Granted(h, 0, 0)])
    ensures Moves(ss[|ss| - 2], h, TriesAcquire(0, false), DEPOSED, Last(ss))
    ensures !CanBeGranted(ss[|ss| - 2], h, 0)
  {
    ss := FreshLeader(h);
    ss := TicksAndRenews(ss, h, SERVING);
    var s := Last(ss);
    var p0, p1 := SERVING.(renew := Renews(0)), SERVING.(renew := StepsDown);
    assert RenewStep(p0, TriesRenew(0, false), p1);
    assert s.procs[h := p1] == map[h := p1];
    ss := Onward(ss, h, TriesRenew(0, false), p1, s.(procs := map[h := p1]));
    var ps := StepsDownServing();
    ss := InwardSteps(ss, h, ps);
    ss := Refused(ss, h);
  }

  lemma FreshLeader(h: string) returns (ss: seq<System>)
    ensures Run(ss) && ss[0] == System(map[h := INITIAL], None, 0, [])
    ensures Last(ss) == System(map[h := SERVING], Some(Lease(h, 0, LEASE_TTL)), 0, [Granted(h, 0, 0)])
  {
    ss := [System(map[h := INITIAL], None, 0, [])];
    ss := Acquires(ss, h);
    var ps := StartsServing();
    ss := InwardSteps(ss, h, ps);
    assert Last(ss).procs == map[h := SERVING];
    assert Last(ss).log == [Granted(h, 0, 0)];
  }

  lemma Refused(ss0: seq<System>, h: string) returns (ss: seq<System>)
    requires Run(ss0)
    requires var p := DEPOSED.(renew := ReacquireReadsClock);
             Last(ss0).procs == map[h := p] && Last(ss0).clock == 0 && Last(ss0).row == Some(Lease(h, 0, LEASE_TTL))
    ensures Run(ss) && ss[0] == ss0[0] && |ss| >= 2 && Last(ss) == Last(ss0).(procs := map[h := DEPOSED])
    ensures Moves(ss[|ss| - 2], h, TriesAcquire(0, false), DEPOSED, Last(ss))
    ensures !CanBeGranted(ss[|ss| - 2], h, 0)
  {
    var s := Last(ss0);
    var p := DEPOSED.(renew := Reacquires(0));
    var s1, s2 := s.(procs := map[h := p]), s.(procs := map[h := DEPOSED]);
    assert RenewStep(s.procs[h], ReadsClock(0), p) && RenewStep(p, TriesAcquire(0, false), DEPOSED);
    assert s.procs[h := p] == s1.procs && s1.procs[h := DEPOSED] == s2.procs;
    ss := Onward(ss0, h, ReadsClock(0), p, s1);
    ss := Onward(ss, h, TriesAcquire(0, false), DEPOSED, s2);
    GrantedExactly(s1, h, 0);
  }

  /** Started, not the leader, and its loop is renewing or has ended. */
  predicate Deposed(p: Process) {
    && StartedCron(p.main) && !p.main.SpawnsLoops? && !p.isLeader
    && (p.renew.Selects? || p.renew.RenewReadsClock? || p.renew.Renews? || p.renew.Exited?)
  }

  /** The process's loop is past a failed renewal. */
  ghost predicate SteppingDown(s: System, h: string) {
    h in s.procs && s.procs[h].renew.StepsDown?
  }

  lemma DeposedStep(p: Process, io: Io, q: Process)
    requires Deposed(p) && ProcessStep(p, io, q)
    ensures Deposed(q) || q.renew.StepsDown?
  {
    if StartStep(p, io, q) { }
    else if StopStep(p, io, q) { DeposedStops(p, io, q); }
    else if RenewStep(p, io, q) { DeposedRenews(p, io, q); }
  }

  lemma DeposedStops(p: Process, io: Io, q: Process)
    requires Deposed(p) && StopStep(p, io, q)
    ensures Deposed(q)
  {
  }

  lemma DeposedRenews(p: Process, io: Io, q: Process)
    requires Deposed(p) && RenewStep(p, io, q)
    ensures Deposed(q) || q.renew.StepsDown?
  {
  }

  lemma MovesOnlyItself(s: System, g: string, io: Io, q: Process, u: System)
    requires Moves(s, g, io, q, u)
    ensures u.procs == s.procs[g := q]
  {
  }

  /**
    From then on the row is renewed and nobody leads: a process whose flag is down
    and whose loop renews does not raise the flag before a renewal fails.
    */
  lemma {:induction false} RenewingDoesNotLead(ss: seq<System>, i: nat, n: nat, h: string)
    requires Run(ss) && i <= n < |ss| && IsDeposed(ss[i], h)
    requires forall k | i < k <= n :: !SteppingDown(ss[k], h)
    ensures IsDeposed(ss[n], h)
    decreases n
  {
    if i < n {
      RenewingDoesNotLead(ss, i, n - 1, h);
      StepOf(ss, n);
      DeposedMove(ss[n - 1], ss[n], h);
    }
  }

  ghost predicate IsDeposed(s: System, h: string) {
    h in s.procs && Deposed(s.procs[h])
  }

  lemma StepOf(ss: seq<System>, n: nat)
    requires Run(ss) && 0 < n < |ss|
    ensures Step(ss[n - 1], ss[n])
  {
    var i := n - 1;
    assert Step(ss[i], ss[i + 1]);
  }

  lemma DeposedMove(s: System, u: System, h: string)
    requires Step(s, u) && IsDeposed(s, h) && !SteppingDown(u, h)
    ensures IsDeposed(u, h)
  {
    if !(u == s.(clock := u.clock) && s.clock <= u.clock) {
      var g, io, q :| Moves(s, g, io, q, u);
      MovesOnlyItself(s, g, io, q, u);
      if g == h { DeposedStep(s.procs[h], io, q); }
    }
  }

  /** While it does, each renewal made in time succeeds, and moves the end of the lease past any other's reach. */
  lemma UnusedLeaseIsRenewed(h: string, at: int) returns (ss: seq<System>)
    requires 0 <= at < LEASE_TTL
    ensures Run(ss) && ss[0] == System(map[h := INITIAL], None, 0, [])
    ensures var u := Last(ss);
            u == System(map[h := DEPOSED], Some(Lease(h, 0, at + LEASE_TTL)), at, [Granted(h, 0, 0), Granted(h, at, at)])
  {
    ss := OneFailedRenewal(h);
    ss := Tick(ss, at);
    ss := TicksAndRenews(ss, h, DEPOSED);
    var s, p := Last(ss), DEPOSED.(renew := Renews(at));
    assert RenewStep(p, TriesRenew(at, true), DEPOSED);
    var u := AfterRenew(s.(procs := map[h := DEPOSED]), h, at);
    assert s.procs[h := DEPOSED] == map[h := DEPOSED];
    ss := Onward(ss, h, TriesRenew(at, true), DEPOSED, u);
    assert [Granted(h, 0, 0)] + [Granted(h, at, at)] == [Granted(h, 0, 0), Granted(h, at, at)];
  }
}
