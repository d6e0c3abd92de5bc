/** `runPool` (`trials/harness/pool.ts`) as a transition system over any interleaving of its
    jobs. Each job takes its locks in the fixed order serial key, overall, heavy, and gives
    them back in reverse. The steps are finer than the source's: the releases in its
    `finally` block run without a break there and one by one here, so every run of the
    source is a run of this model. */
module Pool {
  import opened Text
  import opened Semaphores

  datatype Job = Job(heavy: bool, serial: Option<string>)
  datatype Lock = Serial(key: string) | Overall | Heavy

  /** The locks each job takes, in order. `throws[j]` says how job `j`'s `run` ends; nothing
      else about it is known. */
  datatype Config = Config(paths: seq<seq<Lock>>, parallel: nat, heavyParallel: nat, throws: seq<bool>)

  predicate Valid(c: Config) {
    c.parallel >= 1 && c.heavyParallel >= 1 && |c.throws| == |c.paths|
  }

  function Size(c: Config, lock: Lock): nat {
    match lock
    case Serial(_) => 1
    case Overall => c.parallel
    case Heavy => c.heavyParallel
  }

  function Level(lock: Lock): nat {
    match lock
    case Serial(_) => 0
    case Overall => 1
    case Heavy => 2
  }

  predicate Ascending(path: seq<Lock>) {
    forall i, j :: 0 <= i < j < |path| ==> Level(path[i]) < Level(path[j])
  }

  predicate AllAscending(c: Config) {
    forall j :: 0 <= j < |c.paths| ==> Ascending(c.paths[j])
  }

  function Path(job: Job): (path: seq<Lock>)
    ensures Ascending(path) && Overall in path
    ensures job.heavy <==> Heavy in path
    ensures forall key :: Serial(key) in path <==> job.serial == Some(key)
  {
    (match job.serial case Some(key) => [Serial(key)] case None => [])
    + [Overall]
    + if job.heavy then [Heavy] else []
  }

  function ConfigOf(jobs: seq<Job>, parallel: nat, heavyParallel: nat, throws: seq<bool>): (c: Config)
    ensures |c.paths| == |jobs| && AllAscending(c)
  {
    Config(seq(|jobs|, j requires 0 <= j < |jobs| => Path(jobs[j])), parallel, heavyParallel, throws)
  }

  /** `held` counts the locks of the job's path it owns. */
  datatype Phase =
    | Acquiring(held: nat)
    | Waiting(held: nat)
    | Running
    | Releasing(held: nat)
    | Done

  datatype State = State(phases: seq<Phase>, locks: map<Lock, Sem>, started: seq<Ticket>, errors: seq<Ticket>)

  function Init(c: Config): State {
    State(seq(|c.paths|, _ => Acquiring(0)), map[], [], [])
  }

  /** `serialFor` and the two pool-wide semaphores: made full on first use. */
  function SemAt(c: Config, s: State, lock: Lock): Sem {
    if lock in s.locks then s.locks[lock] else Fresh(Size(c, lock))
  }

  predicate WellPhased(path: seq<Lock>, p: Phase) {
    match p
    case Acquiring(held) => held <= |path|
    case Waiting(held) => held < |path|
    case Releasing(held) => held <= |path|
    case _ => true
  }

  function Held(path: seq<Lock>, p: Phase): seq<Lock>
    requires WellPhased(path, p)
  {
    match p
    case Acquiring(held) => path[..held]
    case Waiting(held) => path[..held]
    case Running => path
    case Releasing(held) => path[..held]
    case Done => []
  }

  predicate WaitsFor(path: seq<Lock>, p: Phase, lock: Lock) {
    p.Waiting? && p.held < |path| && path[p.held] == lock
  }

  predicate Shaped(c: Config, phases: seq<Phase>) {
    |phases| == |c.paths| && forall j :: 0 <= j < |phases| ==> WellPhased(c.paths[j], phases[j])
  }

  function Holders(c: Config, phases: seq<Phase>, lock: Lock): set<Ticket>
    requires Shaped(c, phases)
  {
    set j: nat | j < |phases| && lock in Held(c.paths[j], phases[j])
  }

  function Waiters(c: Config, phases: seq<Phase>, lock: Lock): set<Ticket>
    requires Shaped(c, phases)
  {
    set j: nat | j < |phases| && WaitsFor(c.paths[j], phases[j], lock)
  }

  predicate HasStarted(p: Phase) { p.Running? || HasEnded(p) }

  predicate HasEnded(p: Phase) { p.Releasing? || p.Done? }

  /** The semaphore of `lock` is sound and agrees with what the jobs are doing. */
  predicate Agrees(c: Config, phases: seq<Phase>, sem: Sem, lock: Lock)
    requires Shaped(c, phases)
  {
    && Sound(sem, Size(c, lock))
    && sem.holders == Holders(c, phases, lock)
    && Elements(sem.waiters) == Waiters(c, phases, lock)
  }

  predicate LockInv(c: Config, s: State, lock: Lock)
    requires Shaped(c, s.phases)
  {
    Agrees(c, s.phases, SemAt(c, s, lock), lock)
  }

  function Started(phases: seq<Phase>): set<Ticket> {
    set j: nat | j < |phases| && HasStarted(phases[j])
  }

  function Threw(c: Config, phases: seq<Phase>): set<Ticket>
    requires |phases| == |c.throws|
  {
    set j: nat | j < |phases| && HasEnded(phases[j]) && c.throws[j]
  }

  /** Each `run` is invoked once, and the errors are those of the jobs that ended by throwing. */
  predicate LogInv(c: Config, s: State)
    requires |s.phases| == |c.paths| == |c.throws|
  {
    && Distinct(s.started) && Elements(s.started) == Started(s.phases)
    && Distinct(s.errors) && Elements(s.errors) == Threw(c, s.phases)
  }

  ghost predicate Inv(c: Config, s: State) {
    && AllAscending(c) && Shaped(c, s.phases) && |c.throws| == |c.paths|
    && (forall lock :: LockInv(c, s, lock))
    && LogInv(c, s)
  }

  // ----- steps ------------------------------------------------------------------------

  predicate CanStep(s: State, j: Ticket) {
    j < |s.phases| && !s.phases[j].Waiting? && !s.phases[j].Done?
  }

  function AcquireStep(c: Config, s: State, j: Ticket, lock: Lock): State
    requires CanStep(s, j) && s.phases[j].Acquiring?
  {
    var sem := SemAt(c, s, lock);
    var held := s.phases[j].held;
    s.(phases := s.phases[j := if sem.available > 0 then Acquiring(held + 1) else Waiting(held)],
       locks := s.locks[lock := Acquired(sem, j)])
  }

  /** The released slot goes to the oldest waiter, who resumes holding it. */
  function ReleaseStep(c: Config, s: State, j: Ticket, lock: Lock): State
    requires CanStep(s, j) && s.phases[j].Releasing? && s.phases[j].held > 0
  {
    var sem := SemAt(c, s, lock);
    var phases := s.phases[j := Releasing(s.phases[j].held - 1)];
    s.(phases := Resumed(phases, Woken(sem)), locks := s.locks[lock := Released(sem, j)])
  }

  function Resumed(phases: seq<Phase>, woken: Option<Ticket>): seq<Phase> {
    if woken.Some? && woken.value < |phases| && phases[woken.value].Waiting?
    then phases[woken.value := Acquiring(phases[woken.value].held + 1)]
    else phases
  }

  function Step(c: Config, s: State, j: Ticket): State
    requires Shaped(c, s.phases) && |c.throws| == |c.paths| && CanStep(s, j)
  {
    var path := c.paths[j];
    match s.phases[j]
    case Acquiring(held) =>
      if held < |path| then AcquireStep(c, s, j, path[held])
      else s.(phases := s.phases[j := Running], started := s.started + [j])
    case Running =>
      s.(phases := s.phases[j := Releasing(|path|)], errors := if c.throws[j] then s.errors + [j] else s.errors)
    case Releasing(held) =>
      if held > 0 then ReleaseStep(c, s, j, path[held - 1])
      else s.(phases := s.phases[j := Done])
    case _ => s
  }

  // ----- every step keeps the invariant ------------------------------------------------

  lemma InitInv(c: Config)
    requires Valid(c) && AllAscending(c)
    ensures Inv(c, Init(c))
  {
    var s := Init(c);
    forall lock ensures LockInv(c, s, lock) {
      assert Holders(c, s.phases, lock) == {};
      assert Waiters(c, s.phases, lock) == {};
      assert Elements([]) == {};
    }
  }

  /** Changing one phase changes only that job's membership. */
  lemma OnePhase(c: Config, phases: seq<Phase>, j: Ticket, p: Phase, lock: Lock)
    requires Shaped(c, phases) && j < |phases| && WellPhased(c.paths[j], p)
    ensures Shaped(c, phases[j := p])
    ensures Holders(c, phases[j := p], lock)
         == if lock in Held(c.paths[j], p) then Holders(c, phases, lock) + {j} else Holders(c, phases, lock) - {j}
    ensures Waiters(c, phases[j := p], lock)
         == if WaitsFor(c.paths[j], p, lock) then Waiters(c, phases, lock) + {j} else Waiters(c, phases, lock) - {j}
  {
  }

  lemma HeldGrows(path: seq<Lock>, n: nat, lock: Lock)
    requires n < |path|
    requires Ascending(path)
    ensures lock in path[..n + 1] <==> lock in path[..n] || lock == path[n]
    ensures path[n] !in path[..n]
  {
    assert path[..n + 1] == path[..n] + [path[n]];
  }

  lemma SameMembers(c: Config, phases: seq<Phase>, j: Ticket, p: Phase, lock: Lock)
    requires Shaped(c, phases) && j < |phases|
    requires var path := c.paths[j];
             && WellPhased(path, p)
             && (lock in Held(path, p) <==> lock in Held(path, phases[j]))
             && !WaitsFor(path, phases[j], lock) && !WaitsFor(path, p, lock)
    ensures Shaped(c, phases[j := p])
    ensures Holders(c, phases[j := p], lock) == Holders(c, phases, lock)
    ensures Waiters(c, phases[j := p], lock) == Waiters(c, phases, lock)
  {
    OnePhase(c, phases, j, p, lock);
    assert j in Holders(c, phases, lock) <==> lock in Held(c.paths[j], phases[j]);
    assert j !in Waiters(c, phases, lock);
  }

  /** A phase change that leaves the job's hold on a lock alone keeps that lock's invariant. */
  lemma Untouched(c: Config, phases: seq<Phase>, j: Ticket, p: Phase, sem: Sem, lock: Lock)
    requires Shaped(c, phases) && Agrees(c, phases, sem, lock) && j < |phases|
    requires var path := c.paths[j];
             && WellPhased(path, p)
             && (lock in Held(path, p) <==> lock in Held(path, phases[j]))
             && !WaitsFor(path, phases[j], lock) && !WaitsFor(path, p, lock)
    ensures Shaped(c, phases[j := p]) && Agrees(c, phases[j := p], sem, lock)
  {
    SameMembers(c, phases, j, p, lock);
  }

  lemma TakenLock(c: Config, phases: seq<Phase>, j: Ticket, sem: Sem)
    requires AllAscending(c) && Shaped(c, phases) && j < |phases| && phases[j].Acquiring? && phases[j].held < |c.paths[j]|
    requires Agrees(c, phases, sem, c.paths[j][phases[j].held])
    ensures var held := phases[j].held;
            var phases' := phases[j := if sem.available > 0 then Acquiring(held + 1) else Waiting(held)];
            Shaped(c, phases') && Agrees(c, phases', Acquired(sem, j), c.paths[j][held])
  {
    var held := phases[j].held;
    var lock := c.paths[j][held];
    HeldGrows(c.paths[j], held, lock);
    OnePhase(c, phases, j, if sem.available > 0 then Acquiring(held + 1) else Waiting(held), lock);
    assert j !in Elements(sem.waiters) && j !in sem.holders;
    AcquireSound(sem, Size(c, lock), j);
  }

  lemma UntakenLock(c: Config, phases: seq<Phase>, j: Ticket, free: bool, sem: Sem, lock: Lock)
    requires AllAscending(c) && Shaped(c, phases) && j < |phases| && phases[j].Acquiring? && phases[j].held < |c.paths[j]|
    requires Agrees(c, phases, sem, lock) && lock != c.paths[j][phases[j].held]
    ensures var phases' := phases[j := if free then Acquiring(phases[j].held + 1) else Waiting(phases[j].held)];
            Shaped(c, phases') && Agrees(c, phases', sem, lock)
  {
    var held := phases[j].held;
    HeldGrows(c.paths[j], held, lock);
    Untouched(c, phases, j, if free then Acquiring(held + 1) else Waiting(held), sem, lock);
  }

  lemma AcquireLock(c: Config, s: State, j: Ticket, lock: Lock)
    requires AllAscending(c) && Shaped(c, s.phases) && LockInv(c, s, lock)
    requires CanStep(s, j) && s.phases[j].Acquiring? && s.phases[j].held < |c.paths[j]|
    ensures var s' := AcquireStep(c, s, j, c.paths[j][s.phases[j].held]);
            Shaped(c, s'.phases) && LockInv(c, s', lock)
  {
    hide Agrees;
    var wanted := c.paths[j][s.phases[j].held];
    if lock == wanted {
      TakenLock(c, s.phases, j, SemAt(c, s, lock));
    } else {
      UntakenLock(c, s.phases, j, SemAt(c, s, wanted).available > 0, SemAt(c, s, lock), lock);
    }
  }

  /** The releasing job's half of a release, for the lock it gives back. */
  lemma GiveBack(c: Config, phases: seq<Phase>, j: Ticket, sem: Sem)
    requires AllAscending(c) && Shaped(c, phases) && j < |phases| && phases[j].Releasing? && phases[j].held > 0
    requires Agrees(c, phases, sem, c.paths[j][phases[j].held - 1])
    ensures var held := phases[j].held;
            var lock := c.paths[j][held - 1];
            var mid := phases[j := Releasing(held - 1)];
            && Shaped(c, mid) && j in sem.holders
            && Holders(c, mid, lock) == sem.holders - {j}
            && Waiters(c, mid, lock) == Elements(sem.waiters)
  {
    var path, held := c.paths[j], phases[j].held;
    var lock := path[held - 1];
    HeldGrows(path, held - 1, lock);
    OnePhase(c, phases, j, Releasing(held - 1), lock);
    assert j !in Waiters(c, phases, lock);
  }

  /** The woken job's half. */
  lemma Handoff(c: Config, phases: seq<Phase>, next: Ticket, given: Lock, lock: Lock)
    requires AllAscending(c) && Shaped(c, phases) && next in Waiters(c, phases, given)
    ensures var phases' := Resumed(phases, Some(next));
            && Shaped(c, phases')
            && Holders(c, phases', lock) == (if lock == given then Holders(c, phases, lock) + {next} else Holders(c, phases, lock))
            && Waiters(c, phases', lock) == (if lock == given then Waiters(c, phases, lock) - {next} else Waiters(c, phases, lock))
  {
    var path, held := c.paths[next], phases[next].held;
    HeldGrows(path, held, lock);
    OnePhase(c, phases, next, Acquiring(held + 1), lock);
    assert next in Holders(c, phases, lock) <==> lock in path[..held];
  }

  lemma GivenLock(c: Config, phases: seq<Phase>, j: Ticket, sem: Sem)
    requires AllAscending(c) && Shaped(c, phases) && j < |phases| && phases[j].Releasing? && phases[j].held > 0
    requires Agrees(c, phases, sem, c.paths[j][phases[j].held - 1])
    ensures var lock := c.paths[j][phases[j].held - 1];
            var phases' := Resumed(phases[j := Releasing(phases[j].held - 1)], Woken(sem));
            Shaped(c, phases') && Agrees(c, phases', Released(sem, j), lock)
  {
    var held := phases[j].held;
    var lock := c.paths[j][held - 1];
    GiveBack(c, phases, j, sem);
    ReleaseSound(sem, Size(c, lock), j);
    if sem.waiters != [] {
      assert sem.waiters[0] in Elements(sem.waiters);
      Handoff(c, phases[j := Releasing(held - 1)], sem.waiters[0], lock, lock);
    }
  }

  lemma OtherLock(c: Config, phases: seq<Phase>, j: Ticket, given: Sem, sem: Sem, lock: Lock)
    requires AllAscending(c) && Shaped(c, phases) && j < |phases| && phases[j].Releasing? && phases[j].held > 0
    requires Agrees(c, phases, given, c.paths[j][phases[j].held - 1]) && Agrees(c, phases, sem, lock)
    requires lock != c.paths[j][phases[j].held - 1]
    ensures var phases' := Resumed(phases[j := Releasing(phases[j].held - 1)], Woken(given));
            Shaped(c, phases') && Agrees(c, phases', sem, lock)
  {
    var path, held := c.paths[j], phases[j].held;
    HeldGrows(path, held - 1, lock);
    Untouched(c, phases, j, Releasing(held - 1), sem, lock);
    GiveBack(c, phases, j, given);
    if given.waiters != [] {
      assert given.waiters[0] in Elements(given.waiters);
      Handoff(c, phases[j := Releasing(held - 1)], given.waiters[0], path[held - 1], lock);
    }
  }

  lemma ReleaseLock(c: Config, s: State, j: Ticket, lock: Lock)
    requires AllAscending(c) && Shaped(c, s.phases) && CanStep(s, j)
    requires s.phases[j].Releasing? && 0 < s.phases[j].held <= |c.paths[j]|
    requires LockInv(c, s, c.paths[j][s.phases[j].held - 1]) && LockInv(c, s, lock)
    ensures var s' := ReleaseStep(c, s, j, c.paths[j][s.phases[j].held - 1]);
            Shaped(c, s'.phases) && LockInv(c, s', lock)
  {
    hide Agrees;
    var given := c.paths[j][s.phases[j].held - 1];
    if lock == given {
      GivenLock(c, s.phases, j, SemAt(c, s, lock));
    } else {
      OtherLock(c, s.phases, j, SemAt(c, s, given), SemAt(c, s, lock), lock);
    }
  }

  lemma PhaseLogs(c: Config, phases: seq<Phase>, j: Ticket, p: Phase)
    requires |phases| == |c.throws| && j < |phases|
    ensures Started(phases[j := p]) == if HasStarted(p) then Started(phases) + {j} else Started(phases) - {j}
    ensures Threw(c, phases[j := p])
         == if HasEnded(p) && c.throws[j] then Threw(c, phases) + {j} else Threw(c, phases) - {j}
  {
  }

  lemma ResumedLogs(c: Config, phases: seq<Phase>, woken: Option<Ticket>)
    requires |phases| == |c.throws|
    ensures var phases' := Resumed(phases, woken);
            |phases'| == |phases| && Started(phases') == Started(phases) && Threw(c, phases') == Threw(c, phases)
  {
    if Resumed(phases, woken) != phases { PhaseLogs(c, phases, woken.value, Resumed(phases, woken)[woken.value]); }
  }

  lemma Logged(s: seq<Ticket>, j: Ticket)
    requires Distinct(s) && j !in Elements(s)
    ensures Distinct(s + [j]) && Elements(s + [j]) == Elements(s) + {j}
  {
  }

  lemma StepLogs(c: Config, s: State, j: Ticket)
    requires Inv(c, s) && CanStep(s, j)
    ensures var s' := Step(c, s, j); |s'.phases| == |s.phases| && LogInv(c, s')
  {
    var path, p := c.paths[j], s.phases[j];
    var s' := Step(c, s, j);
    assert j in Started(s.phases) <==> HasStarted(p);
    assert j in Threw(c, s.phases) <==> HasEnded(p) && c.throws[j];
    if p.Acquiring? && p.held == |path| { Logged(s.started, j); }
    if p.Running? && c.throws[j] { Logged(s.errors, j); }
    if p.Releasing? && p.held > 0 {
      PhaseLogs(c, s.phases, j, Releasing(p.held - 1));
      ResumedLogs(c, s.phases[j := Releasing(p.held - 1)], Woken(SemAt(c, s, path[p.held - 1])));
    } else {
      PhaseLogs(c, s.phases, j, s'.phases[j]);
    }
  }

  lemma StepLock(c: Config, s: State, j: Ticket, lock: Lock)
    requires Inv(c, s) && CanStep(s, j)
    ensures var s' := Step(c, s, j); Shaped(c, s'.phases) && LockInv(c, s', lock)
  {
    var path, p := c.paths[j], s.phases[j];
    assert LockInv(c, s, lock);
    if p.Acquiring? && p.held < |path| {
      AcquireLock(c, s, j, lock);
    } else if p.Releasing? && p.held > 0 {
      assert LockInv(c, s, path[p.held - 1]);
      ReleaseLock(c, s, j, lock);
    } else {
      assert path[..|path|] == path;
      Untouched(c, s.phases, j, Step(c, s, j).phases[j], SemAt(c, s, lock), lock);
    }
  }

  lemma StepInv(c: Config, s: State, j: Ticket)
    requires Inv(c, s) && CanStep(s, j)
    ensures Inv(c, Step(c, s, j))
  {
    StepLogs(c, s, j);
    StepLock(c, s, j, Overall);
    forall lock ensures LockInv(c, Step(c, s, j), lock) { StepLock(c, s, j, lock); }
  }

  // ----- every step makes progress, and some step is always possible --------------------

  function Weight(path: seq<Lock>, p: Phase): nat
    requires WellPhased(path, p)
  {
    match p
    case Acquiring(held) => 3 * |path| + 3 - 2 * held
    case Waiting(held) => 3 * |path| + 2 - 2 * held
    case Running => |path| + 2
    case Releasing(held) => held + 1
    case Done => 0
  }

  function Rank(c: Config, phases: seq<Phase>, n: nat): nat
    requires Shaped(c, phases) && n <= |phases|
  {
    if n == 0 then 0 else Rank(c, phases, n - 1) + Weight(c.paths[n - 1], phases[n - 1])
  }

  lemma {:induction false} RankOfOne(c: Config, phases: seq<Phase>, j: Ticket, p: Phase, n: nat)
    requires Shaped(c, phases) && j < |phases| && n <= |phases| && WellPhased(c.paths[j], p)
    ensures Shaped(c, phases[j := p])
    ensures Rank(c, phases[j := p], n)
         == Rank(c, phases, n) + if j < n then Weight(c.paths[j], p) - Weight(c.paths[j], phases[j]) else 0
  {
    if n > 0 { RankOfOne(c, phases, j, p, n - 1); }
  }

  function StateRank(c: Config, s: State): nat
    requires Shaped(c, s.phases)
  {
    Rank(c, s.phases, |s.phases|)
  }

  lemma ReleaseLowersRank(c: Config, phases: seq<Phase>, j: Ticket, sem: Sem)
    requires AllAscending(c) && Shaped(c, phases) && j < |phases| && phases[j].Releasing? && phases[j].held > 0
    requires Agrees(c, phases, sem, c.paths[j][phases[j].held - 1])
    ensures var phases' := Resumed(phases[j := Releasing(phases[j].held - 1)], Woken(sem));
            Shaped(c, phases') && Rank(c, phases', |phases|) < Rank(c, phases, |phases|)
  {
    var mid := phases[j := Releasing(phases[j].held - 1)];
    RankOfOne(c, phases, j, mid[j], |phases|);
    if Resumed(mid, Woken(sem)) != mid {
      GiveBack(c, phases, j, sem);
      var next := sem.waiters[0];
      assert next in Elements(sem.waiters);
      RankOfOne(c, mid, next, Acquiring(mid[next].held + 1), |mid|);
    }
  }

  lemma StepLowersRank(c: Config, s: State, j: Ticket)
    requires Inv(c, s) && CanStep(s, j)
    ensures Shaped(c, Step(c, s, j).phases) && StateRank(c, Step(c, s, j)) < StateRank(c, s)
  {
    var path, p := c.paths[j], s.phases[j];
    if p.Releasing? && p.held > 0 {
      assert LockInv(c, s, path[p.held - 1]);
      ReleaseLowersRank(c, s.phases, j, SemAt(c, s, path[p.held - 1]));
    } else {
      RankOfOne(c, s.phases, j, Step(c, s, j).phases[j], |s.phases|);
    }
  }

  /** A waiting job's lock is held, and by a job that waits, if at all, for a later lock: the
      fixed order serial, overall, heavy leaves no cycle. */
  lemma SomeoneCanStep(c: Config, s: State, j: Ticket) returns (i: Ticket)
    requires Valid(c) && Inv(c, s) && j < |s.phases| && s.phases[j] != Done
    ensures CanStep(s, i)
    decreases if s.phases[j].Waiting? then 3 - Level(c.paths[j][s.phases[j].held]) else 4
  {
    if !s.phases[j].Waiting? { return j; }
    var lock := c.paths[j][s.phases[j].held];
    var sem := SemAt(c, s, lock);
    assert LockInv(c, s, lock);
    assert j in Elements(sem.waiters);
    assert |sem.holders| >= 1;
    i :| i in sem.holders;
    if s.phases[i].Waiting? {
      i := SomeoneCanStep(c, s, i);
    }
  }

  // ----- whole runs ----------------------------------------------------------------------

  /** The state after the jobs in `schedule` step in turn, if each of them can. */
  function Run(c: Config, s: State, schedule: seq<Ticket>): Option<State>
    requires Shaped(c, s.phases) && |c.throws| == |c.paths|
    decreases |schedule|
  {
    if schedule == [] then Some(s)
    else
      var front := Run(c, s, schedule[..|schedule| - 1]);
      var j := schedule[|schedule| - 1];
      if front.Some? && Shaped(c, front.value.phases) && CanStep(front.value, j) then Some(Step(c, front.value, j)) else None
  }

  lemma {:induction false} RunKeepsInv(c: Config, schedule: seq<Ticket>, s: State)
    requires Valid(c) && AllAscending(c) && Run(c, Init(c), schedule) == Some(s)
    ensures Inv(c, s) && |schedule| + StateRank(c, s) <= StateRank(c, Init(c))
    decreases |schedule|
  {
    InitInv(c);
    if schedule != [] {
      var front := Run(c, Init(c), schedule[..|schedule| - 1]).value;
      RunKeepsInv(c, schedule[..|schedule| - 1], front);
      StepInv(c, front, schedule[|schedule| - 1]);
      StepLowersRank(c, front, schedule[|schedule| - 1]);
    }
  }

  predicate Runs(s: State, j: Ticket) { j < |s.phases| && s.phases[j].Running? }

  lemma AtMostSize(c: Config, s: State, lock: Lock, js: set<Ticket>)
    requires Inv(c, s) && js <= Holders(c, s.phases, lock)
    ensures |js| <= Size(c, lock)
  {
    assert LockInv(c, s, lock);
    var hs := Holders(c, s.phases, lock);
    assert hs == js + (hs - js);
    assert |hs| == |js| + |hs - js|;
  }

  function RunningJobs(s: State): set<Ticket> {
    set j: nat | j < |s.phases| && Runs(s, j)
  }

  function HeavyRunning(jobs: seq<Job>, s: State): set<Ticket>
    requires |s.phases| == |jobs|
  {
    set j: nat | j < |s.phases| && Runs(s, j) && jobs[j].heavy
  }

  predicate SameKey(jobs: seq<Job>, i: Ticket, j: Ticket) {
    i < |jobs| && j < |jobs| && jobs[i].serial.Some? && jobs[i].serial == jobs[j].serial
  }

  lemma SerialAlone(c: Config, s: State, i: Ticket, j: Ticket, lock: Lock)
    requires Inv(c, s) && Runs(s, i) && Runs(s, j)
    requires lock.Serial? && lock in c.paths[i] && lock in c.paths[j]
    ensures i == j
  {
    AtMostSize(c, s, lock, {i, j});
    PairSize(i, j);
  }

  lemma PairSize(i: Ticket, j: Ticket)
    ensures |{i, j}| == if i == j then 1 else 2
  {
    if i != j { assert {i, j} == {i} + {j}; }
  }

  lemma RunningHold(jobs: seq<Job>, c: Config, s: State)
    requires c == ConfigOf(jobs, c.parallel, c.heavyParallel, c.throws) && Shaped(c, s.phases)
    ensures RunningJobs(s) <= Holders(c, s.phases, Overall)
    ensures HeavyRunning(jobs, s) <= Holders(c, s.phases, Heavy)
  {
    forall j | 0 <= j < |jobs| ensures c.paths[j] == Path(jobs[j]) { }
    forall j | j in RunningJobs(s) ensures Overall in Held(c.paths[j], s.phases[j]) { }
    forall j | j in HeavyRunning(jobs, s) ensures Heavy in Held(c.paths[j], s.phases[j]) { }
  }

  lemma SerialJobs(jobs: seq<Job>, c: Config, s: State, i: Ticket, j: Ticket)
    requires c == ConfigOf(jobs, c.parallel, c.heavyParallel, c.throws) && Inv(c, s)
    requires Runs(s, i) && Runs(s, j) && SameKey(jobs, i, j)
    ensures i == j
  {
    assert c.paths[i] == Path(jobs[i]) && c.paths[j] == Path(jobs[j]);
    SerialAlone(c, s, i, j, Serial(jobs[i].serial.value));
  }

  /** After every schedule the caps hold and no two running jobs share a serial key. */
  lemma CapsHold(jobs: seq<Job>, c: Config, schedule: seq<Ticket>, s: State)
    requires c == ConfigOf(jobs, c.parallel, c.heavyParallel, c.throws) && Valid(c)
    requires Run(c, Init(c), schedule) == Some(s)
    ensures |s.phases| == |jobs|
    ensures |RunningJobs(s)| <= c.parallel && |HeavyRunning(jobs, s)| <= c.heavyParallel
    ensures forall i, j | Runs(s, i) && Runs(s, j) && SameKey(jobs, i, j) :: i == j
  {
    RunKeepsInv(c, schedule, s);
    RunningHold(jobs, c, s);
    AtMostSize(c, s, Overall, RunningJobs(s));
    AtMostSize(c, s, Heavy, HeavyRunning(jobs, s));
    forall i: nat, j: nat | Runs(s, i) && Runs(s, j) && SameKey(jobs, i, j) ensures i == j {
      SerialJobs(jobs, c, s, i, j);
    }
  }

  /** After every schedule each lock has served its callers in the order they asked, and a
      job queued on its key holds no pool slot. */
  lemma QueuesFair(c: Config, schedule: seq<Ticket>, s: State, lock: Lock, key: string)
    requires Valid(c) && AllAscending(c) && Run(c, Init(c), schedule) == Some(s)
    ensures SemAt(c, s, lock).arrived == SemAt(c, s, lock).granted + SemAt(c, s, lock).waiters
    ensures forall j :: j in SemAt(c, s, Serial(key)).waiters ==> j !in SemAt(c, s, lock).holders
  {
    RunKeepsInv(c, schedule, s);
    assert LockInv(c, s, lock);
    forall j | j in SemAt(c, s, Serial(key)).waiters ensures j !in SemAt(c, s, lock).holders {
      QueuedHoldsNothing(c, s, j, key, lock);
    }
  }

  lemma QueuedHoldsNothing(c: Config, s: State, j: Ticket, key: string, lock: Lock)
    requires Inv(c, s) && j in SemAt(c, s, Serial(key)).waiters
    ensures j !in SemAt(c, s, lock).holders
  {
    assert LockInv(c, s, Serial(key)) && LockInv(c, s, lock);
    assert j in Elements(SemAt(c, s, Serial(key)).waiters);
    var path := c.paths[j];
    var held := s.phases[j].held;
    assert path[held] == Serial(key);
    assert held > 0 ==> Level(path[0]) < Level(path[held]);
    assert path[..0] == [];
  }

  /** What is true once nothing can move. */
  ghost predicate Finished(c: Config, s: State)
    requires |c.throws| == |c.paths|
  {
    && (forall p <- s.phases :: p == Done)
    && Distinct(s.started) && (forall j: nat :: j in s.started <==> j < |c.paths|)
    && Distinct(s.errors) && (forall j: nat :: j in s.errors <==> j < |c.paths| && c.throws[j])
    && forall lock :: SemAt(c, s, lock).available == Size(c, lock) && SemAt(c, s, lock).waiters == []
  }

  lemma FirstElement(s: seq<Ticket>)
    ensures s != [] ==> s[0] in Elements(s)
  {
  }

  lemma StuckIsFinished(c: Config, s: State)
    requires Valid(c) && Inv(c, s) && forall j: nat :: !CanStep(s, j)
    ensures Finished(c, s)
  {
    forall j: nat | j < |s.phases| ensures s.phases[j] == Done {
      if s.phases[j] != Done { var i := SomeoneCanStep(c, s, j); }
    }
    forall j: nat ensures j in s.started <==> j < |c.paths| {
      assert j in Elements(s.started) <==> j in Started(s.phases);
    }
    forall j: nat ensures j in s.errors <==> j < |c.paths| && c.throws[j] {
      assert j in Elements(s.errors) <==> j in Threw(c, s.phases);
    }
    forall lock ensures SemAt(c, s, lock).available == Size(c, lock) && SemAt(c, s, lock).waiters == [] {
      var sem := SemAt(c, s, lock);
      assert LockInv(c, s, lock);
      assert sem.holders == {} && Elements(sem.waiters) == {};
      FirstElement(sem.waiters);
    }
  }

  lemma Extend(c: Config, schedule: seq<Ticket>, s: State, j: Ticket)
    requires Valid(c) && AllAscending(c) && Run(c, Init(c), schedule) == Some(s) && Shaped(c, s.phases)
    ensures Run(c, Init(c), schedule + [j]).Some? <==> CanStep(s, j)
  {
    assert (schedule + [j])[..|schedule|] == schedule;
  }

  /** No endless run and no deadlock: a schedule is at most as long as the initial rank, and
      it can be extended exactly when the pool is not finished. */
  lemma {:induction false} PoolFinishes(c: Config, schedule: seq<Ticket>, s: State)
    requires Valid(c) && AllAscending(c) && Run(c, Init(c), schedule) == Some(s)
    ensures |schedule| <= StateRank(c, Init(c))
    ensures (exists j: nat :: Run(c, Init(c), schedule + [j]).Some?) <==> !Finished(c, s)
  {
    RunKeepsInv(c, schedule, s);
    forall j: nat ensures Run(c, Init(c), schedule + [j]).Some? <==> CanStep(s, j) { Extend(c, schedule, s, j); }
    if exists j: nat :: CanStep(s, j) {
      var j: nat :| CanStep(s, j);
      assert s.phases[j] in s.phases;
    } else {
      StuckIsFinished(c, s);
    }
  }

  // ----- the promise runPool returns --------------------------------------------------------

  datatype Outcome = BadSize | Completed | Failed(job: Ticket) | FailedTogether(jobs: seq<Ticket>)

  /** Drives the jobs under any scheduler at all (the choice of `j` is arbitrary). */
  method RunPool(jobs: seq<Job>, parallel: int, heavyParallel: int, throws: seq<bool>) returns (r: Outcome)
    requires |throws| == |jobs|
    ensures r == BadSize <==> parallel < 1 || heavyParallel < 1
    ensures r == Completed ==> forall j :: 0 <= j < |jobs| ==> !throws[j]
    ensures r.Failed? ==> forall j: nat :: j < |jobs| && throws[j] <==> j == r.job
    ensures r.FailedTogether? ==> |r.jobs| > 1 && Distinct(r.jobs) && forall j: nat :: j < |jobs| && throws[j] <==> j in r.jobs
  {
    if parallel < 1 || heavyParallel < 1 { return BadSize; }
    var c := ConfigOf(jobs, parallel, heavyParallel, throws);
    hide Inv, Step, Init, StateRank;
    var s := Init(c);
    InitInv(c);
    while exists j :: 0 <= j < |s.phases| && CanStep(s, j)
      invariant Inv(c, s)
      decreases StateRank(c, s)
    {
      var j: nat :| 0 <= j < |s.phases| && CanStep(s, j);
      StepInv(c, s, j);
      StepLowersRank(c, s, j);
      s := Step(c, s, j);
    }
    StuckIsFinished(c, s);
    assert forall j: nat :: j in s.errors <==> j < |jobs| && throws[j];
    if |s.errors| == 0 { return Completed; }
    if |s.errors| == 1 {
      assert forall j: nat :: j in s.errors <==> j == s.errors[0];
      return Failed(s.errors[0]);
    }
    return FailedTogether(s.errors);
  }
}
