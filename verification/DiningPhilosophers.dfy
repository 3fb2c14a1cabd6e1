/** The dining philosophers of dinphilo.c: one semaphore per fork and a seat
    semaphore of one less than the number of philosophers. Every interleaving of
    the semaphore operations of any number of philosophers is a schedule. */
module DiningPhilosophers {
  import opened Sums

  /** Where a philosopher thread stands between two semaphore operations. */
  datatype Phase =
    | Thinking    // about to wait on the seat semaphore
    | Seated      // about to wait on its own fork
    | OneFork     // holds its own fork, about to wait on its neighbour's
    | BothForks   // holds both, about to eat
    | Fed         // has eaten, about to post its own fork
    | SecondOnly  // about to post the neighbour's fork
    | Leaving     // about to post the seat semaphore
    | Done

  /** `round` is the loop counter of the thread, `meals` the number of eat calls. */
  datatype Philosopher = Philosopher(phase: Phase, round: nat, meals: nat)

  datatype State = State(table: seq<Philosopher>, forks: seq<nat>, seats: nat)

  function InitialPhase(rounds: nat, round: nat): Phase {
    if round < rounds then Thinking else Done
  }

  /** The state that initialize_semaphores and run_all_threads set up. */
  function Init(n: nat, rounds: nat): State
    requires n >= 1
  {
    State(seq(n, i => Philosopher(InitialPhase(rounds, 0), 0, 0)), seq(n, i => 1), n - 1)
  }

  function Next(i: nat, n: nat): (j: nat)
    requires i < n
    ensures j == if i + 1 == n then 0 else i + 1
  {
    (i + 1) % n
  }

  predicate WellFormed(s: State) {
    |s.table| == |s.forks|
  }

  /** sem_wait blocks on zero; every other operation can always be performed. */
  predicate Enabled(s: State, i: nat)
    requires WellFormed(s)
  {
    i < |s.table| &&
    match s.table[i].phase
    case Thinking => s.seats > 0
    case Seated => s.forks[i] > 0
    case OneFork => s.forks[Next(i, |s.table|)] > 0
    case Done => false
    case _ => true
  }

  /** Philosopher `i` performs its next operation. */
  function Step(s: State, rounds: nat, i: nat): (s': State)
    requires WellFormed(s) && Enabled(s, i)
    ensures WellFormed(s') && |s'.table| == |s.table|
  {
    var p := s.table[i];
    var j := Next(i, |s.table|);
    match p.phase
    case Thinking => s.(seats := s.seats - 1, table := s.table[i := p.(phase := Seated)])
    case Seated => s.(forks := s.forks[i := s.forks[i] - 1], table := s.table[i := p.(phase := OneFork)])
    case OneFork => s.(forks := s.forks[j := s.forks[j] - 1], table := s.table[i := p.(phase := BothForks)])
    case BothForks => s.(table := s.table[i := p.(phase := Fed, meals := p.meals + 1)])
    case Fed => s.(forks := s.forks[i := s.forks[i] + 1], table := s.table[i := p.(phase := SecondOnly)])
    case SecondOnly => s.(forks := s.forks[j := s.forks[j] + 1], table := s.table[i := p.(phase := Leaving)])
    case Leaving =>
      s.(seats := s.seats + 1,
         table := s.table[i := p.(phase := InitialPhase(rounds, p.round + 1), round := p.round + 1)])
  }

  /** A schedule names the philosopher that moves at each instant. */
  ghost predicate IsRun(s: State, rounds: nat, schedule: seq<nat>)
    requires WellFormed(s)
    decreases |schedule|
  {
    schedule == [] ||
    (Enabled(s, schedule[0]) && IsRun(Step(s, rounds, schedule[0]), rounds, schedule[1..]))
  }

  ghost function Exec(s: State, rounds: nat, schedule: seq<nat>): (s': State)
    requires WellFormed(s) && IsRun(s, rounds, schedule)
    ensures WellFormed(s') && |s'.table| == |s.table|
    decreases |schedule|
  {
    if schedule == [] then s else Exec(Step(s, rounds, schedule[0]), rounds, schedule[1..])
  }

  // ---------------------------------------------------------------- invariant

  function Holds1(p: Philosopher): nat {
    if p.phase in {OneFork, BothForks, Fed} then 1 else 0
  }

  function Holds2(p: Philosopher): nat {
    if p.phase in {BothForks, Fed, SecondOnly} then 1 else 0
  }

  function Sits(p: Philosopher): nat {
    if p.phase in {Thinking, Done} then 0 else 1
  }

  predicate Eating(p: Philosopher) {
    p.phase in {BothForks, Fed}
  }

  /** Loop counter, meal count and phase of one thread agree. */
  predicate Coherent(p: Philosopher, rounds: nat) {
    && (p.phase == Done <==> p.round >= rounds)
    && p.round <= rounds
    && p.meals == p.round + if p.phase in {Fed, SecondOnly, Leaving} then 1 else 0
  }

  /** A fork's only possible holders are the philosopher with its number and the
      one before it; the semaphore counts down by exactly their holdings. The seat
      semaphore and the seated philosophers add up to one less than the table. */
  ghost predicate Inv(s: State, rounds: nat) {
    && WellFormed(s) && |s.table| >= 1
    && (forall i :: 0 <= i < |s.table| ==> Coherent(s.table[i], rounds))
    && (forall i: nat :: i < |s.table| ==> ForkAccounted(s, i))
    && s.seats + Sum(s.table, Sits) + 1 == |s.table|
  }

  lemma InitInv(n: nat, rounds: nat)
    requires n >= 1
    ensures Inv(Init(n, rounds), rounds)
  {
    SumUniform(Init(n, rounds).table, Sits, 0);
  }

  /** Going round the table one place is injective and misses nobody. */
  lemma NextInjective(i: nat, j: nat, n: nat)
    requires i < n && j < n && Next(i, n) == Next(j, n)
    ensures i == j
  {
  }

  lemma NextOnto(j: nat, n: nat) returns (i: nat)
    requires j < n
    ensures i < n && Next(i, n) == j
  {
    i := if j == 0 then n - 1 else j - 1;
  }

  ghost predicate ForkAccounted(s: State, i: nat)
    requires WellFormed(s) && i < |s.table|
  {
    var j := Next(i, |s.table|);
    s.forks[j] + Holds1(s.table[j]) + Holds2(s.table[i]) == 1
  }

  /** A step of philosopher `i` moves a fork semaphore and its holdings together. */
  lemma StepFork(s: State, rounds: nat, i: nat, k: nat)
    requires WellFormed(s) && |s.table| >= 2 && Enabled(s, i) && k < |s.table|
    requires ForkAccounted(s, k)
    ensures ForkAccounted(Step(s, rounds, i), k)
  {
    if Next(k, |s.table|) == Next(i, |s.table|) {
      NextInjective(k, i, |s.table|);
    }
  }

  lemma StepInv(s: State, rounds: nat, i: nat)
    requires Inv(s, rounds) && |s.table| >= 2 && Enabled(s, i)
    ensures Inv(Step(s, rounds, i), rounds)
  {
    var s' := Step(s, rounds, i);
    SumUpdate(s.table, Sits, i, s'.table[i]);
    forall k: nat | k < |s.table| ensures ForkAccounted(s', k) {
      StepFork(s, rounds, i, k);
    }
  }

  /** The invariant holds after every schedule of every table of at least two. */
  lemma {:induction false} RunInv(s: State, rounds: nat, schedule: seq<nat>)
    requires Inv(s, rounds) && |s.table| >= 2 && IsRun(s, rounds, schedule)
    ensures Inv(Exec(s, rounds, schedule), rounds)
    decreases |schedule|
  {
    if schedule == [] {
    } else {
      StepInv(s, rounds, schedule[0]);
      RunInv(Step(s, rounds, schedule[0]), rounds, schedule[1..]);
    }
  }

  // ------------------------------------------------------------------- safety

  /** Fork safety over whole runs: every fork semaphore stays 0 or 1, it is 1
      exactly when neither possible holder has it, and the seats are conserved. */
  lemma ForkSafety(n: nat, rounds: nat, schedule: seq<nat>, i: nat)
    requires n >= 2 && i < n && IsRun(Init(n, rounds), rounds, schedule)
    ensures var s := Exec(Init(n, rounds), rounds, schedule);
            var j := Next(i, n);
            && s.forks[j] == 1 - Holds1(s.table[j]) - Holds2(s.table[i])
            && s.forks[j] <= 1
            && s.seats + Sum(s.table, Sits) == n - 1
  {
    InitInv(n, rounds);
    RunInv(Init(n, rounds), rounds, schedule);
    assert ForkAccounted(Exec(Init(n, rounds), rounds, schedule), i);
  }

  /** Ring neighbours are never eating together. */
  lemma NeighboursNeverEatTogether(n: nat, rounds: nat, schedule: seq<nat>, i: nat)
    requires n >= 2 && i < n && IsRun(Init(n, rounds), rounds, schedule)
    ensures var s := Exec(Init(n, rounds), rounds, schedule);
            !(Eating(s.table[i]) && Eating(s.table[Next(i, n)]))
  {
    ForkSafety(n, rounds, schedule, i);
  }

  // ---------------------------------------------------------- deadlock freedom

  ghost predicate Finished(s: State) {
    forall i :: 0 <= i < |s.table| ==> s.table[i].phase == Done
  }

  ghost predicate Stuck(s: State)
    requires WellFormed(s)
  {
    forall i: nat :: i < |s.table| ==> !Enabled(s, i)
  }

  /** A blocked philosopher with one fork waits for a neighbour that also has just
      one fork. */
  lemma BlockedNeighbour(s: State, rounds: nat, i: nat)
    requires Inv(s, rounds) && Stuck(s)
    requires i < |s.table| && s.table[i].phase == OneFork
    ensures s.table[Next(i, |s.table|)].phase == OneFork
  {
    assert ForkAccounted(s, i) && !Enabled(s, i) && !Enabled(s, Next(i, |s.table|));
  }

  /** So the blocking spreads from one place to every later one. */
  lemma {:induction false} BlockedOnwards(s: State, rounds: nat, i: nat, k: nat)
    requires Inv(s, rounds) && Stuck(s)
    requires i <= k < |s.table| && s.table[i].phase == OneFork
    ensures s.table[k].phase == OneFork
  {
    if i == k {
    } else {
      BlockedOnwards(s, rounds, i, k - 1);
      BlockedNeighbour(s, rounds, k - 1);
    }
  }

  /** A philosopher's own fork can only be missing while its holder can move on. */
  lemma NobodyWaitsForTheirFork(s: State, rounds: nat, k: nat)
    requires Inv(s, rounds) && Stuck(s) && k < |s.table|
    ensures s.table[k].phase != Seated
  {
    var b := NextOnto(k, |s.table|);
    assert ForkAccounted(s, b) && !Enabled(s, b) && !Enabled(s, k);
  }

  /** The classic argument: a stuck table would have every philosopher seated, one
      more than there are seats. */
  lemma StuckMeansFinished(s: State, rounds: nat)
    requires Inv(s, rounds) && |s.table| >= 2 && Stuck(s)
    ensures Finished(s)
  {
    var n := |s.table|;
    if i: nat :| i < n && s.table[i].phase == OneFork {
      forall k | 0 <= k < n ensures Sits(s.table[k]) == 1 {
        BlockedOnwards(s, rounds, i, n - 1);
        BlockedNeighbour(s, rounds, n - 1);
        BlockedOnwards(s, rounds, 0, k);
      }
      SumUniform(s.table, Sits, 1);
    } else {
      forall k: nat | k < n ensures s.table[k].phase in {Thinking, Done} {
        NobodyWaitsForTheirFork(s, rounds, k);
        assert !Enabled(s, k);
      }
      SumUniform(s.table, Sits, 0);
      forall k: nat | k < n ensures s.table[k].phase == Done {
        assert !Enabled(s, k);
      }
    }
  }

  // --------------------------------------------------------------- termination

  function Progress(p: Phase): nat {
    match p
    case Thinking => 0
    case Seated => 1
    case OneFork => 2
    case BothForks => 3
    case Fed => 4
    case SecondOnly => 5
    case Leaving => 6
    case Done => 0
  }

  /** Semaphore operations and meals a thread still has to perform. */
  function Remaining(p: Philosopher, rounds: nat): nat {
    var left := 7 * (rounds - p.round) - Progress(p.phase);
    if left < 0 then 0 else left
  }

  function RemainingIn(rounds: nat): Philosopher -> nat {
    p => Remaining(p, rounds)
  }

  /** Every step uses up exactly one unit of the remaining work, so a run's length
      is the work it has done. */
  lemma {:induction false} WorkDone(s: State, rounds: nat, schedule: seq<nat>)
    requires Inv(s, rounds) && |s.table| >= 2 && IsRun(s, rounds, schedule)
    ensures Sum(Exec(s, rounds, schedule).table, RemainingIn(rounds)) + |schedule|
         == Sum(s.table, RemainingIn(rounds))
    decreases |schedule|
  {
    if schedule == [] {
    } else {
      var s' := Step(s, rounds, schedule[0]);
      StepInv(s, rounds, schedule[0]);
      SumUpdate(s.table, RemainingIn(rounds), schedule[0], s'.table[schedule[0]]);
      WorkDone(s', rounds, schedule[1..]);
    }
  }

  lemma InitialWork(n: nat, rounds: nat)
    requires n >= 1
    ensures Sum(Init(n, rounds).table, RemainingIn(rounds)) == 7 * rounds * n
  {
    SumUniform(Init(n, rounds).table, RemainingIn(rounds), 7 * rounds);
  }

  /** No schedule runs on for ever: none is longer than seven operations a meal. */
  lemma RunsAreBounded(n: nat, rounds: nat, schedule: seq<nat>)
    requires n >= 2 && IsRun(Init(n, rounds), rounds, schedule)
    ensures |schedule| <= 7 * rounds * n
  {
    InitInv(n, rounds);
    InitialWork(n, rounds);
    WorkDone(Init(n, rounds), rounds, schedule);
  }

  lemma AllForksDown(s: State, rounds: nat)
    requires Inv(s, rounds) && Finished(s)
    ensures forall i :: 0 <= i < |s.table| ==> s.forks[i] == 1
  {
    forall i | 0 <= i < |s.table| ensures s.forks[i] == 1 {
      var b := NextOnto(i, |s.table|);
      assert ForkAccounted(s, b);
    }
  }

  /** A schedule that cannot be extended has fed everybody exactly `rounds` times
      (once, in the program), returned all forks and seats, and has one length. */
  lemma MaximalRunFeedsEveryone(n: nat, rounds: nat, schedule: seq<nat>)
    requires n >= 2 && IsRun(Init(n, rounds), rounds, schedule)
    requires Stuck(Exec(Init(n, rounds), rounds, schedule))
    ensures var s := Exec(Init(n, rounds), rounds, schedule);
            && (forall i :: 0 <= i < n ==> s.table[i].phase == Done && s.table[i].meals == rounds)
            && (forall i :: 0 <= i < n ==> s.forks[i] == 1)
            && s.seats == n - 1
            && |schedule| == 7 * rounds * n
  {
    InitInv(n, rounds);
    RunInv(Init(n, rounds), rounds, schedule);
    var s := Exec(Init(n, rounds), rounds, schedule);
    StuckMeansFinished(s, rounds);
    SumUniform(s.table, Sits, 0);
    SumUniform(s.table, RemainingIn(rounds), 0);
    InitialWork(n, rounds);
    WorkDone(Init(n, rounds), rounds, schedule);
    AllForksDown(s, rounds);
  }

  /** The schedule, if it is one, does not end in a deadlock. */
  ghost predicate NoDeadlockAfter(n: nat, rounds: nat, schedule: seq<nat>)
    requires n >= 1
  {
    IsRun(Init(n, rounds), rounds, schedule) ==>
      var s := Exec(Init(n, rounds), rounds, schedule);
      Stuck(s) ==> Finished(s)
  }

  /** Exactly when the seat semaphore keeps the table alive: a lone philosopher
      finds no seat at all, every larger table always has a move until it is done. */
  lemma DeadlockFreeIff(n: nat, rounds: nat)
    requires n >= 1 && rounds >= 1
    ensures (forall schedule :: NoDeadlockAfter(n, rounds, schedule)) <==> n >= 2
  {
    if n == 1 {
      assert Init(n, rounds).table[0].phase == Thinking;
      assert !NoDeadlockAfter(n, rounds, []);
    } else {
      forall schedule ensures NoDeadlockAfter(n, rounds, schedule) {
        var s := Init(n, rounds);
        InitInv(n, rounds);
        if IsRun(s, rounds, schedule) && Stuck(Exec(s, rounds, schedule)) {
          RunInv(s, rounds, schedule);
          StuckMeansFinished(Exec(s, rounds, schedule), rounds);
        }
      }
    }
  }

  // ------------------------------------------------------------ initialisation

  /** initialize_semaphores: the loop fills the fork semaphores in place. */
  method InitializeSemaphores(forks: array<nat>) returns (lock: nat)
    requires forks.Length >= 1
    modifies forks
    ensures forall rounds :: State(Init(forks.Length, rounds).table, forks[..], lock) == Init(forks.Length, rounds)
  {
    var i := 0;
    while i < forks.Length
      invariant 0 <= i <= forks.Length
      invariant forall k :: 0 <= k < i ==> forks[k] == 1
    {
      forks[i] := 1;
      i := i + 1;
    }
    lock := forks.Length - 1;
    assert forks[..] == seq(forks.Length, k => 1);
  }
}
