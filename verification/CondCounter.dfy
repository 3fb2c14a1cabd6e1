/** The condition-variable counter of condvar.c: any number of threads that each
    increment the counter `turns` times, and one watcher that sleeps until the counter
    reaches the limit. Spurious wakeups are part of every run. */
module CondCounter {
  import opened Sums

  datatype IncPC =
    | Locking    // about to lock the mutex
    | Bumping    // about to increment and compare
    | Signalling // reached the limit, about to signal
    | Unlocking  // about to unlock
    | IncDone

  /** `done` counts the increments the thread has performed. */
  datatype Incrementer = Incrementer(pc: IncPC, done: nat)

  datatype WatchPC =
    | Starting // about to lock the mutex
    | Testing  // about to evaluate the loop condition
    | Asleep   // in pthread_cond_wait
    | Woken    // woken, about to lock the mutex again
    | Boosting // about to add 100
    | Exiting  // about to unlock
    | WatchDone

  datatype Owner = Nobody | Watcher | Thread(i: nat)

  /** `boosts` counts how often the watcher has added 100. */
  datatype State = State(count: nat, owner: Owner, watcher: WatchPC, incs: seq<Incrementer>, boosts: nat)

  datatype Step = Inc(i: nat) | Watch | Spurious

  /** What the threads are started with: turns per incrementer and the limit. */
  datatype Config = Config(threads: nat, turns: nat, limit: nat)

  function Turn(c: Config, done: nat): IncPC {
    if done < c.turns then Locking else IncDone
  }

  function Init(c: Config): State {
    State(0, Nobody, Starting, seq(c.threads, i => Incrementer(Turn(c, 0), 0)), 0)
  }

  predicate Enabled(s: State, step: Step) {
    match step
    case Inc(i) =>
      && i < |s.incs| && s.incs[i].pc != IncDone
      && (s.incs[i].pc == Locking ==> s.owner == Nobody)
    case Watch =>
      && s.watcher != WatchDone && s.watcher != Asleep
      && (s.watcher == Starting || s.watcher == Woken ==> s.owner == Nobody)
    case Spurious => s.watcher == Asleep
  }

  function MoveInc(s: State, i: nat, t: Incrementer): State
    requires i < |s.incs|
  {
    s.(incs := s.incs[i := t])
  }

  function Apply(s: State, c: Config, step: Step): (s': State)
    requires Enabled(s, step)
    ensures |s'.incs| == |s.incs|
  {
    match step
    case Inc(i) =>
      var t := s.incs[i];
      (match t.pc
       case Locking => MoveInc(s, i, t.(pc := Bumping)).(owner := Thread(i))
       case Bumping =>
         var pc := if s.count + 1 == c.limit then Signalling else Unlocking;
         MoveInc(s, i, Incrementer(pc, t.done + 1)).(count := s.count + 1)
       case Signalling =>
         MoveInc(s, i, t.(pc := Unlocking)).(watcher := if s.watcher == Asleep then Woken else s.watcher)
       case Unlocking => MoveInc(s, i, t.(pc := Turn(c, t.done))).(owner := Nobody))
    case Watch =>
      (match s.watcher
       case Starting => s.(watcher := Testing, owner := Watcher)
       case Testing =>
         if s.count < c.limit then s.(watcher := Asleep, owner := Nobody) else s.(watcher := Exiting)
       case Woken => s.(watcher := Boosting, owner := Watcher)
       case Boosting => s.(watcher := Testing, count := s.count + 100, boosts := s.boosts + 1)
       case Exiting => s.(watcher := WatchDone, owner := Nobody))
    case Spurious => s.(watcher := Woken)
  }

  ghost predicate IsRun(s: State, c: Config, run: seq<Step>)
    decreases |run|
  {
    run == [] || (Enabled(s, run[0]) && IsRun(Apply(s, c, run[0]), c, run[1..]))
  }

  ghost function Exec(s: State, c: Config, run: seq<Step>): (s': State)
    requires IsRun(s, c, run)
    ensures |s'.incs| == |s.incs|
    decreases |run|
  {
    if run == [] then s else Exec(Apply(s, c, run[0]), c, run[1..])
  }

  // ----------------------------------------------------------------- invariant

  function Done(t: Incrementer): nat {
    t.done
  }

  predicate InsideI(pc: IncPC) {
    pc == Bumping || pc == Signalling || pc == Unlocking
  }

  predicate InsideW(pc: WatchPC) {
    pc == Testing || pc == Boosting || pc == Exiting
  }

  ghost predicate ThreadInv(s: State, c: Config, i: nat)
    requires i < |s.incs|
  {
    var t := s.incs[i];
    && (InsideI(t.pc) <==> s.owner == Thread(i))
    && t.done <= c.turns
    && (t.pc == Locking || t.pc == Bumping ==> t.done < c.turns)
    && (t.pc == IncDone ==> t.done == c.turns)
    && (t.pc == Signalling ==> s.count >= c.limit)
  }

  /** Some incrementer that reached the limit is about to signal. */
  ghost predicate SignalPending(s: State) {
    exists i :: 0 <= i < |s.incs| && s.incs[i].pc == Signalling
  }

  ghost predicate WatchInv(s: State, c: Config) {
    && (InsideW(s.watcher) <==> s.owner == Watcher)
    && (s.boosts >= 1 ==> 100 * (s.boosts - 1) < c.limit)
    && (s.watcher in {Asleep, Woken, Boosting} ==> 100 * s.boosts < c.limit)
    && (s.watcher == Starting ==> s.boosts == 0)
    && (s.watcher == Asleep ==> s.count < c.limit || SignalPending(s))
    && (s.watcher == Exiting || s.watcher == WatchDone ==> s.count >= c.limit)
  }

  ghost predicate Inv(s: State, c: Config) {
    && |s.incs| == c.threads && (s.owner.Thread? ==> s.owner.i < |s.incs|)
    && (forall i: nat :: i < |s.incs| ==> ThreadInv(s, c, i))
    && WatchInv(s, c)
    && s.count == Sum(s.incs, Done) + 100 * s.boosts
  }

  lemma InitInv(c: Config)
    ensures Inv(Init(c), c)
  {
    SumUniform(Init(c).incs, Done, 0);
  }

  /** The increment that reaches the limit while the watcher sleeps is followed by
      the signal, and nobody gets in between. */
  lemma StepPending(s: State, c: Config, step: Step)
    requires Inv(s, c) && Enabled(s, step)
    requires Apply(s, c, step).watcher == Asleep && Apply(s, c, step).count >= c.limit
    ensures SignalPending(Apply(s, c, step))
  {
    assert step.Inc? && ThreadInv(s, c, step.i);
    forall i: nat | i < |s.incs| && s.incs[i].pc == Signalling ensures s.owner == Thread(i) {
      assert ThreadInv(s, c, i);
    }
    assert Apply(s, c, step).incs[step.i].pc == Signalling;
  }

  lemma StepThreads(s: State, c: Config, step: Step, i: nat)
    requires Inv(s, c) && Enabled(s, step) && i < |s.incs|
    ensures ThreadInv(Apply(s, c, step), c, i)
  {
    assert ThreadInv(s, c, i);
    if step.Inc? {
      assert ThreadInv(s, c, step.i);
    }
  }

  lemma StepWatch(s: State, c: Config, step: Step)
    requires Inv(s, c) && Enabled(s, step)
    ensures WatchInv(Apply(s, c, step), c)
  {
    var s' := Apply(s, c, step);
    if step.Inc? {
      assert ThreadInv(s, c, step.i);
    }
    if s'.watcher == Asleep && s'.count >= c.limit {
      StepPending(s, c, step);
    }
  }

  lemma StepCount(s: State, c: Config, step: Step)
    requires Enabled(s, step) && s.count == Sum(s.incs, Done) + 100 * s.boosts
    ensures var s' := Apply(s, c, step);
            s'.count == Sum(s'.incs, Done) + 100 * s'.boosts
  {
    if step.Inc? {
      SumUpdate(s.incs, Done, step.i, Apply(s, c, step).incs[step.i]);
    }
  }

  lemma StepInv(s: State, c: Config, step: Step)
    requires Inv(s, c) && Enabled(s, step)
    ensures Inv(Apply(s, c, step), c)
  {
    var s' := Apply(s, c, step);
    StepWatch(s, c, step);
    StepCount(s, c, step);
    forall i: nat | i < |s.incs| ensures ThreadInv(s', c, i) {
      StepThreads(s, c, step, i);
    }
  }

  lemma {:induction false} RunInv(s: State, c: Config, run: seq<Step>)
    requires Inv(s, c) && IsRun(s, c, run)
    ensures Inv(Exec(s, c, run), c)
    decreases |run|
  {
    if run == [] {
    } else {
      StepInv(s, c, run[0]);
      RunInv(Apply(s, c, run[0]), c, run[1..]);
    }
  }

  // ------------------------------------------------------------ over whole runs

  /** The watcher is asleep only below the limit or with its signal on the way, it adds
      100 at most once per hundred of the limit (once, for the program's limit of 12),
      and the counter is the increments plus its boosts. */
  lemma WatcherSafety(c: Config, run: seq<Step>)
    requires IsRun(Init(c), c, run)
    ensures var s := Exec(Init(c), c, run);
            && (s.watcher == Asleep ==> s.count < c.limit || SignalPending(s))
            && (s.boosts >= 1 ==> 100 * (s.boosts - 1) < c.limit)
            && (c.limit <= 100 ==> s.boosts <= 1)
            && s.count == Sum(s.incs, Done) + 100 * s.boosts
  {
    InitInv(c);
    RunInv(Init(c), c, run);
  }

  /** Nothing but a spurious wakeup could still happen. */
  ghost predicate Quiet(s: State) {
    forall step :: Enabled(s, step) ==> step == Spurious
  }

  lemma QuietState(s: State, c: Config)
    requires Inv(s, c) && Quiet(s)
    ensures forall i :: 0 <= i < |s.incs| ==> s.incs[i] == Incrementer(IncDone, c.turns)
    ensures s.watcher == Asleep || s.watcher == WatchDone
    ensures s.count == c.turns * c.threads + 100 * s.boosts
    ensures s.watcher == Asleep ==> s.count < c.limit
  {
    assert !Enabled(s, Watch);
    forall i: nat | i < |s.incs| ensures s.owner != Thread(i) {
      assert ThreadInv(s, c, i) && !Enabled(s, Inc(i));
    }
    forall i: nat | i < |s.incs| ensures s.incs[i] == Incrementer(IncDone, c.turns) {
      assert ThreadInv(s, c, i) && !Enabled(s, Inc(i));
    }
    SumUniform(s.incs, Done, c.turns);
  }

  function IncWork(t: Incrementer, turns: nat): nat {
    var left := if t.done < turns then 4 * (turns - t.done) else 0;
    match t.pc
    case Locking => left
    case Bumping => if left > 0 then left - 1 else 0
    case Signalling => left + 2
    case Unlocking => left + 1
    case IncDone => 0
  }

  function WorkOf(turns: nat): Incrementer -> nat {
    t => IncWork(t, turns)
  }

  /** The most often a watcher can add 100 before it finds the limit reached. */
  function MaxBoosts(limit: nat): nat {
    (limit + 99) / 100
  }

  /** Five steps for every boost still possible, and the way out. */
  function WatchWork(s: State, limit: nat): nat {
    var b := if s.boosts < MaxBoosts(limit) then 5 * (MaxBoosts(limit) - s.boosts) else 0;
    match s.watcher
    case Starting => b + 3
    case Testing => b + 2
    case Asleep => b + 1
    case Woken => b
    case Boosting => if b > 0 then b - 1 else 0
    case Exiting => 1
    case WatchDone => 0
  }

  ghost function Work(s: State, c: Config): nat {
    Sum(s.incs, WorkOf(c.turns)) + WatchWork(s, c.limit)
  }

  lemma IncWorks(s: State, c: Config, i: nat)
    requires i < |s.incs| && ThreadInv(s, c, i) && Enabled(s, Inc(i))
    ensures IncWork(Apply(s, c, Inc(i)).incs[i], c.turns) < IncWork(s.incs[i], c.turns)
  {
  }

  lemma StepWorks(s: State, c: Config, step: Step)
    requires Inv(s, c) && Enabled(s, step)
    ensures Work(Apply(s, c, step), c) < Work(s, c)
  {
    if step.Inc? {
      IncWorks(s, c, step.i);
      SumUpdate(s.incs, WorkOf(c.turns), step.i, Apply(s, c, step).incs[step.i]);
    }
  }

  /** Every run ends, spurious wakeups included. */
  lemma {:induction false} RunsAreBounded(s: State, c: Config, run: seq<Step>)
    requires Inv(s, c) && IsRun(s, c, run)
    ensures |run| <= Work(s, c)
    decreases |run|
  {
    if run == [] {
    } else {
      StepInv(s, c, run[0]);
      StepWorks(s, c, run[0]);
      RunsAreBounded(Apply(s, c, run[0]), c, run[1..]);
    }
  }

  /** The run, if it is one and has come to rest, has released the watcher. */
  ghost predicate ReleasedAfter(c: Config, run: seq<Step>) {
    IsRun(Init(c), c, run) && Quiet(Exec(Init(c), c, run)) ==> Exec(Init(c), c, run).watcher == WatchDone
  }

  /** With the watcher asleep and too few increments to come, the incrementers can run
      to their end without ever waking it. */
  lemma {:induction false} SleepsOn(s: State, c: Config) returns (run: seq<Step>)
    requires Inv(s, c) && s.watcher == Asleep && s.boosts == 0 && c.turns * c.threads < c.limit
    ensures IsRun(s, c, run) && Quiet(Exec(s, c, run)) && Exec(s, c, run).watcher == Asleep
    decreases Work(s, c)
  {
    if Quiet(s) {
      run := [];
    } else {
      var step :| Enabled(s, step) && step != Spurious;
      StepInv(s, c, step);
      StepWorks(s, c, step);
      NoSignalDue(s, c, step.i);
      var rest := SleepsOn(Apply(s, c, step), c);
      run := [step] + rest;
      ExecFirst(s, c, step, rest);
    }
  }

  lemma NoSignalDue(s: State, c: Config, i: nat)
    requires Inv(s, c) && s.watcher == Asleep && s.boosts == 0 && c.turns * c.threads < c.limit && i < |s.incs|
    ensures s.incs[i].pc != Signalling
  {
    forall k: nat | k < |s.incs| ensures Done(s.incs[k]) <= c.turns {
      assert ThreadInv(s, c, k);
    }
    SumAtMost(s.incs, Done, c.turns);
    assert ThreadInv(s, c, i);
  }

  /** The watcher is released in every run exactly when the increments add up to the
      limit; short of it, the watcher can be left asleep for good. */
  lemma WatcherReleasedIff(c: Config)
    ensures (forall run :: ReleasedAfter(c, run)) <==> c.turns * c.threads >= c.limit
  {
    InitInv(c);
    if c.turns * c.threads >= c.limit {
      forall run ensures ReleasedAfter(c, run) {
        if IsRun(Init(c), c, run) && Quiet(Exec(Init(c), c, run)) {
          RunInv(Init(c), c, run);
          QuietState(Exec(Init(c), c, run), c);
        }
      }
    } else {
      var s0 := Init(c);
      var s1 := Apply(s0, c, Watch);
      StepInv(s0, c, Watch);
      var s2 := Apply(s1, c, Watch);
      StepInv(s1, c, Watch);
      var rest := SleepsOn(s2, c);
      ExecFirst(s1, c, Watch, rest);
      ExecFirst(s0, c, Watch, [Watch] + rest);
      assert !ReleasedAfter(c, [Watch] + ([Watch] + rest));
    }
  }

  /** A run that has come to rest with enough increments has released the watcher and
      leaves the counter at the number of increments, plus a hundred for each boost:
      for the program's limit, that number or a hundred more. */
  lemma FinalCount(c: Config, run: seq<Step>)
    requires c.turns * c.threads >= c.limit
    requires IsRun(Init(c), c, run) && Quiet(Exec(Init(c), c, run))
    ensures var s := Exec(Init(c), c, run);
            && s.watcher == WatchDone
            && s.count == c.turns * c.threads + 100 * s.boosts
            && (c.limit <= 100 ==> s.boosts <= 1)
  {
    InitInv(c);
    WatcherSafety(c, run);
    RunInv(Init(c), c, run);
    QuietState(Exec(Init(c), c, run), c);
  }

  /** Every run ends, within four steps per increment and five per possible boost. */
  lemma RunLength(c: Config, run: seq<Step>)
    requires IsRun(Init(c), c, run)
    ensures |run| <= 4 * c.turns * c.threads + 5 * MaxBoosts(c.limit) + 3
  {
    InitInv(c);
    RunsAreBounded(Init(c), c, run);
    SumUniform(Init(c).incs, WorkOf(c.turns), 4 * c.turns);
  }

  /** Whether the step ends the watcher's sleep. */
  function Wakes(s: State, step: Step): nat {
    if s.watcher == Asleep && (step.Spurious? || (step.Inc? && step.i < |s.incs| && s.incs[step.i].pc == Signalling))
    then 1 else 0
  }

  /** How often the watcher was woken in a run. */
  ghost function Wakeups(s: State, c: Config, run: seq<Step>): nat
    requires IsRun(s, c, run)
    decreases |run|
  {
    if run == [] then 0 else Wakes(s, run[0]) + Wakeups(Apply(s, c, run[0]), c, run[1..])
  }

  /** Wakeups whose boost has been given or is still owed. */
  function Owed(s: State): nat {
    s.boosts + if s.watcher == Woken || s.watcher == Boosting then 1 else 0
  }

  lemma {:induction false} OwedRun(s: State, c: Config, run: seq<Step>)
    requires IsRun(s, c, run)
    ensures Owed(Exec(s, c, run)) == Owed(s) + Wakeups(s, c, run)
    decreases |run|
  {
    if run == [] {
    } else {
      assert Owed(Apply(s, c, run[0])) == Owed(s) + Wakes(s, run[0]);
      OwedRun(Apply(s, c, run[0]), c, run[1..]);
    }
  }

  /** The watcher adds 100 once for each time it is woken, by the signal or spuriously. */
  lemma BoostPerWakeup(c: Config, run: seq<Step>)
    requires IsRun(Init(c), c, run)
    ensures var s := Exec(Init(c), c, run);
            s.boosts + (if s.watcher == Woken || s.watcher == Boosting then 1 else 0) == Wakeups(Init(c), c, run)
  {
    OwedRun(Init(c), c, run);
  }

  /** The run, if it is one, has boosted the counter at most once. */
  ghost predicate BoostedOnce(c: Config, run: seq<Step>) {
    IsRun(Init(c), c, run) ==> Exec(Init(c), c, run).boosts <= 1
  }

  /** Once is exact for limits up to 100; above, two spurious wakeups boost twice. */
  lemma BoostedOnceIff(c: Config)
    ensures (forall run :: BoostedOnce(c, run)) <==> c.limit <= 100
  {
    if c.limit <= 100 {
      forall run ensures BoostedOnce(c, run) {
        if IsRun(Init(c), c, run) {
          WatcherSafety(c, run);
        }
      }
    } else {
      var s := Init(c);
      var s1 := s.(watcher := Testing, owner := Watcher);
      SpuriousRound(Boosted(s1), c, []);
      SpuriousRound(s1, c, Doze(Raise([])));
      ExecFirst(s, c, Watch, Doze(Raise(Doze(Raise([])))));
      assert !BoostedOnce(c, [Watch] + Doze(Raise(Doze(Raise([])))));
    }
  }

  /** The watcher goes to sleep and wakes for nothing. */
  function Doze(rest: seq<Step>): seq<Step> {
    [Watch] + ([Spurious] + rest)
  }

  /** The woken watcher takes the lock and adds 100. */
  function Raise(rest: seq<Step>): seq<Step> {
    [Watch] + ([Watch] + rest)
  }

  function Boosted(s: State): State {
    State(s.count + 100, Watcher, Testing, s.incs, s.boosts + 1)
  }

  /** Below the limit a spurious wakeup boosts the counter. */
  lemma SpuriousRound(s: State, c: Config, rest: seq<Step>)
    requires s.watcher == Testing && s.owner == Watcher && s.count < c.limit
    requires IsRun(Boosted(s), c, rest)
    ensures IsRun(s, c, Doze(Raise(rest)))
    ensures Exec(s, c, Doze(Raise(rest))) == Exec(Boosted(s), c, rest)
  {
    var woken := State(s.count, Nobody, Woken, s.incs, s.boosts);
    LockAndBoost(woken, c, rest);
    SleepAndWake(s, woken, c, Raise(rest));
  }

  lemma SleepAndWake(s: State, woken: State, c: Config, rest: seq<Step>)
    requires s.watcher == Testing && s.owner == Watcher && s.count < c.limit
    requires woken == State(s.count, Nobody, Woken, s.incs, s.boosts) && IsRun(woken, c, rest)
    ensures IsRun(s, c, Doze(rest)) && Exec(s, c, Doze(rest)) == Exec(woken, c, rest)
  {
    ExecFirst(s.(watcher := Asleep, owner := Nobody), c, Spurious, rest);
    ExecFirst(s, c, Watch, [Spurious] + rest);
  }

  lemma LockAndBoost(s: State, c: Config, rest: seq<Step>)
    requires s.watcher == Woken && s.owner == Nobody && IsRun(Boosted(s), c, rest)
    ensures IsRun(s, c, Raise(rest)) && Exec(s, c, Raise(rest)) == Exec(Boosted(s), c, rest)
  {
    ExecFirst(s.(watcher := Boosting, owner := Watcher), c, Watch, rest);
    ExecFirst(s, c, Watch, [Watch] + rest);
  }

  lemma ExecFirst(s: State, c: Config, step: Step, rest: seq<Step>)
    requires Enabled(s, step) && IsRun(Apply(s, c, step), c, rest)
    ensures IsRun(s, c, [step] + rest)
    ensures Exec(s, c, [step] + rest) == Exec(Apply(s, c, step), c, rest)
  {
    assert ([step] + rest)[1..] == rest;
  }
}
