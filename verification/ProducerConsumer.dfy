/** The producer and consumer loops of shm_producer.c and shm_consumer.c around the
    shared ring: any number of producers and consumers, any interleaving of their
    semaphore operations. */
module ProducerConsumer {
  import opened Options
  import opened Sums
  import opened ShmQueue

  datatype Producer =
    | Producing            // about to make a value
    | WaitEmpty(val: int)  // about to wait on `empty`
    | Entering(val: int)   // has an empty slot, about to wait on `mutex`
    | Adding(val: int)     // about to add and print
    | LeavingP             // about to post `mutex`
    | PostFull             // about to post `full`

  datatype Consumer =
    | WaitFull   // about to wait on `full`
    | Arriving   // has a full slot, about to wait on `mutex`
    | Deleting   // about to delete and print
    | LeavingC   // about to post `mutex`
    | PostEmpty  // about to post `empty`

  /** `added` and `deleted` record the calls: every value passed to queue_add, and
      every value queue_delete reported. */
  datatype State = State(
    ring: Ring, full: nat, empty: nat, mutex: nat,
    producers: seq<Producer>, consumers: seq<Consumer>,
    added: seq<int>, deleted: seq<int>)

  datatype Step = P(i: nat, val: int) | C(i: nat)

  function Init(arr: seq<int>, producers: nat, consumers: nat): State {
    State(Empty(arr), 0, |arr|, 1, seq(producers, i => Producing), seq(consumers, i => WaitFull), [], [])
  }

  predicate Enabled(s: State, step: Step) {
    match step
    case P(i, _) =>
      && i < |s.producers|
      && (s.producers[i].WaitEmpty? ==> s.empty > 0)
      && (s.producers[i].Entering? ==> s.mutex > 0)
    case C(i) =>
      && i < |s.consumers|
      && (s.consumers[i].WaitFull? ==> s.full > 0)
      && (s.consumers[i].Arriving? ==> s.mutex > 0)
  }

  function MoveP(s: State, i: nat, p: Producer): State
    requires i < |s.producers|
  {
    s.(producers := s.producers[i := p])
  }

  function MoveC(s: State, i: nat, c: Consumer): State
    requires i < |s.consumers|
  {
    s.(consumers := s.consumers[i := c])
  }

  function Apply(s: State, step: Step): (s': State)
    requires Valid(s.ring) && Enabled(s, step)
    ensures |s'.producers| == |s.producers| && |s'.consumers| == |s.consumers|
  {
    match step
    case P(i, val) =>
      (match s.producers[i]
       case Producing => MoveP(s, i, WaitEmpty(val))
       case WaitEmpty(v) => MoveP(s, i, Entering(v)).(empty := s.empty - 1)
       case Entering(v) => MoveP(s, i, Adding(v)).(mutex := s.mutex - 1)
       case Adding(v) => MoveP(s, i, LeavingP).(ring := Add(s.ring, v), added := s.added + [v])
       case LeavingP => MoveP(s, i, PostFull).(mutex := s.mutex + 1)
       case PostFull => MoveP(s, i, Producing).(full := s.full + 1))
    case C(i) =>
      (match s.consumers[i]
       case WaitFull => MoveC(s, i, Arriving).(full := s.full - 1)
       case Arriving => MoveC(s, i, Deleting).(mutex := s.mutex - 1)
       case Deleting =>
         var (ring, v) := Delete(s.ring);
         MoveC(s, i, LeavingC).(ring := ring, deleted := s.deleted + if v.Some? then [v.value] else [])
       case LeavingC => MoveC(s, i, PostEmpty).(mutex := s.mutex + 1)
       case PostEmpty => MoveC(s, i, WaitFull).(empty := s.empty + 1))
  }

  /** A ring operation needs a well-formed ring; Inv shows that every state reached
      has one, so this never cuts a run short. */
  ghost predicate IsRun(s: State, run: seq<Step>)
    decreases |run|
  {
    run == [] || (Valid(s.ring) && Enabled(s, run[0]) && IsRun(Apply(s, run[0]), run[1..]))
  }

  ghost function Exec(s: State, run: seq<Step>): (s': State)
    requires IsRun(s, run)
    ensures |s'.producers| == |s.producers| && |s'.consumers| == |s.consumers|
    decreases |run|
  {
    if run == [] then s else Exec(Apply(s, run[0]), run[1..])
  }

  // ---------------------------------------------------------------- invariants

  /** Past the wait for an empty slot and before the add. */
  function Reserved(p: Producer): nat {
    if p.Entering? || p.Adding? then 1 else 0
  }

  /** Past the add and before the post of `full`. */
  function Filled(p: Producer): nat {
    if p.LeavingP? || p.PostFull? then 1 else 0
  }

  /** Past the wait for a full slot and before the delete. */
  function Claimed(c: Consumer): nat {
    if c.Arriving? || c.Deleting? then 1 else 0
  }

  /** Past the delete and before the post of `empty`. */
  function Freed(c: Consumer): nat {
    if c.LeavingC? || c.PostEmpty? then 1 else 0
  }

  function InsideP(p: Producer): nat {
    if p.Adding? || p.LeavingP? then 1 else 0
  }

  function InsideC(c: Consumer): nat {
    if c.Deleting? || c.LeavingC? then 1 else 0
  }

  ghost predicate Exclusive(s: State) {
    s.mutex + Sum(s.producers, InsideP) + Sum(s.consumers, InsideC) == 1
  }

  ghost predicate EmptyConserved(s: State, n: nat)
    requires Valid(s.ring)
  {
    s.empty + |Contents(s.ring)| + Sum(s.producers, Reserved) + Sum(s.consumers, Freed) == n
  }

  ghost predicate FullConserved(s: State)
    requires Valid(s.ring)
  {
    s.full + Sum(s.producers, Filled) + Sum(s.consumers, Claimed) == |Contents(s.ring)|
  }

  ghost predicate Inv(s: State, n: nat) {
    && Valid(s.ring) && |s.ring.arr| == n
    && Exclusive(s) && EmptyConserved(s, n) && FullConserved(s)
    && s.added == s.deleted + Contents(s.ring)
  }

  lemma InitInv(arr: seq<int>, producers: nat, consumers: nat)
    requires |arr| >= 1
    ensures Inv(Init(arr, producers, consumers), |arr|)
  {
    var s := Init(arr, producers, consumers);
    SumUniform(s.producers, InsideP, 0);
    SumUniform(s.producers, Reserved, 0);
    SumUniform(s.producers, Filled, 0);
    SumUniform(s.consumers, InsideC, 0);
    SumUniform(s.consumers, Claimed, 0);
    SumUniform(s.consumers, Freed, 0);
  }

  /** A producer about to add finds room: the "queue is full" branch is dead. */
  lemma RoomToAdd(s: State, n: nat, i: nat)
    requires Inv(s, n) && i < |s.producers| && s.producers[i].Adding?
    ensures |Contents(s.ring)| < n && After(s.ring, s.ring.tail) != s.ring.head
  {
    SumAtLeast(s.producers, Reserved, i);
    FullAndEmptyTests(s.ring);
  }

  /** A consumer about to delete finds a value: the "queue is empty" branch is dead. */
  lemma ValueToDelete(s: State, n: nat, i: nat)
    requires Inv(s, n) && i < |s.consumers| && s.consumers[i].Deleting?
    ensures |Contents(s.ring)| > 0 && s.ring.head != -1
  {
    SumAtLeast(s.consumers, Claimed, i);
    FullAndEmptyTests(s.ring);
  }

  /** The sums that the conservation equations are made of. */
  lemma ProducerSums(s: State, i: nat, p: Producer)
    requires i < |s.producers|
    ensures Sum(s.producers[i := p], InsideP) + InsideP(s.producers[i]) == Sum(s.producers, InsideP) + InsideP(p)
    ensures Sum(s.producers[i := p], Reserved) + Reserved(s.producers[i]) == Sum(s.producers, Reserved) + Reserved(p)
    ensures Sum(s.producers[i := p], Filled) + Filled(s.producers[i]) == Sum(s.producers, Filled) + Filled(p)
  {
    SumUpdate(s.producers, InsideP, i, p);
    SumUpdate(s.producers, Reserved, i, p);
    SumUpdate(s.producers, Filled, i, p);
  }

  lemma ConsumerSums(s: State, i: nat, c: Consumer)
    requires i < |s.consumers|
    ensures Sum(s.consumers[i := c], InsideC) + InsideC(s.consumers[i]) == Sum(s.consumers, InsideC) + InsideC(c)
    ensures Sum(s.consumers[i := c], Claimed) + Claimed(s.consumers[i]) == Sum(s.consumers, Claimed) + Claimed(c)
    ensures Sum(s.consumers[i := c], Freed) + Freed(s.consumers[i]) == Sum(s.consumers, Freed) + Freed(c)
  {
    SumUpdate(s.consumers, InsideC, i, c);
    SumUpdate(s.consumers, Claimed, i, c);
    SumUpdate(s.consumers, Freed, i, c);
  }

  lemma AddingStep(s: State, n: nat, i: nat, val: int)
    requires Inv(s, n) && i < |s.producers| && s.producers[i].Adding?
    ensures Inv(Apply(s, P(i, val)), n)
  {
    ProducerSums(s, i, LeavingP);
    RoomToAdd(s, n, i);
    var v := s.producers[i].val;
    AddRefines(s.ring, v);
    assert s.added + [v] == s.deleted + (Contents(s.ring) + [v]);
  }

  lemma ProducerStep(s: State, n: nat, i: nat, val: int)
    requires Inv(s, n) && Enabled(s, P(i, val))
    ensures Inv(Apply(s, P(i, val)), n)
  {
    if s.producers[i].Adding? {
      AddingStep(s, n, i, val);
    } else {
      ProducerSums(s, i, Apply(s, P(i, val)).producers[i]);
    }
  }

  lemma DeletingStep(s: State, n: nat, i: nat)
    requires Inv(s, n) && i < |s.consumers| && s.consumers[i].Deleting?
    ensures Inv(Apply(s, C(i)), n)
  {
    ConsumerSums(s, i, LeavingC);
    ValueToDelete(s, n, i);
    DeleteRefines(s.ring);
    var (ring, v) := Delete(s.ring);
    assert s.deleted + ([v.value] + Contents(ring)) == s.deleted + [v.value] + Contents(ring);
  }

  lemma ConsumerStep(s: State, n: nat, i: nat)
    requires Inv(s, n) && Enabled(s, C(i))
    ensures Inv(Apply(s, C(i)), n)
  {
    if s.consumers[i].Deleting? {
      DeletingStep(s, n, i);
    } else {
      ConsumerSums(s, i, Apply(s, C(i)).consumers[i]);
    }
  }

  lemma {:induction false} RunInv(s: State, n: nat, run: seq<Step>)
    requires Inv(s, n) && IsRun(s, run)
    ensures Inv(Exec(s, run), n)
    decreases |run|
  {
    if run == [] {
    } else {
      match run[0] {
        case P(i, val) => ProducerStep(s, n, i, val);
        case C(i) => ConsumerStep(s, n, i);
      }
      RunInv(Apply(s, run[0]), n, run[1..]);
    }
  }

  // ------------------------------------------------------------ over whole runs

  /** Semaphore conservation, for every ring size and every interleaving. */
  lemma SemaphoresConserved(arr: seq<int>, producers: nat, consumers: nat, run: seq<Step>)
    requires |arr| >= 1 && IsRun(Init(arr, producers, consumers), run)
    ensures var s := Exec(Init(arr, producers, consumers), run);
            && Valid(s.ring)
            && s.empty + |Contents(s.ring)| + Sum(s.producers, Reserved) + Sum(s.consumers, Freed) == |arr|
            && s.full + Sum(s.producers, Filled) + Sum(s.consumers, Claimed) == |Contents(s.ring)|
            && s.mutex + Sum(s.producers, InsideP) + Sum(s.consumers, InsideC) == 1
  {
    InitInv(arr, producers, consumers);
    RunInv(Init(arr, producers, consumers), |arr|, run);
  }

  /** Neither error branch of the queue operations is ever taken. */
  lemma ErrorBranchesUnreachable(arr: seq<int>, producers: nat, consumers: nat, run: seq<Step>)
    requires |arr| >= 1 && IsRun(Init(arr, producers, consumers), run)
    ensures var s := Exec(Init(arr, producers, consumers), run);
            && Valid(s.ring)
            && (forall i :: 0 <= i < |s.producers| && s.producers[i].Adding? ==>
                  After(s.ring, s.ring.tail) != s.ring.head)
            && (forall i :: 0 <= i < |s.consumers| && s.consumers[i].Deleting? ==> s.ring.head != -1)
  {
    InitInv(arr, producers, consumers);
    RunInv(Init(arr, producers, consumers), |arr|, run);
    var s := Exec(Init(arr, producers, consumers), run);
    forall i: nat | i < |s.producers| && s.producers[i].Adding?
      ensures After(s.ring, s.ring.tail) != s.ring.head
    {
      RoomToAdd(s, |arr|, i);
    }
    forall i: nat | i < |s.consumers| && s.consumers[i].Deleting? ensures s.ring.head != -1 {
      ValueToDelete(s, |arr|, i);
    }
  }

  /** First in, first out over the whole run: what was deleted, followed by what is
      queued, is exactly what was added; nothing is lost, repeated or reordered. */
  lemma DeletedIsPrefixOfAdded(arr: seq<int>, producers: nat, consumers: nat, run: seq<Step>)
    requires |arr| >= 1 && IsRun(Init(arr, producers, consumers), run)
    ensures var s := Exec(Init(arr, producers, consumers), run);
            && Valid(s.ring) && s.added == s.deleted + Contents(s.ring)
            && s.deleted <= s.added
  {
    InitInv(arr, producers, consumers);
    RunInv(Init(arr, producers, consumers), |arr|, run);
  }

  /** The producer has the value x, not yet added. */
  function CarryOf(x: int): Producer -> nat {
    (p: Producer) => if (p.WaitEmpty? || p.Entering? || p.Adding?) && p.val == x then 1 else 0
  }

  /** Whether the step is a producer's making of the value x. */
  function Makes(s: State, step: Step, x: int): nat {
    if step.P? && step.i < |s.producers| && s.producers[step.i].Producing? && step.val == x then 1 else 0
  }

  /** How often the producers made the value x in a run. */
  ghost function Made(s: State, run: seq<Step>, x: int): nat
    requires IsRun(s, run)
    decreases |run|
  {
    if run == [] then 0 else Makes(s, run[0], x) + Made(Apply(s, run[0]), run[1..], x)
  }

  /** How often x is in the hands of producers or was added. */
  function Known(s: State, x: int): nat {
    multiset(s.added)[x] + Sum(s.producers, CarryOf(x))
  }

  lemma KnownStep(s: State, step: Step, x: int)
    requires Valid(s.ring) && Enabled(s, step)
    ensures Known(Apply(s, step), x) == Known(s, x) + Makes(s, step, x)
  {
    AddedStep(s, step, x);
    CarryStep(s, step, x);
  }

  /** Whether the step adds the value x. */
  function Adds(s: State, step: Step, x: int): nat {
    if step.P? && step.i < |s.producers| && s.producers[step.i] == Adding(x) then 1 else 0
  }

  lemma AddedStep(s: State, step: Step, x: int)
    requires Valid(s.ring) && Enabled(s, step)
    ensures multiset(Apply(s, step).added)[x] == multiset(s.added)[x] + Adds(s, step, x)
  {
    if step.P? && s.producers[step.i].Adding? {
      assert Apply(s, step).added == s.added + [s.producers[step.i].val];
    } else {
      assert Apply(s, step).added == s.added;
    }
  }

  lemma CarryStep(s: State, step: Step, x: int)
    requires Valid(s.ring) && Enabled(s, step)
    ensures Sum(Apply(s, step).producers, CarryOf(x)) + Adds(s, step, x)
         == Sum(s.producers, CarryOf(x)) + Makes(s, step, x)
  {
    if step.P? {
      var p, p' := s.producers[step.i], Apply(s, step).producers[step.i];
      assert Apply(s, step).producers == s.producers[step.i := p'];
      SumUpdate(s.producers, CarryOf(x), step.i, p');
      assert CarryOf(x)(p') + Adds(s, step, x) == CarryOf(x)(p) + Makes(s, step, x);
    }
  }

  lemma {:induction false} KnownRun(s: State, run: seq<Step>, x: int)
    requires IsRun(s, run)
    ensures Known(Exec(s, run), x) == Known(s, x) + Made(s, run, x)
    decreases |run|
  {
    if run == [] {
    } else {
      KnownStep(s, run[0], x);
      KnownRun(Apply(s, run[0]), run[1..], x);
    }
  }

  /** Over every run, each value was made as often as it was deleted, is queued or is still
      carried by a producer: what arrives is what was produced. */
  lemma ArrivesAsProduced(arr: seq<int>, producers: nat, consumers: nat, run: seq<Step>, x: int)
    requires |arr| >= 1 && IsRun(Init(arr, producers, consumers), run)
    ensures var s := Exec(Init(arr, producers, consumers), run);
            && Valid(s.ring)
            && multiset(s.deleted)[x] + multiset(Contents(s.ring))[x] + Sum(s.producers, CarryOf(x))
               == Made(Init(arr, producers, consumers), run, x)
  {
    var s := Init(arr, producers, consumers);
    SumUniform(s.producers, CarryOf(x), 0);
    KnownRun(s, run, x);
    DeletedIsPrefixOfAdded(arr, producers, consumers, run);
  }

  /** After the run, if it is one, some operation is possible. */
  ghost predicate MovesAfter(arr: seq<int>, producers: nat, consumers: nat, run: seq<Step>) {
    IsRun(Init(arr, producers, consumers), run) ==>
      exists step :: Enabled(Exec(Init(arr, producers, consumers), run), step)
  }

  /** The system never deadlocks exactly when it has a producer and a consumer: without
      a consumer the producers fill the ring and stop, without a producer nobody starts. */
  lemma NeverDeadlocksIff(arr: seq<int>, producers: nat, consumers: nat)
    requires |arr| >= 1
    ensures (forall run :: MovesAfter(arr, producers, consumers, run)) <==> producers >= 1 && consumers >= 1
  {
    var s := Init(arr, producers, consumers);
    InitInv(arr, producers, consumers);
    if producers >= 1 && consumers >= 1 {
      forall run ensures MovesAfter(arr, producers, consumers, run) {
        if IsRun(s, run) {
          RunInv(s, |arr|, run);
          var step := SomeMove(Exec(s, run), |arr|);
        }
      }
    } else if producers == 0 {
      assert forall step :: !Enabled(s, step);
      assert !MovesAfter(arr, producers, consumers, []);
    } else {
      var run := FillUp(s, |arr|);
      assert !MovesAfter(arr, producers, consumers, run);
    }
  }

  /** Operations of a producer until it next waits for an empty slot. */
  function StepsToWait(p: Producer): nat {
    match p
    case Producing => 1
    case WaitEmpty(_) => 0
    case Entering(_) => 5
    case Adding(_) => 4
    case LeavingP => 3
    case PostFull => 2
  }

  ghost function FillWork(s: State): nat {
    Sum(s.producers, StepsToWait) + 6 * s.empty
  }

  lemma FillStep(s: State, step: Step)
    requires Valid(s.ring) && Enabled(s, step) && step.P?
    ensures FillWork(Apply(s, step)) < FillWork(s) && Apply(s, step).consumers == s.consumers
  {
    SumUpdate(s.producers, StepsToWait, step.i, Apply(s, step).producers[step.i]);
  }

  lemma ExecFirst(s: State, step: Step, rest: seq<Step>)
    requires Valid(s.ring) && Enabled(s, step) && IsRun(Apply(s, step), rest)
    ensures IsRun(s, [step] + rest) && Exec(s, [step] + rest) == Exec(Apply(s, step), rest)
  {
    assert ([step] + rest)[1..] == rest;
  }

  /** Producers alone run until the ring is full and all of them wait. */
  lemma {:induction false} FillUp(s: State, n: nat) returns (run: seq<Step>)
    requires Inv(s, n) && |s.producers| >= 1 && s.consumers == []
    ensures IsRun(s, run)
    ensures var s' := Exec(s, run);
            (forall step :: !Enabled(s', step)) && Valid(s'.ring) && |Contents(s'.ring)| == n
    decreases FillWork(s)
  {
    if step :| Enabled(s, step) {
      ProducerStep(s, n, step.i, step.val);
      FillStep(s, step);
      var rest := FillUp(Apply(s, step), n);
      run := [step] + rest;
      ExecFirst(s, step, rest);
    } else {
      run := [];
      AllWaiting(s, n);
    }
  }

  lemma AllWaiting(s: State, n: nat)
    requires Inv(s, n) && |s.producers| >= 1 && s.consumers == [] && forall step :: !Enabled(s, step)
    ensures |Contents(s.ring)| == n
  {
    NobodyInside(s);
    forall i: nat | i < |s.producers| ensures s.producers[i].WaitEmpty? {
      assert !Enabled(s, P(i, 0));
    }
    assert !Enabled(s, P(0, 0));
    SumUniform(s.producers, Reserved, 0);
  }

  lemma NobodyInside(s: State)
    requires Exclusive(s) && s.consumers == [] && forall step :: !Enabled(s, step)
    ensures s.mutex > 0
  {
    forall i: nat | i < |s.producers| ensures InsideP(s.producers[i]) == 0 {
      assert !Enabled(s, P(i, 0));
    }
    SumUniform(s.producers, InsideP, 0);
  }

  lemma SomeMove(s: State, n: nat) returns (step: Step)
    requires Inv(s, n) && n >= 1 && |s.producers| >= 1 && |s.consumers| >= 1
    ensures Enabled(s, step)
  {
    if Sum(s.producers, InsideP) > 0 {
      var i := SumPositive(s.producers, InsideP);
      return P(i, 0);
    }
    if Sum(s.consumers, InsideC) > 0 {
      var i := SumPositive(s.consumers, InsideC);
      return C(i);
    }
    if Sum(s.producers, Reserved) + Sum(s.producers, Filled) > 0 {
      var i: nat;
      if Sum(s.producers, Reserved) > 0 {
        i := SumPositive(s.producers, Reserved);
      } else {
        i := SumPositive(s.producers, Filled);
      }
      return P(i, 0);
    }
    if Sum(s.consumers, Claimed) + Sum(s.consumers, Freed) > 0 {
      var i: nat;
      if Sum(s.consumers, Claimed) > 0 {
        i := SumPositive(s.consumers, Claimed);
      } else {
        i := SumPositive(s.consumers, Freed);
      }
      return C(i);
    }
    SumAtLeast(s.producers, Reserved, 0);
    SumAtLeast(s.producers, Filled, 0);
    SumAtLeast(s.consumers, Claimed, 0);
    SumAtLeast(s.consumers, Freed, 0);
    step := if s.empty > 0 then P(0, 0) else C(0);
  }
}
