/** The connection pool under any number of threads: every interleaving of pop and
    push at the granularity of mutex and condition-variable operations, with
    barging threads, spurious wakeups, failing connects and failing allocations. */
module ConnPoolThreads {
  import opened Options
  import opened Sums
  import opened ConnPool

  datatype PC =
    | Outside                        // in client code
    | PopEnter                       // pop: about to lock the mutex
    | PopLoop                        // pop: about to take from the queue
    | PopCheck                       // pop: the queue was empty
    | Connecting                     // pop: inside conn_mgr_conn_new
    | Asleep                         // pop: in pthread_cond_wait, not woken
    | Woken                          // pop: woken, about to lock the mutex again
    | PopExit(got: Option<Conn>)     // pop: about to unlock and return
    | PushEnter(conn: Option<Conn>)  // push: about to lock the mutex
    | PushInsert(conn: Option<Conn>) // push: about to put the connection back
    | PushSignal                     // push: about to signal
    | PushExit                       // push: about to unlock

  /** `held` are the connections the client code of the thread has checked out. */
  datatype Thread = Thread(pc: PC, held: set<Conn>)

  /** `leaked` are connections that push dropped for want of a queue node. */
  datatype State = State(threads: seq<Thread>, mutex: Option<nat>, store: Store, leaked: set<Conn>)

  datatype Step =
    | StartPop(t: nat)
    | StartPush(t: nat, conn: Option<Conn>)
    | Hand(t: nat, to: nat, given: Conn)
    | Lock(t: nat)
    | Take(t: nat)
    | Check(t: nat)
    | Connect(t: nat, connected: bool)
    | Insert(t: nat, granted: bool)
    | Signal(t: nat, sleeper: nat)
    | Unlock(t: nat)
    | Spurious(t: nat)

  function Init(n: nat): State {
    State(seq(n, i => Thread(Outside, {})), None, Store([], 0), {})
  }

  predicate AnyAsleep(threads: seq<Thread>) {
    exists i :: 0 <= i < |threads| && threads[i].pc == Asleep
  }

  /** A client pushes only a connection it holds, or NULL. The clients of two threads
      may pass a checked-out connection between them at any time, so that it can be
      pushed by another thread than the one that popped it. A signal wakes some thread
      that sleeps, if there is one. */
  predicate Enabled(s: State, step: Step) {
    step.t < |s.threads| &&
    var pc := s.threads[step.t].pc;
    match step
    case StartPop(_) => pc == Outside
    case StartPush(t, conn) => pc == Outside && (conn.Some? ==> conn.value in s.threads[t].held)
    case Hand(t, to, given) => to < |s.threads| && to != t && given in s.threads[t].held
    case Lock(_) => s.mutex == None && (pc == PopEnter || pc == Woken || pc.PushEnter?)
    case Take(_) => pc == PopLoop
    case Check(_) => pc == PopCheck
    case Connect(_, _) => pc == Connecting
    case Insert(_, _) => pc.PushInsert?
    case Signal(_, w) =>
      pc == PushSignal && (AnyAsleep(s.threads) ==> w < |s.threads| && s.threads[w].pc == Asleep)
    case Unlock(_) => pc.PopExit? || pc == PushExit
    case Spurious(_) => pc == Asleep
  }

  function Move(s: State, t: nat, pc: PC): State
    requires t < |s.threads|
  {
    s.(threads := s.threads[t := s.threads[t].(pc := pc)])
  }

  function AsSet(c: Option<Conn>): set<Conn> {
    if c.Some? then {c.value} else {}
  }

  function Apply(s: State, max: nat, step: Step): (s': State)
    requires Enabled(s, step)
    ensures |s'.threads| == |s.threads|
  {
    var th := s.threads[step.t];
    match step
    case StartPop(t) => Move(s, t, PopEnter)
    case StartPush(t, conn) => s.(threads := s.threads[t := Thread(PushEnter(conn), th.held - AsSet(conn))])
    case Hand(t, to, given) =>
      var taker := s.threads[to];
      s.(threads := s.threads[t := th.(held := th.held - {given})][to := taker.(held := taker.held + {given})])
    case Lock(t) => Move(s, t, if th.pc.PushEnter? then PushInsert(th.pc.conn) else PopLoop).(mutex := Some(t))
    case Take(t) =>
      var (store, c) := PopHead(s.store);
      Move(s, t, if c.Some? then PopExit(c) else PopCheck).(store := store)
    case Check(t) =>
      if s.store.size < max then Move(s, t, Connecting) else Move(s, t, Asleep).(mutex := None)
    case Connect(t, connected) =>
      Move(s, t, PopExit(if connected then Some(s.store.size) else None)).(store := CountConnection(s.store, connected))
    case Insert(t, granted) =>
      Move(s, t, PushSignal).(store := PushHead(s.store, th.pc.conn, granted),
                              leaked := if granted then s.leaked else s.leaked + AsSet(th.pc.conn))
    case Signal(t, w) =>
      if AnyAsleep(s.threads) then Move(Move(s, t, PushExit), w, Woken) else Move(s, t, PushExit)
    case Unlock(t) =>
      s.(threads := s.threads[t := Thread(Outside, th.held + if th.pc.PopExit? then AsSet(th.pc.got) else {})],
         mutex := None)
    case Spurious(t) => Move(s, t, Woken)
  }

  ghost predicate IsRun(s: State, max: nat, run: seq<Step>)
    decreases |run|
  {
    run == [] || (Enabled(s, run[0]) && IsRun(Apply(s, max, run[0]), max, run[1..]))
  }

  ghost function Exec(s: State, max: nat, run: seq<Step>): (s': State)
    requires IsRun(s, max, run)
    ensures |s'.threads| == |s.threads|
    decreases |run|
  {
    if run == [] then s else Exec(Apply(s, max, run[0]), max, run[1..])
  }

  /** The steps of thread `t` from taking from the queue until it leaves the loop body. */
  function Pass(s: State, max: nat, t: nat, connected: bool): seq<Step> {
    if s.store.idle != [] then [Take(t)]
    else if s.store.size < max then [Take(t), Check(t), Connect(t, connected)]
    else [Take(t), Check(t)]
  }

  /** One pass of the loop, step by step, does to the shared store what the pool object
      does in one critical section, and leaves the thread with the same outcome. */
  lemma PassIsPopOnce(s: State, max: nat, t: nat, connected: bool)
    requires t < |s.threads| && s.threads[t].pc == PopLoop
    ensures IsRun(s, max, Pass(s, max, t, connected))
    ensures var s' := Exec(s, max, Pass(s, max, t, connected));
            var (store, outcome) := PopOnce(s.store, max, if connected then Some(s.store.size) else None);
            && s'.store == store && s'.leaked == s.leaked && s'.mutex == (if outcome == MustWait then None else s.mutex)
            && s'.threads == s.threads[t := s'.threads[t]] && s'.threads[t].held == s.threads[t].held
            && s'.threads[t].pc == (match outcome
                                    case Got(c) => PopExit(Some(c))
                                    case ConnectFailed => PopExit(None)
                                    case MustWait => Asleep)
  {
    var s1 := Apply(s, max, Take(t));
    if s.store.idle != [] {
      ExecFirst(s, max, Take(t), []);
    } else {
      var s2 := Apply(s1, max, Check(t));
      var rest := if s.store.size < max then [Connect(t, connected)] else [];
      if s.store.size < max {
        ExecFirst(s2, max, Connect(t, connected), []);
      }
      ExecFirst(s1, max, Check(t), rest);
      ExecFirst(s, max, Take(t), [Check(t)] + rest);
      assert Pass(s, max, t, connected) == [Take(t)] + ([Check(t)] + rest);
    }
  }

  /** The steps of a thread in the loop of pop until it leaves or sleeps. */
  function PassAndLeave(s: State, max: nat, t: nat, connected: bool): seq<Step> {
    Pass(s, max, t, connected) + if s.store.idle != [] || s.store.size < max then [Unlock(t)] else []
  }

  /** The thread after a pass with that outcome: outside with the connection, outside
      without one, or asleep. */
  function PassEnd(held: set<Conn>, outcome: Outcome): Thread {
    match outcome
    case Got(c) => Thread(Outside, held + {c})
    case ConnectFailed => Thread(Outside, held)
    case MustWait => Thread(Asleep, held)
  }

  lemma PassAndLeaveIsPopOnce(s: State, max: nat, t: nat, connected: bool)
    requires t < |s.threads| && s.threads[t].pc == PopLoop
    ensures IsRun(s, max, PassAndLeave(s, max, t, connected))
    ensures var s' := Exec(s, max, PassAndLeave(s, max, t, connected));
            var (store, outcome) := PopOnce(s.store, max, if connected then Some(s.store.size) else None);
            && s'.store == store && s'.mutex == None && s'.leaked == s.leaked
            && s'.threads == s.threads[t := PassEnd(s.threads[t].held, outcome)]
  {
    var pass := Pass(s, max, t, connected);
    var last := if s.store.idle != [] || s.store.size < max then [Unlock(t)] else [];
    PassIsPopOnce(s, max, t, connected);
    var s2 := Exec(s, max, pass);
    assert s2.threads[t].held + {} == s.threads[t].held;
    if last != [] {
      ExecFirst(s2, max, Unlock(t), []);
    }
    assert Exec(s2, max, last) == if last != [] then Apply(s2, max, Unlock(t)) else s2;
    ExecJoin(s, max, pass, last);
  }

  /** A pop that is not interrupted, whether it has just been called or was woken, does
      one pass: it ends outside with the connection the pass gave and none if connecting
      failed, or asleep; the mutex is free again. */
  lemma PopCallIsPopOnce(s: State, max: nat, t: nat, connected: bool)
    requires t < |s.threads| && s.mutex == None
    requires s.threads[t].pc == PopEnter || s.threads[t].pc == Woken
    ensures var call := [Lock(t)] + PassAndLeave(s, max, t, connected);
            && IsRun(s, max, call)
            && var s' := Exec(s, max, call);
            var (store, outcome) := PopOnce(s.store, max, if connected then Some(s.store.size) else None);
            && s'.store == store && s'.mutex == None && s'.leaked == s.leaked
            && s'.threads == s.threads[t := PassEnd(s.threads[t].held, outcome)]
  {
    var s1 := Apply(s, max, Lock(t));
    PassAndLeaveIsPopOnce(s1, max, t, connected);
    ExecFirst(s, max, Lock(t), PassAndLeave(s, max, t, connected));
  }

  /** A push that is not interrupted puts the connection first, drops it without memory,
      and in any case wakes one sleeper, if there is one. */
  lemma PushCallIsPushHead(s: State, max: nat, t: nat, granted: bool, w: nat)
    requires t < |s.threads| && s.mutex == None && s.threads[t].pc.PushEnter?
    requires AnyAsleep(s.threads) ==> w < |s.threads| && s.threads[w].pc == Asleep
    ensures var call := [Lock(t)] + ([Insert(t, granted)] + ([Signal(t, w)] + [Unlock(t)]));
            && IsRun(s, max, call)
            && var s' := Exec(s, max, call);
            && s'.store == PushHead(s.store, s.threads[t].pc.conn, granted) && s'.mutex == None
            && s'.leaked == s.leaked + (if granted then {} else AsSet(s.threads[t].pc.conn))
            && s'.threads == (if AnyAsleep(s.threads) then s.threads[w := s.threads[w].(pc := Woken)]
                              else s.threads)[t := Thread(Outside, s.threads[t].held)]
  {
    var s1 := Apply(s, max, Lock(t));
    var s2 := Apply(s1, max, Insert(t, granted));
    assert s2.threads == s.threads[t := s.threads[t].(pc := PushSignal)];
    SignalAndLeave(s, s2, max, t, w);
    ExecFirst(s1, max, Insert(t, granted), [Signal(t, w)] + [Unlock(t)]);
    ExecFirst(s, max, Lock(t), [Insert(t, granted)] + ([Signal(t, w)] + [Unlock(t)]));
  }

  /** The second half of a push, which found the threads as in `s`. */
  lemma SignalAndLeave(s: State, s2: State, max: nat, t: nat, w: nat)
    requires t < |s.threads| && s.threads[t].pc.PushEnter?
    requires AnyAsleep(s.threads) ==> w < |s.threads| && s.threads[w].pc == Asleep
    requires s2.threads == s.threads[t := s.threads[t].(pc := PushSignal)]
    ensures var end := [Signal(t, w)] + [Unlock(t)];
            && IsRun(s2, max, end)
            && var s' := Exec(s2, max, end);
            && s'.store == s2.store && s'.leaked == s2.leaked && s'.mutex == None
            && s'.threads == (if AnyAsleep(s.threads) then s.threads[w := s.threads[w].(pc := Woken)]
                              else s.threads)[t := Thread(Outside, s.threads[t].held)]
  {
    assert AnyAsleep(s2.threads) <==> AnyAsleep(s.threads) by {
      assert forall i :: 0 <= i < |s.threads| && i != t ==> s2.threads[i] == s.threads[i];
    }
    var s3 := Apply(s2, max, Signal(t, w));
    assert s3.threads[t].held + {} == s.threads[t].held;
    WokenAndOut(s, t, w, s3, Apply(s3, max, Unlock(t)));
    ExecFirst(s3, max, Unlock(t), []);
    ExecFirst(s2, max, Signal(t, w), [Unlock(t)]);
  }

  lemma WokenAndOut(s: State, t: nat, w: nat, s3: State, s4: State)
    requires t < |s.threads| && s.threads[t].pc.PushEnter?
    requires AnyAsleep(s.threads) ==> w < |s.threads| && s.threads[w].pc == Asleep
    requires var exit := s.threads[t := s.threads[t].(pc := PushExit)];
             s3.threads == if AnyAsleep(s.threads) then exit[w := s.threads[w].(pc := Woken)] else exit
    requires s4.threads == s3.threads[t := Thread(Outside, s.threads[t].held)]
    ensures s4.threads == (if AnyAsleep(s.threads) then s.threads[w := s.threads[w].(pc := Woken)]
                           else s.threads)[t := Thread(Outside, s.threads[t].held)]
  {
  }

  lemma {:induction false} ExecJoin(s: State, max: nat, a: seq<Step>, b: seq<Step>)
    requires IsRun(s, max, a) && IsRun(Exec(s, max, a), max, b)
    ensures IsRun(s, max, a + b) && Exec(s, max, a + b) == Exec(Exec(s, max, a), max, b)
    decreases |a|
  {
    if a == [] {
      assert a + b == b;
    } else {
      assert (a + b)[1..] == a[1..] + b;
      ExecJoin(Apply(s, max, a[0]), max, a[1..], b);
    }
  }

  /** Only inserting and taking touch the idle connections. */
  lemma {:induction false} OthersKeepIdle(s: State, max: nat, run: seq<Step>)
    requires IsRun(s, max, run) && forall step :: step in run ==> !step.Insert? && !step.Take?
    ensures Exec(s, max, run).store.idle == s.store.idle
    decreases |run|
  {
    if run == [] {
    } else {
      OthersKeepIdle(Apply(s, max, run[0]), max, run[1..]);
    }
  }

  /** Last in, first out between threads: whatever else happens in between, the first
      thread to take after a push gets the connection just pushed. */
  lemma LastPushedFirst(s: State, max: nat, t: nat, c: Conn, run: seq<Step>, u: nat)
    requires Enabled(s, Insert(t, true)) && s.threads[t].pc == PushInsert(Some(c))
    requires var s1 := Apply(s, max, Insert(t, true));
             && IsRun(s1, max, run) && (forall step :: step in run ==> !step.Insert? && !step.Take?)
             && Enabled(Exec(s1, max, run), Take(u))
    ensures var s2 := Exec(Apply(s, max, Insert(t, true)), max, run);
            var s3 := Apply(s2, max, Take(u));
            s3.threads[u].pc == PopExit(Some(c)) && s3.store.idle == s.store.idle
  {
    OthersKeepIdle(Apply(s, max, Insert(t, true)), max, run);
  }

  lemma ExecFirst(s: State, max: nat, step: Step, rest: seq<Step>)
    requires Enabled(s, step) && IsRun(Apply(s, max, step), max, rest)
    ensures IsRun(s, max, [step] + rest)
    ensures Exec(s, max, [step] + rest) == Exec(Apply(s, max, step), max, rest)
  {
    assert ([step] + rest)[1..] == rest;
  }

  // --------------------------------------------------------- mutual exclusion

  predicate Critical(pc: PC) {
    pc in {PopLoop, PopCheck, Connecting, PushSignal, PushExit} || pc.PopExit? || pc.PushInsert?
  }

  /** The threads in a critical section are exactly the owner of the mutex. */
  predicate MutexInv(s: State) {
    && (s.mutex.Some? ==> s.mutex.value < |s.threads|)
    && (forall i: nat :: i < |s.threads| ==> (Critical(s.threads[i].pc) <==> s.mutex == Some(i)))
  }

  lemma MutexStep(s: State, max: nat, step: Step)
    requires MutexInv(s) && Enabled(s, step)
    ensures MutexInv(Apply(s, max, step))
  {
  }

  // --------------------------------------------------------------- no lost wakeup

  /** Threads on their way to the queue, or about to wake one that is. */
  function Transit(th: Thread): nat {
    if th.pc in {Woken, PopLoop, PushSignal} then 1 else 0
  }

  /** What the owner of the mutex has found out still holds. */
  ghost predicate HolderInv(s: State, max: nat) {
    && s.store.size <= max
    && (forall i :: 0 <= i < |s.threads| ==> s.threads[i].pc in {PopCheck, Connecting} ==> s.store.idle == [])
    && (forall i :: 0 <= i < |s.threads| ==> s.threads[i].pc == Connecting ==> s.store.size < max)
  }

  /** Idle connections that a sleeper might want are all spoken for by threads in
      transit, and the pool is fully grown. */
  ghost predicate WakeInv(s: State, max: nat) {
    AnyAsleep(s.threads) ==> s.store.size == max && |s.store.idle| <= Sum(s.threads, Transit)
  }

  lemma HolderStep(s: State, max: nat, step: Step)
    requires MutexInv(s) && HolderInv(s, max) && Enabled(s, step)
    ensures HolderInv(Apply(s, max, step), max)
  {
  }

  lemma WakeStep(s: State, max: nat, step: Step)
    requires MutexInv(s) && HolderInv(s, max) && WakeInv(s, max) && Enabled(s, step)
    ensures WakeInv(Apply(s, max, step), max)
  {
    var s' := Apply(s, max, step);
    if step.Hand? {
      HandTransit(s, max, step);
    } else if step.Signal? && AnyAsleep(s.threads) {
      SignalTransit(s, max, step);
    } else {
      SumUpdate(s.threads, Transit, step.t, s'.threads[step.t]);
      assert s'.threads == s.threads[step.t := s'.threads[step.t]];
    }
  }

  /** Passing a connection on moves no thread. */
  lemma HandTransit(s: State, max: nat, step: Step)
    requires Enabled(s, step) && step.Hand?
    ensures AnyAsleep(Apply(s, max, step).threads) ==> AnyAsleep(s.threads)
    ensures Sum(Apply(s, max, step).threads, Transit) == Sum(s.threads, Transit)
  {
    SumPointwise(s.threads, Apply(s, max, step).threads, Transit);
  }

  /** A signal passes the place in transit from the signaller to the woken thread. */
  lemma SignalTransit(s: State, max: nat, step: Step)
    requires Enabled(s, step) && step.Signal? && AnyAsleep(s.threads)
    ensures Sum(Apply(s, max, step).threads, Transit) == Sum(s.threads, Transit)
  {
    var m := Move(s, step.t, PushExit);
    SumUpdate(s.threads, Transit, step.t, m.threads[step.t]);
    SumUpdate(m.threads, Transit, step.sleeper, Apply(s, max, step).threads[step.sleeper]);
  }

  // -------------------------------------------------------------- conservation

  function InHand(pc: PC): set<Conn> {
    match pc
    case PopExit(c) => AsSet(c)
    case PushEnter(c) => AsSet(c)
    case PushInsert(c) => AsSet(c)
    case _ => {}
  }

  /** Connections a thread has checked out, including one on its way in or out. */
  function Owned(th: Thread): set<Conn> {
    th.held + InHand(th.pc)
  }

  function Owns(c: Conn): Thread -> nat {
    th => if c in Owned(th) then 1 else 0
  }

  function OwnedCount(th: Thread): nat {
    |Owned(th)|
  }

  /** The number of places a connection is in: idle, with a thread, or leaked. */
  ghost function Places(s: State, c: Conn): nat {
    multiset(s.store.idle)[c] + Sum(s.threads, Owns(c)) + if c in s.leaked then 1 else 0
  }

  /** Every connection that was opened is in exactly one place. */
  ghost predicate PlacesInv(s: State) {
    && (forall i :: 0 <= i < |s.threads| ==> s.threads[i].held !! InHand(s.threads[i].pc))
    && (forall c: Conn :: Places(s, c) == if c < s.store.size then 1 else 0)
  }

  ghost predicate CountInv(s: State) {
    |s.store.idle| + Sum(s.threads, OwnedCount) + |s.leaked| == s.store.size
  }

  /** Taking, connecting and inserting move a connection between pool and thread. */
  predicate Transfers(step: Step) {
    step.Take? || step.Connect? || step.Insert?
  }

  lemma OwnershipKept(s: State, max: nat, step: Step, i: nat)
    requires Enabled(s, step) && i < |s.threads| && !step.Hand? && (i != step.t || !Transfers(step))
    ensures Owned(Apply(s, max, step).threads[i]) == Owned(s.threads[i])
  {
  }

  lemma KeptSums(s: State, max: nat, step: Step, c: Conn)
    requires Enabled(s, step) && !Transfers(step) && !step.Hand?
    ensures Sum(Apply(s, max, step).threads, Owns(c)) == Sum(s.threads, Owns(c))
    ensures Sum(Apply(s, max, step).threads, OwnedCount) == Sum(s.threads, OwnedCount)
  {
    var s' := Apply(s, max, step);
    forall i: nat | i < |s.threads| ensures Owned(s'.threads[i]) == Owned(s.threads[i]) {
      OwnershipKept(s, max, step, i);
    }
    SumPointwise(s.threads, s'.threads, Owns(c));
    SumPointwise(s.threads, s'.threads, OwnedCount);
  }

  /** A connection that is idle or not yet opened is owned by no thread. */
  lemma Unowned(s: State, c: Conn, t: nat)
    requires PlacesInv(s) && t < |s.threads| && (c in s.store.idle || c >= s.store.size)
    ensures c !in Owned(s.threads[t])
  {
    assert Places(s, c) == if c < s.store.size then 1 else 0;
    SumAtLeast(s.threads, Owns(c), t);
    assert Owns(c)(s.threads[t]) == 0;
  }

  /** What a transfer does to the owning thread: it gains the first idle connection
      or a new one, or gives up the one in its hand. */
  lemma TransferOwned(s: State, max: nat, step: Step)
    requires PlacesInv(s) && Enabled(s, step) && Transfers(step)
    ensures var s' := Apply(s, max, step);
            var was, now := Owned(s.threads[step.t]), Owned(s'.threads[step.t]);
            && s'.threads == s.threads[step.t := s'.threads[step.t]]
            && (step.Take? && s.store.idle == [] ==> now == was)
            && (step.Take? && s.store.idle != [] ==> s.store.idle[0] !in was && now == was + {s.store.idle[0]})
            && (step.Connect? && !step.connected ==> now == was)
            && (step.Connect? && step.connected ==> s.store.size !in was && now == was + {s.store.size})
            && (step.Insert? ==> was == now + InHand(s.threads[step.t].pc) && now !! InHand(s.threads[step.t].pc))
  {
    if step.Take? && s.store.idle != [] {
      Unowned(s, s.store.idle[0], step.t);
    } else if step.Connect? {
      Unowned(s, s.store.size, step.t);
    }
  }

  lemma TakePlaces(s: State, max: nat, step: Step, c: Conn)
    requires PlacesInv(s) && Enabled(s, step) && step.Take?
    ensures Places(Apply(s, max, step), c) == Places(s, c)
  {
    var s' := Apply(s, max, step);
    TransferOwned(s, max, step);
    SumUpdate(s.threads, Owns(c), step.t, s'.threads[step.t]);
    if s.store.idle != [] {
      assert s.store.idle == [s.store.idle[0]] + s'.store.idle;
    }
  }

  lemma ConnectPlaces(s: State, max: nat, step: Step, c: Conn)
    requires PlacesInv(s) && Enabled(s, step) && step.Connect?
    ensures Places(Apply(s, max, step), c) == Places(s, c) + if step.connected && c == s.store.size then 1 else 0
  {
    TransferOwned(s, max, step);
    SumUpdate(s.threads, Owns(c), step.t, Apply(s, max, step).threads[step.t]);
  }

  lemma InsertPlaces(s: State, max: nat, step: Step, c: Conn)
    requires PlacesInv(s) && Enabled(s, step) && step.Insert?
    ensures Places(Apply(s, max, step), c) == Places(s, c)
  {
    var s' := Apply(s, max, step);
    TransferOwned(s, max, step);
    LeakedOnce(s, step.t);
    SumUpdate(s.threads, Owns(c), step.t, s'.threads[step.t]);
  }

  /** What one client gives away, the other gains, and it did not own it before. */
  lemma HandOwned(s: State, max: nat, step: Step)
    requires PlacesInv(s) && Enabled(s, step) && step.Hand?
    ensures var s' := Apply(s, max, step);
            var giver, taker := s.threads[step.t], s.threads[step.to];
            && s'.threads == s.threads[step.t := s'.threads[step.t]][step.to := s'.threads[step.to]]
            && step.given in Owned(giver) && Owned(s'.threads[step.t]) == Owned(giver) - {step.given}
            && step.given !in Owned(taker) && Owned(s'.threads[step.to]) == Owned(taker) + {step.given}
  {
    var c := step.given;
    assert Places(s, c) <= 1;
    if step.t < step.to {
      SumAtLeastTwo(s.threads, Owns(c), step.t, step.to);
    } else {
      SumAtLeastTwo(s.threads, Owns(c), step.to, step.t);
    }
    assert Owns(c)(s.threads[step.t]) == 1;
    assert c !in InHand(s.threads[step.t].pc);
  }

  /** Two updates that cancel out leave a sum as it was. */
  lemma SumOfTwo(threads: seq<Thread>, f: Thread -> nat, i: nat, x: Thread, j: nat, y: Thread)
    requires i < |threads| && j < |threads| && i != j
    requires f(x) + f(y) == f(threads[i]) + f(threads[j])
    ensures Sum(threads[i := x][j := y], f) == Sum(threads, f)
  {
    SumUpdate(threads, f, i, x);
    SumUpdate(threads[i := x], f, j, y);
  }

  lemma HandSums(s: State, max: nat, step: Step, c: Conn)
    requires PlacesInv(s) && Enabled(s, step) && step.Hand?
    ensures Sum(Apply(s, max, step).threads, Owns(c)) == Sum(s.threads, Owns(c))
    ensures Sum(Apply(s, max, step).threads, OwnedCount) == Sum(s.threads, OwnedCount)
  {
    HandOwned(s, max, step);
    var s' := Apply(s, max, step);
    SumOfTwo(s.threads, Owns(c), step.t, s'.threads[step.t], step.to, s'.threads[step.to]);
    SumOfTwo(s.threads, OwnedCount, step.t, s'.threads[step.t], step.to, s'.threads[step.to]);
  }

  lemma PlacesStep(s: State, max: nat, step: Step)
    requires PlacesInv(s) && Enabled(s, step)
    ensures PlacesInv(Apply(s, max, step))
  {
    var s' := Apply(s, max, step);
    forall c: Conn ensures Places(s', c) == if c < s'.store.size then 1 else 0 {
      assert Places(s, c) == if c < s.store.size then 1 else 0;
      match step
      case Take(_) => TakePlaces(s, max, step, c);
      case Connect(_, _) => ConnectPlaces(s, max, step, c);
      case Insert(_, _) => InsertPlaces(s, max, step, c);
      case Hand(_, _, _) => HandSums(s, max, step, c);
      case _ => KeptSums(s, max, step, c);
    }
    HandsStep(s, max, step);
  }

  lemma HandsStep(s: State, max: nat, step: Step)
    requires PlacesInv(s) && Enabled(s, step)
    ensures var s' := Apply(s, max, step);
            forall i :: 0 <= i < |s'.threads| ==> s'.threads[i].held !! InHand(s'.threads[i].pc)
  {
    if step.Take? && s.store.idle != [] {
      Unowned(s, s.store.idle[0], step.t);
    } else if step.Connect? {
      Unowned(s, s.store.size, step.t);
    } else if step.Hand? {
      HandOwned(s, max, step);
    }
  }

  /** How many connections the moving thread owns more, or fewer, after a transfer. */
  lemma TransferCount(s: State, max: nat, step: Step)
    requires PlacesInv(s) && Enabled(s, step) && Transfers(step)
    ensures var s' := Apply(s, max, step);
            var was, now := OwnedCount(s.threads[step.t]), OwnedCount(s'.threads[step.t]);
            && (step.Take? ==> now == was + if s.store.idle == [] then 0 else 1)
            && (step.Connect? ==> now == was + if step.connected then 1 else 0)
            && (step.Insert? ==> was == now + |InHand(s.threads[step.t].pc)|)
  {
    TransferOwned(s, max, step);
  }

  lemma InsertedOnce(s: State, max: nat, step: Step)
    requires PlacesInv(s) && Enabled(s, step) && step.Insert?
    ensures var s' := Apply(s, max, step);
            |s'.store.idle| + |s'.leaked| == |s.store.idle| + |s.leaked| + |InHand(s.threads[step.t].pc)|
  {
    LeakedOnce(s, step.t);
    assert |s.leaked + InHand(s.threads[step.t].pc)| == |s.leaked| + |InHand(s.threads[step.t].pc)|;
  }

  lemma CountStep(s: State, max: nat, step: Step)
    requires PlacesInv(s) && CountInv(s) && Enabled(s, step)
    ensures CountInv(Apply(s, max, step))
  {
    if Transfers(step) {
      TransferCount(s, max, step);
      SumUpdate(s.threads, OwnedCount, step.t, Apply(s, max, step).threads[step.t]);
      if step.Insert? {
        InsertedOnce(s, max, step);
      }
    } else if step.Hand? {
      HandSums(s, max, step, 0);
    } else {
      KeptSums(s, max, step, 0);
    }
  }

  lemma LeakedOnce(s: State, t: nat)
    requires PlacesInv(s) && t < |s.threads|
    ensures InHand(s.threads[t].pc) !! s.leaked
  {
    forall c | c in InHand(s.threads[t].pc) ensures c !in s.leaked {
      assert Places(s, c) <= 1;
      SumAtLeast(s.threads, Owns(c), t);
      assert Owns(c)(s.threads[t]) == 1;
    }
  }

  // ------------------------------------------------------------- over whole runs

  ghost predicate Inv(s: State, max: nat) {
    MutexInv(s) && HolderInv(s, max) && WakeInv(s, max) && PlacesInv(s) && CountInv(s)
  }

  lemma InitInv(n: nat, max: nat)
    ensures Inv(Init(n), max)
  {
    var s := Init(n);
    SumUniform(s.threads, OwnedCount, 0);
    forall c: Conn ensures Places(s, c) == 0 {
      SumUniform(s.threads, Owns(c), 0);
    }
  }

  lemma {:induction false} RunInv(s: State, max: nat, run: seq<Step>)
    requires Inv(s, max) && IsRun(s, max, run)
    ensures Inv(Exec(s, max, run), max)
    decreases |run|
  {
    if run == [] {
    } else {
      MutexStep(s, max, run[0]);
      HolderStep(s, max, run[0]);
      WakeStep(s, max, run[0]);
      PlacesStep(s, max, run[0]);
      CountStep(s, max, run[0]);
      RunInv(Apply(s, max, run[0]), max, run[1..]);
    }
  }

  /** Conservation: `size` counts the idle, checked-out and leaked connections, never
      exceeds the maximum, and no connection is in two places or in two hands. */
  lemma Conservation(n: nat, max: nat, run: seq<Step>, c: Conn)
    requires IsRun(Init(n), max, run)
    ensures var s := Exec(Init(n), max, run);
            && s.store.size == |s.store.idle| + Sum(s.threads, OwnedCount) + |s.leaked| <= max
            && multiset(s.store.idle)[c] <= 1
            && (c in s.store.idle || c in s.leaked ==> forall i :: 0 <= i < n ==> c !in Owned(s.threads[i]))
            && !(c in s.store.idle && c in s.leaked)
            && (forall i, j :: 0 <= i < j < n ==> c !in Owned(s.threads[i]) || c !in Owned(s.threads[j]))
  {
    InitInv(n, max);
    RunInv(Init(n), max, run);
    var s := Exec(Init(n), max, run);
    assert Places(s, c) <= 1;
    forall i: nat | i < n ensures Owns(c)(s.threads[i]) <= Sum(s.threads, Owns(c)) {
      SumAtLeast(s.threads, Owns(c), i);
    }
    forall i: nat, j: nat | i < j < n ensures c !in Owned(s.threads[i]) || c !in Owned(s.threads[j]) {
      SumAtLeastTwo(s.threads, Owns(c), i, j);
    }
  }

  function IsWoken(th: Thread): nat {
    if th.pc == Woken then 1 else 0
  }

  /** No lost wakeup: while a thread sleeps the pool is fully grown, and whenever the
      mutex is free there are no more idle connections than threads already woken. */
  lemma NoLostWakeup(n: nat, max: nat, run: seq<Step>)
    requires IsRun(Init(n), max, run)
    ensures var s := Exec(Init(n), max, run);
            AnyAsleep(s.threads) ==>
              && s.store.size == max
              && |s.store.idle| <= Sum(s.threads, Transit)
              && (s.mutex == None ==> |s.store.idle| <= Sum(s.threads, IsWoken))
  {
    InitInv(n, max);
    RunInv(Init(n), max, run);
    var s := Exec(Init(n), max, run);
    if s.mutex == None {
      SumSame(s.threads, Transit, IsWoken);
    }
  }

  predicate AtRest(pc: PC) {
    pc == Outside || pc == Asleep
  }

  /** A sleeper nobody will wake is rightly asleep: if all other threads sleep too or
      are in client code, every one of the `max` connections is out or leaked. */
  lemma SleepersRightlySleep(n: nat, max: nat, run: seq<Step>)
    requires IsRun(Init(n), max, run)
    requires var s := Exec(Init(n), max, run);
             AnyAsleep(s.threads) && forall i :: 0 <= i < n ==> AtRest(s.threads[i].pc)
    ensures var s := Exec(Init(n), max, run);
            s.store.idle == [] && Sum(s.threads, OwnedCount) + |s.leaked| == max
  {
    InitInv(n, max);
    RunInv(Init(n), max, run);
    SumUniform(Exec(Init(n), max, run).threads, Transit, 0);
  }

  /** A step that neither starts a new call nor is a spurious wakeup. */
  predicate Internal(step: Step) {
    !step.StartPop? && !step.StartPush? && !step.Hand? && !step.Spurious?
  }

  /** The next step of thread `u` inside the pool. */
  function NextMove(pc: PC, u: nat, w: nat): Step {
    match pc
    case PopLoop => Take(u)
    case PopCheck => Check(u)
    case Connecting => Connect(u, true)
    case PushInsert(_) => Insert(u, true)
    case PushSignal => Signal(u, w)
    case PopExit(_) => Unlock(u)
    case PushExit => Unlock(u)
    case _ => Lock(u)
  }

  lemma SomeMove(s: State, t: nat) returns (step: Step)
    requires MutexInv(s) && t < |s.threads| && !AtRest(s.threads[t].pc)
    ensures Internal(step) && Enabled(s, step)
  {
    var u: nat := if s.mutex.Some? then s.mutex.value else t;
    var w: nat := if i: nat :| i < |s.threads| && s.threads[i].pc == Asleep then i else 0;
    step := NextMove(s.threads[u].pc, u, w);
  }

  /** Deadlock freedom: as long as some call is neither finished nor asleep, the pool
      itself can move. */
  lemma PoolNeverDeadlocks(n: nat, max: nat, run: seq<Step>, t: nat)
    requires IsRun(Init(n), max, run) && t < n
    requires !AtRest(Exec(Init(n), max, run).threads[t].pc)
    ensures exists step :: Internal(step) && Enabled(Exec(Init(n), max, run), step)
  {
    InitInv(n, max);
    RunInv(Init(n), max, run);
    var step := SomeMove(Exec(Init(n), max, run), t);
  }
}
