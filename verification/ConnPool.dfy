/** The bounded connection pool of conn_mgr_pool.c: what one pass through its
    critical sections does, and the pool object over the linked queue. */
module ConnPool {
  import opened Options
  import opened SystemTypes
  import opened ConnQueue

  /** A connection is identified by a number; NULL is None. */
  type Conn = nat

  datatype Store = Store(idle: seq<Conn>, size: nat)

  datatype Outcome = Got(conn: Conn) | ConnectFailed | MustWait

  function PopHead(s: Store): (Store, Option<Conn>) {
    if s.idle == [] then (s, None) else (s.(idle := s.idle[1..]), Some(s.idle[0]))
  }

  /** `connected` is the result of conn_mgr_conn_new. */
  function CountConnection(s: Store, connected: bool): Store {
    if connected then s.(size := s.size + 1) else s
  }

  function PushHead(s: Store, c: Option<Conn>, granted: bool): Store {
    if c.Some? && granted then s.(idle := [c.value] + s.idle) else s
  }

  /** One pass of the loop in conn_mgr_pool_pop, up to its wait. */
  function PopOnce(s: Store, max: nat, connect: Option<Conn>): (Store, Outcome) {
    var (s', c) := PopHead(s);
    if c.Some? then (s', Got(c.value))
    else if s.size < max then
      (CountConnection(s, connect.Some?), if connect.Some? then Got(connect.value) else ConnectFailed)
    else (s, MustWait)
  }

  /** A pass hands out the first idle connection; without one it opens another below the
      limit and waits at it. Idle connections are reused last in, first out. */
  lemma PopOnceSpec(s: Store, max: nat, connect: Option<Conn>, c: Conn)
    ensures var (s', r) := PopOnce(s, max, connect);
            && (s.idle != [] ==> r == Got(s.idle[0]) && s.idle == [s.idle[0]] + s'.idle && s'.size == s.size)
            && (s.idle == [] ==> s'.idle == [])
            && (r == MustWait <==> s.idle == [] && s.size >= max)
            && (r == ConnectFailed <==> s.idle == [] && s.size < max && connect == None)
            && (s.idle == [] && r.Got? ==> connect == Some(r.conn))
            && s'.size == s.size + if s.idle == [] && r.Got? then 1 else 0
    ensures PopOnce(PushHead(s, Some(c), true), max, connect) == (s, Got(c))
    ensures PushHead(s, None, true) == PushHead(s, Some(c), false) == s
  {
  }

  class Pool {
    const max: nat
    var size: nat
    const queue: Queue<Conn>

    ghost predicate Valid()
      reads this, queue, queue.items
    {
      queue.Valid() && size <= max < U32
    }

    ghost function Abs(): Store
      reads this, queue
    {
      Store(queue.Contents(), size)
    }

    constructor (max: nat)
      requires max < U32
      ensures Valid() && Abs() == Store([], 0) && this.max == max && fresh(queue)
    {
      this.max := max;
      size := 0;
      queue := new Queue<Conn>();
    }

    /** One pass of the pop loop under the mutex; the caller waits on MustWait. */
    method PopAttempt(connect: Option<Conn>) returns (r: Outcome)
      requires Valid()
      modifies this, queue
      ensures Valid() && (Abs(), r) == PopOnce(old(Abs()), max, connect)
      ensures old(Abs().idle) != [] ==> r == Got(old(Abs().idle)[0]) && Abs().idle == old(Abs().idle)[1..]
      ensures old(Abs().idle) == [] ==> Abs().idle == []
      ensures r == MustWait <==> old(Abs().idle) == [] && old(size) >= max
      ensures r == ConnectFailed <==> old(Abs().idle) == [] && old(size) < max && connect == None
      ensures old(Abs().idle) == [] && r.Got? ==> connect == Some(r.conn)
      ensures size == old(size) + if old(Abs().idle) == [] && r.Got? then 1 else 0
    {
      var c := queue.PopHead();
      if c.Some? {
        return Got(c.value);
      }
      if size < max {
        if connect.Some? {
          size := size + 1;
          return Got(connect.value);
        }
        return ConnectFailed;
      }
      r := MustWait;
    }

    method Push(c: Option<Conn>, granted: bool)
      requires Valid()
      modifies queue
      ensures Valid() && Abs() == PushHead(old(Abs()), c, granted)
      ensures c.Some? && granted ==> Abs().idle == [c.value] + old(Abs().idle)
      ensures c == None || !granted ==> Abs().idle == old(Abs().idle)
    {
      queue.PushHead(c, granted);
    }

    /** The connection pushed last is the first to be popped, and push then pop leave the
        pool as it was. */
    method PushThenPop(c: Conn, connect: Option<Conn>) returns (r: Outcome)
      requires Valid()
      modifies this, queue
      ensures Valid() && r == Got(c) && Abs() == old(Abs())
    {
      Push(Some(c), true);
      r := PopAttempt(connect);
    }

    /** The destroy loop ends, having destroyed every idle connection once, in order. */
    method Destroy() returns (destroyed: seq<Conn>)
      requires Valid()
      modifies queue
      ensures destroyed == old(Abs()).idle && Valid() && Abs().idle == []
    {
      destroyed := Drain(queue);
    }
  }

  /** Pops until NULL. */
  method Drain(queue: Queue<Conn>) returns (popped: seq<Conn>)
    requires queue.Valid()
    modifies queue
    ensures queue.Valid() && queue.Contents() == [] && popped == old(queue.Contents())
  {
    ghost var all := queue.Contents();
    popped := [];
    var c := queue.PopHead();
    while c != None
      invariant queue.Valid() && popped <= all
      invariant Pending(c, all, |popped|, queue.Contents())
      decreases |all| - |popped|
    {
      var was := c;
      ghost var rest := queue.Contents();
      c := queue.PopHead();
      PendingNext(was, all, popped, rest, c, queue.Contents());
      popped := popped + [was.value];
    }
  }

  /** `c` is the connection after the first `i` of all, and `rest` are those after it. */
  ghost predicate Pending(c: Option<Conn>, all: seq<Conn>, i: nat, rest: seq<Conn>) {
    if c.Some? then i < |all| && c.value == all[i] && rest == all[i + 1..] else i == |all| && rest == []
  }

  lemma PendingNext(c: Option<Conn>, all: seq<Conn>, popped: seq<Conn>, rest: seq<Conn>, c': Option<Conn>, rest': seq<Conn>)
    requires c.Some? && popped <= all && Pending(c, all, |popped|, rest)
    requires if c'.Some? then rest != [] && c'.value == rest[0] && rest' == rest[1..] else rest == rest' == []
    ensures popped + [c.value] <= all && Pending(c', all, |popped| + 1, rest')
  {
  }

  /** conn_mgr_pool_new: NULL without an address or without memory. */
  method New(ip: Option<string>, max: nat, granted: bool) returns (pool: Pool?)
    requires max < U32
    ensures pool == null <==> ip == None || !granted
    ensures pool != null ==> fresh(pool) && fresh(pool.queue) && pool.Valid()
    ensures pool != null ==> pool.Abs() == Store([], 0) && pool.max == max
  {
    if ip == None || !granted {
      return null;
    }
    pool := new Pool(max);
  }
}
