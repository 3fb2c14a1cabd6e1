/** The ring buffer that producer and consumer share (shm_producer.c and
    shm_consumer.c). Head and tail of -1 mark the empty ring. */
module ShmQueue {
  import opened Options

  datatype Ring = Ring(arr: seq<int>, head: int, tail: int)

  predicate Valid(r: Ring) {
    (r.head == -1 && r.tail == -1 && |r.arr| >= 1) || (0 <= r.head < |r.arr| && 0 <= r.tail < |r.arr|)
  }

  /** The queued values, oldest first, through the wraparound. */
  function Contents(r: Ring): seq<int>
    requires Valid(r)
  {
    if r.head == -1 then []
    else if r.head <= r.tail then r.arr[r.head..r.tail + 1]
    else r.arr[r.head..] + r.arr[..r.tail + 1]
  }

  function After(r: Ring, i: int): (j: int)
    requires Valid(r) && -1 <= i < |r.arr|
    ensures j == if i + 1 == |r.arr| then 0 else i + 1
  {
    (i + 1) % |r.arr|
  }

  function Empty(arr: seq<int>): Ring {
    Ring(arr, -1, -1)
  }

  /** queue_add: silently does nothing when the ring is full. */
  function Add(r: Ring, v: int): Ring
    requires Valid(r)
  {
    if After(r, r.tail) == r.head then r
    else if r.head == -1 && r.tail == -1 then Ring(r.arr[0 := v], 0, 0)
    else Ring(r.arr[After(r, r.tail) := v], r.head, After(r, r.tail))
  }

  /** queue_delete: drops the oldest value, or does nothing when the ring is empty. */
  function Delete(r: Ring): (Ring, Option<int>)
    requires Valid(r)
  {
    if r.head == -1 then (r, None)
    else (if r.head == r.tail then Empty(r.arr) else r.(head := After(r, r.head)), Some(r.arr[r.head]))
  }

  /** The array index of the k-th queued value. */
  function Position(head: int, k: nat, n: nat): int {
    if head + k < n then head + k else head + k - n
  }

  function Length(r: Ring): nat
    requires Valid(r)
  {
    if r.head == -1 then 0 else if r.head <= r.tail then r.tail + 1 - r.head else |r.arr| - r.head + r.tail + 1
  }

  lemma ContentsAt(r: Ring)
    requires Valid(r)
    ensures |Contents(r)| == Length(r) <= |r.arr|
    ensures forall k :: 0 <= k < Length(r) ==>
              0 <= Position(r.head, k, |r.arr|) < |r.arr| && Contents(r)[k] == r.arr[Position(r.head, k, |r.arr|)]
  {
  }

  /** Stepping an index round the ring follows the queue and meets the tail last. */
  lemma NextPosition(r: Ring, k: nat)
    requires Valid(r) && k < Length(r)
    ensures var i := Position(r.head, k, |r.arr|);
            && 0 <= i < |r.arr| && |Contents(r)| == Length(r) && Contents(r)[k] == r.arr[i]
            && (i == r.tail <==> k + 1 == Length(r))
            && (i + 1) % |r.arr| == After(r, i) == Position(r.head, k + 1, |r.arr|)
  {
    ContentsAt(r);
  }

  lemma TakeOneMore(s: seq<int>, k: nat)
    requires k < |s|
    ensures s[..k] + [s[k]] == s[..k + 1] && s[..|s|] == s
  {
  }

  /** The tests of the code say what they are meant to. */
  lemma FullAndEmptyTests(r: Ring)
    requires Valid(r)
    ensures After(r, r.tail) == r.head <==> |Contents(r)| == |r.arr|
    ensures r.head == -1 <==> Contents(r) == []
  {
    ContentsAt(r);
  }

  /** Adding appends to the sequence unless it already has the ring's capacity. */
  lemma AddRefines(r: Ring, v: int)
    requires Valid(r)
    ensures Valid(Add(r, v)) && |Add(r, v).arr| == |r.arr|
    ensures Contents(Add(r, v)) == if |Contents(r)| == |r.arr| then Contents(r) else Contents(r) + [v]
  {
    FullAndEmptyTests(r);
    ContentsAt(r);
    var q := Add(r, v);
    ContentsAt(q);
    if |Contents(r)| < |r.arr| {
      assert Length(q) == Length(r) + 1;
      forall k | 0 <= k < Length(q) ensures Contents(q)[k] == (Contents(r) + [v])[k] {
        assert Contents(q)[k] == q.arr[Position(q.head, k, |q.arr|)];
      }
    }
  }

  /** Deleting removes and reports the oldest value of the sequence. */
  lemma DeleteRefines(r: Ring)
    requires Valid(r)
    ensures Valid(Delete(r).0) && |Delete(r).0.arr| == |r.arr|
    ensures Delete(r).1 == None <==> Contents(r) == []
    ensures Delete(r).1 == None ==> Delete(r).0 == r
    ensures Delete(r).1.Some? ==> Contents(r) == [Delete(r).1.value] + Contents(Delete(r).0)
  {
    ContentsAt(r);
    var (q, v) := Delete(r);
    ContentsAt(q);
    if v.Some? {
      DeleteShifts(r);
      forall k | 0 <= k < Length(r) ensures Contents(r)[k] == ([v.value] + Contents(q))[k] {
        assert Contents(r)[k] == r.arr[Position(r.head, k, |r.arr|)];
        if k > 0 {
          assert Contents(q)[k - 1] == q.arr[Position(q.head, k - 1, |q.arr|)];
        }
      }
    }
  }

  /** After a delete the k-th value is where the one after it was. */
  lemma DeleteShifts(r: Ring)
    requires Valid(r) && r.head != -1
    ensures var q := Delete(r).0;
            && Valid(q) && Length(r) == Length(q) + 1
            && (forall k :: 1 <= k < Length(r) ==> Position(q.head, k - 1, |r.arr|) == Position(r.head, k, |r.arr|))
  {
    assert After(r, r.head) == if r.head + 1 == |r.arr| then 0 else r.head + 1;
  }

  class Queue {
    const arr: array<int>
    var head: int
    var tail: int

    ghost function Value(): Ring
      reads this, arr
    {
      Ring(arr[..], head, tail)
    }

    constructor (n: nat)
      requires n >= 1
      ensures arr.Length == n && fresh(arr) && Value() == Empty(arr[..])
    {
      arr := new int[n];
      head, tail := -1, -1;
    }

    method QueueAdd(v: int)
      requires Valid(Value())
      modifies this, arr
      ensures Value() == Add(old(Value()), v)
    {
      if (tail + 1) % arr.Length == head {
        return;
      }
      if head == -1 && tail == -1 {
        head, tail := 0, 0;
      } else {
        tail := (tail + 1) % arr.Length;
      }
      arr[tail] := v;
    }

    method QueueDelete() returns (deleted: Option<int>)
      requires Valid(Value())
      modifies this
      ensures (Value(), deleted) == Delete(old(Value()))
    {
      if head == -1 {
        return None;
      }
      deleted := Some(arr[head]);
      if head == tail {
        head, tail := -1, -1;
      } else {
        head := (head + 1) % arr.Length;
      }
    }

    /** queue_print ends, having visited exactly the queued values in order. */
    method QueuePrint() returns (printed: seq<int>)
      requires Valid(Value())
      ensures printed == Contents(Value())
    {
      printed := [];
      if head == -1 {
        return;
      }
      ghost var r := Value();
      ghost var all := Contents(r);
      ContentsAt(r);
      var i := head;
      while true
        invariant |printed| < Length(r) && printed == all[..|printed|]
        invariant i == Position(head, |printed|, arr.Length)
        decreases Length(r) - |printed|
      {
        NextPosition(r, |printed|);
        TakeOneMore(all, |printed|);
        printed := printed + [arr[i]];
        if i == tail {
          break;
        }
        i := (i + 1) % arr.Length;
      }
    }
  }
}
