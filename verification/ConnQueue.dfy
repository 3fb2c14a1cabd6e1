/** The head/tail linked queue of conn_mgr_queue.c, refining a sequence. */
module ConnQueue {
  import opened Options
  import opened SystemTypes

  class Item<T> {
    const data: T
    var next: Item?<T>

    constructor (data: T, next: Item?<T>)
      ensures this.data == data && this.next == next
    {
      this.data := data;
      this.next := next;
    }
  }

  /** Node `i` points to the following one, the last to NULL. */
  ghost predicate LinkAt<T>(items: seq<Item<T>>, i: nat)
    requires i < |items|
    reads items[i]
  {
    items[i].next == if i + 1 < |items| then items[i + 1] else null
  }

  class Queue<T> {
    var head: Item?<T>
    var tail: Item?<T>
    ghost var items: seq<Item<T>>
    ghost var contents: seq<T>

    /** `items` are the nodes met from `head` on: no two are the same, each points to
        the following one, the last to NULL, and `tail` is the last of them. */
    ghost predicate Valid()
      reads this, items
    {
      && |contents| == |items| && (forall i :: 0 <= i < |items| ==> items[i].data == contents[i])
      && (forall i, j :: 0 <= i < j < |items| ==> items[i] != items[j])
      && (forall i :: 0 <= i < |items| ==> LinkAt(items, i))
      && (if items == [] then head == null && tail == null
          else head == items[0] && tail == items[|items| - 1])
    }

    ghost function Nodes(): set<Item<T>>
      reads this
    {
      set x | x in items
    }

    ghost function Contents(): seq<T>
      reads this
    {
      contents
    }

    constructor ()
      ensures Valid() && items == [] && Contents() == []
    {
      head, tail, items, contents := null, null, [], [];
    }

    /** A NULL element or a failed allocation leaves the queue alone. */
    method PushHead(data: Option<T>, granted: bool)
      requires Valid()
      modifies this
      ensures Valid()
      ensures Contents() == if data.Some? && granted then [data.value] + old(Contents()) else old(Contents())
      ensures data == None || !granted ==> unchanged(this)
      ensures fresh(Nodes() - old(Nodes()))
    {
      if data == None || !granted {
        return;
      }
      var item := new Item(data.value, head);
      head := item;
      if tail == null {
        tail := item;
      }
      items, contents := [item] + items, [data.value] + contents;
      forall i | 0 <= i < |items| ensures LinkAt(items, i) {
        if i > 0 {
          assert old(LinkAt(items, i - 1)) && items[i] == old(items)[i - 1];
        }
      }
    }

    method PushTail(data: Option<T>, granted: bool)
      requires Valid()
      modifies this, tail
      ensures Valid()
      ensures Contents() == if data.Some? && granted then old(Contents()) + [data.value] else old(Contents())
      ensures data == None || !granted ==> unchanged(this)
      ensures tail == old(tail) || fresh(tail)
      ensures fresh(Nodes() - old(Nodes()))
    {
      if data == None || !granted {
        return;
      }
      var item := new Item(data.value, null);
      if tail != null {
        tail.next := item;
      } else {
        head := item;
      }
      tail := item;
      items, contents := items + [item], contents + [data.value];
      forall i | 0 <= i < |items| ensures LinkAt(items, i) {
        assert i < |old(items)| ==> old(LinkAt(items, i));
      }
    }

    /** NULL is popped exactly from the empty queue. */
    method PopHead() returns (data: Option<T>)
      requires Valid()
      modifies this
      ensures Valid()
      ensures data == None <==> old(Contents()) == []
      ensures data == None ==> unchanged(this)
      ensures data.Some? ==> data.value == old(Contents())[0] && Contents() == old(Contents())[1..]
      ensures Nodes() <= old(Nodes())
    {
      data := None;
      var item := head;
      if item != null {
        assert LinkAt(items, 0);
        if item.next == null {
          tail := null;
        }
        data := Some(item.data);
        head := item.next;
        items, contents := items[1..], contents[1..];
        forall i | 0 <= i < |items| ensures LinkAt(items, i) {
          assert old(LinkAt(items, i + 1));
        }
      }
    }

    /** The traversal counts every node once, in a 32-bit counter. */
    method GetLength() returns (count: nat)
      requires Valid()
      ensures count == |Contents()| % U32
    {
      count := 0;
      var item := head;
      ghost var i := 0;
      while item != null
        invariant 0 <= i <= |items|
        invariant item == if i < |items| then items[i] else null
        invariant count == i % U32
        decreases |items| - i
      {
        assert LinkAt(items, i);
        count := (count + 1) % U32;
        item := item.next;
        i := i + 1;
      }
    }
  }

  // -------------------------------------------------------- any mix of calls

  /** A call of the queue, with the answer of malloc. */
  datatype Call<T> = ToHead(data: Option<T>, granted: bool) | ToTail(data: Option<T>, granted: bool) | FromHead

  /** The element a call adds, if any. */
  function Added<T>(call: Call<T>): seq<T> {
    if call.FromHead? || call.data == None || !call.granted then [] else [call.data.value]
  }

  function AddedAll<T>(calls: seq<Call<T>>): seq<T> {
    if calls == [] then [] else Added(calls[0]) + AddedAll(calls[1..])
  }

  function After<T>(s: seq<T>, call: Call<T>): seq<T> {
    match call
    case ToHead(data, granted) => if data.Some? && granted then [data.value] + s else s
    case ToTail(data, granted) => if data.Some? && granted then s + [data.value] else s
    case FromHead => if s == [] then [] else s[1..]
  }

  /** The result of a pop; a push has none. */
  function Result<T>(s: seq<T>, call: Call<T>): seq<Option<T>> {
    if !call.FromHead? then [] else if s == [] then [None] else [Some(s[0])]
  }

  /** What the calls make of a sequence, and the results of their pops. */
  function Serve<T>(s: seq<T>, calls: seq<Call<T>>): (seq<T>, seq<Option<T>>)
    decreases |calls|
  {
    if calls == [] then (s, [])
    else
      var (s', popped) := Serve(After(s, calls[0]), calls[1..]);
      (s', Result(s, calls[0]) + popped)
  }

  /** The elements among the results of pops. */
  function Values<T>(popped: seq<Option<T>>): seq<T> {
    if popped == [] then []
    else (if popped[0].Some? then [popped[0].value] else []) + Values(popped[1..])
  }

  method ServeOne<T>(q: Queue<T>, call: Call<T>) returns (popped: seq<Option<T>>)
    requires q.Valid()
    modifies q, q.Nodes()
    ensures q.Valid() && q.Contents() == After(old(q.Contents()), call)
    ensures popped == Result(old(q.Contents()), call)
    ensures fresh(q.Nodes() - old(q.Nodes()))
  {
    popped := [];
    match call {
      case ToHead(data, granted) =>
        q.PushHead(data, granted);
      case ToTail(data, granted) =>
        q.PushTail(data, granted);
      case FromHead =>
        var x := q.PopHead();
        popped := [x];
    }
  }

  /** Any mix of calls does to the linked nodes what it does to the sequence, and the
      list holds no nodes but its first ones and new ones. */
  method ServeAll<T>(q: Queue<T>, calls: seq<Call<T>>) returns (popped: seq<Option<T>>)
    requires q.Valid()
    modifies q, q.Nodes()
    ensures q.Valid() && (q.Contents(), popped) == Serve(old(q.Contents()), calls)
    ensures fresh(q.Nodes() - old(q.Nodes()))
    decreases |calls|
  {
    if calls == [] {
      return [];
    }
    var first := ServeOne(q, calls[0]);
    ghost var s := q.Contents();
    var rest := ServeAll(q, calls[1..]);
    assert (q.Contents(), rest) == Serve(s, calls[1..]);
    popped := first + rest;
  }

  lemma ValuesFirst<T>(s: seq<T>, call: Call<T>, popped: seq<Option<T>>)
    ensures Values(Result(s, call) + popped) == Values(Result(s, call)) + Values(popped)
  {
    if call.FromHead? {
      assert (Result(s, call) + popped)[1..] == popped;
    } else {
      assert Result(s, call) + popped == popped;
    }
  }

  lemma CallInOrder<T>(s: seq<T>, call: Call<T>)
    ensures !call.ToHead? ==> Values(Result(s, call)) + After(s, call) == s + Added(call)
    ensures call.ToHead? ==> Values(Result(s, call)) + After(s, call) == Added(call) + s
  {
    if call.FromHead? && s != [] {
      assert Values([Some(s[0])]) == [s[0]];
      assert s == [s[0]] + s[1..];
    }
  }

  lemma CallConserves<T>(s: seq<T>, call: Call<T>)
    ensures multiset(Values(Result(s, call))) + multiset(After(s, call)) == multiset(s) + multiset(Added(call))
  {
    CallInOrder(s, call);
    assert multiset(Values(Result(s, call)) + After(s, call)) == multiset(Values(Result(s, call))) + multiset(After(s, call));
  }

  lemma BalancesAdd<T>(first: multiset<T>, s1: multiset<T>, s: multiset<T>, added: multiset<T>,
                       popped: multiset<T>, left: multiset<T>, more: multiset<T>)
    requires first + s1 == s + added && popped + left == s1 + more
    ensures first + popped + left == s + (added + more)
  {
    assert first + popped + left == first + (s1 + more) == first + s1 + more;
  }

  /** No element is lost or repeated, whatever the mix. */
  lemma {:induction false} ServeConserves<T>(s: seq<T>, calls: seq<Call<T>>)
    ensures var (s', popped) := Serve(s, calls);
            multiset(Values(popped)) + multiset(s') == multiset(s) + multiset(AddedAll(calls))
    decreases |calls|
  {
    if calls == [] {
    } else {
      var s1, first := After(s, calls[0]), Values(Result(s, calls[0]));
      var (s', popped) := Serve(s1, calls[1..]);
      CallConserves(s, calls[0]);
      ServeConserves(s1, calls[1..]);
      ValuesFirst(s, calls[0], popped);
      BalancesAdd(multiset(first), multiset(s1), multiset(s), multiset(Added(calls[0])),
                  multiset(Values(popped)), multiset(s'), multiset(AddedAll(calls[1..])));
    }
  }

  /** With push_tail alone the queue is first in, first out. */
  lemma {:induction false} FirstInFirstOut<T>(s: seq<T>, calls: seq<Call<T>>)
    requires forall call :: call in calls ==> !call.ToHead?
    ensures var (s', popped) := Serve(s, calls); Values(popped) + s' == s + AddedAll(calls)
    decreases |calls|
  {
    if calls == [] {
    } else {
      var s1 := After(s, calls[0]);
      var (s', popped) := Serve(s1, calls[1..]);
      CallInOrder(s, calls[0]);
      FirstInFirstOut(s1, calls[1..]);
      ValuesFirst(s, calls[0], popped);
      InOrder(Values(Result(s, calls[0])), Values(popped), s', s1, AddedAll(calls[1..]), s, Added(calls[0]));
    }
  }

  lemma InOrder<T>(first: seq<T>, popped: seq<T>, left: seq<T>, s1: seq<T>, more: seq<T>, s: seq<T>, added: seq<T>)
    requires popped + left == s1 + more && first + s1 == s + added
    ensures first + popped + left == s + (added + more)
  {
    assert first + popped + left == first + (s1 + more);
    assert s + (added + more) == s + added + more;
  }
}
