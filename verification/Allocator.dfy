/** The simple allocator that the slab memory pool (argo_mem_pool.c) implements: a
    LIFO stack of free slots and a set of live ones, growing one slab at a time. */
module Allocator {
  import opened Bits
  import opened Options

  const SLABS_MAX: nat := 4096
  const SLAB_BYTES: nat := 0x1000_0000

  /** An object's place: slab index and the index of its header word in the slab. */
  datatype Slot = Slot(inx: nat, word: nat)

  /** 64-bit words per object and objects per slab. */
  datatype Geometry = Geometry(words: nat, count: nat)

  predicate ValidGeometry(g: Geometry) {
    g.words >= 1 && g.count >= 1 && 8 * (g.words * g.count) <= SLAB_BYTES
  }

  function At(k: nat, words: nat): nat {
    k * words
  }

  predicate IsStart(g: Geometry, word: nat)
    requires ValidGeometry(g)
  {
    word % g.words == 0 && word + g.words <= g.words * g.count
  }

  predicate IsSlot(g: Geometry, slabs: nat, s: Slot)
    requires ValidGeometry(g)
  {
    s.inx < slabs && IsStart(g, s.word)
  }

  /** The free stack of a new slab; the top, handed out first, is the last entry. */
  function Fresh(g: Geometry, inx: nat): (f: seq<Slot>)
    ensures |f| == g.count
  {
    Descending(inx, g.words, g.count)
  }

  /** The slots of objects n - 1 down to 0. */
  function Descending(inx: nat, words: nat, n: nat): (f: seq<Slot>)
    ensures |f| == n
  {
    if n == 0 then [] else [Slot(inx, At(n - 1, words))] + Descending(inx, words, n - 1)
  }

  /** Object `k` is the k-th from the top. */
  lemma FreshAt(g: Geometry, inx: nat, k: nat)
    requires k < g.count
    ensures Fresh(g, inx)[g.count - 1 - k] == Slot(inx, At(k, g.words))
  {
    DescendingAt(inx, g.words, g.count, k);
  }

  lemma {:induction false} DescendingAt(inx: nat, words: nat, n: nat, k: nat)
    requires k < n
    ensures Descending(inx, words, n)[n - 1 - k] == Slot(inx, At(k, words))
  {
    if k == n - 1 {
    } else {
      DescendingAt(inx, words, n - 1, k);
    }
  }

  datatype Alloc = Alloc(slabs: nat, free: seq<Slot>, live: set<Slot>)

  function Create(g: Geometry): Alloc {
    Alloc(1, Fresh(g, 0), {})
  }

  function Take(a: Alloc): (Alloc, Option<Slot>)
    requires a.free != []
  {
    var top := a.free[|a.free| - 1];
    (Alloc(a.slabs, a.free[..|a.free| - 1], a.live + {top}), Some(top))
  }

  /** Adds a slab when nothing is free; `granted` is the answer of the system allocator,
      should memory be requested. */
  function Refill(a: Alloc, g: Geometry, granted: bool): Alloc {
    if a.free != [] || a.slabs == SLABS_MAX || !granted then a
    else Alloc(a.slabs + 1, Fresh(g, a.slabs), a.live)
  }

  function Get(a: Alloc, g: Geometry, granted: bool): (Alloc, Option<Slot>) {
    var b := Refill(a, g, granted);
    if b.free == [] then (b, None) else Take(b)
  }

  function Put(a: Alloc, s: Slot): Alloc
    requires s in a.live
  {
    Alloc(a.slabs, a.free + [s], a.live - {s})
  }

  predicate Distinct<T(==)>(s: seq<T>) {
    forall i, j :: 0 <= i < j < |s| ==> s[i] != s[j]
  }

  /** Free and live slots partition exactly the slots of the existing slabs. */
  ghost predicate Inv(a: Alloc, g: Geometry) {
    && ValidGeometry(g)
    && a.slabs <= SLABS_MAX
    && Distinct(a.free)
    && (forall s :: s in a.free ==> s !in a.live)
    && (forall s :: s in a.free || s in a.live <==> IsSlot(g, a.slabs, s))
    && |a.free| + |a.live| == a.slabs * g.count
  }

  // ------------------------------------------------------------ slot geometry

  lemma AtInjective(k: nat, l: nat, words: nat)
    requires words >= 1 && k != l
    ensures At(k, words) != At(l, words)
  {
    assert At(k, words) - At(l, words) == (k - l) * words;
    MulGrows(k - l, words);
  }

  /** The starts are exactly the multiples of the object size inside the slab. */
  lemma StartsAreMultiples(g: Geometry, word: nat)
    requires ValidGeometry(g)
    ensures IsStart(g, word) <==> exists k :: 0 <= k < g.count && word == At(k, g.words)
  {
    if IsStart(g, word) {
      var k := word / g.words;
      assert word == At(k, g.words);
      MulGrows(k - g.count, g.words);
      assert k < g.count;
    }
    if k: nat :| k < g.count && word == At(k, g.words) {
      ModUnique(word, g.words, k, 0);
      MulGrows(g.count - k, g.words);
      assert g.words * g.count - word == (g.count - k) * g.words;
    }
  }

  /** Objects neither overlap nor leave their slab, and a real byte offset is never
      the all-ones sentinel. */
  lemma ObjectsAreSeparate(g: Geometry, w1: nat, w2: nat)
    requires ValidGeometry(g) && IsStart(g, w1) && IsStart(g, w2) && w1 < w2
    ensures w1 + g.words <= w2 && w2 + g.words <= g.words * g.count
    ensures 8 * w2 < SLAB_BYTES - 1
  {
    var k1, k2 := w1 / g.words, w2 / g.words;
    assert w2 - w1 == (k2 - k1) * g.words;
    MulGrows(k2 - k1, g.words);
    MulGrows(k1 - k2, g.words);
  }

  lemma FreshSlots(g: Geometry, inx: nat)
    requires ValidGeometry(g)
    ensures Distinct(Fresh(g, inx))
    ensures forall s :: s in Fresh(g, inx) <==> s.inx == inx && IsStart(g, s.word)
  {
    var f := Fresh(g, inx);
    forall i, j | 0 <= i < j < |f| ensures f[i] != f[j] {
      FreshAt(g, inx, g.count - 1 - i);
      FreshAt(g, inx, g.count - 1 - j);
      AtInjective(g.count - 1 - i, g.count - 1 - j, g.words);
    }
    forall s: Slot ensures s in f <==> s.inx == inx && IsStart(g, s.word) {
      StartsAreMultiples(g, s.word);
      if s.inx == inx && IsStart(g, s.word) {
        var k: nat :| k < g.count && s.word == At(k, g.words);
        FreshAt(g, inx, k);
      }
      if s in f {
        var i: nat :| i < |f| && f[i] == s;
        FreshAt(g, inx, g.count - 1 - i);
      }
    }
  }

  // --------------------------------------------------------------- operations

  lemma CreateInv(g: Geometry)
    requires ValidGeometry(g)
    ensures Inv(Create(g), g)
  {
    FreshSlots(g, 0);
  }

  lemma TakeTop(a: Alloc, g: Geometry)
    requires Inv(a, g) && a.free != []
    ensures Inv(Take(a).0, g)
    ensures Take(a).1.value !in a.live && Take(a).0.live == a.live + {Take(a).1.value}
    ensures |Take(a).0.live| == |a.live| + 1
  {
    var b := Take(a).0;
    var top := a.free[|a.free| - 1];
    assert a.free == b.free + [top];
    forall s ensures s in b.free || s in b.live <==> IsSlot(g, b.slabs, s) {
      assert s in a.free <==> s in b.free || s == top;
    }
  }

  lemma Grown(a: Alloc, g: Geometry)
    requires Inv(a, g) && a.free == [] && a.slabs < SLABS_MAX
    ensures Inv(Alloc(a.slabs + 1, Fresh(g, a.slabs), a.live), g)
  {
    FreshSlots(g, a.slabs);
    assert (a.slabs + 1) * g.count == a.slabs * g.count + g.count;
  }

  /** A refill happens exactly when every slot is live, changes nobody's slot, and
      leaves nothing free only at the limit or without memory. */
  lemma RefillSpec(a: Alloc, g: Geometry, granted: bool)
    requires Inv(a, g)
    ensures var b := Refill(a, g, granted);
            && Inv(b, g) && b.live == a.live
            && (a.free == [] <==> |a.live| == a.slabs * g.count)
            && (b.free == [] <==> a.free == [] && (a.slabs == SLABS_MAX || !granted))
            && (b.slabs == a.slabs <==> b == a)
            && (b != a ==> a.free == [] && b.slabs == a.slabs + 1)
  {
    if a.free == [] && a.slabs != SLABS_MAX && granted {
      Grown(a, g);
    }
  }

  /** Get hands out a slot that nobody holds, or fails exactly when every slot is
      live and no slab can be added, and then changes nothing. */
  lemma GetSpec(a: Alloc, g: Geometry, granted: bool)
    requires Inv(a, g)
    ensures Inv(Get(a, g, granted).0, g)
    ensures var (b, r) := Get(a, g, granted);
            && (r == None <==> |a.live| == a.slabs * g.count && (a.slabs == SLABS_MAX || !granted))
            && (r == None ==> b == a)
            && (r.Some? ==> r.value !in a.live && IsSlot(g, b.slabs, r.value) && b.live == a.live + {r.value})
            && (r.Some? ==> |b.live| == |a.live| + 1)
            && (b.slabs > a.slabs ==> |a.live| == a.slabs * g.count && b.slabs == a.slabs + 1)
  {
    RefillSpec(a, g, granted);
    var b := Refill(a, g, granted);
    if b.free != [] {
      TakeTop(b, g);
    }
  }

  /** Put keeps the partition, and the next get returns the same slot and restores
      the allocator, whatever the system allocator would have answered. */
  lemma PutSpec(a: Alloc, g: Geometry, s: Slot, granted: bool)
    requires Inv(a, g) && s in a.live
    ensures Inv(Put(a, s), g)
    ensures Get(Put(a, s), g, granted) == (a, Some(s))
  {
    PutGetRestores(a, g, s, granted);
    var b := Put(a, s);
    forall t ensures t in b.free || t in b.live <==> IsSlot(g, b.slabs, t) {
      assert t in b.free <==> t in a.free || t == s;
    }
  }

  lemma PutGetRestores(a: Alloc, g: Geometry, s: Slot, granted: bool)
    requires s in a.live
    ensures Get(Put(a, s), g, granted) == (a, Some(s))
  {
    var b := Put(a, s);
    assert b.free[..|b.free| - 1] == a.free;
    assert a.live - {s} + {s} == a.live;
  }

  // --------------------------------------------------------------------- runs

  datatype Op = OpGet(granted: bool) | OpPut(slot: Slot)

  function Do(a: Alloc, g: Geometry, op: Op): Alloc
    requires g.count >= 1 && (op.OpPut? ==> op.slot in a.live)
  {
    match op
    case OpGet(granted) => Get(a, g, granted).0
    case OpPut(slot) => Put(a, slot)
  }

  /** Clients put only what they hold. */
  ghost predicate IsRun(a: Alloc, g: Geometry, ops: seq<Op>)
    requires g.count >= 1
    decreases |ops|
  {
    ops == [] || ((ops[0].OpPut? ==> ops[0].slot in a.live) && IsRun(Do(a, g, ops[0]), g, ops[1..]))
  }

  ghost function Exec(a: Alloc, g: Geometry, ops: seq<Op>): Alloc
    requires g.count >= 1 && IsRun(a, g, ops)
    decreases |ops|
  {
    if ops == [] then a else Exec(Do(a, g, ops[0]), g, ops[1..])
  }

  /** The largest number of simultaneously live objects. */
  ghost function Peak(a: Alloc, g: Geometry, ops: seq<Op>): nat
    requires g.count >= 1 && IsRun(a, g, ops)
    decreases |ops|
  {
    if ops == [] then |a.live| else Max(|a.live|, Peak(Do(a, g, ops[0]), g, ops[1..]))
  }

  function Max(x: nat, y: nat): nat {
    if x < y then y else x
  }

  lemma DoInv(a: Alloc, g: Geometry, op: Op)
    requires Inv(a, g) && (op.OpPut? ==> op.slot in a.live)
    ensures Inv(Do(a, g, op), g)
  {
    match op
    case OpGet(granted) => GetSpec(a, g, granted);
    case OpPut(slot) => PutSpec(a, g, slot, true);
  }

  /** No run loses a slot or hands one out twice: the partition holds throughout. */
  lemma {:induction false} RunInv(g: Geometry, a: Alloc, ops: seq<Op>)
    requires Inv(a, g) && IsRun(a, g, ops)
    ensures Inv(Exec(a, g, ops), g)
    decreases |ops|
  {
    if ops == [] {
    } else {
      DoInv(a, g, ops[0]);
      RunInv(g, Do(a, g, ops[0]), ops[1..]);
    }
  }

  /** More live objects than one slab fewer could hold. */
  predicate Demanded(slabs: nat, g: Geometry, peak: nat) {
    slabs >= 2 ==> peak > (slabs - 1) * g.count
  }

  lemma DemandStep(a: Alloc, g: Geometry, op: Op, past: nat)
    requires Inv(a, g) && (op.OpPut? ==> op.slot in a.live)
    requires Demanded(a.slabs, g, past)
    ensures Demanded(Do(a, g, op).slabs, g, Max(past, |Do(a, g, op).live|))
  {
    if op.OpGet? {
      GetSpec(a, g, op.granted);
    }
  }

  lemma PeakStep(a: Alloc, g: Geometry, ops: seq<Op>, past: nat)
    requires g.count >= 1 && IsRun(a, g, ops) && ops != []
    requires |a.live| <= past
    ensures var b := Do(a, g, ops[0]);
            Max(past, Peak(a, g, ops)) == Max(Max(past, |b.live|), Peak(b, g, ops[1..]))
  {
  }

  /** `past` is the peak of the run so far. */
  lemma {:induction false} DemandFrom(a: Alloc, g: Geometry, ops: seq<Op>, past: nat)
    requires Inv(a, g) && IsRun(a, g, ops)
    requires |a.live| <= past && Demanded(a.slabs, g, past)
    ensures Demanded(Exec(a, g, ops).slabs, g, Max(past, Peak(a, g, ops)))
    decreases |ops|
  {
    if ops == [] {
    } else {
      var b := Do(a, g, ops[0]);
      DoInv(a, g, ops[0]);
      DemandStep(a, g, ops[0], past);
      DemandFrom(b, g, ops[1..], Max(past, |b.live|));
      PeakStep(a, g, ops, past);
    }
  }

  /** A further slab is only ever added on demand: with n slabs, some moment of the
      run had more live objects than n - 1 slabs can hold. */
  lemma DemandBound(g: Geometry, ops: seq<Op>)
    requires ValidGeometry(g) && IsRun(Create(g), g, ops)
    ensures var a := Exec(Create(g), g, ops);
            Demanded(a.slabs, g, Peak(Create(g), g, ops))
  {
    CreateInv(g);
    DemandFrom(Create(g), g, ops, 0);
  }
}
