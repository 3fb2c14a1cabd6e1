/** The slab memory pool of argo_mem_pool.c. Slabs are arrays of 64-bit words; the
    first word of each object is a header that links the free objects or, while the
    object is handed out, remembers its own slot. The pool refines the allocator. */
module MemPool {
  import opened Bits
  import opened Options
  import opened SystemTypes
  import opened Allocator

  // ------------------------------------------------------------- slot packing

  const OFFSET_BITS: nat := 28
  /** The offset field of all ones, which ends the free list. */
  const OFFSET_INVALID: nat := 0xFFF_FFFF

  function Pack(inx: nat, offset: nat): nat {
    Or(Shl(inx, OFFSET_BITS), offset)
  }

  function OffsetOf(w: Word): nat {
    And(w, OFFSET_INVALID)
  }

  function InxOf(w: Word): nat {
    Shr(w, OFFSET_BITS)
  }

  /** The mask and shift of a word are its remainder and quotient by 2^28. */
  lemma UnpackArithmetic(w: Word)
    ensures OffsetOf(w) == w % SLAB_BYTES && InxOf(w) == w / SLAB_BYTES
  {
    Pow2Values();
    AndMask(w, OFFSET_BITS);
    ShrIsDivision(w, OFFSET_BITS);
  }

  /** Packing is exact: OR is addition, and mask and shift recover both parts. */
  lemma PackExact(inx: nat, offset: nat)
    requires inx < SLABS_MAX && offset < SLAB_BYTES
    ensures Pack(inx, offset) == inx * SLAB_BYTES + offset < MAX_WORD
    ensures Pack(inx, offset) % SLAB_BYTES == offset
    ensures OffsetOf(Pack(inx, offset)) == offset && InxOf(Pack(inx, offset)) == inx
  {
    var w := inx * SLAB_BYTES + offset;
    ShiftedIndex(inx);
    assert Or(inx * SLAB_BYTES, offset) == w by {
      Pow2Values();
      OrDisjoint(inx, offset, OFFSET_BITS);
    }
    ModUnique(w, SLAB_BYTES, inx, offset);
    UnpackArithmetic(w);
  }

  /** No bit of a slab index leaves the word when it is shifted into place. */
  lemma ShiftedIndex(inx: nat)
    requires inx < SLABS_MAX
    ensures Shl(inx, OFFSET_BITS) == inx * SLAB_BYTES
  {
    Pow2Values();
    ModUnique(inx * SLAB_BYTES, MAX_WORD, 0, inx * SLAB_BYTES);
  }

  /** A header word that names slot `s`. */
  predicate Encodes(w: Word, s: Slot) {
    w == s.inx * SLAB_BYTES + 8 * s.word
  }

  /** A header word that ends the free list, whatever slab it was written for. */
  predicate Ends(w: Word) {
    w % SLAB_BYTES == OFFSET_INVALID
  }

  /** Decoding a link: what mask and shift say about a word that names a slot or
      ends the list. A real offset never equals the sentinel. */
  lemma DecodeLink(w: Word, s: Slot)
    requires 8 * s.word < OFFSET_INVALID
    ensures Ends(w) <==> OffsetOf(w) == OFFSET_INVALID
    ensures Encodes(w, s) <==> InxOf(w) == s.inx && OffsetOf(w) == 8 * s.word
    ensures !(Encodes(w, s) && Ends(w))
  {
    UnpackArithmetic(w);
  }

  // ---------------------------------------------- object size and object count

  /** The size arithmetic as compiled, in wrapping 32-bit unsigned integers. */
  function AdjustedSize(sz: nat): nat {
    And(((sz + 8) % U32 + 7) % U32, U32 - 8)
  }

  function AdjustedCount(sz': nat, cnt: nat): nat {
    if (sz' * cnt) % U32 > SLAB_BYTES then SLAB_BYTES / sz' else cnt
  }

  /** Metadata and payload, rounded up to whole words, in unbounded arithmetic. */
  function RoundedSize(sz: nat): nat {
    8 * ((sz + 15) / 8)
  }

  /** The geometry that create gives a pool is usable: whole words, room for header
      and payload, at least one object, and no slab over 256 MB. */
  predicate Usable(sz: nat, sz': nat, cnt': nat) {
    sz' % 8 == 0 && sz' >= sz + 8 && cnt' >= 1 && sz' * cnt' <= SLAB_BYTES
  }

  /** What a caller must respect so that the size arithmetic does not wrap. */
  predicate Respected(sz: nat, cnt: nat) {
    && cnt >= 1
    && RoundedSize(sz) <= SLAB_BYTES
    && (RoundedSize(sz) * cnt <= SLAB_BYTES || (RoundedSize(sz) * cnt) % U32 > SLAB_BYTES)
  }

  lemma MaskLow3(x: nat)
    requires x < U32
    ensures And(x, U32 - 8) == 8 * (x / 8)
  {
    assert Pow2(29) == 0x2000_0000 by {
      Pow2Values();
      assert Pow2(29) == 2 * Pow2(28);
    }
    AndOctuple(x, Pow2(29) - 1);
    AndMask(x / 8, 29);
  }

  lemma AdjustedSizeExact(sz: nat)
    requires sz < U32
    ensures AdjustedSize(sz) % 8 == 0
    ensures AdjustedSize(sz) >= sz + 8 <==> RoundedSize(sz) < U32
    ensures RoundedSize(sz) < U32 ==> AdjustedSize(sz) == RoundedSize(sz)
  {
    var x := ((sz + 8) % U32 + 7) % U32;
    MaskLow3(x);
    WrappedSum(sz, x);
    RoundingExact(sz, x);
  }

  lemma WrappedSum(sz: nat, x: nat)
    requires sz < U32 && x == ((sz + 8) % U32 + 7) % U32
    ensures if sz + 15 < U32 then x == sz + 15 else x < 15
  {
  }

  lemma RoundingExact(sz: nat, x: nat)
    requires if sz + 15 < U32 then x == sz + 15 else x < 15
    ensures 8 * (x / 8) >= sz + 8 <==> RoundedSize(sz) < U32
    ensures RoundedSize(sz) < U32 ==> 8 * (x / 8) == RoundedSize(sz)
  {
  }

  /** The adjusted geometry is usable if and only if the caller respects the limits;
      then the count is the requested one or the largest that fits a slab. */
  lemma AdjustExact(sz: nat, cnt: nat)
    requires sz < U32 && cnt < U32
    ensures var sz' := AdjustedSize(sz);
            Usable(sz, sz', AdjustedCount(sz', cnt)) <==> Respected(sz, cnt)
    ensures var sz' := AdjustedSize(sz);
            Respected(sz, cnt) ==>
              var cnt' := AdjustedCount(sz', cnt);
              sz' == RoundedSize(sz) && cnt' <= cnt && (cnt' == cnt || sz' * (cnt' + 1) > SLAB_BYTES)
  {
    var sz' := AdjustedSize(sz);
    AdjustedSizeExact(sz);
    CountFits(sz', cnt);
  }

  lemma CountFits(sz': nat, cnt: nat)
    ensures var cnt' := AdjustedCount(sz', cnt);
            var p := sz' * cnt;
            && (p <= SLAB_BYTES ==> cnt' == cnt)
            && (p > SLAB_BYTES && p % U32 <= SLAB_BYTES ==> cnt' == cnt)
            && (p % U32 > SLAB_BYTES ==> sz' * cnt' <= SLAB_BYTES < sz' * (cnt' + 1) && cnt' <= cnt)
            && (p % U32 > SLAB_BYTES ==> (cnt' >= 1 <==> sz' <= SLAB_BYTES))
            && (cnt' >= 1 && sz' * cnt' <= SLAB_BYTES ==> sz' <= SLAB_BYTES)
  {
    var cnt' := AdjustedCount(sz', cnt);
    var p := sz' * cnt;
    if p % U32 > SLAB_BYTES {
      assert sz' * cnt' + SLAB_BYTES % sz' == SLAB_BYTES;
      MulGrows(cnt' - cnt, sz');
      assert (cnt' - cnt) * sz' == sz' * cnt' - p;
    }
    MulGrows(cnt', sz');
  }

  /** A request the 32-bit product gets wrong: 2^26 objects of 64 bytes count as 0. */
  lemma WrappedRequest()
    ensures AdjustedSize(56) == 64 && (AdjustedSize(56) * 0x400_0000) % U32 == 0
    ensures AdjustedCount(AdjustedSize(56), 0x400_0000) == 0x400_0000
    ensures !Respected(56, 0x400_0000) && !Usable(56, AdjustedSize(56), 0x400_0000)
  {
    AdjustedSizeExact(56);
  }

  // ----------------------------------------------------------------- free list

  /** The link stored below position n of a free stack: it names the entry under it
      or, at the bottom, carries the sentinel. */
  predicate PointsTo(w: Word, stack: seq<Slot>, n: nat)
    requires n <= |stack|
  {
    if n == 0 then Ends(w) else Encodes(w, stack[n - 1])
  }

  lemma StartFits(g: Geometry, k: nat)
    requires ValidGeometry(g) && k < g.count
    ensures At(k, g.words) + g.words <= g.words * g.count && IsStart(g, At(k, g.words))
  {
    StartsAreMultiples(g, At(k, g.words));
  }

  /** The headers of slab `inx` link its objects into a fresh free stack. */
  ghost predicate SlabLinked(slab: seq<Word>, g: Geometry, inx: nat) {
    forall j :: 0 <= j < g.count ==>
      var s := Fresh(g, inx)[j];
      s.word < |slab| && PointsTo(slab[s.word], Fresh(g, inx), j)
  }

  /** Links the objects of a new slab in address order, in one pass over the slab. */
  method FreeListInit(slab: array<Word>, ghost g: Geometry, objSz: nat, objCnt: nat, inx: nat)
    requires ValidGeometry(g) && g == Geometry(objSz / 8, objCnt) && objSz % 8 == 0
    requires slab.Length == g.words * g.count && inx < SLABS_MAX
    modifies slab
    ensures SlabLinked(slab[..], g, inx)
  {
    ghost var stack := Fresh(g, inx);
    var addr, nextFree, i := 0, 0, 0;
    while i < objCnt - 1
      invariant 0 <= i <= objCnt - 1
      invariant addr == At(i, g.words) && nextFree == 8 * addr
      invariant forall j :: objCnt - i <= j < objCnt ==>
                  stack[j].word < addr && stack[j].word < slab.Length && PointsTo(slab[stack[j].word], stack, j)
    {
      SuccessorLink(g, inx, i);
      nextFree := nextFree + objSz;
      slab[addr] := Pack(inx, nextFree);
      addr := addr + objSz / 8;
      i := i + 1;
    }
    LastLink(g, inx);
    slab[addr] := Pack(inx, OFFSET_INVALID);
    assert forall j :: 0 <= j < objCnt ==> PointsTo(slab[stack[j].word], stack, j);
  }

  /** The last object's header ends the list. */
  lemma LastLink(g: Geometry, inx: nat)
    requires ValidGeometry(g) && inx < SLABS_MAX
    ensures At(g.count - 1, g.words) < g.words * g.count
    ensures Fresh(g, inx)[0] == Slot(inx, At(g.count - 1, g.words))
    ensures Pack(inx, OFFSET_INVALID) < MAX_WORD && PointsTo(Pack(inx, OFFSET_INVALID), Fresh(g, inx), 0)
  {
    StartFits(g, g.count - 1);
    PackExact(inx, OFFSET_INVALID);
    FreshAt(g, inx, g.count - 1);
  }

  /** The word written for object `k` links it to the object after it. */
  lemma SuccessorLink(g: Geometry, inx: nat, k: nat)
    requires ValidGeometry(g) && inx < SLABS_MAX && k + 1 < g.count
    ensures At(k, g.words) + g.words == At(k + 1, g.words) < g.words * g.count
    ensures var w := Pack(inx, 8 * At(k + 1, g.words));
            && 0 <= w < MAX_WORD && Fresh(g, inx)[g.count - 1 - k] == Slot(inx, At(k, g.words))
            && PointsTo(w, Fresh(g, inx), g.count - 1 - k)
  {
    StartFits(g, k + 1);
    PackExact(inx, 8 * At(k + 1, g.words));
    FreshAt(g, inx, k);
    FreshAt(g, inx, k + 1);
  }

  /** A pool is created with a valid geometry and no slot at all. */
  lemma CreatedGeometry(sz: nat, cnt: nat)
    requires sz < U32 && cnt < U32 && Respected(sz, cnt)
    ensures AdjustedSize(sz) == RoundedSize(sz) && AdjustedSize(sz) % 8 == 0
    ensures var g := Geometry(AdjustedSize(sz) / 8, AdjustedCount(AdjustedSize(sz), cnt));
            ValidGeometry(g) && Inv(Alloc(0, [], {}), g)
  {
    AdjustExact(sz, cnt);
    WholeWords(AdjustedSize(sz), AdjustedCount(AdjustedSize(sz), cnt));
  }

  /** The geometry that create gives a pool. */
  ghost function Shape(sz: nat, cnt: nat): (g: Geometry)
    requires sz < U32 && cnt < U32 && Respected(sz, cnt)
    ensures ValidGeometry(g) && 8 * g.words == RoundedSize(sz)
  {
    CreatedGeometry(sz, cnt);
    Geometry(RoundedSize(sz) / 8, AdjustedCount(RoundedSize(sz), cnt))
  }

  lemma WholeWords(sz': nat, cnt': nat)
    requires sz' % 8 == 0
    ensures 8 * (sz' / 8 * cnt') == sz' * cnt'
  {
    assert sz' == 8 * (sz' / 8);
  }

  /** The head of a new slab's free list is its first object. */
  lemma NewHead(g: Geometry, inx: nat)
    requires ValidGeometry(g) && inx < SLABS_MAX
    ensures Shl(inx, OFFSET_BITS) < MAX_WORD
    ensures PointsTo(Shl(inx, OFFSET_BITS), Fresh(g, inx), g.count)
  {
    ShiftedIndex(inx);
    assert At(0, g.words) == 0;
    FreshAt(g, inx, 0);
  }

  // ----------------------------------------------------- the pool as an image

  /** Contents of all slabs. */
  type Memory = seq<seq<Word>>

  /** Slab contents and the head of the free list. */
  datatype Image = Image(mem: Memory, head: Word)

  predicate InMemory(m: Memory, s: Slot) {
    s.inx < |m| && s.word < |m[s.inx]|
  }

  function Load(m: Memory, s: Slot): Word
    requires InMemory(m, s)
  {
    m[s.inx][s.word]
  }

  function Write(m: Memory, s: Slot, v: Word): (m': Memory)
    requires InMemory(m, s)
    ensures |m'| == |m| && forall i :: 0 <= i < |m| ==> |m'[i]| == |m[i]|
    ensures forall t :: InMemory(m', t) <==> InMemory(m, t)
    ensures forall t :: InMemory(m, t) ==> Load(m', t) == if t == s then v else Load(m, t)
  {
    var row: seq<Word> := m[s.inx][s.word := v];
    m[s.inx := row]
  }

  /** The header of entry `i` of the stack links to the entry below it. */
  predicate LinkAt(m: Memory, stack: seq<Slot>, i: nat)
    requires i < |stack|
  {
    InMemory(m, stack[i]) && PointsTo(Load(m, stack[i]), stack, i)
  }

  predicate OwnAt(m: Memory, s: Slot) {
    InMemory(m, s) && Encodes(Load(m, s), s)
  }

  /** The headers in slabs of `len` words thread the allocator's slots: those of the free
      objects form the free stack, that of a live object names its own slot. */
  ghost predicate Threaded(m: Memory, a: Alloc, len: nat) {
    && |m| == a.slabs && (forall i :: 0 <= i < |m| ==> |m[i]| == len)
    && (forall i :: 0 <= i < |a.free| ==> LinkAt(m, a.free, i))
    && (forall s :: s in a.live ==> OwnAt(m, s))
  }

  /** Threaded memory of an allocator whose slots are partitioned. */
  ghost predicate Linked(m: Memory, a: Alloc, g: Geometry) {
    Inv(a, g) && Threaded(m, a, g.words * g.count)
  }

  /** The image represents the allocator. */
  ghost predicate Represents(im: Image, a: Alloc, g: Geometry) {
    Linked(im.mem, a, g) && PointsTo(im.head, a.free, |a.free|)
  }

  /** The link to a free object names a slot and never looks like the sentinel. */
  lemma HeadDecodes(im: Image, a: Alloc, g: Geometry)
    requires Represents(im, a, g)
    ensures a.free == [] <==> OffsetOf(im.head) == OFFSET_INVALID
    ensures a.free != [] ==>
              var top := a.free[|a.free| - 1];
              && InMemory(im.mem, top) && top.inx < SLABS_MAX && 8 * top.word < OFFSET_INVALID
              && InxOf(im.head) == top.inx && OffsetOf(im.head) == 8 * top.word
  {
    if a.free != [] {
      var top := a.free[|a.free| - 1];
      assert top in a.free;
      assert IsSlot(g, a.slabs, top);
      DecodeLink(im.head, top);
    } else {
      DecodeLink(im.head, Slot(0, 0));
    }
  }

  /** Popping: the head moves to the object's successor, and the object's header now
      remembers its own slot. */
  function Popped(im: Image, s: Slot, own: Word): Image
    requires InMemory(im.mem, s)
  {
    Image(Write(im.mem, s, own), Load(im.mem, s))
  }

  lemma PoppedRepresents(im: Image, a: Alloc, g: Geometry, own: Word)
    requires Represents(im, a, g) && a.free != []
    requires Encodes(own, a.free[|a.free| - 1])
    ensures InMemory(im.mem, a.free[|a.free| - 1])
    ensures Represents(Popped(im, a.free[|a.free| - 1], own), Take(a).0, g)
  {
    TakeTop(a, g);
    PoppedThreaded(im.mem, a, g.words * g.count, own);
  }

  /** Rewriting the header of the top free object threads the popped allocator, and
      the old header is the head of its list. */
  lemma PoppedThreaded(m: Memory, a: Alloc, len: nat, own: Word)
    requires Threaded(m, a, len) && a.free != [] && Distinct(a.free)
    requires Encodes(own, a.free[|a.free| - 1])
    ensures InMemory(m, a.free[|a.free| - 1])
    ensures Threaded(Write(m, a.free[|a.free| - 1], own), Take(a).0, len)
    ensures PointsTo(Load(m, a.free[|a.free| - 1]), Take(a).0.free, |a.free| - 1)
  {
    var n := |a.free| - 1;
    assert LinkAt(m, a.free, n);
    var top, b := a.free[n], Take(a).0;
    var m' := Write(m, top, own);
    forall i | 0 <= i < n ensures LinkAt(m', b.free, i) {
      LinkKept(m, m', a.free, b.free, i);
    }
    forall s | s in b.live ensures OwnAt(m', s) {
      assert s == top || OwnAt(m, s);
    }
  }

  /** A link survives when its header word and the stack up to it do. */
  lemma LinkKept(m: Memory, m': Memory, s: seq<Slot>, t: seq<Slot>, i: nat)
    requires i < |s| && i < |t| && s[..i + 1] == t[..i + 1] && LinkAt(m, s, i)
    requires InMemory(m', s[i]) && Load(m', s[i]) == Load(m, s[i])
    ensures LinkAt(m', t, i)
  {
    assert s[..i + 1][i] == t[..i + 1][i];
    assert i > 0 ==> s[..i + 1][i - 1] == t[..i + 1][i - 1];
  }

  /** Pushing: header and head of the list change places. */
  function Pushed(im: Image, s: Slot): Image
    requires InMemory(im.mem, s)
  {
    Image(Write(im.mem, s, im.head), Load(im.mem, s))
  }

  lemma PushedRepresents(im: Image, a: Alloc, g: Geometry, s: Slot)
    requires Represents(im, a, g) && s in a.live
    ensures InMemory(im.mem, s) && Represents(Pushed(im, s), Allocator.Put(a, s), g)
  {
    PutSpec(a, g, s, true);
    PushedThreaded(im, a, g.words * g.count, s);
  }

  lemma PushedThreaded(im: Image, a: Alloc, len: nat, s: Slot)
    requires Threaded(im.mem, a, len) && PointsTo(im.head, a.free, |a.free|)
    requires s in a.live && s !in a.free
    ensures InMemory(im.mem, s) && Threaded(Pushed(im, s).mem, Allocator.Put(a, s), len)
    ensures PointsTo(Load(im.mem, s), a.free + [s], |a.free| + 1)
  {
    assert OwnAt(im.mem, s);
    var m, b := Write(im.mem, s, im.head), Allocator.Put(a, s);
    forall i | 0 <= i < |b.free| ensures LinkAt(m, b.free, i) {
      if i < |a.free| {
        assert a.free[i] in a.free;
        LinkKept(im.mem, m, a.free, b.free, i);
      }
    }
    forall t | t in b.live ensures OwnAt(m, t) {
      assert OwnAt(im.mem, t);
    }
  }

  lemma WriteBack(m: Memory, s: Slot, v: Word)
    requires InMemory(m, s)
    ensures Write(Write(m, s, v), s, Load(m, s)) == m
  {
    var row: seq<Word> := m[s.inx][s.word := v];
    assert row[s.word := Load(m, s)] == m[s.inx];
  }

  /** Put then get gives back the same object and restores every word of memory and
      the head of the list. */
  lemma PushPopRestores(im: Image, s: Slot, im': Image)
    requires OwnAt(im.mem, s) && PoppedFrom(Pushed(im, s), im', s)
    ensures im' == im
  {
    WriteBack(im.mem, s, im.head);
  }

  /** A write to any word that is not a header changes no link. */
  lemma PayloadWriteRepresents(im: Image, a: Alloc, g: Geometry, t: Slot, v: Word)
    requires Represents(im, a, g) && InMemory(im.mem, t) && !IsStart(g, t.word)
    ensures Represents(im.(mem := Write(im.mem, t, v)), a, g)
  {
    var m := Write(im.mem, t, v);
    forall i | 0 <= i < |a.free| ensures LinkAt(m, a.free, i) {
      assert LinkAt(im.mem, a.free, i) && a.free[i] in a.free;
      assert IsSlot(g, a.slabs, a.free[i]);
    }
    forall s | s in a.live ensures OwnAt(m, s) {
      assert OwnAt(im.mem, s) && IsSlot(g, a.slabs, s);
    }
  }

  /** A slab linked by FreeListInit extends the image of a pool with no free slot. */
  lemma GrownRepresents(m: Memory, a: Alloc, g: Geometry, slab: seq<Word>)
    requires Linked(m, a, g) && a.free == [] && a.slabs < SLABS_MAX
    requires |slab| == g.words * g.count && SlabLinked(slab, g, a.slabs)
    ensures Shl(a.slabs, OFFSET_BITS) < MAX_WORD
    ensures Represents(Image(m + [slab], Shl(a.slabs, OFFSET_BITS)),
                       Alloc(a.slabs + 1, Fresh(g, a.slabs), a.live), g)
  {
    Grown(a, g);
    NewHead(g, a.slabs);
    GrownThreaded(m, a, g, slab);
  }

  lemma GrownThreaded(m: Memory, a: Alloc, g: Geometry, slab: seq<Word>)
    requires Threaded(m, a, |slab|) && SlabLinked(slab, g, a.slabs)
    ensures Threaded(m + [slab], Alloc(a.slabs + 1, Fresh(g, a.slabs), a.live), |slab|)
  {
    var m', f := m + [slab], Fresh(g, a.slabs);
    forall i | 0 <= i < |f| ensures LinkAt(m', f, i) {
      FreshAt(g, a.slabs, g.count - 1 - i);
    }
    forall s | s in a.live ensures OwnAt(m', s) {
      assert OwnAt(m, s);
    }
  }

  /** Following the links from `w` down to a sentinel visits the entries of `t`. */
  ghost predicate IsChain(m: Memory, w: Word, t: seq<Slot>) {
    && (forall i :: 0 <= i < |t| ==> LinkAt(m, t, i))
    && (forall x :: x in t ==> 8 * x.word < OFFSET_INVALID)
    && PointsTo(w, t, |t|)
  }

  lemma {:induction false} ChainIsUnique(m: Memory, w: Word, s: seq<Slot>, t: seq<Slot>)
    requires IsChain(m, w, s) && IsChain(m, w, t)
    ensures s == t
    decreases |s|
  {
    if s == [] || t == [] {
    } else {
      var x, y := s[|s| - 1], t[|t| - 1];
      assert x in s && y in t && LinkAt(m, s, |s| - 1) && LinkAt(m, t, |t| - 1);
      assert x == y;
      ChainTail(m, w, s);
      ChainTail(m, w, t);
      ChainIsUnique(m, Load(m, x), s[..|s| - 1], t[..|t| - 1]);
      assert s == s[..|s| - 1] + [x] && t == t[..|t| - 1] + [y];
    }
  }

  lemma ChainTail(m: Memory, w: Word, s: seq<Slot>)
    requires IsChain(m, w, s) && s != []
    ensures LinkAt(m, s, |s| - 1) && IsChain(m, Load(m, s[|s| - 1]), s[..|s| - 1])
  {
    var s' := s[..|s| - 1];
    assert LinkAt(m, s, |s| - 1);
    forall i | 0 <= i < |s'| ensures LinkAt(m, s', i) {
      assert LinkAt(m, s, i);
    }
  }

  /** The chain that memory holds from the head is the free stack and nothing else:
      finite, without repetition and ending at a sentinel. */
  lemma ChainIsFreeStack(im: Image, a: Alloc, g: Geometry, t: seq<Slot>)
    requires Represents(im, a, g)
    ensures IsChain(im.mem, im.head, t) <==> t == a.free
    ensures Distinct(a.free)
  {
    FreeStackIsChain(im, a, g);
    if IsChain(im.mem, im.head, t) {
      ChainIsUnique(im.mem, im.head, t, a.free);
    }
  }

  lemma FreeStackIsChain(im: Image, a: Alloc, g: Geometry)
    requires Represents(im, a, g)
    ensures IsChain(im.mem, im.head, a.free)
  {
    forall x | x in a.free ensures 8 * x.word < OFFSET_INVALID {
      BelowSentinel(g, a.slabs, x);
    }
  }

  lemma BelowSentinel(g: Geometry, slabs: nat, s: Slot)
    requires ValidGeometry(g) && IsSlot(g, slabs, s)
    ensures 8 * s.word < OFFSET_INVALID
  {
  }

  // ------------------------------------------------------------ the pool object

  /** A pointer into a slab, in words. */
  datatype Ptr = Ptr(inx: nat, word: nat)

  /** The address get returns for a slot: just past the header word. */
  function Payload(s: Slot): Ptr {
    Ptr(s.inx, s.word + 1)
  }

  /** Every word of the old slabs, except the one at `s`, is as it was. */
  ghost predicate UntouchedBut(m: Memory, m': Memory, s: Slot) {
    |m| <= |m'| &&
    forall t :: InMemory(m, t) && t != s ==> InMemory(m', t) && Load(m', t) == Load(m, t)
  }

  /** What the mask and shift of the head lead get to is the top of the stack. */
  lemma DecodedPop(im: Image, a: Alloc, g: Geometry)
    requires Represents(im, a, g) && a.free != []
    ensures var inx, offset := InxOf(im.head), OffsetOf(im.head);
            && Slot(inx, offset / 8) == Take(a).1.value && offset % 8 == 0 && offset < SLAB_BYTES
            && Pack(inx, offset) < MAX_WORD && Encodes(Pack(inx, offset), Take(a).1.value)
            && InMemory(im.mem, Take(a).1.value)
  {
    HeadDecodes(im, a, g);
    PackExact(InxOf(im.head), OffsetOf(im.head));
  }

  /** `im'` is `im` after the object at `s` was unlinked from the head. */
  ghost predicate PoppedFrom(im: Image, im': Image, s: Slot) {
    InMemory(im.mem, s) && exists own: Word :: Encodes(own, s) && im' == Popped(im, s, own)
  }

  /** A pop changes one header and no other word of the slabs there were before. */
  lemma PoppedUntouched(m: Memory, im: Image, im': Image, s: Slot)
    requires PoppedFrom(im, im', s) && |m| <= |im.mem| && m == im.mem[..|m|]
    ensures UntouchedBut(m, im'.mem, s)
  {
    forall t | InMemory(m, t) && t != s ensures InMemory(im'.mem, t) && Load(im'.mem, t) == Load(m, t) {
      assert InMemory(im.mem, t) && Load(im.mem, t) == Load(m, t);
    }
  }

  // ----------------------------------------------------------- runs of a client

  /** What a client does: call the pool, or write word `k` of the object at `slot`. */
  datatype Action = Call(op: Op) | Fill(slot: Slot, k: nat, v: Word)

  /** Clients put and write only what they hold, and leave the headers alone. */
  predicate Allowed(a: Alloc, g: Geometry, act: Action) {
    match act
    case Call(op) => op.OpPut? ==> op.slot in a.live
    case Fill(slot, k, _) => slot in a.live && k + 1 < g.words
  }

  function Acted(a: Alloc, g: Geometry, act: Action): Alloc
    requires g.count >= 1 && Allowed(a, g, act)
  {
    if act.Call? then Do(a, g, act.op) else a
  }

  ghost predicate IsClient(a: Alloc, g: Geometry, acts: seq<Action>)
    requires g.count >= 1
    decreases |acts|
  {
    acts == [] || (Allowed(a, g, acts[0]) && IsClient(Acted(a, g, acts[0]), g, acts[1..]))
  }

  /** The calls among the actions. */
  function Calls(acts: seq<Action>): seq<Op> {
    if acts == [] then [] else (if acts[0].Call? then [acts[0].op] else []) + Calls(acts[1..])
  }

  /** To the allocator a client's writes are invisible. */
  lemma {:induction false} ClientIsRun(a: Alloc, g: Geometry, acts: seq<Action>)
    requires g.count >= 1 && IsClient(a, g, acts)
    ensures IsRun(a, g, Calls(acts))
    ensures acts != [] ==>
              && IsRun(Acted(a, g, acts[0]), g, Calls(acts[1..]))
              && Exec(a, g, Calls(acts)) == Exec(Acted(a, g, acts[0]), g, Calls(acts[1..]))
    decreases |acts|
  {
    if acts == [] {
    } else {
      ClientIsRun(Acted(a, g, acts[0]), g, acts[1..]);
      if acts[0].Call? {
        assert Calls(acts)[1..] == Calls(acts[1..]);
      } else {
        assert Calls(acts) == Calls(acts[1..]);
      }
    }
  }

  /** Where word `k` of the payload of an object lies. */
  function PayloadAt(s: Slot, k: nat): Slot {
    Slot(s.inx, s.word + 1 + k)
  }

  /** The one word that an action may change: a header, or what the client writes. */
  function Touched(a: Alloc, g: Geometry, act: Action): Option<Slot>
    requires g.count >= 1 && Allowed(a, g, act)
  {
    match act
    case Call(OpGet(granted)) => Get(a, g, granted).1
    case Call(OpPut(slot)) => Some(slot)
    case Fill(slot, k, _) => Some(PayloadAt(slot, k))
  }

  ghost predicate OnlyTouched(m: Memory, m': Memory, at: Option<Slot>) {
    match at
    case Some(s) => UntouchedBut(m, m', s)
    case None => m' == m
  }

  lemma WriteTouches(m: Memory, t: Slot, v: Word)
    requires InMemory(m, t)
    ensures UntouchedBut(m, Write(m, t, v), t)
    ensures InMemory(Write(m, t, v), t) && Load(Write(m, t, v), t) == v
  {
  }

  /** The client does not give the object back. */
  predicate Keeps(acts: seq<Action>, s: Slot) {
    forall i :: 0 <= i < |acts| ==> acts[i] != Call(OpPut(s))
  }

  /** The value a client last wrote to word `k` of an object, at first `v`. */
  function LastWritten(acts: seq<Action>, s: Slot, k: nat, v: Word): Word
    decreases |acts|
  {
    if acts == [] then v else LastWritten(acts[1..], s, k, Written(acts[0], s, k, v))
  }

  function Written(act: Action, s: Slot, k: nat, v: Word): Word {
    if act.Fill? && act.slot == s && act.k == k then act.v else v
  }

  ghost predicate Remembered(m: Memory, m': Memory, acts: seq<Action>, s: Slot, k: nat) {
    var t := PayloadAt(s, k);
    InMemory(m, t) && InMemory(m', t) && Load(m', t) == LastWritten(acts, s, k, Load(m, t))
  }

  /** Every object that a client keeps through its actions holds what was last written
      to it, word for word. */
  ghost predicate RemembersAll(g: Geometry, live: set<Slot>, m: Memory, m': Memory, acts: seq<Action>) {
    forall s, k: nat :: s in live && k + 1 < g.words && Keeps(acts, s) ==> Remembered(m, m', acts, s, k)
  }

  /** No other object's header or payload word is a payload word of this object. */
  lemma TouchesElsewhere(a: Alloc, g: Geometry, act: Action, s: Slot, k: nat)
    requires Inv(a, g) && Allowed(a, g, act) && s in a.live && k + 1 < g.words && act != Call(OpPut(s))
    ensures s in Acted(a, g, act).live
    ensures Touched(a, g, act) == Some(PayloadAt(s, k)) <==> act.Fill? && act.slot == s && act.k == k
  {
    PayloadIsNoHeader(g, a.slabs, s, k);
    match act
    case Call(OpGet(granted)) =>
      GetSpec(a, g, granted);
      assert Get(a, g, granted).1.Some? ==> IsStart(g, Get(a, g, granted).1.value.word);
    case Call(OpPut(slot)) =>
      assert IsSlot(g, a.slabs, slot);
    case Fill(slot, l, _) =>
      assert IsSlot(g, a.slabs, slot) && IsSlot(g, a.slabs, s);
      if PayloadAt(slot, l) == PayloadAt(s, k) {
        PayloadsDiffer(g.words, slot, l, s, k);
      }
  }

  /** A payload word belongs to one object only. */
  lemma PayloadsDiffer(words: nat, s: Slot, k: nat, t: Slot, l: nat)
    requires k + 1 < words && l + 1 < words && s.word % words == t.word % words == 0
    requires PayloadAt(s, k) == PayloadAt(t, l)
    ensures s == t && k == l
  {
    ModUnique(s.word + 1 + k, words, s.word / words, 1 + k);
    ModUnique(t.word + 1 + l, words, t.word / words, 1 + l);
  }

  lemma PayloadInMemory(m: Memory, a: Alloc, g: Geometry, s: Slot, k: nat)
    requires Linked(m, a, g) && s in a.live && k + 1 < g.words
    ensures InMemory(m, PayloadAt(s, k))
  {
    assert IsSlot(g, a.slabs, s);
  }

  /** An action followed by actions that remember remembers. */
  lemma RemembersMore(a: Alloc, g: Geometry, m: Memory, m1: Memory, m': Memory, acts: seq<Action>)
    requires acts != [] && Linked(m, a, g) && Allowed(a, g, acts[0])
    requires OnlyTouched(m, m1, Touched(a, g, acts[0]))
    requires acts[0].Fill? ==>
               var t := PayloadAt(acts[0].slot, acts[0].k); InMemory(m1, t) && Load(m1, t) == acts[0].v
    requires RemembersAll(g, Acted(a, g, acts[0]).live, m1, m', acts[1..])
    ensures RemembersAll(g, a.live, m, m', acts)
  {
    forall s, k: nat | s in a.live && k + 1 < g.words && Keeps(acts, s) ensures Remembered(m, m', acts, s, k) {
      TouchesElsewhere(a, g, acts[0], s, k);
      PayloadInMemory(m, a, g, s, k);
      assert Keeps(acts[1..], s);
      assert Remembered(m1, m', acts[1..], s, k);
    }
  }

  class Pool {
    var slabs: seq<array?<Word>>
    var freeNext: Word
    var slabCnt: nat
    const objSz: nat
    const objCnt: nat
    ghost var free: seq<Slot>
    ghost var live: set<Slot>

    ghost function G(): Geometry {
      Geometry(objSz / 8, objCnt)
    }

    ghost function Abs(): Alloc
      reads this
    {
      Alloc(slabCnt, free, live)
    }

    /** The slab table: distinct slabs up to slabCnt, NULL beyond. */
    ghost predicate Table()
      reads this`slabs, this`slabCnt
    {
      && objSz % 8 == 0
      && |slabs| == SLABS_MAX && slabCnt <= SLABS_MAX
      && (forall i :: 0 <= i < SLABS_MAX ==> (slabs[i] != null <==> i < slabCnt))
      && (forall i, j :: 0 <= i < j < slabCnt ==> slabs[i] != slabs[j])
    }

    ghost function Mem(n: nat): (m: Memory)
      requires Table() && n <= slabCnt
      reads this`slabs, this`slabCnt, slabs
      ensures |m| == n && forall i :: 0 <= i < n ==> m[i] == slabs[i][..]
    {
      if n == 0 then [] else Mem(n - 1) + [slabs[n - 1][..]]
    }

    ghost function Im(): Image
      requires Table()
      reads this`slabs, this`slabCnt, this`freeNext, slabs
    {
      Image(Mem(slabCnt), freeNext)
    }

    ghost predicate Valid()
      reads this, slabs
    {
      Table() && Represents(Im(), Abs(), G())
    }

    lemma AfterPop(im: Image, a: Alloc, own: Word)
      requires Represents(im, a, G()) && a.free != [] && Encodes(own, Take(a).1.value)
      requires InMemory(im.mem, Take(a).1.value)
      requires Table() && Im() == Popped(im, Take(a).1.value, own) && Abs() == Take(a).0
      ensures Valid()
    {
      PoppedRepresents(im, a, G(), own);
    }

    lemma AfterPush(im: Image, a: Alloc, s: Slot)
      requires Represents(im, a, G()) && s in a.live && InMemory(im.mem, s)
      requires Table() && Im() == Pushed(im, s) && Abs() == Allocator.Put(a, s)
      ensures Valid()
    {
      PushedRepresents(im, a, G(), s);
    }

    constructor (objSz: nat, objCnt: nat)
      requires objSz < U32 && objCnt < U32 && Respected(objSz, objCnt)
      ensures Table() && slabCnt == 0 && Linked(Mem(slabCnt), Abs(), G())
      ensures free == [] && live == {}
      ensures this.objSz == RoundedSize(objSz) && this.objCnt == AdjustedCount(RoundedSize(objSz), objCnt)
    {
      CreatedGeometry(objSz, objCnt);
      var sz := AdjustedSize(objSz);
      this.objSz := sz;
      this.objCnt := AdjustedCount(sz, objCnt);
      slabs := seq(SLABS_MAX, i => null);
      freeNext := 0;
      slabCnt := 0;
      free := [];
      live := {};
    }

    /** The memory side of __mp_create_new_slab: a linked slab is appended and the head
        of the free list moves to it. */
    method AppendSlab(granted: bool) returns (err: int)
      requires Table() && ValidGeometry(G()) && slabCnt < SLABS_MAX
      modifies this`slabs, this`freeNext, this`slabCnt
      ensures !granted ==> err == 1 && unchanged(this)
      ensures granted ==> err == 0 && slabCnt == old(slabCnt) + 1 && Table() && fresh(slabs[old(slabCnt)])
      ensures granted ==> slabs == old(slabs)[old(slabCnt) := slabs[old(slabCnt)]]
      ensures granted ==> slabs[old(slabCnt)].Length == G().words * G().count
      ensures granted ==> SlabLinked(slabs[old(slabCnt)][..], G(), old(slabCnt))
      ensures granted ==> freeNext == Shl(old(slabCnt), OFFSET_BITS)
    {
      if !granted {
        return 1;
      }
      var slab := new Word[objSz / 8 * objCnt];
      FreeListInit(slab, G(), objSz, objCnt, slabCnt);
      NewHead(G(), slabCnt);
      slabs := slabs[slabCnt := slab];
      freeNext := Shl(slabCnt, OFFSET_BITS);
      slabCnt := slabCnt + 1;
      err := 0;
    }

    /** __mp_create_new_slab: fails without effect, or starts the free list over with
        the objects of a new slab. */
    method CreateNewSlab(granted: bool) returns (err: int)
      requires Table() && Linked(Mem(slabCnt), Abs(), G()) && free == [] && slabCnt < SLABS_MAX
      modifies this
      ensures err != 0 <==> !granted
      ensures err != 0 ==> unchanged(this)
      ensures err == 0 ==> Valid()
      ensures err == 0 ==> Abs() == Alloc(old(slabCnt) + 1, Fresh(G(), old(slabCnt)), old(live))
      ensures err == 0 ==> Mem(slabCnt) == old(Mem(slabCnt)) + [slabs[old(slabCnt)][..]]
      ensures err == 0 ==> fresh(slabs[old(slabCnt)]) && slabs == old(slabs)[old(slabCnt) := slabs[old(slabCnt)]]
    {
      ghost var m, a := Mem(slabCnt), Abs();
      err := AppendSlab(granted);
      if err == 0 {
        free := Fresh(G(), a.slabs);
        ghost var slab := slabs[a.slabs][..];
        GrownRepresents(m, a, G(), slab);
        assert Mem(slabCnt) == m + [slab];
      }
    }

    /** Adds a slab to a pool with no free slot; at the limit of 4096 slabs, or when
        no memory is granted, nothing changes. */
    method Expand(granted: bool) returns (err: int)
      requires Valid() && free == []
      modifies this
      ensures err != 0 <==> old(slabCnt) == SLABS_MAX || !granted
      ensures err != 0 ==> unchanged(this)
      ensures Valid()
      ensures err == 0 ==> Abs() == Alloc(old(slabCnt) + 1, Fresh(G(), old(slabCnt)), old(live))
      ensures err == 0 ==> Mem(slabCnt) == old(Mem(slabCnt)) + [slabs[old(slabCnt)][..]]
      ensures err == 0 ==> fresh(slabs[old(slabCnt)]) && slabs == old(slabs)[old(slabCnt) := slabs[old(slabCnt)]]
    {
      if slabCnt == SLABS_MAX {
        return 1;
      }
      err := CreateNewSlab(granted);
      if err != 0 {
        return 2;
      }
    }

    /** A store to slab memory. */
    method SetWord(inx: nat, word: nat, v: Word)
      requires Table() && InMemory(Mem(slabCnt), Slot(inx, word))
      modifies slabs
      ensures Mem(slabCnt) == Write(old(Mem(slabCnt)), Slot(inx, word), v)
    {
      ghost var m := Mem(slabCnt);
      var slab := slabs[inx];
      slab[word] := v;
      assert Mem(slabCnt) == Write(m, Slot(inx, word), v);
    }

    /** A header takes the value `v` and its old value becomes the head of the list. */
    method Relink(inx: nat, word: nat, v: Word)
      requires Table() && InMemory(Mem(slabCnt), Slot(inx, word))
      modifies this`freeNext, slabs
      ensures Im() == Popped(old(Im()), Slot(inx, word), v)
    {
      var next := slabs[inx][word];
      SetWord(inx, word, v);
      freeNext := next;
    }

    /** Takes the object at the head off the free list. */
    method Detach(inx: nat, offset: nat) returns (addr: Ptr)
      requires Table() && InMemory(Mem(slabCnt), Slot(inx, offset / 8)) && offset < SLAB_BYTES
      requires free != []
      modifies this`freeNext, this`free, this`live, slabs
      ensures Table() && Pack(inx, offset) < MAX_WORD && Abs() == Take(old(Abs())).0
      ensures Im() == Popped(old(Im()), Slot(inx, offset / 8), Pack(inx, offset))
      ensures addr == Payload(Slot(inx, offset / 8))
    {
      PackExact(inx, offset);
      var own: Word := Pack(inx, offset);
      Relink(inx, offset / 8, own);
      addr := Ptr(inx, offset / 8 + 1);
      free, live := Take(Abs()).0.free, Take(Abs()).0.live;
    }

    /** The second half of get, for a non-empty free list. */
    method Pop(inx: nat, offset: nat) returns (addr: Ptr)
      requires Valid() && free != [] && inx == InxOf(freeNext) && offset == OffsetOf(freeNext)
      modifies this`freeNext, this`free, this`live, slabs
      ensures Valid() && Abs() == Take(old(Abs())).0
      ensures addr == Payload(Take(old(Abs())).1.value)
      ensures InMemory(old(Mem(slabCnt)), Take(old(Abs())).1.value) && Pack(inx, offset) < MAX_WORD
      ensures Im() == Popped(old(Im()), Take(old(Abs())).1.value, Pack(inx, offset))
    {
      ghost var im, a := Im(), Abs();
      DecodedPop(im, a, G());
      addr := Detach(inx, offset);
      AfterPop(im, a, Pack(inx, offset));
    }

    /** The slab table is as it was, or has one new slab at the end. */
    twostate predicate GrownAtMost()
      reads this
    {
      |slabs| == |old(slabs)| &&
      forall i :: 0 <= i < |slabs| ==>
        slabs[i] == old(slabs)[i] || (i == old(slabCnt) && slabs[i] != null && fresh(slabs[i]))
    }

    /** The first half of get: an exhausted free list is replaced by a new slab's. */
    method Refill(granted: bool) returns (err: int)
      requires Valid()
      modifies this
      ensures Valid() && GrownAtMost() && Abs() == Allocator.Refill(old(Abs()), G(), granted)
      ensures err != 0 <==> free == []
      ensures err != 0 || old(free) != [] ==> unchanged(this)
      ensures old(slabCnt) <= slabCnt && Mem(slabCnt)[..old(slabCnt)] == old(Mem(slabCnt))
    {
      HeadDecodes(Im(), Abs(), G());
      err := 0;
      if OffsetOf(freeNext) == OFFSET_INVALID {
        err := Expand(granted);
      }
    }

    /** Decodes the head of a non-empty list and pops it. */
    method PopFirst() returns (addr: Ptr)
      requires Valid() && free != []
      modifies this`freeNext, this`free, this`live, slabs
      ensures Valid() && Abs() == Take(old(Abs())).0
      ensures addr == Payload(Take(old(Abs())).1.value)
      ensures PoppedFrom(old(Im()), Im(), Take(old(Abs())).1.value)
    {
      DecodedPop(Im(), Abs(), G());
      var inx, offset := InxOf(freeNext), OffsetOf(freeNext);
      addr := Pop(inx, offset);
    }

    /** Pops the free list, growing the pool when it is empty. */
    method Get(granted: bool) returns (addr: Option<Ptr>)
      requires Valid()
      modifies this, slabs
      ensures Valid() && GrownAtMost() && Abs() == Allocator.Get(old(Abs()), G(), granted).0
      ensures var r := Allocator.Get(old(Abs()), G(), granted).1;
              && (r == None ==> addr == None && unchanged(this) && Mem(slabCnt) == old(Mem(slabCnt)))
              && (r.Some? ==> addr == Some(Payload(r.value)))
              && (r.Some? ==> UntouchedBut(old(Mem(slabCnt)), Mem(slabCnt), r.value))
      ensures old(free) != [] ==> PoppedFrom(old(Im()), Im(), Take(old(Abs())).1.value)
    {
      var err := Refill(granted);
      if err != 0 {
        return None;
      }
      ghost var im, top := Im(), Take(Abs()).1.value;
      var p := PopFirst();
      PoppedUntouched(old(Mem(slabCnt)), im, Im(), top);
      addr := Some(p);
    }

    /** Put followed by get hands out the same address again and leaves the pool, every
        word of its slabs and the head of the list as they were before both. */
    method PutThenGet(addr: Ptr, ghost s: Slot, granted: bool) returns (again: Option<Ptr>)
      requires Valid() && s in live && addr == Payload(s)
      modifies this, slabs
      ensures Valid() && again == Some(addr) && slabs == old(slabs)
      ensures Im() == old(Im()) && Abs() == old(Abs())
    {
      ghost var im, a := Im(), Abs();
      assert OwnAt(im.mem, s);
      PutGetRestores(a, G(), s, granted);
      Put(addr, s);
      again := Get(granted);
      PushPopRestores(im, s, Im());
    }

    /** A client's write to a payload word of a live object disturbs no header. */
    method Store(addr: Ptr, ghost s: Slot, k: nat, v: Word)
      requires Valid() && s in live && addr == Payload(s) && k + 1 < G().words
      modifies slabs
      ensures Valid() && InMemory(old(Mem(slabCnt)), Slot(addr.inx, addr.word + k))
      ensures Im() == old(Im()).(mem := Write(old(Mem(slabCnt)), Slot(addr.inx, addr.word + k), v))
    {
      ghost var im, t := Im(), Slot(addr.inx, addr.word + k);
      PayloadIsNoHeader(G(), slabCnt, s, k);
      PayloadWriteRepresents(im, Abs(), G(), t, v);
      SetWord(addr.inx, addr.word + k, v);
    }

    /** Pushes a live object: its header says where it belongs, and takes the old
        head of the list in exchange. */
    method Put(addr: Ptr, ghost s: Slot)
      requires Valid() && s in live && addr == Payload(s)
      modifies this`freeNext, this`free, this`live, slabs
      ensures Valid() && Abs() == Allocator.Put(old(Abs()), s)
      ensures InMemory(old(Mem(slabCnt)), s) && Im() == Pushed(old(Im()), s)
    {
      ghost var im, a := Im(), Abs();
      assert OwnAt(im.mem, s);
      Swap(addr, s);
      AfterPush(im, a, s);
    }

    method Swap(addr: Ptr, ghost s: Slot)
      requires Table() && addr == Payload(s) && InMemory(Mem(slabCnt), s) && s in live
      modifies this`freeNext, this`free, this`live, slabs
      ensures Table() && Im() == Pushed(old(Im()), s) && Abs() == Allocator.Put(old(Abs()), s)
    {
      Relink(addr.inx, addr.word - 1, freeNext);
      free, live := free + [s], live - {s};
    }

    /** Every slab is where it was, or is new. */
    twostate predicate Extended()
      reads this
    {
      |slabs| == |old(slabs)| &&
      forall i :: 0 <= i < |slabs| ==> slabs[i] == old(slabs)[i] || (slabs[i] != null && fresh(slabs[i]))
    }

    /** One action of a client. */
    method Act(act: Action)
      requires Valid() && Allowed(Abs(), G(), act)
      modifies this, slabs
      ensures Valid() && Extended() && Abs() == Acted(old(Abs()), G(), act)
      ensures OnlyTouched(old(Mem(slabCnt)), Mem(slabCnt), Touched(old(Abs()), G(), act))
      ensures act.Fill? ==>
                var t := PayloadAt(act.slot, act.k); InMemory(Mem(slabCnt), t) && Load(Mem(slabCnt), t) == act.v
    {
      match act {
        case Call(OpGet(granted)) =>
          var addr := Get(granted);
        case Call(OpPut(slot)) =>
          ghost var im := Im();
          Put(Payload(slot), slot);
          WriteTouches(im.mem, slot, im.head);
        case Fill(slot, k, v) =>
          ghost var m := Mem(slabCnt);
          Store(Payload(slot), slot, k, v);
          WriteTouches(m, PayloadAt(slot, k), v);
      }
    }

    /** Any run of a client on the memory itself: the pool refines the allocator's run of
        its calls, and every object it keeps holds what it last wrote there. */
    method Run(acts: seq<Action>)
      requires Valid() && IsClient(Abs(), G(), acts)
      modifies this, slabs
      ensures Valid() && IsRun(old(Abs()), G(), Calls(acts)) && Abs() == Exec(old(Abs()), G(), Calls(acts))
      ensures Extended()
      ensures RemembersAll(G(), old(live), old(Mem(slabCnt)), Mem(slabCnt), acts)
      decreases |acts|
    {
      ghost var a, m := Abs(), Mem(slabCnt);
      ClientIsRun(a, G(), acts);
      if acts == [] {
        return;
      }
      Act(acts[0]);
      ghost var m1 := Mem(slabCnt);
      Run(acts[1..]);
      RemembersMore(a, G(), m, m1, Mem(slabCnt), acts);
    }

    /** argo_mem_pool_destroy: every slab is released, each exactly once. */
    method Destroy() returns (released: seq<array<Word>>)
      requires Table()
      ensures |released| == slabCnt && forall i :: 0 <= i < slabCnt ==> released[i] == slabs[i]
      ensures Distinct(released)
    {
      released := [];
      var i := 0;
      while i < SLABS_MAX
        invariant 0 <= i <= SLABS_MAX
        invariant |released| == if i < slabCnt then i else slabCnt
        invariant forall j :: 0 <= j < |released| ==> released[j] == slabs[j]
      {
        if slabs[i] != null {
          released := released + [slabs[i]];
        }
        i := i + 1;
      }
    }
  }

  lemma PayloadIsNoHeader(g: Geometry, slabs: nat, s: Slot, k: nat)
    requires ValidGeometry(g) && IsSlot(g, slabs, s) && k + 1 < g.words
    ensures s.word + 1 + k < g.words * g.count
    ensures !IsStart(g, s.word + 1 + k)
  {
    ModUnique(s.word + 1 + k, g.words, s.word / g.words, 1 + k);
  }

  /** argo_mem_pool_create: NULL when either allocation fails, else a pool of one
      slab whose free list holds all its objects in address order. */
  method Create(objSz: nat, objCnt: nat, grantedPool: bool, grantedSlab: bool) returns (mp: Pool?)
    requires objSz < U32 && objCnt < U32 && Respected(objSz, objCnt)
    ensures mp == null <==> !grantedPool || !grantedSlab
    ensures mp != null ==> fresh(mp) && mp.Valid() && mp.Abs() == Allocator.Create(mp.G())
    ensures mp != null ==> forall i :: 0 <= i < |mp.slabs| && mp.slabs[i] != null ==> fresh(mp.slabs[i])
    ensures mp != null ==> mp.objSz == RoundedSize(objSz) && mp.objCnt == AdjustedCount(RoundedSize(objSz), objCnt)
  {
    if !grantedPool {
      return null;
    }
    mp := new Pool(objSz, objCnt);
    var err := mp.CreateNewSlab(grantedSlab);
    if err != 0 {
      return null;
    }
  }

  /** Every state a client can reach from create: free and live slots partition the slots
      of all slabs, no more slabs were added than the peak of live objects demanded, and
      the only chain that memory holds from mp_free_next is the free stack. */
  method CreateAndRun(objSz: nat, objCnt: nat, acts: seq<Action>) returns (mp: Pool)
    requires objSz < U32 && objCnt < U32 && Respected(objSz, objCnt)
    requires IsClient(Allocator.Create(Shape(objSz, objCnt)), Shape(objSz, objCnt), acts)
    ensures mp.Valid() && mp.G() == Shape(objSz, objCnt)
    ensures IsRun(Allocator.Create(mp.G()), mp.G(), Calls(acts))
    ensures mp.Abs() == Exec(Allocator.Create(mp.G()), mp.G(), Calls(acts)) && Inv(mp.Abs(), mp.G())
    ensures Demanded(mp.slabCnt, mp.G(), Peak(Allocator.Create(mp.G()), mp.G(), Calls(acts)))
    ensures forall t :: IsChain(mp.Im().mem, mp.Im().head, t) <==> t == mp.free
  {
    mp := Create(objSz, objCnt, true, true);
    mp.Run(acts);
    DemandBound(mp.G(), Calls(acts));
    forall t ensures IsChain(mp.Im().mem, mp.Im().head, t) <==> t == mp.free {
      ChainIsFreeStack(mp.Im(), mp.Abs(), mp.G(), t);
    }
  }

  /** A client of the whole interface: what it puts back it gets again, and destroy
      releases the one slab it ever needed. */
  method Lifecycle(objSz: nat, objCnt: nat) returns (first: Option<Ptr>, second: Option<Ptr>, slabs: nat)
    requires objSz < U32 && objCnt < U32 && Respected(objSz, objCnt)
    ensures first == second == Some(Payload(Slot(0, 0))) && slabs == 1
  {
    var mp := Create(objSz, objCnt, true, true);
    ghost var a := mp.Abs();
    ghost var top := a.free[|a.free| - 1];
    FreshAt(mp.G(), 0, 0);
    assert At(0, mp.G().words) == 0;
    first := mp.Get(true);
    second := mp.PutThenGet(first.value, top, true);
    var released := mp.Destroy();
    slabs := |released|;
  }
}
