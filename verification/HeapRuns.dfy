// Whole histories of kmalloc and kfree: what is live stays where it is, large enough and to itself.

module HeapRuns {
  import opened HeapBlocks
  import opened KernelHeap
  import opened VirtualMemory

  // A block is named by the address of its header, 32 bytes below the pointer the caller has.
  datatype Event = Malloc(size: nat, p: nat) | Free(p: nat) | Nothing

  ghost predicate Step(e: Event, a: List, b: List) {
    match e
    case Malloc(size, p) => Served(size, a, b, p)
    case Free(p) => Released(a, b, p)
    case Nothing => b == a
  }

  // A history from a linked list; that it stays linked is proved, not assumed.
  ghost predicate Run(es: seq<Event>, states: seq<List>) {
    |states| == |es| + 1 && Linked(states[0]) && forall i :: 0 <= i < |es| ==> Step(es[i], states[i], states[i + 1])
  }

  lemma StepLinked(e: Event, a: List, b: List)
    requires Linked(a) && Step(e, a, b)
    ensures Linked(b)
  {
    hide Linked, Served, Released;
    match e
    case Malloc(size, p) => ServedLinked(size, a, b, p);
    case Free(p) => ReleasedLinked(a, b, p);
    case Nothing =>
  }

  lemma {:induction false} RunLinked(es: seq<Event>, states: seq<List>)
    requires Run(es, states)
    ensures Linked(states[|es|])
    decreases |es|
  {
    hide Linked, Step;
    if es != [] {
      var last := |es| - 1;
      RunLinked(es[..last], states[..last + 1]);
      StepLinked(es[last], states[last], states[last + 1]);
    }
  }

  // What has been allocated and not freed since, with the sizes asked for.
  function Live(es: seq<Event>): map<nat, nat> {
    if es == [] then map[]
    else
      var before := Live(es[..|es| - 1]);
      match es[|es| - 1]
      case Malloc(size, p) => before[p := size]
      case Free(p) => before - {p}
      case Nothing => before
  }

  // The bytes a caller may use.
  predicate Holds(s: List, p: nat, size: nat) {
    p in s.h && !s.h[p].free && p % 4096 == 0 && (size <= 0xFFFF_FFFF_FFFF_EFE0 ==> size <= s.h[p].size)
  }

  lemma {:induction false} LiveHolds(es: seq<Event>, states: seq<List>, p: nat)
    requires Run(es, states) && p in Live(es)
    ensures Holds(states[|es|], p, Live(es)[p])
    ensures var h := states[|es|].h;
      p in h && !h[p].free && p % 4096 == 0 && (Live(es)[p] <= 0xFFFF_FFFF_FFFF_EFE0 ==> Live(es)[p] <= h[p].size)
    decreases |es|
  {
    var n := |es| - 1;
    var a, b := states[n], states[n + 1];
    assert Step(es[n], a, b);
    if p in Live(es[..n]) && (es[n].Malloc? ==> es[n].p != p) {
      LiveHolds(es[..n], states[..n + 1], p);
    }
  }

  // kmalloc never hands out what is still live.
  lemma NeverLive(es: seq<Event>, states: seq<List>, size: nat, p: nat, b: List)
    requires Run(es, states) && Step(Malloc(size, p), states[|es|], b)
    ensures p !in Live(es)
  {
    if p in Live(es) { LiveHolds(es, states, p); }
  }

  // At any time two live allocations share no byte, nor even touch: a guard page lies between them.
  lemma LiveApart(es: seq<Event>, states: seq<List>, p: nat, q: nat)
    requires Run(es, states) && p in Live(es) && q in Live(es) && p != q
    ensures var s := states[|es|];
      Holds(s, p, Live(es)[p]) && Holds(s, q, Live(es)[q]) &&
      (p + 32 + s.h[p].size + 4096 <= q || q + 32 + s.h[q].size + 4096 <= p)
  {
    LiveHolds(es, states, p);
    LiveHolds(es, states, q);
    RunLinked(es, states);
    var s := states[|es|];
    Apart(s.h, s.head, s.top, s.blocks, p, q);
  }

  // What the kernel asks of the heap.
  datatype Call = Alloc(size: nat) | Release(ptr: nat)

  // An allocation makes Malloc; the release of the pointer behind a block's header frees that block, any
  // other release does nothing.
  ghost predicate Becomes(c: Call, t: List, e: Event) {
    match c
    case Alloc(size) => e.Malloc? && e.size == size
    case Release(ptr) =>
      if e.Free? then ptr == e.p + 32 && e.p in t.h else e == Nothing && forall b :: b in t.h ==> ptr != b + 32
  }

  // A page-aligned address that is no block's, so that kfree would look at what else stands there.
  predicate Stray(ptr: nat, h: Headers) { ptr > 32 && ptr % 4096 == 32 && ptr - 32 !in h }

  // Releasing the pointer an allocation was answered with, which is 32 bytes behind its block's header,
  // frees just that block.
  lemma ReleaseFrees(es: seq<Event>, states: seq<List>, p: nat, e: Event)
    requires Run(es, states) && p in Live(es) && Becomes(Release(p + 32), states[|es|], e)
    ensures e == Free(p)
  {
    LiveHolds(es, states, p);
  }

  // After that an allocation of the same size takes no new page: a block that was there is handed out.
  lemma FreedIsReused(es: seq<Event>, states: seq<List>, p: nat, a: List, q: nat, b: List)
    requires Run(es, states) && p in Live(es) && Live(es)[p] <= 0xFFFF_FFFF_FFFF_EFE0
    requires Step(Free(p), states[|es|], a) && Step(Malloc(Live(es)[p], q), a, b)
    ensures b.blocks == a.blocks == states[|es|].blocks && b.top == states[|es|].top && q in states[|es|].h
  {
    var t, size := states[|es|], Live(es)[p];
    LiveHolds(es, states, p);
    RunLinked(es, states);
    hide Chained, Served, Handed, OnTop, Round16;
    BlockWhole(t, p, size);
    FitsNow(a, p, Round16(size));
    ReusedOnly(size, a, b, q);
  }

  // A block of whole pages that holds a size holds it rounded up to 16 too.
  lemma BlockWhole(t: List, p: nat, size: nat)
    requires Linked(t) && p in t.h && size <= t.h[p].size && size <= 0xFFFF_FFFF_FFFF_EFE0
    ensures Round16(size) <= t.h[p].size && IsBase(t.blocks, p)
  {
    var i :| 0 <= i < |t.blocks| && t.blocks[i].base == p;
    ChainedAt(t.h, t.head, t.top, t.blocks, i);
    hide Chained, Known, Round16;
    RoundedFits(p, t.h[p].size, size);
  }

  lemma RoundedFits(p: nat, whole: nat, size: nat)
    requires p % 4096 == 0 && (p + 32 + whole) % 4096 == 0 && size <= whole && size <= 0xFFFF_FFFF_FFFF_EFE0
    ensures Round16(size) <= whole
  {
    SixteenFold(p, whole);
    Round16Exact(size);
    hide Round16;
  }

  lemma SixteenFold(p: nat, whole: nat)
    requires p % 4096 == 0 && (p + 32 + whole) % 4096 == 0
    ensures whole % 16 == 0
  {
  }

  lemma FitsNow(a: List, p: nat, size: nat)
    requires p in a.h && a.h[p].free && size <= a.h[p].size && IsBase(a.blocks, p)
    ensures !NoneFits(a.h, a.blocks, size)
  {
    var i :| 0 <= i < |a.blocks| && a.blocks[i].base == p;
    assert HeapBlocks.Fits(a.h, a.blocks[i].base, size);
  }

  lemma ReusedOnly(size: nat, a: List, b: List, q: nat)
    requires Served(size, a, b, q) && !NoneFits(a.h, a.blocks, Round16(size))
    ensures b.blocks == a.blocks && b.top == a.top && q in a.h
  {
    hide Round16, Handed, NoneFits;
  }

  // No free block is large enough, and there is no frame for a new one, or its page count has wrapped to 0.
  ghost predicate Refused(t: List, size: nat, vmm: Vmm)
    reads vmm, vmm.pmm
  {
    (forall b :: b in t.h ==> !t.h[b].free || t.h[b].size < Round16(size)) &&
    (vmm.Stuck() || PagesFor(Round16(size)) == 0)
  }

  lemma RefusedIs(t: List, size: nat, r: Answer, b: List, vmm: Vmm)
    requires Linked(t) && Answered(size, t, b, r) && !r.Ptr? && (r == Answer.Panic ==> vmm.Stuck())
    ensures Refused(t, size, vmm)
  {
    NoneMeans(t.h, t.head, t.top, t.blocks, Round16(size));
    hide Linked, Round16, PagesFor, NoneFits;
  }

  // heap.c at work, up to the first request it cannot meet or the first stray pointer: whatever is
  // asked of it, in whatever order, makes one of these histories.
  method Serve(heap: Heap, calls: seq<Call>) returns (ghost es: seq<Event>, ghost states: seq<List>)
    requires heap.Valid()
    requires forall i :: 0 <= i < |calls| ==> InRange(calls[i])
    modifies heap, heap.vmm`tabs, heap.vmm.pmm
    ensures Run(es, states) && states[0] == old(heap.Chain()) && |es| <= |calls|
    ensures forall i :: 0 <= i < |es| ==> Becomes(calls[i], states[i], es[i])
    ensures |es| == |calls| ==> heap.Valid() && states[|es|] == heap.Chain()
    ensures |es| < |calls| ==>
      (calls[|es|].Alloc? && Refused(states[|es|], calls[|es|].size, heap.vmm)) ||
      (calls[|es|].Release? && calls[|es|].ptr > 32 && calls[|es|].ptr % 4096 == 32 &&
       calls[|es|].ptr - 32 !in states[|es|].h)
  {
    hide Linked, Step, Becomes, Heap.Valid, Heap.Chain;
    ChainLinked(heap);
    es, states := [], [heap.Chain()];
    var i := 0;
    while i < |calls|
      invariant i == |es| <= |calls| && heap.Valid()
      invariant Run(es, states) && states[0] == old(heap.Chain()) && states[|es|] == heap.Chain()
      invariant forall j :: 0 <= j < i ==> Becomes(calls[j], states[j], es[j])
    {
      ghost var e;
      var ok;
      ok, e := ServeOne(heap, calls[i]);
      if !ok {
        return;
      }
      es, states := es + [e], states + [heap.Chain()];
      i := i + 1;
    }
  }

  predicate InRange(c: Call) {
    if c.Alloc? then c.size < 0x1_0000_0000_0000_0000 else c.ptr < 0x1_0000_0000_0000_0000
  }

  method ServeOne(heap: Heap, c: Call) returns (ok: bool, ghost e: Event)
    requires heap.Valid() && InRange(c)
    modifies heap, heap.vmm`tabs, heap.vmm.pmm
    ensures ok ==> heap.Valid() && Step(e, old(heap.Chain()), heap.Chain()) && Becomes(c, old(heap.Chain()), e)
    ensures !ok ==>
      if c.Alloc? then Refused(old(heap.Chain()), c.size, heap.vmm) else Stray(c.ptr, old(heap.Chain()).h)
  {
    hide Heap.Valid, Step, Becomes, Refused, Stray, Heap.Chain;
    match c
    case Alloc(size) => ok, e := ServeAlloc(heap, size);
    case Release(ptr) => ok, e := ServeRelease(heap, ptr);
  }

  method ServeAlloc(heap: Heap, size: nat) returns (ok: bool, ghost e: Event)
    requires heap.Valid() && size < 0x1_0000_0000_0000_0000
    modifies heap, heap.vmm`tabs, heap.vmm.pmm
    ensures ok ==> heap.Valid() && Step(e, old(heap.Chain()), heap.Chain())
    ensures ok ==> Becomes(Alloc(size), old(heap.Chain()), e)
    ensures !ok ==> Refused(old(heap.Chain()), size, heap.vmm)
  {
    hide *;
    ChainLinked(heap);
    ghost var t := heap.Chain();
    var r := heap.Kmalloc(size);
    ok := r.Ptr?;
    if ok {
      PointerAnswered(size, t, heap.Chain(), r);
      e := Malloc(size, r.p - 32);
      MallocStep(size, t, heap.Chain(), r.p - 32);
    } else {
      e := Nothing;
      RefusedIs(t, size, r, heap.Chain(), heap.vmm);
    }
  }

  lemma MallocStep(size: nat, t: List, b: List, p: nat)
    requires Served(size, t, b, p)
    ensures Step(Malloc(size, p), t, b) && Becomes(Alloc(size), t, Malloc(size, p))
  {
  }

  method ServeRelease(heap: Heap, ptr: nat) returns (ok: bool, ghost e: Event)
    requires heap.Valid() && ptr < 0x1_0000_0000_0000_0000
    modifies heap`headers
    ensures heap.Valid() && (ok <==> !Stray(ptr, old(heap.Chain()).h))
    ensures ok ==> Step(e, old(heap.Chain()), heap.Chain()) && Becomes(Release(ptr), old(heap.Chain()), e)
  {
    hide Heap.Valid, Released;
    e := Nothing;
    ok := !Stray(ptr, heap.headers);
    if ok {
      if ptr >= 32 && ptr - 32 in heap.headers { e := Free(ptr - 32); }
      heap.Kfree(ptr);
    }
  }

  lemma PointerAnswered(size: nat, t: List, b: List, r: Answer)
    requires Answered(size, t, b, r)
    ensures r.Ptr? ==> r.p >= 32 && Served(size, t, b, r.p - 32)
  {
  }

  lemma ChainLinked(heap: Heap)
    requires heap.Valid()
    ensures Linked(heap.Chain())
  {
    hide Chained, Known;
  }
}
