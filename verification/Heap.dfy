// heap.c, built without KMALLOC_CANARY: kmalloc, kfree and kcalloc over the kernel's page tables.

module KernelHeap {
  import opened PageFormat
  import opened Sequences
  import opened MemoryMap
  import opened PhysicalMemory
  import opened PageTables
  import opened Teardown
  import opened Ownership
  import opened VirtualMemory
  import opened UserPages
  import opened HeapBlocks

  // Panic is the allocator's or vmm_map's; Fault is a write to a page that is not there.
  datatype Answer = Ptr(p: nat) | Null | Panic | Fault

  // What kmalloc may answer: a block, chosen as Served says; the panic of the allocator, or the fault
  // of a request whose page count has wrapped to zero, only when no free block fits.
  ghost predicate Answered(size: nat, a: List, b: List, r: Answer) {
    match r
    case Ptr(p) => p >= 32 && Served(size, a, b, p - 32)
    case Null => false
    case Panic => NoneFits(a.h, a.blocks, Round16(size))
    case Fault => NoneFits(a.h, a.blocks, Round16(size)) && PagesFor(Round16(size)) == 0
  }

  lemma NeverNull(size: nat, a: List, b: List, r: Answer)
    requires Answered(size, a, b, r)
    ensures r != Null
  {
  }

  lemma ReuseAnswers(size: nat, a: List, b: List, p: nat)
    requires FirstFits(a.h, a.blocks, Round16(size), p) && Handed(a.h, b.h, p) && b.h[p].size >= Round16(size)
    requires p % 4096 == 0 && b == a.(h := b.h)
    requires size <= 0xFFFF_FFFF_FFFF_EFE0 ==> size <= Round16(size)
    ensures Answered(size, a, b, Ptr(p + 32))
  {
    hide Round16, Handed, PagesFor, FirstFits, Served;
    ReuseServes(size, a, b, p);
  }

  lemma NewAnswers(size: nat, a: List, b: List, r: Answer)
    requires NoneFits(a.h, a.blocks, Round16(size))
    requires size <= 0xFFFF_FFFF_FFFF_EFE0 ==> PagesFor(Round16(size)) * 4096 >= 32 + size
    requires r == Panic || (r == Fault && PagesFor(Round16(size)) == 0) || r == Ptr(a.top + 32)
    requires r.Ptr? ==> OnTop(a, b, PagesFor(Round16(size)))
    ensures Answered(size, a, b, r)
  {
    hide Round16, Handed, PagesFor, OnTop, FirstFits, NoneFits;
    if r.Ptr? { ExtendServes(size, a, b); }
  }

  class Heap {
    const vmm: Vmm
    var headers: Headers  // the block_t at each address that holds one
    var head: nat
    var cursor: nat       // heap_cursor
    ghost var blocks: seq<Extent>
    ghost var held: set<Frame>

    // The blocks and the list through their headers.
    ghost predicate ListValid()
      reads `headers, `head, `cursor, `blocks
    {
      Chained(headers, head, cursor, blocks) && Known(headers, blocks)
    }

    // The pages under them. Every request takes at least one frame and one guard page, so with at
    // most 16 TiB of usable memory the cursor stays below 2^64.
    ghost predicate PagesValid()
      reads `cursor, `held, vmm, vmm.pmm
    {
      vmm.Valid() && vmm.Live(Kernel) && OpenAbove(vmm.pmm.mem, vmm.tabs) && |vmm.pmm.Usable()| <= 0x1_0000_0000 &&
      held <= vmm.Out() && 0xFFFF_C000_0000_0000 <= cursor && cursor % 4096 == 0 &&
      cursor <= 0xFFFF_C000_0000_0000 + |held| * 8192 && HeapPrivate(vmm.pmm.mem, vmm.kernel)
    }

    ghost predicate Valid()
      reads this, vmm, vmm.pmm
    {
      ListValid() && PagesValid() && HeapMapped(vmm.pmm.mem, vmm.kernel, blocks, 0, 0, held)
    }

    ghost function Chain(): List
      reads `headers, `head, `cursor, `blocks
    {
      List(headers, head, cursor, blocks)
    }

    // What the heap holds, and all it is held against.
    ghost function Now(): View
      reads this`held, vmm, vmm.pmm
    {
      View(vmm.pmm.mem, vmm.tabs, held, vmm.Out())
    }

    // The kernel starts with nothing mapped in the heap's range.
    constructor (vmm: Vmm)
      requires vmm.Valid() && vmm.Live(Kernel) && OpenAbove(vmm.pmm.mem, vmm.tabs)
      requires |vmm.pmm.Usable()| <= 0x1_0000_0000
      requires forall n :: HEAP_FIRST <= n < HEAP_END ==> PageAt(vmm.pmm.mem, vmm.kernel, n) == None
      ensures Valid() && this.vmm == vmm && headers == map[] && held == {}
    {
      this.vmm := vmm;
      headers := map[];
      head := 0;
      cursor := 0xFFFF_C000_0000_0000;
      blocks := [];
      held := {};
      new;
      hide PageAt, OpenAbove, TablesOk, ListOk, CursorOk, FramesFrom;
      assert HeapMapped(vmm.pmm.mem, vmm.kernel, [], 0, 0, {}) by {
        assert forall n :: !OnHeap([], n);
      }
    }

    // One round of request_pages: a frame, mapped at the cursor, which is page n.
    method RequestPage(ghost lo: nat, ghost n: nat) returns (ok: bool)
      requires PagesValid() && HEAP_FIRST <= lo <= n && cursor == n * 4096
      requires HeapMapped(vmm.pmm.mem, vmm.kernel, blocks, lo, n, held)
      modifies this`cursor, this`held, vmm`tabs, vmm.pmm
      ensures !ok ==> vmm.Stuck()
      ensures ok ==> PagesValid() && cursor == old(cursor) + 4096 && |held| == |old(held)| + 1
      ensures ok ==> HeapMapped(vmm.pmm.mem, vmm.kernel, blocks, lo, n + 1, held)
      ensures ok ==> KernelSteps(old(Now()), Now())
    {
      PageLow(n);
      hide *;
      ok := FreshPage(lo, n);
      if ok {
        NextPage(n);
      }
    }

    // heap_cursor += PAGE_SIZE
    method NextPage(ghost n: nat)
      requires vmm.Valid() && vmm.Live(Kernel) && OpenAbove(vmm.pmm.mem, vmm.tabs)
      requires |vmm.pmm.Usable()| <= 0x1_0000_0000
      requires held <= vmm.Out() && HeapPrivate(vmm.pmm.mem, vmm.kernel)
      requires |held| > 0 && 0xFFFF_C000_0000_0000 <= cursor == n * 4096 <= 0xFFFF_C000_0000_0000 + (|held| - 1) * 8192
      modifies `cursor
      ensures PagesValid() && cursor == old(cursor) + 4096
    {
      CursorStep(n, cursor, |held|);
      hide *;
      cursor := cursor + 4096;
      PagesStill();
    }

    lemma PageLow(n: nat)
      requires PagesValid() && cursor == n * 4096
      ensures n < HEAP_END && cursor <= 0xFFFF_C000_0000_0000 + |held| * 8192
      ensures |vmm.pmm.Usable()| <= 0x1_0000_0000
      ensures 0xFFFF_C000_0000_0000 <= cursor
    {
      CursorLow();
    }

    // The page, and its frame counted as held from now on.
    method FreshPage(ghost lo: nat, ghost n: nat) returns (ok: bool)
      requires PagesValid() && HEAP_FIRST <= lo <= n < HEAP_END && cursor == n * 4096
      requires HeapMapped(vmm.pmm.mem, vmm.kernel, blocks, lo, n, held)
      modifies this`held, vmm`tabs, vmm.pmm
      ensures !ok ==> vmm.Stuck()
      ensures ok ==> vmm.Valid() && vmm.Live(Kernel) && OpenAbove(vmm.pmm.mem, vmm.tabs)
      ensures ok ==> held <= vmm.Out() && |held| == |old(held)| + 1 && HeapPrivate(vmm.pmm.mem, vmm.kernel)
      ensures ok ==> HeapMapped(vmm.pmm.mem, vmm.kernel, blocks, lo, n + 1, held)
      ensures ok ==> KernelSteps(old(Now()), Now())
    {
      NowIs();
      hide *;
      ghost var v0 := Now();
      var f := FreshFrame(lo, n);
      ok := f != None;
      if ok {
        OneMoreHeld(held, f.value, vmm.Out());
        held := held + {f.value};
        Took(v0, f.value);
      }
    }

    lemma NowIs()
      ensures Now() == View(vmm.pmm.mem, vmm.tabs, held, vmm.Out())
    {
    }

    // A fresh frame, now held.
    lemma Took(v0: View, f: Frame)
      requires ProcessesSame(v0.m, v0.tabs, vmm.pmm.mem, vmm.tabs)
      requires f !in v0.out && vmm.Out() == v0.out + {f} && held == v0.owned + {f}
      requires Intact(v0.m, vmm.pmm.mem, v0.out)
      ensures KernelSteps(v0, Now())
    {
      hide ProcessesSame;
      TakesOne(v0.owned, v0.out, f, vmm.Out());
    }

    lemma OneMoreHeld(frames: set<Frame>, f: Frame, out: set<Frame>)
      requires frames <= out && f in out && f !in frames
      ensures frames + {f} <= out && |frames + {f}| == |frames| + 1
    {
    }

    // pmm_alloc_page and map_page.
    method FreshFrame(ghost lo: nat, ghost n: nat) returns (f: Option<Frame>)
      requires PagesValid() && HEAP_FIRST <= lo <= n < HEAP_END && cursor == n * 4096
      requires HeapMapped(vmm.pmm.mem, vmm.kernel, blocks, lo, n, held)
      modifies vmm`tabs, vmm.pmm
      ensures f == None ==> vmm.Stuck()
      ensures f != None ==> vmm.Valid() && vmm.Live(Kernel) && OpenAbove(vmm.pmm.mem, vmm.tabs)
      ensures f != None ==> HeapPrivate(vmm.pmm.mem, vmm.kernel)
      ensures f != None ==> held <= vmm.Out() && f.value in vmm.Out() && f.value !in held
      ensures f != None ==> f.value !in old(vmm.Out()) && vmm.Out() == old(vmm.Out()) + {f.value}
      ensures f != None ==> ProcessesSame(old(vmm.pmm.mem), old(vmm.tabs), vmm.pmm.mem, vmm.tabs)
      ensures f != None ==> Intact(old(vmm.pmm.mem), vmm.pmm.mem, old(vmm.Out()))
      ensures f != None ==> HeapMapped(vmm.pmm.mem, vmm.kernel, blocks, lo, n + 1, held + {f.value})
    {
      hide ListOk, CursorOk, FramesFrom, TablesOk, OpenAbove, HeapPrivate, HeapMapped, Grown, SameTranslations;
      hide Remapped, PathOf, ProcessesSame, Intact;
      ghost var m0, tabs0, out0 := vmm.pmm.mem, vmm.tabs, vmm.Out();
      vmm.RootFrame(Kernel);
      f := vmm.AllocFrame();
      if f == None {
        vmm.NoFrames();
        return;
      }
      ghost var m1 := vmm.pmm.mem;
      vmm.RootFrame(Kernel);
      var ok := vmm.Map(Kernel, cursor, f.value, HeapFlags());
      if ok {
        PageRequested(m0, tabs0, m1, vmm.pmm.mem, vmm.tabs, vmm.kernel, blocks, lo, n, f.value, held);
        PageShared(m0, tabs0, m1, vmm.pmm.mem, vmm.tabs, vmm.kernel, n, f.value);
        IntactThenIntact(m0, m1, vmm.pmm.mem, out0, vmm.Out());
      } else {
        vmm.NoneLeft(f.value);
        f := None;
      }
    }

    lemma PagesStill()
      requires vmm.Valid() && vmm.Live(Kernel) && OpenAbove(vmm.pmm.mem, vmm.tabs)
      requires |vmm.pmm.Usable()| <= 0x1_0000_0000
      requires held <= vmm.Out() && 0xFFFF_C000_0000_0000 <= cursor && cursor % 4096 == 0
      requires cursor <= 0xFFFF_C000_0000_0000 + |held| * 8192 && HeapPrivate(vmm.pmm.mem, vmm.kernel)
      ensures PagesValid()
    {
    }

    lemma CursorStep(n: nat, c: nat, count: nat)
      requires c == n * 4096 && count > 0 && c <= 0xFFFF_C000_0000_0000 + (count - 1) * 8192
      ensures (c + 4096) % 4096 == 0 && c + 4096 <= 0xFFFF_C000_0000_0000 + count * 8192
    {
    }

    lemma CursorLow()
      requires PagesValid()
      ensures 0xFFFF_C000_0000_0000 <= cursor <= 0xFFFF_C000_0000_0000 + 0x2000_0000_0000
      ensures cursor <= 0xFFFF_C000_0000_0000 + |held| * 8192 && |vmm.pmm.Usable()| <= 0x1_0000_0000
    {
      SubsetCount(held, vmm.pmm.Usable());
    }

    // request_pages. False is a panic on the way.
    method RequestPages(pages: nat) returns (base: nat, ok: bool, ghost lo: nat)
      requires PagesValid() && HeapMapped(vmm.pmm.mem, vmm.kernel, blocks, 0, 0, held)
      modifies this`cursor, this`held, vmm`tabs, vmm.pmm
      ensures !ok ==> vmm.Stuck()
      ensures ok ==> base == old(cursor) && cursor == base + pages * 4096 + 4096
      ensures base == lo * 4096
      ensures ok && pages > 0 ==> PagesValid() && HeapMapped(vmm.pmm.mem, vmm.kernel, blocks, lo, lo + pages, held)
      ensures ok ==> KernelSteps(old(Now()), Now())
    {
      base := cursor;
      lo := cursor / 4096;
      StartPage();
      NothingRequested(vmm.pmm.mem, vmm.kernel, blocks, lo, held);
      hide *;
      ghost var count := |held|;
      ok := RequestAll(pages, lo);
      if ok {
        SkipGuard(lo, pages, count);
      }
    }

    lemma StartPage()
      requires PagesValid()
      ensures HEAP_FIRST <= cursor / 4096 && cursor == cursor / 4096 * 4096
      ensures cursor <= 0xFFFF_C000_0000_0000 + |held| * 8192
    {
    }

    // The loop of request_pages.
    method RequestAll(pages: nat, ghost lo: nat) returns (ok: bool)
      requires PagesValid() && cursor == lo * 4096 && HEAP_FIRST <= lo
      requires HeapMapped(vmm.pmm.mem, vmm.kernel, blocks, lo, lo, held)
      modifies this`cursor, this`held, vmm`tabs, vmm.pmm
      ensures !ok ==> vmm.Stuck()
      ensures ok ==> PagesValid() && cursor == lo * 4096 + pages * 4096 && |held| == |old(held)| + pages
      ensures ok ==> HeapMapped(vmm.pmm.mem, vmm.kernel, blocks, lo, lo + pages, held)
      ensures ok ==> KernelSteps(old(Now()), Now())
    {
      hide *;
      ghost var count, v0 := |held|, Now();
      NoKernelStep(v0);
      var i := 0;
      while i < pages
        invariant i <= pages && PagesValid() && cursor == lo * 4096 + i * 4096 && |held| == count + i
        invariant HeapMapped(vmm.pmm.mem, vmm.kernel, blocks, lo, lo + i, held)
        invariant KernelSteps(v0, Now())
      {
        ghost var v1 := Now();
        ok := RequestPage(lo, lo + i);
        if !ok {
          return;
        }
        KernelStepsTransitive(v0, v1, Now());
        i := i + 1;
      }
      ok := true;
    }

    // The guard page after a request is skipped, not mapped.
    method SkipGuard(ghost lo: nat, ghost pages: nat, ghost count: nat)
      requires PagesValid() && cursor == lo * 4096 + pages * 4096 && |held| == count + pages
      requires lo * 4096 <= 0xFFFF_C000_0000_0000 + count * 8192
      modifies `cursor
      ensures cursor == old(cursor) + 4096 && (pages > 0 ==> PagesValid())
    {
      PagesParts();
      GuardStep(lo, pages, count, cursor, |held|);
      hide *;
      cursor := cursor + 4096;
      if pages > 0 { PagesStill(); }
    }

    lemma GuardStep(lo: nat, pages: nat, count: nat, c: nat, n: nat)
      requires lo * 4096 <= 0xFFFF_C000_0000_0000 + count * 8192 && c == lo * 4096 + pages * 4096 && n == count + pages
      ensures (c + 4096) % 4096 == 0
      ensures pages > 0 ==> c + 4096 <= 0xFFFF_C000_0000_0000 + n * 8192
    {
    }

    lemma PagesParts()
      requires PagesValid()
      ensures vmm.Valid() && vmm.Live(Kernel) && OpenAbove(vmm.pmm.mem, vmm.tabs) && |vmm.pmm.Usable()| <= 0x1_0000_0000
      ensures held <= vmm.Out() && HeapPrivate(vmm.pmm.mem, vmm.kernel)
      ensures 0xFFFF_C000_0000_0000 <= cursor <= 0xFFFF_C000_0000_0000 + |held| * 8192 && cursor % 4096 == 0
    {
    }

    // kmalloc's walk over the list: the first free block that is large enough, or 0. The checks of the
    // headers never end it early.
    method Reuse(size: nat) returns (p: nat)
      requires ListValid()
      modifies this`headers
      ensures ListValid()
      ensures p != 0 ==> FirstFits(old(headers), blocks, size, p)
      ensures p != 0 ==> Handed(old(headers), headers, p) && headers[p].size >= size && p % 4096 == 0
      ensures p == 0 ==> NoneFits(old(headers), blocks, size) && headers == old(headers)
      ensures p == 0 <==> forall b :: b in old(headers) ==> !old(headers)[b].free || old(headers)[b].size < size
    {
      hide BlockIsValid, Chained, Known;
      var cur := head;
      ghost var i := 0;
      WalkStart(headers, head, cursor, blocks);
      while cur != 0
        invariant i <= |blocks| && cur == BaseAt(blocks, i) && (cur == 0 <==> i == |blocks|)
        invariant headers == old(headers) && NoneFits(headers, blocks[..i], size)
        decreases |blocks| - i
      {
        WalkStep(headers, head, cursor, blocks, i);
        Aligned(headers, cur);
        if !BlockIsValid(headers, cur) {
          break;
        }
        if headers[cur].free && headers[cur].size >= size {
          Marked(headers, head, cursor, blocks, cur, false);
          assert cur in old(headers) && old(headers)[cur].free && old(headers)[cur].size >= size;
          headers := headers[cur := headers[cur].(free := false)];
          return cur;
        }
        var next := headers[cur].next;
        if !BlockIsValid(headers, next) && next != 0 {
          break;
        }
        cur := next;
        i := i + 1;
      }
      assert blocks[..|blocks|] == blocks;
      NoneMeans(headers, head, cursor, blocks, size);
      p := 0;
    }

    lemma Aligned(h: Headers, p: nat)
      requires BlockIsValid(h, p)
      ensures p % 4096 == 0
    {
    }

    // kmalloc's second half: a new block in fresh pages, pushed in front of the list.
    method Extend(pages: nat) returns (r: Answer)
      requires Valid()
      modifies this, vmm`tabs, vmm.pmm
      ensures r == Panic ==> vmm.Stuck()
      ensures r == Panic || (r == Fault && pages == 0) || (r == Ptr(old(cursor) + 32) && pages > 0)
      ensures r.Ptr? ==> Valid() && OnTop(old(Chain()), Chain(), pages)
      ensures r.Ptr? ==> KernelSteps(old(Now()), Now())
    {
      ValidParts();
      hide *;
      ghost var a := Chain();
      var base, ok, lo := RequestPages(pages);
      if !ok {
        return Panic;
      }
      if pages == 0 {
        return Fault;
      }
      Push(base, pages, lo);
      r := Ptr(base + 32);
    }

    // The list, up to the cursor it was made with.
    ghost predicate ListAt(top: nat)
      reads `headers, `head, `blocks
    {
      Chained(headers, head, top, blocks) && Known(headers, blocks)
    }

    lemma ValidParts()
      requires Valid()
      ensures ListValid() && ListAt(cursor) && PagesValid() && HeapMapped(vmm.pmm.mem, vmm.kernel, blocks, 0, 0, held)
    {
    }

    method Push(base: nat, pages: nat, ghost lo: nat)
      requires ListAt(base) && PagesValid() && pages > 0 && base == lo * 4096 && cursor == base + pages * 4096 + 4096
      requires HeapMapped(vmm.pmm.mem, vmm.kernel, blocks, lo, lo + pages, held)
      modifies `headers, `head, `blocks
      ensures Valid() && OnTop(old(List(headers, head, base, blocks)), Chain(), pages)
    {
      hide Chained, Known, HeapMapped, PagesValid;
      ghost var b := Extent(base, pages * 4096 - 32);
      NewBlock(lo, pages);
      var header := Header(0x5245_4444_594F_5348, pages * 4096 - 32, false, head);
      Pushed(headers, head, base, blocks, b, header);
      RequestDone(vmm.pmm.mem, vmm.kernel, blocks, b, lo, lo + pages, held);
      headers := headers[base := header];
      head := base;
      blocks := [b] + blocks;
    }

    lemma NewBlock(lo: nat, pages: nat)
      requires pages > 0
      ensures pages * 4096 - 32 >= 0 && Extent(lo * 4096, pages * 4096 - 32).End() % 4096 == 0
      ensures Extent(lo * 4096, pages * 4096 - 32).End() == (lo + pages) * 4096 && lo * 4096 % 4096 == 0
    {
    }

    // kmalloc
    method Kmalloc(size: nat) returns (r: Answer)
      requires Valid() && size < 0x1_0000_0000_0000_0000
      modifies this, vmm`tabs, vmm.pmm
      ensures Answered(size, old(Chain()), Chain(), r)
      ensures r.Ptr? ==> Valid() && KernelSteps(old(Now()), Now())
      ensures r.Ptr? && blocks == old(blocks) ==> vmm.pmm.mem == old(vmm.pmm.mem)
      ensures r == Panic ==> vmm.Stuck()
    {
      hide *;
      RequestFits(size);
      ValidParts();
      ghost var a := Chain();
      ChainParts();
      var rounded := Round16(size);
      var pages := PagesFor(rounded);
      var p := Reuse(rounded);
      if p != 0 {
        ChainParts();
        ReuseAnswers(size, a, Chain(), p);
        Whole();
        NoKernelStep(Now());
        return Ptr(p + 32);
      }
      Whole();
      r := Extend(pages);
      NewAnswers(size, a, Chain(), r);
      ChainParts();
      if r.Ptr? { MoreBlocks(a, Chain(), pages); }
    }

    lemma ChainParts()
      ensures Chain() == List(headers, head, cursor, blocks)
    {
    }

    lemma Whole()
      requires ListValid() && PagesValid() && HeapMapped(vmm.pmm.mem, vmm.kernel, blocks, 0, 0, held)
      ensures Valid()
    {
    }

    // kfree undoes kmalloc: of all pointers exactly the one 32 bytes into a block frees that block. Null and
    // whatever is not page aligned 32 bytes before it are ignored. Another page-aligned address there
    // has to be a block's: what else may stand there is not in the model.
    method Kfree(ptr: nat)
      requires Valid() && ptr < 0x1_0000_0000_0000_0000
      requires ptr > 32 && ptr % 4096 == 32 ==> ptr - 32 in headers
      modifies this`headers
      ensures Valid()
      ensures forall b :: b in old(headers) && ptr == b + 32 ==> Released(old(Chain()), Chain(), b)
      ensures (forall b :: b in old(headers) ==> ptr != b + 32) ==> Chain() == old(Chain())
    {
      hide *;
      FreeFacts(ptr);
      ValidParts();
      ChainParts();
      ghost var a := Chain();
      if ptr == 0 {
        return;
      }
      var block := HeaderOf(ptr);
      if !BlockIsValid(headers, block) {
        return;
      }
      headers := headers[block := headers[block].(free := true)];
      ChainParts();
      OnlyFreed(a, Chain(), block);
      Listed();
      Whole();
    }

    // What kfree needs to know of the pointer: which block it stands behind, if any.
    lemma FreeFacts(ptr: nat)
      requires Valid() && ptr < 0x1_0000_0000_0000_0000 && (ptr > 32 && ptr % 4096 == 32 ==> ptr - 32 in headers)
      ensures var block := HeaderOf(ptr);
        (ptr != 0 ==> (BlockIsValid(headers, block) <==> block in headers)) &&
        (ptr != 0 && block in headers ==>
          ptr == block + 32 && Chained(headers[block := headers[block].(free := true)], head, cursor, blocks) &&
          Known(headers[block := headers[block].(free := true)], blocks)) &&
        forall b :: b in headers && ptr == b + 32 ==> ptr != 0 && b == block
    {
      HeaderIs(ptr);
      HeaderBehind(ptr);
      var block := HeaderOf(ptr);
      hide HeaderOf;
      if block in headers {
        Marked(headers, head, cursor, blocks, block, true);
        KnownValid(block);
      }
    }

    lemma OnlyFreed(a: List, b: List, p: nat)
      requires p in a.h && b == a.(h := a.h[p := a.h[p].(free := true)])
      ensures Released(a, b, p)
    {
    }

    lemma Listed()
      requires Chained(headers, head, cursor, blocks) && Known(headers, blocks)
      ensures ListValid()
    {
    }

    // The header a pointer stands behind.
    lemma HeaderIs(ptr: nat)
      requires Valid() && ptr < 0x1_0000_0000_0000_0000
      ensures ptr != 0 && HeaderOf(ptr) in headers <==> ptr >= 32 && ptr - 32 in headers
      ensures ptr != 0 && HeaderOf(ptr) in headers ==> ptr == HeaderOf(ptr) + 32
      ensures ptr > 32 && ptr % 4096 == 32 <==> ptr != 0 && HeaderOf(ptr) != 0 && HeaderOf(ptr) % 4096 == 0
    {
      hide Valid, HeaderOf;
      HeaderBehind(ptr);
      if HeaderOf(ptr) in headers { HeaderLow(HeaderOf(ptr)); }
      if 0 in headers { HeaderLow(0); }
    }

    lemma HeaderLow(p: nat)
      requires Valid() && p in headers
      ensures 0xFFFF_C000_0000_0000 <= p < 0xFFFF_E000_0000_0000
    {
      KnownValid(p);
      CursorLow();
      var i :| 0 <= i < |blocks| && blocks[i] == Extent(p, headers[p].size);
      ChainedAt(headers, head, cursor, blocks, i);
    }

    // kcalloc, whose memset stays inside the block.
    method Kcalloc(count: nat, size: nat) returns (r: Answer)
      requires Valid() && count < 0x1_0000_0000_0000_0000 && size < 0x1_0000_0000_0000_0000
      modifies this, vmm`tabs, vmm.pmm
      ensures r == Panic ==> vmm.Stuck()
      ensures r == Null <==> count * size >= 0x1_0000_0000_0000_0000
      ensures r == Null ==> headers == old(headers) && blocks == old(blocks)
      ensures r != Null ==> forall n: nat :: n == count * size ==> Answered(n, old(Chain()), Chain(), r)
      ensures r.Ptr? ==> Valid() && KernelSteps(old(Now()), Now())
    {
      Overflows(count, size);
      assert Product(count, size) == count * size;
      hide *;
      if TooLarge(count, size) {
        return Null;
      }
      ghost var a := Chain();
      r := Kmalloc(Product(count, size));
      NeverNull(Product(count, size), a, Chain(), r);
    }

    function Product(count: nat, size: nat): nat { count * size }

    // kcalloc's test: size != 0 && count > SIZE_MAX / size.
    predicate TooLarge(count: nat, size: nat) { size != 0 && count > 0xFFFF_FFFF_FFFF_FFFF / size }

    lemma Overflows(count: nat, size: nat)
      ensures TooLarge(count, size) <==> Product(count, size) >= 0x1_0000_0000_0000_0000
    {
      if size != 0 {
        var q := 0xFFFF_FFFF_FFFF_FFFF / size;
        assert q * size <= 0xFFFF_FFFF_FFFF_FFFF < (q + 1) * size;
        if count > q { assert count * size >= (q + 1) * size; } else { assert count * size <= q * size; }
      }
    }

    lemma KnownValid(p: nat)
      requires ListValid() && p in headers
      ensures BlockIsValid(headers, p) && exists i :: 0 <= i < |blocks| && blocks[i] == Extent(p, headers[p].size)
    {
      var i :| 0 <= i < |blocks| && blocks[i].base == p;
      ChainedAt(headers, head, cursor, blocks, i);
    }

    // Every byte of a block, header included, is on a page mapped writable and not executable.
    lemma BlockMapped(p: nat, a: nat)
      requires Valid() && p in headers && p <= a < p + 32 + headers[p].size
      ensures HEAP_FIRST <= a / 4096 < HEAP_END
      ensures HeapPage(vmm.pmm.mem, vmm.kernel, true, a / 4096, held)
      ensures PageAt(vmm.pmm.mem, vmm.kernel, a / 4096).Some?
      ensures var w := PageAt(vmm.pmm.mem, vmm.kernel, a / 4096).value;
        w.frame in held && w.writable && w.nx && !w.user && !w.wthru && !w.nocache
    {
      KnownValid(p);
      CursorLow();
      var i :| 0 <= i < |blocks| && blocks[i] == Extent(p, headers[p].size);
      ChainedAt(headers, head, cursor, blocks, i);
      hide Chained, Known, PagesValid, HeapPage, PageAt, HeapMapped;
      InRange(p, a, cursor);
      assert OnBlock(blocks[i], a / 4096) by { PageInside(p, blocks[i].End(), a); }
      assert OnHeap(blocks, a / 4096);
      HeapPageAt(vmm.pmm.mem, vmm.kernel, blocks, a / 4096, held);
      HeapPageRights(vmm.pmm.mem, vmm.kernel, a / 4096, held);
    }

    // The page behind every block is not mapped.
    lemma GuardUnmapped(p: nat, a: nat)
      requires Valid() && p in headers && p + 32 + headers[p].size <= a < p + 32 + headers[p].size + 4096
      ensures HEAP_FIRST <= a / 4096 < HEAP_END
      ensures PageAt(vmm.pmm.mem, vmm.kernel, a / 4096) == None
    {
      KnownValid(p);
      CursorLow();
      var i :| 0 <= i < |blocks| && blocks[i] == Extent(p, headers[p].size);
      ChainedAt(headers, head, cursor, blocks, i);
      InRange(p, a, cursor);
      NotOnHeap(headers, head, cursor, blocks, i, a);
      hide Chained, Known, PagesValid, PageAt, OnHeap, HeapMapped;
      HeapPageAt(vmm.pmm.mem, vmm.kernel, blocks, a / 4096, held);
    }

    lemma InRange(p: nat, a: nat, top: nat)
      requires 0xFFFF_C000_0000_0000 <= p <= a < top <= 0xFFFF_C000_0000_0000 + 0x2000_0000_0000
      ensures HEAP_FIRST <= a / 4096 < HEAP_END
    {
    }

    // Two blocks never touch.
    lemma BlocksApart(p: nat, q: nat)
      requires ListValid() && p in headers && q in headers && p != q
      ensures p + 32 + headers[p].size + 4096 <= q || q + 32 + headers[q].size + 4096 <= p
    {
      Apart(headers, head, cursor, blocks, p, q);
    }

    // The heap's blocks, its part of the kernel's tables and what its frames hold are as they were.
    twostate predicate Kept()
      reads this, vmm, vmm.pmm
    {
      Chain() == old(Chain()) && held == old(held) && HeapSame(old(vmm.pmm.mem), vmm.pmm.mem, vmm.kernel) &&
      Intact(old(vmm.pmm.mem), vmm.pmm.mem, held)
    }

    // Steps of processes leave the heap as it is.
    twostate lemma Undisturbed(s: Space)
      requires old(Valid()) && unchanged(this) && s.User?
      requires Intact(old(vmm.pmm.mem), vmm.pmm.mem, held)
      requires OthersSame(old(vmm.pmm.mem), old(vmm.tabs), vmm.pmm.mem, vmm.tabs, s)
      requires vmm.Valid() && OpenAbove(vmm.pmm.mem, vmm.tabs) && held <= vmm.Out()
      ensures Valid() && Kept()
    {
      hide ListOk, CursorOk, FramesFrom, TablesOk, OpenAbove, HeapPrivate, HeapMapped, HeapSame, OthersSame, Intact;
      hide Chained, Known;
      ghost var m0, tabs0 := old(vmm.pmm.mem), old(vmm.tabs);
      HeapLive(m0, tabs0);
      HeapKept(m0, tabs0, vmm.pmm.mem, vmm.tabs, vmm.kernel, s);
      SameHeap(m0, vmm.pmm.mem, vmm.kernel, blocks, held);
    }

    // So does the rest of the kernel, which maps nothing in the heap's range.
    twostate lemma Beside()
      requires old(Valid()) && unchanged(this) && vmm.Valid() && OpenAbove(vmm.pmm.mem, vmm.tabs)
      requires vmm.Live(Kernel) && held <= vmm.Out() && HeapSame(old(vmm.pmm.mem), vmm.pmm.mem, vmm.kernel)
      requires Intact(old(vmm.pmm.mem), vmm.pmm.mem, held)
      ensures Valid() && Kept()
    {
      hide ListOk, CursorOk, FramesFrom, TablesOk, OpenAbove, HeapPrivate, HeapMapped, HeapSame, Intact;
      hide Chained, Known;
      SameHeap(old(vmm.pmm.mem), vmm.pmm.mem, vmm.kernel, blocks, held);
    }

    lemma HeapLive(m: Memory, tabs: Tables)
      requires TablesOk(m, tabs, vmm.kernel) && Root(Kernel) in tabs
      ensures tabs[Root(Kernel)] == vmm.kernel
    {
      NodeWithin(m, tabs, vmm.kernel, Root(Kernel));
    }
  }
}
