// Processes and the kernel heap over one set of frames: whatever one of them does, the others keep
// their pages, and no frame ever belongs to two.

module Systems {
  import opened PageFormat
  import opened Sequences
  import opened PageTables
  import opened Teardown
  import opened Ownership
  import opened VirtualMemory
  import opened Regions
  import opened VmaTrees
  import opened UserPages
  import opened Faults
  import opened Processes
  import opened HeapBlocks
  import opened KernelHeap

  lemma FramesDiffer(a: Option<Word>, b: Option<Word>, mine: set<Frame>, yours: set<Frame>)
    requires a.Some? && a.value.frame in mine && b.Some? && b.value.frame in yours && mine !! yours
    ensures !SameFrame(a, b)
  {
  }

  class System {
    const vmm: Vmm
    const heap: Heap
    var procs: set<Process>

    ghost function Trees(): set<VmaTree>
      reads this
    {
      set p | p in procs :: p.vmas
    }

    ghost function AllNodes(): set<VmArea>
      reads this, Trees()
    {
      set p, v | p in procs && v in InOrder(p.vmas.tree) :: v
    }

    ghost predicate AllSeparate()
      reads this, procs, Trees()
    {
      forall p, q :: p in procs && q in procs && p != q ==> p.Separate(q)
    }

    ghost predicate HeapValid()
      reads heap, vmm, vmm.pmm
    {
      heap.vmm == vmm && vmm.Valid() && OpenAbove(vmm.pmm.mem, vmm.tabs) && heap.Valid()
    }

    ghost predicate ProcessesValid()
      reads this, procs, Trees(), AllNodes(), vmm, vmm.pmm
    {
      forall p :: p in procs ==>
        assert forall v :: v in InOrder(p.vmas.tree) ==> v in AllNodes();
        p.vmm == vmm && p.Valid()
    }

    ghost predicate HeapSeparate()
      reads this, procs, heap
    {
      forall p :: p in procs ==> p.owned !! heap.held
    }

    // Every process and the heap are in order, and no frame is held by two of them.
    ghost predicate Valid()
      reads this, heap, procs, Trees(), AllNodes(), vmm, vmm.pmm
    {
      HeapValid() && ProcessesValid() && AllSeparate() && HeapSeparate()
    }

    constructor (vmm: Vmm, heap: Heap)
      requires heap.vmm == vmm && vmm.Valid() && OpenAbove(vmm.pmm.mem, vmm.tabs) && heap.Valid()
      ensures Valid() && this.vmm == vmm && this.heap == heap && procs == {}
    {
      this.vmm, this.heap, procs := vmm, heap, {};
    }

    lemma Members()
      requires Valid()
      ensures vmm.Valid() && OpenAbove(vmm.pmm.mem, vmm.tabs)
      ensures forall p :: p in procs ==> p.vmm == vmm && p.Valid()
      ensures forall p, q :: p in procs && q in procs && p != q ==> p.Separate(q)
      ensures forall p :: p in procs ==> p.owned !! heap.held
    {
      hide Process.Valid, Process.Separate, Heap.Valid;
    }

    twostate lemma WereMembers()
      requires old(Valid())
      ensures forall p :: p in old(procs) ==> p.vmm == vmm && old(p.Valid() && p.owned !! heap.held)
      ensures forall p, q :: p in old(procs) && q in old(procs) && p != q ==> old(p.Separate(q))
    {
      hide HeapValid, Process.Valid, Process.Separate;
    }

    lemma Assemble()
      requires HeapValid()
      requires forall p :: p in procs ==> p.vmm == vmm && p.Valid() && p.owned !! heap.held
      requires forall p, q :: p in procs && q in procs && p != q ==> p.Separate(q)
      ensures Valid()
    {
      hide HeapValid, Process.Valid, Process.Separate;
    }

    // No page of one process lies in a frame of another, and none in a frame of the kernel's heap.
    lemma PagesApart(p: Process, q: Process, a: Path, b: Path)
      requires Valid() && p in procs && q in procs && p != q && p.space.User? && q.space.User?
      requires OwnPage(vmm.pmm.mem, p.space.pml4, a) && OwnPage(vmm.pmm.mem, q.space.pml4, b)
      ensures !SameFrame(Lookup(vmm.pmm.mem, p.space.pml4, a), Lookup(vmm.pmm.mem, q.space.pml4, b))
    {
      Members();
      hide *;
      p.PagesOwned(a);
      q.PagesOwned(b);
      OwnedApart(p, q);
      FramesDiffer(Lookup(vmm.pmm.mem, p.space.pml4, a), Lookup(vmm.pmm.mem, q.space.pml4, b), p.owned, q.owned);
    }

    lemma OwnedApart(p: Process, q: Process)
      requires p.Separate(q)
      ensures p.owned !! q.owned
    {
    }

    lemma HeapPagesApart(p: Process, a: Path, n: nat)
      requires Valid() && p in procs && p.space.User? && OwnPage(vmm.pmm.mem, p.space.pml4, a)
      requires HeapPage(vmm.pmm.mem, vmm.kernel, true, n, heap.held)
      ensures !SameFrame(Lookup(vmm.pmm.mem, p.space.pml4, a), PageAt(vmm.pmm.mem, vmm.kernel, n))
    {
      Members();
      hide Valid, Process.Valid, Lookup, PageAt, Vmm.Valid, OpenAbove;
      p.PagesOwned(a);
      FramesDiffer(Lookup(vmm.pmm.mem, p.space.pml4, a), PageAt(vmm.pmm.mem, vmm.kernel, n), p.owned, heap.held);
    }

    // ---- Steps of one process ----

    twostate lemma HeapStays(p: Process)
      requires old(Valid()) && unchanged(heap) && p in old(procs) && p.Valid() && Steps(old(p.Now()), p.Now(), p.space)
      ensures HeapValid() && p.owned !! heap.held && heap.Kept()
    {
      assert old(p.vmm == vmm && p.Valid() && p.owned !! heap.held && heap.Valid());
      TakesApart(old(p.owned), old(vmm.Out()), p.owned, vmm.Out(), heap.held);
      IntactPart(old(vmm.pmm.mem), vmm.pmm.mem, old(vmm.Out()), heap.held);
      hide Process.Valid, ProcessesValid, AllSeparate, OthersSame, Heap.Valid, Heap.Kept, Takes, Intact, Cleared;
      heap.Undisturbed(p.space);
    }

    // A step of one process leaves every other process and the heap as they were.
    twostate lemma Stepped(p: Process)
      requires old(Valid()) && unchanged(this) && p in procs && unchanged(heap)
      requires forall q :: q in procs && q != p ==> q.Untouched()
      requires p.Valid() && p.vmas.OnlyNewJoined()
      requires Steps(old(p.Now()), p.Now(), p.space)
      ensures Valid() && heap.Kept() && forall q :: q in procs && q != p ==> q.Kept()
    {
      hide *;
      WereMembers();
      HeapStays(p);
      forall q | q in procs && q != p ensures q.Valid() && q.Kept() && p.Separate(q) && q.owned !! heap.held {
        p.StepSpares(q);
        q.KeptOwned();
      }
      forall q, r | q in procs && r in procs && q != r ensures q.Separate(r) {
        if q != p && r != p {
          q.StillSeparate(r);
        } else if r == p {
          p.SeparateBoth(q);
        }
      }
      Assemble();
    }

    // page_fault_handler, of one process.
    method PageFault(p: Process, addr: nat, driverOk: bool) returns (r: Outcome)
      requires Valid() && p in procs && p.AbsentIfCovered(addr) && addr < 0x1_0000_0000_0000_0000
      modifies p`owned, p`stackBottom, p.vmas.Nodes(), vmm`tabs, vmm.pmm
      ensures r == Outcome.Panic ==> vmm.Stuck()
      ensures FaultHandled(old(p.Look()), p.Look(), p.space, p.stackBottomMax, addr, driverOk, r)
      ensures Valid() && heap.Kept() && forall q :: q in procs && q != p ==> q.Kept()
    {
      hide Valid, HeapValid, Process.Valid, FaultHandled, Steps, SameRegions, Process.AbsentIfCovered;
      hide Process.Look, Process.Kept, Heap.Kept;
      Members();
      assert forall q :: q in procs ==> allocated(InOrder(q.vmas.tree));
      p.LookIs();
      ghost var a := p.Look();
      r := p.PageFault(addr, driverOk);
      assert p.vmas.OnlyNewJoined();
      forall q | q in procs && q != p ensures q.Untouched() {
        assert old(p.Separate(q)) && unchanged(q.vmas) && old(allocated(InOrder(q.vmas.tree)));
        assert forall v :: v in InOrder(q.vmas.tree) ==> v !in old(p.vmas.Nodes());
      }
      FaultSteps(p, a, addr, driverOk, r);
      Stepped(p);
    }

    lemma FaultSteps(p: Process, a: Image, addr: nat, driverOk: bool, r: Outcome)
      requires FaultHandled(a, p.Look(), p.space, p.stackBottomMax, addr, driverOk, r)
      ensures Steps(a.view, p.Now(), p.space)
    {
      p.LookIs();
      hide FaultHandled, Steps;
      HandledKeeps(a, p.Look(), p.space, p.stackBottomMax, addr, driverOk, r);
    }

    // do_sys_mmap, of one process: an area within the lower half keeps everything in order, even one that
    // reaches over the stack; its lists then are wrong.
    method SysMmap(p: Process, length: nat, file: Option<File>, offset: nat) returns (r: int)
      requires Valid() && p in procs && length < 0x1_0000_0000_0000_0000
      modifies p.vmas
      ensures IsError(r) <==> AlignUp64(length) == 0 || (file != None && !file.value.canFault)
      ensures AlignUp64(length) == 0 ==>
        r == 0xFFFF_FFFF_FFFF_FFEA && p.Valid() && p.vmas.Areas() == old(p.vmas.Areas())
      ensures AlignUp64(length) != 0 && file != None && !file.value.canFault ==>
        r == 0xFFFF_FFFF_FFFF_FFED && p.Valid() && p.vmas.Areas() == old(p.vmas.Areas())
      ensures AlignUp64(length) != 0 && (file == None || file.value.canFault) ==>
        r == FirstFit(old(p.vmas.Areas()), length) &&
        p.vmas.Areas() == Insert(old(p.vmas.Areas()), NewArea(old(p.vmas.Areas()), length, file, offset)) &&
        (r + AlignUp64(length) <= 0x8000_0000_0000 ==> p.Valid()) &&
        (old(p.BelowStack()) ==> (Good(p.vmas.Areas()) && p.Agreed() <==> r + AlignUp64(length) <= p.stackBottom))
      ensures p.Valid() ==> Valid() && heap.Kept() && forall q :: q in procs && q != p ==> q.Kept()
    {
      hide Valid, HeapValid, Process.Valid, Steps, Process.Kept, Heap.Kept, AlignUp64, FirstFit, Insert, NewArea;
      hide Process.BelowStack, Process.Agreed;
      Members();
      assert forall q :: q in procs ==> allocated(InOrder(q.vmas.tree));
      r := p.SysMmap(length, file, offset);
      p.NoStepYet();
      forall q | q in procs && q != p ensures q.Untouched() {
        assert old(p.Separate(q)) && unchanged(q.vmas) && old(allocated(InOrder(q.vmas.tree)));
      }
      if p.Valid() { Stepped(p); }
    }

    // do_sys_munmap, of one process. None: it does not come back.
    method SysMunmap(p: Process, addr: nat, length: nat) returns (r: Option<int>)
      requires Valid() && p in procs && addr % 4096 == 0 && length < 0x1_0000_0000_0000_0000
      requires addr + AlignUp64(length) < 0x1_0000_0000_0000_0000
      modifies p.vmas, p.vmas.Nodes(), vmm.pmm`mem
      ensures MunmapHandled(old(p.Look()), p.Look(), p.space, p.stackBottomMax / 4096, p.stackTop / 4096, addr,
                            AlignUp64(length), r)
      ensures r != None ==> Valid() && heap.Kept() && forall q :: q in procs && q != p ==> q.Kept()
    {
      hide Valid, HeapValid, Process.Valid, Steps, Process.Kept, AlignUp64, MunmapHandled, Heap.Kept, Process.Look;
      Members();
      p.Parts();
      assert forall q :: q in procs ==> allocated(InOrder(q.vmas.tree));
      r := p.SysMunmap(addr, length);
      if r == None {
        return;
      }
      forall q | q in procs && q != p ensures q.Untouched() {
        assert old(p.Separate(q)) && unchanged(q.vmas) && old(allocated(InOrder(q.vmas.tree)));
        assert forall v :: v in InOrder(q.vmas.tree) ==> v !in old(p.vmas.Nodes());
      }
      Stepped(p);
    }

    // ---- Steps of the kernel, and of processes that come and go ----

    // A step of the heap leaves every process as it was.
    twostate lemma HeapStepped()
      requires old(Valid()) && unchanged(this) && heap.Valid() && KernelSteps(old(heap.Now()), heap.Now())
      requires forall q :: q in procs ==> q.Untouched()
      ensures Valid() && forall q :: q in procs ==> q.Kept()
    {
      WereMembers();
      hide *;
      HeapOurs();
      forall q | q in procs ensures q.Valid() && q.Kept() && q.owned !! heap.held { HeapSpares(q); }
      forall q, r | q in procs && r in procs && q != r ensures q.Separate(r) { q.StillSeparate(r); }
      Assemble();
    }

    twostate lemma HeapOurs()
      requires old(Valid()) && heap.Valid()
      ensures HeapValid()
    {
      assert heap.vmm == vmm;
    }

    twostate lemma HeapSpares(q: Process)
      requires old(Valid()) && q in old(procs) && q.Untouched()
      requires HeapValid() && KernelSteps(old(heap.Now()), heap.Now())
      ensures q.Valid() && q.Kept() && q.owned !! heap.held
    {
      assert old(q.vmm == vmm && q.Valid() && q.owned !! heap.held && heap.Valid() && heap.vmm == vmm);
      TakesApart(old(heap.held), old(vmm.Out()), heap.held, vmm.Out(), q.owned);
      IntactPart(old(vmm.pmm.mem), vmm.pmm.mem, old(vmm.Out()) - old(heap.held), q.owned);
      hide Process.Valid, ProcessesValid, AllSeparate, ProcessesSame, Heap.Valid, Takes, LowerSame, Intact;
      q.Undisturbed(Kernel);
    }

    // kmalloc
    method Kmalloc(size: nat) returns (r: Answer)
      requires Valid() && size < 0x1_0000_0000_0000_0000
      modifies heap, vmm`tabs, vmm.pmm
      ensures Answered(size, old(heap.Chain()), heap.Chain(), r)
      ensures r.Ptr? ==> Valid() && forall q :: q in procs ==> q.Kept()
      ensures r == Answer.Panic ==> vmm.Stuck()
    {
      hide Process.Valid, Heap.Valid, KernelSteps, Process.Kept, Answered;
      Members();
      assert heap.vmm == vmm && heap.Valid();
      assert forall q :: q in procs ==> allocated(InOrder(q.vmas.tree));
      hide Valid, HeapValid;
      r := heap.Kmalloc(size);
      if r.Ptr? { HeapStepped(); }
    }

    // kfree
    method Kfree(ptr: nat)
      requires Valid() && ptr < 0x1_0000_0000_0000_0000
      requires ptr > 32 && ptr % 4096 == 32 ==> ptr - 32 in heap.headers
      modifies heap`headers
      ensures forall b :: b in old(heap.headers) && ptr == b + 32 ==> Released(old(heap.Chain()), heap.Chain(), b)
      ensures (forall b :: b in old(heap.headers) ==> ptr != b + 32) ==> heap.Chain() == old(heap.Chain())
      ensures Valid() && forall q :: q in procs ==> q.Kept()
    {
      hide Process.Valid, Heap.Valid, KernelSteps, Process.Kept;
      Members();
      assert heap.vmm == vmm && heap.Valid();
      assert forall q :: q in procs ==> allocated(InOrder(q.vmas.tree));
      hide Valid, HeapValid;
      heap.Kfree(ptr);
      NoKernelStep(heap.Now());
      assert heap.Now() == old(heap.Now());
      HeapStepped();
    }

    // map_page, for what the kernel maps beside the heap: its image, its stacks, devices.
    method MapPage(virt: nat, phys: Frame, flags: Flags) returns (ok: bool)
      requires Valid() && 0xFFFF_8000_0000_0000 <= virt < 0x1_0000_0000_0000_0000
      requires !(HEAP_FIRST <= virt / 4096 < HEAP_END)
      modifies vmm`tabs, vmm.pmm
      ensures ok ==> PageAt(vmm.pmm.mem, vmm.kernel, virt / 4096) == Some(LeafWord(phys, flags))
      ensures ok ==>
        var leaf := PageAt(vmm.pmm.mem, vmm.kernel, virt / 4096).value;
        leaf.frame == phys && leaf.writable == flags.writable && leaf.user == flags.user && leaf.nx == flags.nx &&
        leaf.wthru == flags.wthru && leaf.nocache == flags.nocache
      ensures !ok ==> phys as nat * 4096 > vmm.cpuPageMask || vmm.pmm.Avail() == {}
      ensures Valid() && heap.Kept() && forall q :: q in procs ==> q.Kept()
    {
      hide Valid, HeapValid, Process.Valid, Process.Kept, Heap.Valid, Heap.Kept, KernelSteps, Vmm.Valid, Vmm.Out;
      hide OpenAbove, StaysOpen, Remapped, SameTranslations, Intact, HeapSame, PathOf, PageAt, OwnerOf, Shared;
      Members();
      KernelParts();
      KernelOwns(virt);
      assert forall q :: q in procs ==> allocated(InOrder(q.vmas.tree));
      ghost var v0 := heap.Now();
      ok := vmm.Map(Kernel, virt, phys, flags);
      KernelMapped(v0, virt, Some(LeafWord(phys, flags)), ok);
      StillOpen(v0.m, v0.tabs, true);
      heap.Beside();
      HeapStepped();
    }

    lemma KernelParts()
      requires Valid()
      ensures heap.vmm == vmm && heap.Valid() && heap.held <= vmm.Out() && vmm.Live(Kernel)
      ensures vmm.tabs[Root(Kernel)] == vmm.kernel
      ensures heap.Now() == View(vmm.pmm.mem, vmm.tabs, heap.held, vmm.Out())
    {
      vmm.RootFrame(Kernel);
    }

    lemma KernelOwns(virt: nat)
      ensures OwnerOf(Kernel, PathOf(virt)) == Kernel && !Shared(Root(Kernel), PathOf(virt).i4)
    {
    }

    lemma StillOpen(m0: Memory, tabs0: Tables, user: bool)
      requires OpenAbove(m0, tabs0) && user && StaysOpen(m0, tabs0, vmm.pmm.mem, vmm.tabs, user)
      ensures OpenAbove(vmm.pmm.mem, vmm.tabs)
    {
    }

    lemma KernelMapped(v0: View, virt: nat, leaf: Option<Word>, ok: bool)
      requires heap.vmm == vmm && v0.owned == heap.held && v0.out == vmm.Out() && Intact(v0.m, vmm.pmm.mem, v0.out)
      requires v0.owned <= v0.out && Root(Kernel) in v0.tabs && v0.tabs[Root(Kernel)] == vmm.kernel
      requires 0xFFFF_8000_0000_0000 <= virt < 0x1_0000_0000_0000_0000 && !(HEAP_FIRST <= virt / 4096 < HEAP_END)
      requires ok ==> Remapped(v0.m, v0.tabs, vmm.pmm.mem, vmm.tabs, Kernel, PathOf(virt), leaf)
      requires !ok ==> SameTranslations(v0.m, v0.tabs, vmm.pmm.mem, vmm.tabs)
      ensures HeapSame(v0.m, vmm.pmm.mem, vmm.kernel) && vmm.Live(Kernel) && Intact(v0.m, vmm.pmm.mem, heap.held)
      ensures ok ==> PageAt(vmm.pmm.mem, vmm.kernel, virt / 4096) == leaf
      ensures KernelSteps(v0, heap.Now())
    {
      hide SameTranslations, Remapped, ProcessesSame, PathOf, PageAt, HeapSame;
      var m, tabs := vmm.pmm.mem, vmm.tabs;
      KernelRemapped(v0.m, v0.tabs, m, tabs, PathOf(virt), leaf);
      IntactPart(v0.m, m, v0.out, heap.held);
      if ok {
        HeapBeside(v0.m, v0.tabs, m, tabs, vmm.kernel, virt, leaf);
        RootStays(v0.m, v0.tabs, m, tabs, PathOf(virt), leaf);
      } else {
        HeapUntouched(v0.m, v0.tabs, m, tabs, vmm.kernel);
        RootSame(v0.m, v0.tabs, m, tabs);
      }
    }

    lemma RootSame(m: Memory, tabs: Tables, m': Memory, tabs': Tables)
      requires SameTranslations(m, tabs, m', tabs') && Root(Kernel) in tabs
      ensures Root(Kernel) in tabs'
    {
      hide Lookup;
    }

    // The memory side of process_create.
    method Create() returns (p: Process?)
      requires Valid()
      modifies this`procs, vmm`tabs, vmm.pmm
      ensures p == null ==> vmm.Stuck()
      ensures p != null ==> fresh(p) && procs == old(procs) + {p} && p.vmas.Areas() == []
      ensures p != null ==>
        p.space.User? && OnlyStack(vmm.pmm.mem, p.space.pml4, p.stackBottom / 4096, p.stackTop / 4096)
      ensures p != null ==> Valid() && heap.Kept() && forall q :: q in old(procs) ==> q.Kept()
    {
      hide Valid, HeapValid, Process.Valid, Steps, Process.Kept, Heap.Kept, OnlyStack, OpenAbove, TablesOk, OthersSame;
      Members();
      assert forall q :: q in procs ==> allocated(InOrder(q.vmas.tree));
      p := Process.Create(vmm);
      if p != null {
        procs := procs + {p};
        Joined(p);
      }
    }

    // A new process takes nothing from the others.
    twostate lemma Joined(new p: Process)
      requires old(Valid()) && procs == old(procs) + {p} && unchanged(heap)
      requires fresh(p) && fresh(p.vmas) && p.vmm == vmm && p.Valid() && p.vmas.Areas() == []
      requires Root(p.space) !in old(vmm.tabs)
      requires Steps(View(old(vmm.pmm.mem), old(vmm.tabs), {}, old(vmm.Out())), p.Now(), p.space)
      requires forall q :: q in old(procs) ==> q.Untouched()
      ensures Valid() && heap.Kept() && forall q :: q in old(procs) ==> q.Kept()
    {
      hide *;
      WereMembers();
      HeapWelcomes(p);
      forall q | q in old(procs)
        ensures q.Valid() && q.Kept() && q.owned !! heap.held && q.Separate(p) && p.Separate(q)
      {
        q.MemIs();
        q.SparedByNew(p);
        q.KeptOwned();
      }
      forall q, r | q in procs && r in procs && q != r ensures q.Separate(r) {
        if q != p && r != p { q.StillSeparate(r); }
      }
      Assemble();
    }

    twostate lemma HeapWelcomes(new p: Process)
      requires old(Valid()) && unchanged(heap) && p.vmm == vmm && p.Valid()
      requires Steps(View(old(vmm.pmm.mem), old(vmm.tabs), {}, old(vmm.Out())), p.Now(), p.space)
      ensures HeapValid() && p.owned !! heap.held && heap.Kept()
    {
      assert old(heap.Valid() && heap.held <= vmm.Out());
      TakesApart({}, old(vmm.Out()), p.owned, vmm.Out(), heap.held);
      IntactPart(old(vmm.pmm.mem), vmm.pmm.mem, old(vmm.Out()), heap.held);
      hide Process.Valid, ProcessesValid, AllSeparate, OthersSame, Heap.Valid, Heap.Kept, Takes, Intact, Cleared;
      heap.Undisturbed(p.space);
    }

    // paging_destroy_address_space, of one process.
    method Destroy(p: Process)
      requires Valid() && p in procs
      modifies this`procs, vmm`tabs, vmm.pmm`mem, vmm.pmm`head, vmm.pmm`free
      ensures procs == old(procs) - {p} && !vmm.Live(p.space)
      ensures vmm.pmm.free == Reverse(AllPushes(old(vmm.pmm.mem), p.space.pml4)) + old(vmm.pmm.free)
      ensures Valid() && heap.Kept() && forall q :: q in procs ==> q.Kept()
    {
      hide Valid, HeapValid, Process.Valid, Steps, Process.Kept, Heap.Kept, OnlyStack, OpenAbove, TablesOk, OthersSame;
      hide AllPushes, Intact;
      Members();
      assert forall q :: q in procs ==> allocated(InOrder(q.vmas.tree));
      p.Parts();
      p.Destroy();
      procs := procs - {p};
      Dropped(p);
    }

    // A process that goes takes only what was its own.
    twostate lemma Dropped(p: Process)
      requires old(Valid()) && p in old(procs) && procs == old(procs) - {p} && unchanged(heap)
      requires vmm.Valid() && OpenAbove(vmm.pmm.mem, vmm.tabs) && p.space.User?
      requires OthersSame(old(vmm.pmm.mem), old(vmm.tabs), vmm.pmm.mem, vmm.tabs, p.space)
      requires old(vmm.Out()) - old(p.owned) <= vmm.Out()
      requires Intact(old(vmm.pmm.mem), vmm.pmm.mem, old(vmm.Out()) - old(p.owned))
      requires forall q :: q in procs ==> q.Untouched()
      ensures Valid() && heap.Kept() && forall q :: q in procs ==> q.Kept()
    {
      hide *;
      WereMembers();
      HeapOutlives(p);
      forall q | q in procs ensures q.Valid() && q.Kept() && q.owned !! heap.held {
        p.MemIs();
        p.GoneSpares(q);
        q.KeptOwned();
      }
      forall q, r | q in procs && r in procs && q != r ensures q.Separate(r) { q.StillSeparate(r); }
      Assemble();
    }

    twostate lemma HeapOutlives(p: Process)
      requires old(Valid()) && p in old(procs) && unchanged(heap)
      requires vmm.Valid() && OpenAbove(vmm.pmm.mem, vmm.tabs) && p.space.User?
      requires OthersSame(old(vmm.pmm.mem), old(vmm.tabs), vmm.pmm.mem, vmm.tabs, p.space)
      requires old(vmm.Out()) - old(p.owned) <= vmm.Out()
      requires Intact(old(vmm.pmm.mem), vmm.pmm.mem, old(vmm.Out()) - old(p.owned))
      ensures HeapValid() && heap.Kept()
    {
      assert old(p.owned !! heap.held && heap.Valid() && heap.held <= vmm.Out());
      IntactPart(old(vmm.pmm.mem), vmm.pmm.mem, old(vmm.Out()) - old(p.owned), heap.held);
      hide Process.Valid, ProcessesValid, AllSeparate, OthersSame, Heap.Valid, Heap.Kept, Intact;
      heap.Undisturbed(p.space);
    }
  }
}
