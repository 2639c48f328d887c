// A process's memory: stack growth (process.c), the page-fault handler (main.c), and mapping and
// unmapping areas with the pages behind them (vma.c).

module Processes {
  import opened PageFormat
  import opened Sequences
  import opened MemoryMap
  import opened PhysicalMemory
  import opened PageTables
  import opened Teardown
  import opened Ownership
  import opened VirtualMemory
  import opened Regions
  import opened VmaTrees
  import opened UserPages
  import opened Faults

  class Process {
    const vmm: Vmm
    const space: Space  // address_space
    const vmas: VmaTree
    var stackBottom: nat
    const stackBottomMax: nat
    const stackTop: nat
    ghost var owned: set<Frame>  // the frames taken for its pages

    ghost function Mem(): Memory
      reads vmm, vmm.pmm
    {
      vmm.pmm.mem
    }

    ghost function Now(): View
      reads this`owned, vmm, vmm.pmm
    {
      View(vmm.pmm.mem, vmm.tabs, owned, vmm.Out())
    }

    ghost function Look(): Image
      reads this, vmm, vmm.pmm, vmas, InOrder(vmas.tree)
    {
      Image(Now(), stackBottom, vmas.Areas())
    }

    // The page tables and the frames behind this process's pages.
    ghost predicate PagesValid()
      reads this`owned, vmm, vmm.pmm
    {
      vmm.Valid() && space.User? && vmm.Live(space) && PrivatePages(vmm.pmm.mem, space.pml4, owned) &&
      owned <= vmm.Out() && OpenAbove(vmm.pmm.mem, vmm.tabs)
    }

    // Pages, stack and areas are in order. Lists and tables agree beside the stack's range; whether they
    // agree within it is Agreed.
    ghost predicate Valid()
      reads this, vmm, vmm.pmm, vmas, InOrder(vmas.tree)
    {
      PagesValid() && vmas.Valid() &&
      stackBottom % 4096 == 0 && stackBottomMax % 4096 == 0 && stackTop % 4096 == 0 &&
      0x1000_0000 <= stackBottomMax && stackBottom <= stackBottomMax + 128 * 4096 &&
      StackOk(vmm.pmm.mem, space.pml4, stackBottomMax / 4096, stackBottom / 4096, stackTop / 4096) &&
      AreasAgree(vmm.pmm.mem, space.pml4, vmas.Areas(), stackBottomMax / 4096, stackTop / 4096)
    }

    constructor (vmm: Vmm, space: Space)
      ensures this.vmm == vmm && this.space == space && owned == {} && fresh(vmas) && vmas.Valid() && vmas.Areas() == []
      ensures stackTop == 0xf000_0000 && stackBottom == 0xf000_0000 - 32 * 4096
      ensures stackBottomMax == stackBottom - 4096 * 128
    {
      this.vmm, this.space, owned := vmm, space, {};
      vmas := new VmaTree();
      stackTop := 0xf000_0000;
      stackBottom := 0xf000_0000 - 32 * 4096;
      stackBottomMax := 0xf000_0000 - 32 * 4096 - 4096 * 128;
    }

    // pmm_alloc_page and vmm_map of the frame at page n, as grow_user_stack and the fault handler do.
    method MapFresh(n: nat) returns (f: Option<Frame>)
      requires PagesValid() && n < 0x8_0000_0000
      modifies this`owned, vmm`tabs, vmm.pmm
      ensures f == None ==> vmm.Stuck()
      ensures PagesValid() && Steps(old(Now()), Now(), space)
      ensures f == None ==> PagesSame(old(vmm.pmm.mem), vmm.pmm.mem, space.pml4) && owned == old(owned)
      ensures f != None ==> f.value !in old(vmm.Out()) && owned == old(owned) + {f.value}
      ensures f != None ==>
        PageSet(old(vmm.pmm.mem), vmm.pmm.mem, space.pml4, n, Some(LeafWord(f.value, UserFlags())))
      ensures if f == None then NothingAdded(old(Now()), Now(), space.pml4)
              else PageTaken(old(Now()), Now(), space.pml4, n, f.value)
    {
      hide ListOk, CursorOk, FramesFrom, TablesOk, OpenAbove, PrivatePages, PagesSame, PageSet, OthersSame, Grown;
      hide SameTranslations, Remapped, PathOf, Takes, Intact, Steps, PageTaken, NothingAdded, Now, Lookup;
      hide EffectiveRights, StaysOpen;
      MemIs();
      NowIs();
      ghost var v0, m0, tabs0, out0 := Now(), vmm.pmm.mem, vmm.tabs, vmm.Out();
      vmm.RootFrame(space);
      PathNumber(n * 4096);
      f := vmm.AllocFrame();
      ghost var m1 := vmm.pmm.mem;
      FrameAllocated(m0, tabs0, m1);
      StillOpen(m0, tabs0, true);
      if f == None {
        vmm.NoFrames();
        OthersAfter(m0, tabs0, m1, tabs0, m1, tabs0, space, PathOf(0), None);
        TookNothing(v0);
        return;
      }
      vmm.RootFrame(space);
      var ok := vmm.Map(space, n * 4096, f.value, UserFlags());
      IntactThenIntact(m0, m1, vmm.pmm.mem, out0, vmm.Out());
      StillOpen(m1, tabs0, OwnerOf(space, PathOf(n * 4096)).User? ==> UserFlags().user);
      if ok {
        FrameMapped(m0, m1, tabs0, n, f.value);
        owned := owned + {f.value};
        TookPage(v0, m1, n, f.value);
      } else {
        NotMapped(m0, m1, tabs0);
        vmm.NoneLeft(f.value);
        TookNothing(v0);
        f := None;
      }
    }

    lemma StillOpen(m0: Memory, tabs0: Tables, user: bool)
      requires OpenAbove(m0, tabs0) && user && StaysOpen(m0, tabs0, vmm.pmm.mem, vmm.tabs, user)
      ensures OpenAbove(vmm.pmm.mem, vmm.tabs)
    {
    }

    lemma NowIs()
      ensures Now() == View(vmm.pmm.mem, vmm.tabs, owned, vmm.Out())
    {
    }

    lemma TookNothing(v0: View)
      requires space.User? && owned == v0.owned && v0.out <= vmm.Out() && Intact(v0.m, vmm.pmm.mem, v0.out)
      requires OthersSame(v0.m, v0.tabs, vmm.pmm.mem, vmm.tabs, space) && PagesSame(v0.m, vmm.pmm.mem, space.pml4)
      ensures Steps(v0, Now(), space) && NothingAdded(v0, Now(), space.pml4)
    {
      hide OthersSame, PagesSame, Intact;
      TakesNothing(owned, v0.out, vmm.Out());
    }

    // A frame that was clear when it was taken still is when it is mapped.
    lemma TookPage(v0: View, m1: Memory, n: nat, f: Frame)
      requires space.User? && v0.owned <= v0.out && f !in v0.out && f as nat < |m1| && m1[f] == ZeroPage()
      requires owned == v0.owned + {f} && vmm.Out() == v0.out + {f}
      requires Intact(v0.m, vmm.pmm.mem, v0.out) && Intact(m1, vmm.pmm.mem, vmm.Out())
      requires OthersSame(v0.m, v0.tabs, vmm.pmm.mem, vmm.tabs, space)
      requires PageSet(v0.m, vmm.pmm.mem, space.pml4, n, Some(LeafWord(f, UserFlags())))
      ensures Steps(v0, Now(), space) && PageTaken(v0, Now(), space.pml4, n, f)
    {
      hide OthersSame, PageSet;
      TakesOne(v0.owned, v0.out, f, vmm.Out());
    }

    lemma FrameAllocated(m0: Memory, tabs0: Tables, m1: Memory)
      requires space.User? && Root(space) in tabs0 && tabs0[Root(space)] == space.pml4
      requires TablesOk(m0, tabs0, vmm.kernel) && TablesOk(m1, tabs0, vmm.kernel) && Grown(m0, tabs0, m1, tabs0)
      requires PrivatePages(m0, space.pml4, owned)
      ensures SameTranslations(m0, tabs0, m1, tabs0) && SameTranslations(m1, tabs0, m1, tabs0)
      ensures PagesSame(m0, m1, space.pml4) && PrivatePages(m1, space.pml4, owned)
    {
      hide TablesOk, PrivatePages, PagesSame, SameTranslations, Grown;
      GrownIsSame(m0, tabs0, m1, tabs0, vmm.kernel);
      GrownReflexive(m1, tabs0);
      GrownIsSame(m1, tabs0, m1, tabs0, vmm.kernel);
      SamePages(m0, tabs0, m1, tabs0, space.pml4);
      SameKeepsPrivate(m0, tabs0, m1, tabs0, space.pml4, owned, owned);
    }

    lemma FrameMapped(m0: Memory, m1: Memory, tabs0: Tables, n: nat, f: Frame)
      requires space.User? && Root(space) in tabs0 && tabs0[Root(space)] == space.pml4 && n < 0x8_0000_0000
      requires SameTranslations(m0, tabs0, m1, tabs0) && PagesSame(m0, m1, space.pml4)
      requires Remapped(m1, tabs0, vmm.pmm.mem, vmm.tabs, space, PathOf(n * 4096), Some(LeafWord(f, UserFlags())))
      requires PrivatePages(m1, space.pml4, owned) && f !in owned
      ensures PageSet(m0, vmm.pmm.mem, space.pml4, n, Some(LeafWord(f, UserFlags())))
      ensures OthersSame(m0, tabs0, vmm.pmm.mem, vmm.tabs, space) && PrivatePages(vmm.pmm.mem, space.pml4, owned + {f})
      ensures vmm.Live(space)
    {
      StillLive(m1, tabs0);
      hide TablesOk, PrivatePages, PagesSame, SameTranslations, Remapped, PageSet, OthersSame, PathOf;
      var leaf := Some(LeafWord(f, UserFlags()));
      RemappedPage(m1, tabs0, vmm.pmm.mem, vmm.tabs, space.pml4, n, leaf);
      SameThenSet(m0, m1, vmm.pmm.mem, space.pml4, n, leaf);
      OthersAfter(m0, tabs0, m1, tabs0, vmm.pmm.mem, vmm.tabs, space, PathOf(n * 4096), leaf);
      RemapKeepsPrivate(m1, tabs0, vmm.pmm.mem, vmm.tabs, space.pml4, PathOf(n * 4096), leaf, owned, owned + {f});
    }

    lemma StillLive(m1: Memory, tabs0: Tables)
      requires Root(space) in tabs0
      requires SameTranslations(m1, tabs0, vmm.pmm.mem, vmm.tabs) ||
        exists p, leaf :: Remapped(m1, tabs0, vmm.pmm.mem, vmm.tabs, space, p, leaf)
      ensures vmm.Live(space)
    {
    }

    lemma NotMapped(m0: Memory, m1: Memory, tabs0: Tables)
      requires space.User? && Root(space) in tabs0 && tabs0[Root(space)] == space.pml4
      requires SameTranslations(m0, tabs0, m1, tabs0) && PagesSame(m0, m1, space.pml4)
      requires SameTranslations(m1, tabs0, vmm.pmm.mem, vmm.tabs) && PrivatePages(m1, space.pml4, owned)
      ensures PagesSame(m0, vmm.pmm.mem, space.pml4)
      ensures OthersSame(m0, tabs0, vmm.pmm.mem, vmm.tabs, space) && PrivatePages(vmm.pmm.mem, space.pml4, owned)
      ensures vmm.Live(space)
    {
      StillLive(m1, tabs0);
      hide TablesOk, PrivatePages, PagesSame, SameTranslations, OthersSame;
      SamePages(m1, tabs0, vmm.pmm.mem, vmm.tabs, space.pml4);
      SameThenSame(m0, m1, vmm.pmm.mem, space.pml4);
      OthersAfter(m0, tabs0, m1, tabs0, vmm.pmm.mem, vmm.tabs, space, Path(0, 0, 0, 0), None);
      SameKeepsPrivate(m1, tabs0, vmm.pmm.mem, vmm.tabs, space.pml4, owned, owned);
    }

    // vmm_unmap of a page that is there.
    method UnmapPage(n: nat)
      requires PagesValid() && n < 0x8_0000_0000 && PageAt(Mem(), space.pml4, n).Some?
      modifies vmm.pmm`mem
      ensures PagesValid() && vmm.Out() == old(vmm.Out())
      ensures PageSet(old(Mem()), Mem(), space.pml4, n, None)
      ensures Steps(old(Now()), Now(), space)
    {
      hide ListOk, CursorOk, FramesFrom, TablesOk, OpenAbove, PrivatePages, PageSet, OthersSame, Remapped, PathOf;
      hide Lookup;
      hide Mappable, Takes;
      ghost var m0 := vmm.pmm.mem;
      TakesNothing(owned, vmm.Out(), vmm.Out());
      vmm.RootFrame(space);
      PathNumber(n * 4096);
      MappedIsMappable(m0, space.pml4, PathOf(n * 4096));
      vmm.Unmap(space, n * 4096);
      PageUnmapped(m0, n);
    }

    lemma PageUnmapped(m0: Memory, n: nat)
      requires space.User? && Root(space) in vmm.tabs && vmm.tabs[Root(space)] == space.pml4 && n < 0x8_0000_0000
      requires Remapped(m0, vmm.tabs, Mem(), vmm.tabs, space, PathOf(n * 4096), None)
      requires PrivatePages(m0, space.pml4, owned)
      ensures PageSet(m0, Mem(), space.pml4, n, None)
      ensures OthersSame(m0, vmm.tabs, Mem(), vmm.tabs, space) && PrivatePages(Mem(), space.pml4, owned)
    {
      hide TablesOk, PrivatePages, PagesSame, SameTranslations, Remapped, PageSet, OthersSame, PathOf;
      RemappedPage(m0, vmm.tabs, Mem(), vmm.tabs, space.pml4, n, None);
      OthersRemapped(m0, vmm.tabs, Mem(), vmm.tabs, space, PathOf(n * 4096), None);
      RemapKeepsPrivate(m0, vmm.tabs, Mem(), vmm.tabs, space.pml4, PathOf(n * 4096), None, owned, owned);
    }

    // The memory side of process_create: a new address space with the initial stack mapped.
    static method Create(vmm: Vmm) returns (p: Process?)
      requires vmm.Valid() && OpenAbove(vmm.pmm.mem, vmm.tabs)
      modifies vmm`tabs, vmm.pmm
      ensures p == null ==> vmm.Stuck()
      ensures p != null ==> fresh(p) && fresh(p.vmas) && p.vmm == vmm && p.Valid() && p.vmas.Areas() == []
      ensures p != null ==>
        p.space.User? && OnlyStack(vmm.pmm.mem, p.space.pml4, p.stackBottom / 4096, p.stackTop / 4096)
      ensures p != null ==> p.stackTop == 0xf000_0000 && p.stackBottom == p.stackTop - 32 * 4096 &&
                            p.stackBottomMax == p.stackBottom - 128 * 4096
      ensures p != null ==> Root(p.space) !in old(vmm.tabs)
      ensures p != null ==> Steps(View(old(vmm.pmm.mem), old(vmm.tabs), {}, old(vmm.Out())), p.Now(), p.space)
    {
      hide ListOk, CursorOk, FramesFrom, TablesOk, OpenAbove, Created, PrivatePages, OthersSame, OnlyStack;
      hide StackOk, AreasAgree;
      hide Takes;
      ghost var m0, tabs0, out0 := vmm.pmm.mem, vmm.tabs, vmm.Out();
      var space := vmm.CreateAddressSpace();
      if space == None {
        return null;
      }
      p := new Process(vmm, space.value);
      CreatedRoot(m0, tabs0, vmm.pmm.mem, vmm.tabs, vmm.kernel, space.value);
      FreshSpace(m0, tabs0, vmm.pmm.mem, vmm.tabs, vmm.kernel, space.value, p.stackBottom / 4096, {});
      TakesNothing({}, out0, vmm.Out());
      var ok := p.MapStack(View(m0, tabs0, {}, out0));
      if !ok {
        return null;
      }
    }

    method MapStack(ghost v0: View) returns (ok: bool)
      requires PagesValid() && space.User? && vmas.Valid() && vmas.Areas() == []
      requires stackTop == 0xf000_0000 && stackBottom == stackTop - 32 * 4096
      requires stackBottomMax == stackBottom - 128 * 4096
      requires OnlyStack(Mem(), space.pml4, stackBottom / 4096, stackBottom / 4096)
      requires Steps(v0, Now(), space)
      modifies this`owned, vmm`tabs, vmm.pmm
      ensures !ok ==> vmm.Stuck()
      ensures Steps(v0, Now(), space)
      ensures ok ==> Valid() && vmas.Areas() == [] && OnlyStack(Mem(), space.pml4, stackBottom / 4096, stackTop / 4096)
    {
      assert allocated(InOrder(vmas.tree));
      StackNumbers();
      hide *;
      ghost var vs := vmas.Areas();
      ok := MapStackPages(v0);
      assert vmas.Areas() == vs;
      assert vmas.Valid();
      if ok {
        StackMade(Mem(), space.pml4, stackBottomMax / 4096, stackBottom / 4096, stackTop / 4096);
        EmptyWhole();
      }
    }

    lemma StackNumbers()
      requires stackTop == 0xf000_0000 && stackBottom == stackTop - 32 * 4096
      requires stackBottomMax == stackBottom - 128 * 4096
      ensures stackBottomMax / 4096 <= stackBottom / 4096 && stackBottom / 4096 + 32 == stackTop / 4096 <= 0x8_0000_0000
    {
    }

    lemma EmptyWhole()
      requires stackTop == 0xf000_0000 && stackBottom == stackTop - 32 * 4096
      requires stackBottomMax == stackBottom - 128 * 4096
      requires PagesValid() && vmas.Valid() && vmas.Areas() == []
      requires StackOk(Mem(), space.pml4, stackBottomMax / 4096, stackBottom / 4096, stackTop / 4096)
      requires AreasAgree(Mem(), space.pml4, [], stackBottomMax / 4096, stackTop / 4096)
      ensures Valid()
    {
      hide PagesValid, StackOk, AreasAgree, VmaTree.Valid;
    }

    // process_create's loop over the pages of the stack.
    method MapStackPages(ghost v0: View) returns (ok: bool)
      requires PagesValid() && space.User? && stackBottom == 0xf000_0000 - 32 * 4096
      requires OnlyStack(Mem(), space.pml4, stackBottom / 4096, stackBottom / 4096)
      requires Steps(v0, Now(), space)
      modifies this`owned, vmm`tabs, vmm.pmm
      ensures !ok ==> vmm.Stuck()
      ensures PagesValid() && Steps(v0, Now(), space)
      ensures ok ==> OnlyStack(Mem(), space.pml4, stackBottom / 4096, stackBottom / 4096 + 32)
    {
      hide PagesValid, OnlyStack, Steps;
      var i := 0;
      while i < 32
        invariant i <= 32 && PagesValid()
        invariant OnlyStack(Mem(), space.pml4, stackBottom / 4096, stackBottom / 4096 + i)
        invariant Steps(v0, Now(), space)
      {
        var mapped := MapStackPage(i, v0);
        if !mapped {
          return false;
        }
        i := i + 1;
      }
      ok := true;
    }

    method MapStackPage(i: nat, ghost v0: View) returns (ok: bool)
      requires PagesValid() && space.User? && stackBottom == 0xf000_0000 - 32 * 4096 && i < 32
      requires OnlyStack(Mem(), space.pml4, stackBottom / 4096, stackBottom / 4096 + i)
      requires Steps(v0, Now(), space)
      modifies this`owned, vmm`tabs, vmm.pmm
      ensures !ok ==> vmm.Stuck()
      ensures PagesValid() && Steps(v0, Now(), space)
      ensures ok ==> OnlyStack(Mem(), space.pml4, stackBottom / 4096, stackBottom / 4096 + i + 1)
    {
      hide PagesValid, PageSet, PagesSame, OnlyStack, Steps, Now;
      ghost var m1, v1 := Mem(), Now();
      var f := MapFresh(stackBottom / 4096 + i);
      StepsTransitive(v0, v1, Now(), space);
      ok := f != None;
      if ok { StackPageAdded(m1, Mem(), space.pml4, stackBottom / 4096, stackBottom / 4096 + i, f.value); }
    }

    // grow_user_stack
    method GrowUserStack() returns (r: Outcome)
      requires Valid()
      modifies this`owned, this`stackBottom, vmm`tabs, vmm.pmm
      ensures r == Panic ==> vmm.Stuck()
      ensures Valid()
      ensures Steps(old(Now()), Now(), space)
      ensures r == Done(false) <==> old(stackBottom) == stackBottomMax
      ensures r == Done(true) ==> stackBottom == old(stackBottom) - 4096
      ensures r == Done(true) ==> PageAdded(old(Now()), Now(), space.pml4, stackBottom / 4096)
      ensures r != Done(true) ==> stackBottom == old(stackBottom) && NothingAdded(old(Now()), Now(), space.pml4)
    {
      hide *;
      StackRange();
      ghost var m0, v0, vs := vmm.pmm.mem, Now(), vmas.Areas();
      ghost var max, bottom, top := stackBottomMax / 4096, stackBottom / 4096, stackTop / 4096;
      assert allocated(InOrder(vmas.tree));
      Parts();
      if stackBottom - 4096 < stackBottomMax {
        NoStepYet();
        return Done(false);
      }
      var f := MapFresh(stackBottom / 4096 - 1);
      assert vmas.Areas() == vs && vmas.Valid();
      if f == None {
        NothingMoves(m0, vmm.pmm.mem, space.pml4, max, bottom, top, vs);
        Whole();
        return Panic;
      }
      StackGrown(m0, vmm.pmm.mem, space.pml4, max, bottom, top, vs, f.value);
      OneAdded(v0, Now(), space.pml4, bottom - 1, f.value);
      stackBottom := stackBottom - 4096;
      assert Now() == View(vmm.pmm.mem, vmm.tabs, owned, vmm.Out()) by { NowIs(); }
      assert vmas.Areas() == vs && vmas.Valid() && PagesValid();
      assert stackBottom / 4096 == bottom - 1;
      Whole();
      r := Done(true);
    }

    lemma OneAdded(a: View, b: View, pml4: Frame, n: nat, f: Frame)
      requires PageTaken(a, b, pml4, n, f)
      ensures PageAdded(a, b, pml4, n)
    {
      hide PageTaken;
    }

    // vma_fault_handler. A file's driver answers for itself; its mappings are not modelled.
    method VmaFault(v: VmArea, ghost k: nat, addr: nat, driverOk: bool) returns (r: Outcome)
      requires Valid() && k < |vmas.Nodes()| && vmas.Nodes()[k] == v && v.start <= addr < v.end
      requires PageAt(vmm.pmm.mem, space.pml4, addr / 4096) == None && !(stackBottomMax <= addr < stackTop)
      modifies this`owned, v`pages, vmm`tabs, vmm.pmm
      ensures r == Panic ==> vmm.Stuck()
      ensures Valid() && AreaHandled(old(Look()), Look(), space, addr, driverOk, r)
    {
      FoundBacking(v, k, addr);
      ghost var a := Look();
      if v.file != None {
        FileHandled(a, addr, driverOk);
        return Done(driverOk);
      }
      hide *;
      var ok, f := AnonFault(v, k, addr);
      AnonHandled(a, Look(), k, addr, driverOk, ok, f);
      r := if ok then Done(true) else Panic;
    }

    lemma FoundBacking(v: VmArea, k: nat, addr: nat)
      requires Valid() && k < |vmas.Nodes()| && vmas.Nodes()[k] == v && v.start <= addr < v.end
      ensures space.User? && k < |vmas.Areas()|
      ensures if v.file == None then BackingOf(vmas.Areas(), addr) == Anonymous
              else BackingOf(vmas.Areas(), addr).FileAt?
    {
      assert vmas.Areas()[k] == v.Value();
      BackingAt(vmas.Areas(), k, addr);
    }

    lemma FileHandled(a: Image, addr: nat, driverOk: bool)
      requires space.User? && BackingOf(a.areas, addr).FileAt?
      ensures AreaHandled(a, a, space, addr, driverOk, Done(driverOk))
    {
      NoStep(a.view, space);
    }

    lemma AnonHandled(a: Image, b: Image, k: nat, addr: nat, driverOk: bool, ok: bool, f: Frame)
      requires space.User? && BackingOf(a.areas, addr) == Anonymous && Steps(a.view, b.view, space)
      requires b.bottom == a.bottom
      requires !ok ==> NothingAdded(a.view, b.view, space.pml4) && b.areas == a.areas
      requires ok ==> PageListed(a, b, space.pml4, k, addr / 4096, f)
      ensures AreaHandled(a, b, space, addr, driverOk, if ok then Done(true) else Panic)
    {
      hide PageListed, NothingAdded, Steps, BackingOf;
    }

    // The anonymous case: a fresh page, mapped and listed.
    method AnonFault(v: VmArea, ghost k: nat, addr: nat) returns (ok: bool, ghost f: Frame)
      requires Valid() && k < |vmas.Nodes()| && vmas.Nodes()[k] == v && v.start <= addr < v.end
      requires PageAt(vmm.pmm.mem, space.pml4, addr / 4096) == None && !(stackBottomMax <= addr < stackTop)
      modifies this`owned, v`pages, vmm`tabs, vmm.pmm
      ensures !ok ==> vmm.Stuck()
      ensures Valid() && Steps(old(Look()).view, Look().view, space) && Look().bottom == old(Look()).bottom
      ensures !ok ==> NothingAdded(old(Look()).view, Look().view, space.pml4) && Look().areas == old(Look()).areas
      ensures ok ==> PageListed(old(Look()), Look(), space.pml4, k, addr / 4096, f)
    {
      hide *;
      f := 0;
      ghost var a, m0, vs := Look(), vmm.pmm.mem, vmas.Areas();
      ghost var max, bottom, top := stackBottomMax / 4096, stackBottom / 4096, stackTop / 4096;
      InsideArea(k, addr);
      assert allocated(InOrder(vmas.tree));
      Parts();
      LookIs();
      var n := addr / 4096;
      var page := MapFresh(n);
      assert vmas.Areas() == vs && vmas.Valid();
      ok := page != None;
      if !ok {
        NothingMoves(m0, vmm.pmm.mem, space.pml4, max, bottom, top, vs);
        Whole();
        LookIs();
        return;
      }
      f := page.value;
      AreaFaulted(m0, vmm.pmm.mem, space.pml4, max, bottom, top, vs, k, n, f);
      AddListed(v, k, n, page.value);
      assert PagesValid();
      Whole();
      LookIs();
      OneListed(a, Look(), k, n, f);
    }

    lemma OneListed(a: Image, b: Image, k: nat, n: nat, f: Frame)
      requires space.User? && PageTaken(a.view, b.view, space.pml4, n, f)
      requires k < |a.areas| && UserPages.Inside(a.areas[k], n)
      requires b.areas == a.areas[k := WithPage(a.areas[k], n, f)]
      ensures PageListed(a, b, space.pml4, k, n, f)
    {
      hide PageTaken;
    }

    lemma LookIs()
      ensures Look() == Image(Now(), stackBottom, vmas.Areas()) && Now().m == vmm.pmm.mem
    {
    }

    method AddListed(v: VmArea, ghost k: nat, n: nat, f: Frame)
      requires vmas.Valid() && k < |vmas.Nodes()| && vmas.Nodes()[k] == v
      requires Good(vmas.Areas()[k := WithPage(v.Value(), n, f)])
      modifies v`pages
      ensures vmas.Valid() && vmas.Areas() == old(vmas.Areas())[k := WithPage(old(v.Value()), n, f)]
    {
      hide Good;
      assert allocated(InOrder(vmas.tree));
      vmas.AddPage(v, k, PhysPage(n * 4096, f));
    }

    lemma Located(v: VmArea, k: nat, addr: nat, len: nat)
      requires Valid() && k < |vmas.Nodes()| && vmas.Nodes()[k] == v && v.start <= addr < v.end
      requires 0 < len && addr + len < 0x1_0000_0000_0000_0000
      ensures k < |vmas.Areas()| && vmas.Areas()[k] == v.Value() && v in vmas.Nodes() && Wrap(addr + len) == addr + len
      ensures Unmappable(vmas.Areas(), addr, len) <==> addr + len <= v.end
      ensures addr + len <= v.end ==> CanUnmap(vmas.Areas(), k, addr, len)
    {
      hide AreasAgree, StackOk;
      OnlyArea(vmas.Areas(), k, addr, len);
    }

    lemma InsideArea(k: nat, addr: nat)
      requires Valid() && k < |vmas.Nodes()| && vmas.Nodes()[k].start <= addr < vmas.Nodes()[k].end
      requires !(stackBottomMax <= addr < stackTop)
      ensures space.User? && k < |vmas.Areas()|
      ensures vmas.Areas()[k] == vmas.Nodes()[k].Value() && UserPages.Inside(vmas.Areas()[k], addr / 4096)
      ensures Beside(vmas.Areas()[k], addr / 4096, stackBottomMax / 4096, stackTop / 4096)
      ensures addr / 4096 < 0x8_0000_0000
    {
      hide Vmm.Valid, PrivatePages, OpenAbove, Agrees, StackOk;
    }

    // vma_destroy, for an area that listed these pages when it was still whole.
    method VmaDestroy(v: VmArea, ghost area: Vma)
      requires PagesValid() && v.pages == area.pages && area.end <= 0x8000_0000_0000
      requires Agrees(Mem(), space.pml4, area, stackBottomMax / 4096, stackTop / 4096)
      modifies vmm.pmm`mem
      ensures PagesValid()
      ensures PagesGone(old(Mem()), Mem(), space.pml4, Starts(area.pages))
      ensures Steps(old(Now()), Now(), space)
    {
      NoStepYet();
      var pages := v.pages;
      ghost var m0, v0 := Mem(), Now();
      NothingGone(m0, space.pml4, pages);
      hide PagesValid, PagesGone, PageSet, Steps, Agrees, PageAt, Now;
      var i := 0;
      while i < |pages|
        invariant i <= |pages| && PagesValid()
        invariant PagesGone(m0, Mem(), space.pml4, Starts(pages[..i]))
        invariant Steps(v0, Now(), space) && vmm.Out() == v0.out
      {
        ghost var m1, v1 := Mem(), Now();
        StillListed(m0, m1, space.pml4, area, i, stackBottomMax / 4096, stackTop / 4096);
        UnmapPage(pages[i].start / 4096);
        OneMoreGone(m0, m1, Mem(), space.pml4, pages, i);
        StepsTransitive(v0, v1, Now(), space);
        i := i + 1;
      }
      assert pages[..i] == pages;
    }

    // Every area lists exactly its pages that translate.
    ghost predicate Agreed()
      reads this, vmm, vmm.pmm, vmas, InOrder(vmas.tree)
    {
      space.User? && AllListed(vmm.pmm.mem, space.pml4, vmas.Areas())
    }

    // Every area ends at or below the bottom of the stack.
    ghost predicate BelowStack()
      reads this, vmas, InOrder(vmas.tree)
    {
      forall i :: 0 <= i < |vmas.Areas()| ==> vmas.Areas()[i].end <= stackBottom
    }

    // What any run of faults does from here is in Faults.
    lemma ImageIsOk()
      requires Valid()
      ensures ImageOk(Look(), space, stackBottomMax, stackTop) && (ListsRight(Look(), space) <==> Agreed())
    {
      Parts();
      LookIs();
      AgreedIs();
      hide Valid, Look, Agreed, StackOk, AreasAgree, AllListed, PagesValid, VmaTree.Valid;
    }

    // Areas clear of the stack's whole range are right now and after all faults to come.
    lemma StaysAgreed()
      requires Valid() && Clear(vmas.Areas(), stackBottomMax / 4096, stackTop / 4096)
      ensures StayRight(Look(), space, stackBottomMax) && Agreed()
    {
      ImageIsOk();
      LookIs();
      StackRange();
      AgreedExactly();
      hide Valid, Look, Agreed, ImageOk, StayRight, Clear, ListsRight;
      ClearStaysRight(Look(), space, stackBottomMax, stackTop);
      ClearHigher(vmas.Areas(), stackBottomMax / 4096, stackBottom / 4096, stackTop / 4096);
    }

    // In every state lists and tables agree exactly when no area reaches into the stack.
    lemma AgreedExactly()
      requires Valid()
      ensures Agreed() <==> Clear(vmas.Areas(), stackBottom / 4096, stackTop / 4096)
      ensures BelowStack() ==> Agreed()
    {
      Parts();
      hide Valid, StackOk, AreasAgree, AllListed, PagesValid, VmaTree.Valid;
      AllListedExactly(vmm.pmm.mem, space.pml4, stackBottomMax / 4096, stackBottom / 4096, stackTop / 4096,
                       vmas.Areas());
    }

    // do_sys_mmap. It does not look where the stack is: lists and tables agree afterwards exactly when the
    // area ends at or below the stack's bottom.
    method SysMmap(length: nat, file: Option<File>, offset: nat) returns (r: int)
      requires Valid() && length < 0x1_0000_0000_0000_0000
      modifies vmas
      ensures PagesValid() && vmas.OnlyNewJoined()
      ensures IsError(r) <==> AlignUp64(length) == 0 || (file != None && !file.value.canFault)
      ensures AlignUp64(length) == 0 ==> r == 0xFFFF_FFFF_FFFF_FFEA && Valid() && vmas.Areas() == old(vmas.Areas())
      ensures AlignUp64(length) != 0 && file != None && !file.value.canFault ==>
        r == 0xFFFF_FFFF_FFFF_FFED && Valid() && vmas.Areas() == old(vmas.Areas())
      ensures AlignUp64(length) != 0 && (file == None || file.value.canFault) ==>
        r == FirstFit(old(vmas.Areas()), length) &&
        vmas.Areas() == Insert(old(vmas.Areas()), NewArea(old(vmas.Areas()), length, file, offset)) &&
        (r + AlignUp64(length) <= 0x8000_0000_0000 ==>
          Valid() &&
          RangeEmpty(Mem(), space.pml4, r, r + AlignUp64(length), stackBottom / 4096, stackTop / 4096)) &&
        (old(BelowStack()) ==> (Good(vmas.Areas()) && Agreed() <==> r + AlignUp64(length) <= stackBottom))
    {
      hide *;
      Parts();
      MemIs();
      BelowIs();
      ghost var vs := vmas.Areas();
      vmas.PositiveLength(length);
      assert allocated(InOrder(vmas.tree));
      r := vmas.SysMmap(length, file, offset);
      assert allocated(InOrder(vmas.tree));
      if AlignUp64(length) != 0 && (file == None || file.value.canFault) {
        AreaJoined(vs, length, file, offset);
      } else {
        vmas.StillValid(vs);
        Whole();
      }
    }

    lemma BelowIs()
      ensures BelowStack() <==> forall i :: 0 <= i < |vmas.Areas()| ==> vmas.Areas()[i].end <= stackBottom
    {
    }

    lemma AreaJoined(vs: seq<Vma>, length: nat, file: Option<File>, offset: nat)
      requires PagesValid() && space.User? && NoDup(vmas.Nodes())
      requires 0x1000_0000 <= stackBottomMax && stackBottom <= stackBottomMax + 128 * 4096
      requires stackBottom % 4096 == 0 && stackBottomMax % 4096 == 0 && stackTop % 4096 == 0
      requires StackOk(vmm.pmm.mem, space.pml4, stackBottomMax / 4096, stackBottom / 4096, stackTop / 4096)
      requires AreasAgree(vmm.pmm.mem, space.pml4, vs, stackBottomMax / 4096, stackTop / 4096)
      requires 0 < length < 0x1_0000_0000_0000_0000 && AlignUp64(length) != 0
      requires vmas.Areas() == Insert(vs, NewArea(vs, length, file, offset))
      ensures FirstFit(vs, length) + AlignUp64(length) <= 0x8000_0000_0000 ==>
        Valid() && RangeEmpty(Mem(), space.pml4, FirstFit(vs, length), FirstFit(vs, length) + AlignUp64(length),
                              stackBottom / 4096, stackTop / 4096)
      ensures (forall i :: 0 <= i < |vs| ==> vs[i].end <= stackBottom) ==>
        (Good(vmas.Areas()) && Agreed() <==> FirstFit(vs, length) + AlignUp64(length) <= stackBottom)
    {
      hide *;
      var m, max, bottom, top := vmm.pmm.mem, stackBottomMax / 4096, stackBottom / 4096, stackTop / 4096;
      MemNow();
      AgreedIs();
      if FirstFit(vs, length) + AlignUp64(length) <= 0x8000_0000_0000 {
        AreaMapped(m, space.pml4, max, top, vs, length, file, offset);
        RangeEmptyBelow(m, space.pml4, FirstFit(vs, length), FirstFit(vs, length) + AlignUp64(length), max, bottom,
                        top);
        vmas.StillValid(vmas.Areas());
        Whole();
      }
      if forall i :: 0 <= i < |vs| ==> vs[i].end <= stackBottom {
        MapAgreesExactly(m, space.pml4, max, bottom, top, vs, length, file, offset);
        if FirstFit(vs, length) + AlignUp64(length) <= stackBottom {
          StackBelow(m, space.pml4, max, bottom, top);
        } else if Good(vmas.Areas()) {
          AreasAgreeParts(m, space.pml4, vs, max, top);
          TightAnyway(m, space.pml4, max, top, vs, length, file, offset);
        }
      }
    }

    lemma MemNow()
      ensures Mem() == vmm.pmm.mem
    {
    }

    lemma AgreedIs()
      requires space.User?
      ensures Agreed() <==> AllListed(vmm.pmm.mem, space.pml4, vmas.Areas())
    {
    }

    // do_sys_munmap and munmap_region, for callers who pass whole pages and stay below 2^64; what goes
    // wrong otherwise is in Regions and AreaRuns. None: vma_cleanup does not come back.
    method SysMunmap(addr: nat, length: nat) returns (r: Option<int>)
      requires Valid() && addr % 4096 == 0 && length < 0x1_0000_0000_0000_0000
      requires addr + AlignUp64(length) < 0x1_0000_0000_0000_0000
      modifies vmas, vmas.Nodes(), vmm.pmm`mem
      ensures r != None ==> Valid() && Steps(old(Now()), Now(), space) && vmas.OnlyNewJoined()
      ensures MunmapHandled(old(Look()), Look(), space, stackBottomMax / 4096, stackTop / 4096, addr,
                            AlignUp64(length), r)
    {
      Parts();
      hide *;
      NoStepYet();
      MemIs();
      LookIs();
      WholePages(length);
      ghost var a := Look();
      var len := AlignUp64(length);
      if len == 0 {
        vmas.NothingJoined();
        NothingUnmapped(a, addr);
        return Some(EINVAL());
      }
      r := MunmapRegion(addr, len);
      LookIs();
      MemIs();
      RegionUnmapped(a, addr, len, r);
    }

    lemma NothingUnmapped(a: Image, addr: nat)
      requires space.User?
      ensures MunmapHandled(a, a, space, stackBottomMax / 4096, stackTop / 4096, addr, 0, Some(0xFFFF_FFFF_FFFF_FFEA))
    {
    }

    lemma RegionUnmapped(a: Image, addr: nat, len: nat, r: Option<int>)
      requires space.User? && len != 0
      requires r == None <==> !NoPagesLost(a.areas, addr, len)
      requires r != None ==> r.value == if Unmappable(a.areas, addr, len) then 0 else 0xFFFF_FFFF_FFFF_FFEA
      requires r == Some(0xFFFF_FFFF_FFFF_FFEA) ==> vmas.Areas() == a.areas && Mem() == a.view.m
      requires r == Some(0) ==>
        RangeGone(a.view.m, Mem(), space.pml4, addr, len, stackBottomMax / 4096, stackTop / 4096)
      requires r == Some(0) ==> BackingGone(a.areas, vmas.Areas(), addr, len)
      ensures MunmapHandled(a, Look(), space, stackBottomMax / 4096, stackTop / 4096, addr, len, r)
    {
      hide NoPagesLost, Unmappable, RangeGone, BackingGone;
    }

    lemma WholePages(length: nat)
      ensures AlignUp64(length) % 4096 == 0
    {
    }

    method MunmapRegion(addr: nat, len: nat) returns (r: Option<int>)
      requires Valid() && addr % 4096 == 0 && len % 4096 == 0 && 0 < len && addr + len < 0x1_0000_0000_0000_0000
      modifies vmas, vmas.Nodes(), vmm.pmm`mem
      ensures r == None <==> !old(NoPagesLost(vmas.Areas(), addr, len))
      ensures r != None ==> Valid() && Steps(old(Now()), Now(), space) && vmas.OnlyNewJoined()
      ensures r != None ==> r.value == if old(Unmappable(vmas.Areas(), addr, len)) then 0 else 0xFFFF_FFFF_FFFF_FFEA
      ensures r == Some(0xFFFF_FFFF_FFFF_FFEA) ==> vmas.Areas() == old(vmas.Areas()) && Mem() == old(Mem())
      ensures r == Some(0) ==>
        RangeGone(old(Mem()), Mem(), space.pml4, addr, len, stackBottomMax / 4096, stackTop / 4096)
      ensures r == Some(0) ==> BackingGone(old(vmas.Areas()), vmas.Areas(), addr, len)
    {
      hide Valid, PagesValid, VmaTree.Valid, Steps, Now, Unmappable, RangeGone, BackingGone, CanUnmap, NoPagesLost;
      hide Wrap, VmaTree.Areas, AreasAgree, StackOk;
      NoStepYet();
      WholePages(0);
      assert allocated(InOrder(vmas.tree));
      ghost var vs := vmas.Areas();
      var v, k := FindArea(addr, len);
      assert vmas.Areas() == vs;
      if v == null || addr < v.start || Wrap(addr + len) > v.end {
        NothingLost(vs, addr, len);
        return Some(EINVAL());
      }
      var ok := UnmapFound(v, k, addr, len);
      r := if ok then Some(0) else None;
    }

    // vma_find, and what its answer means for the request.
    method FindArea(addr: nat, len: nat) returns (v: VmArea?, ghost k: nat)
      requires Valid() && 0 < len && addr + len < 0x1_0000_0000_0000_0000
      ensures Valid()
      ensures v == null ==> !Unmappable(vmas.Areas(), addr, len)
      ensures v != null ==> v.start <= addr && v in vmas.Nodes() && Wrap(addr + len) == addr + len
      ensures v != null ==>
        k < |vmas.Nodes()| && vmas.Nodes()[k] == v && k < |vmas.Areas()| && vmas.Areas()[k] == v.Value()
      ensures v != null ==> (Unmappable(vmas.Areas(), addr, len) <==> addr + len <= v.end)
      ensures v != null && addr + len <= v.end ==> CanUnmap(vmas.Areas(), k, addr, len)
    {
      Parts();
      assert allocated(InOrder(vmas.tree));
      v, k := vmas.Find(addr);
      hide AreasAgree, StackOk, PagesValid, Covers, Unmappable, CanUnmap, Wrap, VmaTree.Valid;
      if v == null {
        NoArea(vmas.Areas(), addr, len);
      } else {
        Located(v, k, addr, len);
      }
    }

    method UnmapFound(v: VmArea, ghost k: nat, addr: nat, len: nat) returns (ok: bool)
      requires Valid() && k < |vmas.Nodes()| && vmas.Nodes()[k] == v && k < |vmas.Areas()|
      requires vmas.Areas()[k] == v.Value() && CanUnmap(vmas.Areas(), k, addr, len)
      requires addr % 4096 == 0 && len % 4096 == 0 && addr + len < 0x1_0000_0000_0000_0000
      modifies vmas, v, vmm.pmm`mem
      ensures ok <==> old(NoPagesLost(vmas.Areas(), addr, len))
      ensures ok ==> Valid() && Steps(old(Now()), Now(), space) && vmas.OnlyNewJoined()
      ensures ok ==> RangeGone(old(Mem()), Mem(), space.pml4, addr, len, stackBottomMax / 4096, stackTop / 4096)
      ensures ok ==> BackingGone(old(vmas.Areas()), vmas.Areas(), addr, len)
    {
      hide *;
      Parts();
      StackRange();
      NoStepYet();
      MemIs();
      Destroyable(k);
      ghost var vs, m0 := vmas.Areas(), vmm.pmm.mem;
      var emptied := TrimArea(v, k, addr, len);
      assert allocated(InOrder(vmas.tree));
      ok := true;
      if emptied {
        ghost var vs1 := vmas.Areas();
        MemIs();
        VmaDestroy(v, vs[k]);
        MemIs();
        assert vmas.Areas() == vs1 && vmas.Valid();
      } else {
        ok := Cleanup(v);
        CleanIsKept(m0, space.pml4, vs, k, addr, len, stackBottomMax / 4096, stackTop / 4096);
      }
      LostOrKept(vs, k, addr, len);
      MemIs();
      if ok {
        BackingUnmapped(vs, k, addr, len);
        AreaUnmapped(m0, vmm.pmm.mem, space.pml4, stackBottomMax / 4096, stackBottom / 4096, stackTop / 4096, vs, k,
                     addr, len);
        Whole();
      }
    }

    // vma_cleanup, as far as it goes: once it meets a page outside the area it frees the page's entry and
    // stays on it, after reading a pointer that was never set if it is the first. False stands for that.
    method Cleanup(v: VmArea) returns (ok: bool)
      ensures ok <==> Clean(v.Value())
    {
      var i := 0;
      while i < |v.pages|
        invariant i <= |v.pages| && forall j :: 0 <= j < i ==> v.start <= v.pages[j].start < v.end
      {
        if v.pages[i].start < v.start || v.pages[i].start >= v.end {
          return false;
        }
        i := i + 1;
      }
      ok := true;
    }

    // munmap_region's split and trim, for whole pages; the page tables are not touched.
    method TrimArea(v: VmArea, ghost k: nat, addr: nat, len: nat) returns (emptied: bool)
      requires PagesValid() && vmas.Valid() && k < |vmas.Nodes()| && vmas.Nodes()[k] == v
      requires CanUnmap(vmas.Areas(), k, addr, len)
      requires k < |vmas.Areas()| && vmas.Areas()[k] == v.Value()
      requires addr % 4096 == 0 && len % 4096 == 0 && addr + len < 0x1_0000_0000_0000_0000
      modifies vmas, v
      ensures PagesValid() && vmas.Valid() && vmas.Areas() == Unmapped(old(vmas.Areas()), k, addr, len)
      ensures emptied <==> Pieces(old(vmas.Areas())[k], addr, len) == []
      ensures v.pages == old(vmas.Areas())[k].pages && vmas.OnlyNewJoined()
      ensures v.Value() == Trimmed(old(vmas.Areas())[k], addr, len)
    {
      hide *;
      Applies(v, k, addr, len);
      assert allocated(InOrder(vmas.tree));
      ghost var value := v.Value();
      ListOfValue(v);
      emptied := vmas.Unmap(v, k, addr, len);
    }

    lemma Applies(v: VmArea, k: nat, addr: nat, len: nat)
      requires CanUnmap(vmas.Areas(), k, addr, len) && k < |vmas.Areas()| && vmas.Areas()[k] == v.Value()
      ensures Wrap(addr + len) <= v.end && v.start <= addr < v.end && 0 < len < 0x1_0000_0000_0000_0000
    {
    }

    lemma ListOfValue(v: VmArea)
      ensures v.Value().pages == v.pages
    {
    }

    lemma Destroyable(k: nat)
      requires space.User? && k < |vmas.Areas()|
      requires AreasAgree(Mem(), space.pml4, vmas.Areas(), stackBottomMax / 4096, stackTop / 4096)
      ensures Agrees(Mem(), space.pml4, vmas.Areas()[k], stackBottomMax / 4096, stackTop / 4096)
      ensures vmas.Areas()[k].end <= 0x8000_0000_0000
    {
    }

    // paging_destroy_address_space for this process: frames handed out to others stay handed out.
    method Destroy()
      requires PagesValid()
      modifies vmm`tabs, vmm.pmm`mem, vmm.pmm`head, vmm.pmm`free
      ensures vmm.Valid() && OpenAbove(Mem(), vmm.tabs) && space.User? && !vmm.Live(space)
      ensures OthersSame(old(Mem()), old(vmm.tabs), Mem(), vmm.tabs, space)
      ensures old(vmm.Out()) - owned <= vmm.Out() <= old(vmm.Out())
      ensures Intact(old(Mem()), Mem(), old(vmm.Out()) - owned)
      ensures vmm.pmm.free == Reverse(AllPushes(old(Mem()), space.pml4)) + old(vmm.pmm.free)
    {
      hide ListOk, CursorOk, FramesFrom, TablesOk, OpenAbove, PrivatePages, OthersSame, Destroyed, AllPushes, Intact;
      ghost var m0, tabs0, out0 := Mem(), vmm.tabs, vmm.Out();
      PrivateWidens(m0, space.pml4, owned, out0);
      FreedAreOwned(m0, tabs0, vmm.kernel, space.pml4, owned, out0, out0 - owned);
      vmm.DestroyAddressSpace(space);
      IntactPart(m0, Mem(), vmm.Out(), out0 - owned);
      DestroyedOthers(m0, tabs0, Mem(), vmm.tabs, space);
      RootGone(m0, tabs0);
    }

    lemma RootGone(m0: Memory, tabs0: Tables)
      requires Destroyed(m0, tabs0, Mem(), vmm.tabs, space)
      ensures !vmm.Live(space)
    {
    }

    // ---- Beside other processes ----

    // No two processes share an address space, an area or a frame.
    ghost predicate Separate(q: Process)
      reads this`owned, q`owned, vmas, q.vmas
    {
      this != q && vmas != q.vmas && space != q.space && owned !! q.owned &&
      forall v :: v in vmas.Nodes() ==> v !in q.vmas.Nodes()
    }

    lemma PagesOwned(a: Path)
      requires Valid() && OwnPage(Mem(), space.pml4, a)
      ensures Lookup(Mem(), space.pml4, a).Some? && Lookup(Mem(), space.pml4, a).value.frame in owned
    {
      Parts();
      hide Valid, Lookup, Vmm.Valid, OpenAbove;
    }

    // Nothing was written to the process, its tree or its areas.
    twostate predicate Untouched()
      reads this, vmas, InOrder(vmas.tree)
    {
      unchanged(this) && unchanged(vmas) && forall v :: v in InOrder(vmas.tree) ==> old(allocated(v)) && unchanged(v)
    }

    // What the process sees of itself is as it was: its stack, its areas, its pages and what they hold.
    twostate predicate Kept()
      reads this, vmm, vmm.pmm, vmas, InOrder(vmas.tree)
    {
      space.User? && stackBottom == old(stackBottom) && owned == old(owned) && vmas.Areas() == old(vmas.Areas()) &&
      LowerSame(old(Mem()), Mem(), space.pml4) && Intact(old(Mem()), Mem(), owned)
    }

    // Steps of other processes and of the kernel leave this process as it is.
    twostate lemma Undisturbed(s: Space)
      requires old(Valid()) && Untouched()
      requires s != space && vmm.Valid() && OpenAbove(Mem(), vmm.tabs) && owned <= vmm.Out()
      requires Intact(old(Mem()), Mem(), owned)
      requires OthersSame(old(Mem()), old(vmm.tabs), Mem(), vmm.tabs, s) ||
               (s == Kernel && ProcessesSame(old(Mem()), old(vmm.tabs), Mem(), vmm.tabs))
      ensures Valid() && Kept()
    {
      vmas.SameAreas();
      Restored(old(Mem()), old(vmm.tabs), s, old(vmas.Areas()));
    }

    // A step of this process leaves another one as it is, and the two apart.
    twostate lemma StepSpares(q: Process)
      requires old(Valid() && q.Valid() && Separate(q)) && q.vmm == vmm && q.Untouched()
      requires Valid() && Steps(old(Now()), Now(), space) && vmas.OnlyNewJoined()
      ensures q.Valid() && q.Kept() && Separate(q)
    {
      TakesApart(old(owned), old(vmm.Out()), owned, vmm.Out(), q.owned);
      IntactPart(old(Mem()), Mem(), old(vmm.Out()), q.owned);
      hide Valid, OthersSame, LowerSame, Takes, Intact, Cleared;
      q.Undisturbed(space);
    }

    // Nor does a new process touch this one.
    twostate lemma SparedByNew(new p: Process)
      requires old(Valid()) && Untouched() && fresh(p) && fresh(p.vmas) && p.vmm == vmm
      requires p.Valid() && p.vmas.Areas() == [] && Root(p.space) !in old(vmm.tabs)
      requires Steps(View(old(Mem()), old(vmm.tabs), {}, old(vmm.Out())), p.Now(), p.space)
      ensures Valid() && Kept() && Separate(p) && p.Separate(this)
    {
      TakesApart({}, old(vmm.Out()), p.owned, vmm.Out(), owned);
      IntactPart(old(Mem()), Mem(), old(vmm.Out()), owned);
      assert p.vmas.Nodes() == [] by { assert |p.vmas.Nodes()| == |p.vmas.Areas()|; }
      hide Valid, OthersSame, LowerSame, Takes, Intact, Cleared;
      Undisturbed(p.space);
    }

    // Nor does destroying this process's address space touch another one.
    twostate lemma GoneSpares(q: Process)
      requires old(q.Valid() && Separate(q)) && q.vmm == vmm && q.Untouched()
      requires vmm.Valid() && OpenAbove(Mem(), vmm.tabs) && old(vmm.Out()) - old(owned) <= vmm.Out()
      requires OthersSame(old(Mem()), old(vmm.tabs), Mem(), vmm.tabs, space)
      requires Intact(old(Mem()), Mem(), old(vmm.Out()) - old(owned))
      ensures q.Valid() && q.Kept()
    {
      assert old(q.owned <= vmm.Out());
      IntactPart(old(Mem()), Mem(), old(vmm.Out()) - old(owned), q.owned);
      hide Valid, OthersSame, LowerSame, Intact;
      q.Undisturbed(space);
    }

    twostate lemma MemIs()
      ensures Mem() == vmm.pmm.mem && old(Mem()) == old(vmm.pmm.mem)
    {
    }

    twostate lemma KeptOwned()
      requires Kept()
      ensures owned == old(owned)
    {
    }

    lemma SeparateBoth(q: Process)
      requires Separate(q)
      ensures q.Separate(this)
    {
    }

    twostate lemma StillSeparate(q: Process)
      requires old(Separate(q)) && Untouched() && q.Untouched()
      ensures Separate(q)
    {
    }

    lemma Restored(m0: Memory, tabs0: Tables, s: Space, vs: seq<Vma>)
      requires space.User? && Root(space) in tabs0 && tabs0[Root(space)] == space.pml4 && s != space
      requires OthersSame(m0, tabs0, Mem(), vmm.tabs, s) || (s == Kernel && ProcessesSame(m0, tabs0, Mem(), vmm.tabs))
      requires PrivatePages(m0, space.pml4, owned) && owned <= vmm.Out() && vmm.Valid() && OpenAbove(Mem(), vmm.tabs)
      requires stackBottom % 4096 == 0 && stackBottomMax % 4096 == 0 && stackTop % 4096 == 0
      requires 0x1000_0000 <= stackBottomMax && stackBottom <= stackBottomMax + 128 * 4096
      requires vmas.Valid() && vmas.Areas() == vs
      requires StackOk(m0, space.pml4, stackBottomMax / 4096, stackBottom / 4096, stackTop / 4096)
      requires AreasAgree(m0, space.pml4, vs, stackBottomMax / 4096, stackTop / 4096)
      ensures Valid() && LowerSame(m0, Mem(), space.pml4)
    {
      hide OthersSame, ProcessesSame, PrivatePages, OpenAbove, StackOk, AreasAgree, LowerSame, TablesOk, ListOk;
      hide CursorOk, FramesFrom;
      OthersKept(m0, tabs0, Mem(), vmm.tabs, s, space.pml4);
      OthersKeep(m0, Mem(), space.pml4, owned, stackBottomMax / 4096, stackBottom / 4096, stackTop / 4096, vs);
    }

    // All pages of the stack are user-writable and on distinct frames.
    lemma StackPages(a: nat, b: nat)
      requires Valid() && stackBottom <= a < stackTop && stackBottom <= b < stackTop
      ensures Writable(a) && Writable(b)
      ensures PageAt(Mem(), space.pml4, a / 4096).value.frame == PageAt(Mem(), space.pml4, b / 4096).value.frame ==>
        a / 4096 == b / 4096
    {
      StackPage(a);
      StackPage(b);
      PathNumber(a / 4096 * 4096);
      PathNumber(b / 4096 * 4096);
      hide StackOk, AreasAgree, PathOf, Lookup, Number;
      assert OwnPage(Mem(), space.pml4, PathOf(a / 4096 * 4096)) && OwnPage(Mem(), space.pml4, PathOf(b / 4096 * 4096));
    }

    // page_fault_handler. The processor does not fault on a present page of an area: those are
    // user-writable.
    method PageFault(addr: nat, driverOk: bool) returns (r: Outcome)
      requires Valid() && AbsentIfCovered(addr) && addr < 0x1_0000_0000_0000_0000
      modifies this`owned, this`stackBottom, vmas.Nodes(), vmm`tabs, vmm.pmm
      ensures r == Panic ==> vmm.Stuck()
      ensures Valid() && FaultHandled(old(Look()), Look(), space, stackBottomMax, addr, driverOk, r)
    {
      assert allocated(InOrder(vmas.tree));
      LookIs();
      hide StackHandled, AreaHandled, Grows, Valid, Look, Covers, PageAt;
      ghost var a := Look();
      r := StackFault(addr);
      ghost var b := Look();
      HalfDone(a, b, addr, r);
      if r != Done(false) {
        return;
      }
      r := AreaFault(addr, driverOk);
      HalvesHandle(a, b, Look(), space, stackBottomMax, addr, driverOk, r);
    }

    lemma HalfDone(a: Image, b: Image, addr: nat, r: Outcome)
      requires StackHandled(a, b, space, stackBottomMax, addr, r)
      ensures Grows(a, stackBottomMax, addr) <==> r != Done(false)
    {
    }

    // The first half: grow the stack, if the address asks for it and the limit allows it.
    method StackFault(addr: nat) returns (r: Outcome)
      requires Valid() && addr < 0x1_0000_0000_0000_0000
      modifies this`owned, this`stackBottom, vmm`tabs, vmm.pmm
      ensures r == Panic ==> vmm.Stuck()
      ensures Valid() && StackHandled(old(Look()), Look(), space, stackBottomMax, addr, r)
      ensures old(AbsentIfCovered(addr)) && r == Done(false) ==> AbsentIfCovered(addr)
    {
      StackRange();
      GrowthTest(addr);
      LookIs();
      assert allocated(InOrder(vmas.tree));
      hide *;
      ghost var a := Look();
      if Wrap(addr + 4096) >= stackBottomMax && addr < stackBottom {
        r := GrowUserStack();
      } else {
        NoStepYet();
        r := Done(false);
      }
      LookIs();
      assert vmas.Areas() == a.areas;
      StackDone(a, Look(), addr, r);
      AbsentStill(a, addr, r);
    }

    ghost predicate AbsentIfCovered(addr: nat)
      reads this, vmm, vmm.pmm, vmas, InOrder(vmas.tree)
    {
      space.User? ==> AbsentIn(vmm.pmm.mem, space.pml4, vmas.Areas(), addr)
    }

    lemma StackDone(a: Image, b: Image, addr: nat, r: Outcome)
      requires space.User? && Steps(a.view, b.view, space) && b.areas == a.areas
      requires Grows(a, stackBottomMax, addr) <==> r != Done(false)
      requires r == Done(true) ==> b.bottom == a.bottom - 4096
      requires r == Done(true) ==> PageAdded(a.view, b.view, space.pml4, b.bottom / 4096)
      requires r != Done(true) ==> b.bottom == a.bottom && NothingAdded(a.view, b.view, space.pml4)
      ensures StackHandled(a, b, space, stackBottomMax, addr, r)
    {
      hide PageAdded, NothingAdded, Steps;
    }

    lemma AbsentStill(a: Image, addr: nat, r: Outcome)
      requires Valid() && StackHandled(a, Look(), space, stackBottomMax, addr, r)
      ensures r != Done(true) && (Covers(a.areas, addr) ==> PageAt(a.view.m, space.pml4, addr / 4096) == None) ==>
        AbsentIfCovered(addr)
    {
      hide PageAt, Steps, PageAdded;
      if Covers(vmas.Areas(), addr) { CoveredLow(addr); }
    }

    lemma CoveredLow(addr: nat)
      requires Valid() && Covers(vmas.Areas(), addr)
      ensures addr / 4096 < 0x8_0000_0000
    {
    }

    // The second half of page_fault_handler: vma_find, then vma_fault_handler.
    method AreaFault(addr: nat, driverOk: bool) returns (r: Outcome)
      requires Valid() && AbsentIfCovered(addr) && !(stackBottomMax <= addr < stackBottom)
      modifies this`owned, vmas.Nodes(), vmm`tabs, vmm.pmm
      ensures r == Panic ==> vmm.Stuck()
      ensures Valid() && AreaHandled(old(Look()), Look(), space, addr, driverOk, r)
    {
      Parts();
      LookIs();
      assert allocated(InOrder(vmas.tree));
      ghost var a := Look();
      var v, k := vmas.Find(addr);
      assert Look() == a;
      hide AreaHandled, Valid, PagesValid, Look, PageAt, VmaTree.Valid, StackOk, AreasAgree;
      if v == null {
        NothingThere(a, addr, driverOk);
        return Done(false);
      }
      r := VmaFault(v, k, addr, driverOk);
    }

    lemma NothingThere(a: Image, addr: nat, driverOk: bool)
      requires space.User? && !Covers(a.areas, addr)
      ensures AreaHandled(a, a, space, addr, driverOk, Done(false))
    {
      CoversIsBacked(a.areas, addr);
      NoStep(a.view, space);
    }

    ghost predicate Writable(addr: nat)
      reads vmm, vmm.pmm
    {
      space.User? && PageAt(Mem(), space.pml4, addr / 4096).Some? &&
        PageAt(Mem(), space.pml4, addr / 4096).value.user && PageAt(Mem(), space.pml4, addr / 4096).value.writable
    }

    // An access to the growth range of the stack: the processor translates, faults, and tries again
    // until the page is there. Each fault maps the next page down. The lists are then right exactly when
    // no area reaches into what the stack has grown to.
    method Touch(addr: nat) returns (r: Outcome, faults: nat, ghost es: seq<Fault>, ghost states: seq<Image>)
      requires Valid() && stackBottomMax <= addr < stackBottom
      modifies this`owned, this`stackBottom, vmas.Nodes(), vmm`tabs, vmm.pmm
      ensures r == Panic ==> vmm.Stuck()
      ensures Valid() && faults <= 128
      ensures Steps(old(Now()), Now(), space) && SameRegions(old(vmas.Areas()), vmas.Areas())
      ensures r == Panic || (r == Done(true) && faults == (old(stackBottom) - addr + 4095) / 4096 && Writable(addr))
      ensures FaultRun(es, states, space, stackBottomMax) && states[0] == old(Look()) && states[|es|] == Look()
      ensures r == Done(true) ==> stackBottom == addr / 4096 * 4096
      ensures r == Done(true) ==> (Agreed() <==> Clear(old(vmas.Areas()), addr / 4096, stackTop / 4096))
    {
      hide Valid, Writable, Steps, Now, Look, SameRegions, VmaTree.Areas, FaultStep, Clear, Agreed;
      StackRange();
      NoStepYet();
      LookIs();
      SameRegionsReflexive(vmas.Areas());
      ghost var v0, vs := Now(), vmas.Areas();
      faults, es, states := 0, [], [Look()];
      r := Done(true);
      assert allocated(InOrder(vmas.tree));
      var phys := Translate(addr);
      assert vmas.Areas() == vs && Look() == states[0];
      while phys < 0
        invariant Valid() && stackBottomMax <= addr < stackBottom + 4096
        invariant faults * 4096 == old(stackBottom) - stackBottom && r == Done(true)
        invariant if phys < 0 then addr < stackBottom else stackBottom <= addr && Writable(addr)
        invariant Steps(v0, Now(), space) && SameRegions(vs, vmas.Areas())
        invariant FaultRun(es, states, space, stackBottomMax) && states[0] == old(Look()) && states[|es|] == Look()
        decreases stackBottom
      {
        ghost var v1, vs1 := Now(), vmas.Areas();
        r := FaultAndRetry(addr);
        StepsTransitive(v0, v1, Now(), space);
        SameRegionsTransitive(vs, vs1, vmas.Areas());
        FaultRunLonger(es, states, Fault(addr, true, r), Look(), space, stackBottomMax);
        es, states := es + [Fault(addr, true, r)], states + [Look()];
        if r == Panic {
          break;
        }
        faults := faults + 1;
        assert allocated(InOrder(vmas.tree));
        ghost var a := Look();
        vs1 := vmas.Areas();
        phys := Translate(addr);
        assert vmas.Areas() == vs1 && Look() == a;
      }
      StackRange();
      if r == Done(true) {
        PageStart(addr);
        AgreedExactly();
        ClearRegions(vs, vmas.Areas(), addr / 4096, stackTop / 4096);
      }
    }

    lemma PageStart(addr: nat)
      requires Valid() && stackBottom <= addr < stackBottom + 4096
      ensures stackBottom == addr / 4096 * 4096 && stackBottom / 4096 == addr / 4096
    {
    }

    method FaultAndRetry(addr: nat) returns (r: Outcome)
      requires Valid() && stackBottomMax <= addr < stackBottom
      modifies this`owned, this`stackBottom, vmas.Nodes(), vmm`tabs, vmm.pmm
      ensures r == Panic ==> vmm.Stuck()
      ensures Valid()
      ensures Steps(old(Now()), Now(), space) && SameRegions(old(vmas.Areas()), vmas.Areas())
      ensures FaultStep(Fault(addr, true, r), old(Look()), Look(), space, stackBottomMax)
      ensures (r == Panic && stackBottom == old(stackBottom)) ||
        (r == Done(true) && stackBottom == old(stackBottom) - 4096)
    {
      StackRange();
      StillAbsent(addr);
      GrowthTest(addr);
      LookIs();
      hide Valid, PageAdded, NothingAdded, AbsentIn, Steps, BackingOf, PageAt, SameRegions, VmaTree.Areas, Grows;
      hide FaultHandled, AreaHandled, Look;
      ghost var a := Look();
      r := PageFault(addr, true);
      LookIs();
      HandledKeeps(a, Look(), space, stackBottomMax, addr, true, r);
      GrowthHandled(a, Look(), addr, r);
    }

    lemma GrowthHandled(a: Image, b: Image, addr: nat, r: Outcome)
      requires Grows(a, stackBottomMax, addr) && FaultHandled(a, b, space, stackBottomMax, addr, true, r)
      ensures r == Panic || r == Done(true)
      ensures b.bottom == if r == Done(true) then a.bottom - 4096 else a.bottom
    {
    }

    // The processor's walk, for an address of the stack.
    method Translate(addr: nat) returns (phys: int)
      requires Valid() && stackBottomMax <= addr < stackTop
      ensures phys < 0 <==> addr < stackBottom
      ensures Valid() && (phys >= 0 ==> Writable(addr))
    {
      StackPage(addr);
      assert allocated(InOrder(vmas.tree));
      PathNumber(addr);
      hide ListOk, CursorOk, FramesFrom, TablesOk, OpenAbove, PrivatePages, Good, AreasAgree, StackOk, PathOf;
      hide Grants, Lookup;
      phys := vmm.VirtToPhys(space, addr);
    }

    lemma StackPage(addr: nat)
      requires Valid() && stackBottomMax <= addr < stackTop
      ensures addr < 0x8000_0000_0000
      ensures addr < stackBottom ==> PageAt(Mem(), space.pml4, addr / 4096) == None
      ensures addr >= stackBottom ==> Writable(addr)
    {
      hide PageAt, Lookup;
    }

    lemma StillAbsent(addr: nat)
      requires Valid() && stackBottomMax <= addr < stackBottom
      ensures AbsentIfCovered(addr)
    {
      StackRange();
      StackPage(addr);
    }

    lemma Parts()
      requires Valid()
      ensures PagesValid() && vmas.Valid() && space.User?
      ensures stackBottom % 4096 == 0 && stackBottomMax % 4096 == 0 && stackTop % 4096 == 0
      ensures 0x1000_0000 <= stackBottomMax && stackBottom <= stackBottomMax + 128 * 4096
      ensures StackOk(vmm.pmm.mem, space.pml4, stackBottomMax / 4096, stackBottom / 4096, stackTop / 4096)
      ensures AreasAgree(vmm.pmm.mem, space.pml4, vmas.Areas(), stackBottomMax / 4096, stackTop / 4096)
    {
    }

    lemma Whole()
      requires PagesValid() && vmas.Valid()
      requires stackBottom % 4096 == 0 && stackBottomMax % 4096 == 0 && stackTop % 4096 == 0
      requires 0x1000_0000 <= stackBottomMax && stackBottom <= stackBottomMax + 128 * 4096
      requires StackOk(vmm.pmm.mem, space.pml4, stackBottomMax / 4096, stackBottom / 4096, stackTop / 4096)
      requires AreasAgree(vmm.pmm.mem, space.pml4, vmas.Areas(), stackBottomMax / 4096, stackTop / 4096)
      ensures Valid()
    {
    }

    lemma GrowthTest(addr: nat)
      requires stackBottom <= 0x8000_0000_0000
      ensures Grows(Look(), stackBottomMax, addr)
        <==> addr + 4096 >= stackBottomMax && stackBottomMax < stackBottom && addr < stackBottom
      ensures addr < stackBottom ==> Wrap(addr + 4096) == addr + 4096 && addr / 4096 < 0x8_0000_0000
    {
    }

    lemma StackRange()
      requires Valid()
      ensures space.User? && stackBottomMax <= stackBottom <= stackTop <= 0x8000_0000_0000
      ensures stackBottom <= stackBottomMax + 128 * 4096
      ensures stackBottom - 4096 < stackBottomMax <==> stackBottom == stackBottomMax
      ensures stackBottom > stackBottomMax ==>
        stackBottomMax / 4096 < stackBottom / 4096 && (stackBottom - 4096) % 4096 == 0 &&
                                               (stackBottom - 4096) / 4096 == stackBottom / 4096 - 1
    {
    }

    lemma NoStepYet()
      ensures space.User? ==> NothingAdded(Now(), Now(), space.pml4)
      ensures Steps(Now(), Now(), space)
    {
      NoStep(Now(), space);
    }
  }
}
