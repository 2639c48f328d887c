// vmm.c: mapping, unmapping, creating and destroying address spaces in tables that live in the
// frame allocator's pages.

module VirtualMemory {
  import opened PageFormat
  import opened Sequences
  import opened MemoryMap
  import opened PhysicalMemory
  import opened PageTables
  import opened Teardown

  class Vmm {
    const pmm: Pmm
    const kernel: Frame      // kernel_address_space
    const cpuPageMask: nat
    ghost var tabs: Tables

    ghost predicate Valid()
      reads this, pmm
    {
      pmm.Valid() && TablesOk(pmm.mem, tabs, kernel) && tabs.Values !! pmm.Avail() &&
      (forall n :: n in tabs && SpaceOf(n).User? ==> tabs[n] in pmm.Usable())
    }

    // Usable frames that are neither available nor tables: the ones handed out.
    ghost function Out(): set<Frame>
      reads this, pmm
    {
      pmm.Usable() - pmm.Avail() - tabs.Values
    }

    // Every usable frame is on the free list, not listed yet, a table, or handed out; and no frame is
    // in two of these places.
    lemma FramesPartitioned()
      requires Valid()
      ensures pmm.Usable() == Elements(pmm.free) + Elements(pmm.Unfilled()) + tabs.Values * pmm.Usable() + Out()
      ensures Elements(pmm.free) !! Elements(pmm.Unfilled()) !! tabs.Values !! Out()
      ensures NoDup(pmm.free) && NoDup(pmm.Unfilled())
    {
      pmm.AvailUsable();
      NoDupConcat(pmm.free, pmm.Unfilled());
      assert pmm.Avail() == Elements(pmm.free) + Elements(pmm.Unfilled());
    }

    // The only reasons for a panic when a fresh frame is to be mapped: no usable frame is left, or
    // the memory map offers frames beyond the processor's limit.
    ghost predicate Stuck()
      reads this, pmm
    {
      pmm.Avail() == {} || exists f :: f in pmm.Usable() && f as nat * 4096 > cpuPageMask
    }

    lemma NoFrames()
      requires pmm.Avail() == {}
      ensures Stuck()
    {
    }

    lemma NoneLeft(f: Frame)
      requires f in pmm.Usable() && (f as nat * 4096 > cpuPageMask || pmm.Avail() == {})
      ensures Stuck()
    {
    }

    ghost predicate Live(s: Space)
      reads this
    {
      Root(s) in tabs
    }

    // vmm_init: the tables the boot loader left, in frames it does not offer for use.
    constructor (pmm: Pmm, kernel: Frame, cpuPageMask: nat, ghost tabs: Tables)
      requires pmm.Valid() && TablesOk(pmm.mem, tabs, kernel) && tabs.Values !! pmm.Usable()
      requires forall n :: n in tabs ==> SpaceOf(n) == Kernel
      ensures Valid() && this.pmm == pmm && this.kernel == kernel && this.tabs == tabs
      ensures this.cpuPageMask == cpuPageMask && OpenAbove(pmm.mem, tabs)
    {
      this.pmm := pmm;
      this.kernel := kernel;
      this.cpuPageMask := cpuPageMask;
      this.tabs := tabs;
      new;
      pmm.AvailUsable();
    }

    // pmm_alloc_page, as seen by whoever holds tables. None is its panic.
    method AllocFrame() returns (page: Option<Frame>)
      requires Valid()
      modifies pmm
      ensures Valid() && Grown(old(pmm.mem), tabs, pmm.mem, tabs)
      ensures |pmm.mem| == |old(pmm.mem)|
      ensures forall f: Frame :: f as nat < |pmm.mem| && f !in old(pmm.Avail()) ==> pmm.mem[f] == old(pmm.mem)[f]
      ensures page == None ==> pmm.Avail() == old(pmm.Avail()) == {}
      ensures page != None ==> page.value in old(pmm.Avail()) && page.value in pmm.Usable() && page.value !in old(Out())
      ensures Out() == old(Out()) + if page == None then {} else {page.value}
      ensures page != None ==> page.value as nat < |pmm.mem| && pmm.mem[page.value] == ZeroPage()
      ensures Intact(old(pmm.mem), pmm.mem, old(Out()))
      ensures StaysOpen(old(pmm.mem), old(tabs), pmm.mem, tabs, true)
    {
      hide ListOk, CursorOk, FramesFrom, TablesOk, Grown, OpenAbove, KernelOpen;
      pmm.AvailUsable();
      ghost var m := pmm.mem;
      page := pmm.AllocPage();
      AgreeOnTables(m, pmm.mem, old(pmm.Avail()));
    }

    // alloc_table: a page, cleared once more.
    method AllocTable() returns (table: Option<Frame>)
      requires Valid()
      modifies pmm
      ensures Valid() && Grown(old(pmm.mem), tabs, pmm.mem, tabs)
      ensures |pmm.mem| == |old(pmm.mem)|
      ensures forall f: Frame :: f as nat < |pmm.mem| && f !in old(pmm.Avail()) ==> pmm.mem[f] == old(pmm.mem)[f]
      ensures table == None ==> pmm.Avail() == old(pmm.Avail()) == {}
      ensures table != None ==> table.value in old(pmm.Avail()) && table.value in pmm.Usable()
      ensures Out() == old(Out()) + if table == None then {} else {table.value}
      ensures table != None ==> table.value as nat < |pmm.mem| && pmm.mem[table.value] == ZeroPage()
      ensures Intact(old(pmm.mem), pmm.mem, old(Out()) + tabs.Values)
      ensures StaysOpen(old(pmm.mem), old(tabs), pmm.mem, tabs, true)
    {
      hide ListOk, CursorOk, FramesFrom, TablesOk, Grown, OpenAbove, KernelOpen;
      pmm.AvailUsable();
      table := AllocFrame();
      if table != None {
        ghost var m := pmm.mem;
        pmm.Clear(table.value);
        assert pmm.mem == m;
      }
    }

    lemma AgreeOnTables(m: Memory, m': Memory, avail: set<Frame>)
      requires TablesOk(m, tabs, kernel) && tabs.Values !! avail && |m'| == |m|
      requires forall f: Frame :: f as nat < |m| && f !in avail ==> m'[f] == m[f]
      ensures TablesOk(m', tabs, kernel) && Grown(m, tabs, m', tabs)
      ensures StaysOpen(m, tabs, m', tabs, true)
    {
      forall n | n in tabs ensures tabs[n] as nat < |m| && m'[tabs[n]] == m[tabs[n]] {
        assert NodeOk(m, tabs, n) && tabs[n] in tabs.Values;
      }
      TablesFrame(m, m', tabs, kernel);
      OpenFrame(m, m', tabs);
    }

    // get_next: the table that slot `index` of the table at n refers to, made if need be.
    // None is the allocator's panic.
    method GetNext(table: Frame, index: nat, flags: Flags, ghost n: Node,
                   ghost m0: Memory, ghost tabs0: Tables) returns (next: Option<Frame>)
      requires Valid() && Grown(m0, tabs0, pmm.mem, tabs)
      requires n in tabs && tabs[n] == table && Depth(n) < 3 && index < 512
      requires Shared(n, index) ==> Entry(pmm.mem, table, index).present
      modifies this`tabs, pmm
      ensures |pmm.mem| == |old(pmm.mem)|
      ensures Valid() && Out() == old(Out())
      ensures Grown(m0, tabs0, pmm.mem, tabs)
      ensures next == None ==> pmm.Avail() == {}
      ensures next != None ==> Child(n, index) in tabs && tabs[Child(n, index)] == next.value
      ensures next != None && Child(n, index) in old(tabs) ==> pmm.mem == old(pmm.mem) && tabs == old(tabs)
      ensures next != None && Child(n, index) !in old(tabs) ==>
        MadeWith(Entry(pmm.mem, table, index), next.value, flags) && tabs == old(tabs)[Child(n, index) := next.value]
      ensures OneSlot(old(pmm.mem), pmm.mem, old(tabs).Values, table, index)
      ensures Intact(old(pmm.mem), pmm.mem, Out())
      ensures StaysOpen(old(pmm.mem), old(tabs), pmm.mem, tabs, SpaceOf(Child(n, index)).User? ==> flags.user)
    {
      hide ListOk, CursorOk, FramesFrom, TablesOk, Grown, OpenAbove, KernelOpen, CanAdd, OneSlot, MadeWith;
      NodeWithin(pmm.mem, tabs, kernel, n);
      SlotFilled(n, index);
      ghost var m1, tabs1 := pmm.mem, tabs;
      if !pmm.mem[table][index].present {
        next := AllocTable();
        GrownThenGrown(m0, tabs0, m1, tabs1, pmm.mem, tabs);
        if next == None {
          NoSlot(m1, pmm.mem, tabs1.Values, table, index);
          return;
        }
        ghost var m2 := pmm.mem;
        LinkTable(table, index, next.value, flags, n);
        OneSlotSet(m1, m2, tabs1.Values, table, index, TableWord(next.value, flags));
        GrownThenGrown(m0, tabs0, m2, tabs1, pmm.mem, tabs);
      } else {
        SlotPresent(pmm.mem, tabs, kernel, n, index);
        NoSlot(m1, m1, tabs1.Values, table, index);
      }
      next := Some(pmm.mem[table][index].frame);
    }

    lemma SlotFilled(n: Node, index: nat)
      requires TablesOk(pmm.mem, tabs, kernel) && n in tabs && Depth(n) < 3 && index < 512
      requires Shared(n, index) ==> Entry(pmm.mem, tabs[n], index).present
      ensures Entry(pmm.mem, tabs[n], index).present <==> Child(n, index) in tabs
    {
      SlotsOkAt(pmm.mem, tabs, n, index);
    }

    // table[index] = the new table's address and flags.
    method LinkTable(table: Frame, index: nat, f: Frame, flags: Flags, ghost n: Node)
      requires Valid() && n in tabs && tabs[n] == table && Depth(n) < 3 && index < 512 && !Shared(n, index)
      requires f in Out() && f as nat < |pmm.mem| && pmm.mem[f] == ZeroPage() && table as nat < |pmm.mem|
      requires !pmm.mem[table][index].present
      modifies this`tabs, pmm`mem
      ensures |pmm.mem| == |old(pmm.mem)|
      ensures Valid() && Out() == old(Out()) - {f}
      ensures Grown(old(pmm.mem), old(tabs), pmm.mem, tabs)
      ensures table as nat < |pmm.mem| && pmm.mem[table][index].frame == f
      ensures tabs == old(tabs)[Child(n, index) := f]
      ensures pmm.mem == old(pmm.mem)[table := old(pmm.mem)[table][index := TableWord(f, flags)]]
      ensures MadeWith(TableWord(f, flags), f, flags)
      ensures Intact(old(pmm.mem), pmm.mem, old(Out()))
      ensures StaysOpen(old(pmm.mem), old(tabs), pmm.mem, tabs, SpaceOf(n).User? ==> flags.user)
    {
      ghost var m := pmm.mem;
      var w := TableWord(f, flags);
      assert table in tabs.Values;
      assert CanAdd(m, tabs, kernel, n, index, f, w);
      hide ListOk, CursorOk, FramesFrom, TablesOk, Grown, OpenAbove, KernelOpen, CanAdd;
      AddTable(m, tabs, kernel, n, index, f, w);
      AddTableOpen(m, tabs, kernel, n, index, f, w);
      pmm.Store(table, index, w);
      tabs := tabs[Child(n, index) := f];
    }

    lemma RootFrame(s: Space)
      requires TablesOk(pmm.mem, tabs, kernel) && Live(s)
      ensures tabs[Root(s)] == Pml4Of(s, kernel)
    {
      NodeWithin(pmm.mem, tabs, kernel, Root(s));
    }

    lemma OwnerLives(s: Space, p: Path)
      requires TablesOk(pmm.mem, tabs, kernel) && Live(s)
      ensures Live(OwnerOf(s, p)) && !Shared(Root(OwnerOf(s, p)), p.i4) && TableOf(OwnerOf(s, p), p) == TableOf(s, p)
    {
    }

    // vmm_map. False is a panic: the address is beyond the processor's limit, or memory is gone. In the
    // shared half of a process it maps for the kernel, where the process has the kernel's slot; without
    // that slot the process would get a table the kernel does not know.
    method Map(space: Space, virt: nat, phys: Frame, flags: Flags) returns (ok: bool)
      requires Valid() && Live(space)
      requires Shared(Root(space), PathOf(virt).i4) ==> Entry(pmm.mem, space.pml4, PathOf(virt).i4).present
      modifies this`tabs, pmm
      ensures |pmm.mem| == |old(pmm.mem)|
      ensures Valid() && Out() == old(Out())
      ensures ok ==>
        Remapped(old(pmm.mem), old(tabs), pmm.mem, tabs, OwnerOf(space, PathOf(virt)), PathOf(virt),
                 Some(LeafWord(phys, flags)))
      ensures ok ==> Lookup(pmm.mem, Pml4Of(space, kernel), PathOf(virt)).Some?
      ensures ok ==>
        var leaf := Lookup(pmm.mem, Pml4Of(space, kernel), PathOf(virt)).value;
        leaf.present && leaf.frame == phys && leaf.writable == flags.writable && leaf.user == flags.user &&
        leaf.nx == flags.nx && leaf.wthru == flags.wthru && leaf.nocache == flags.nocache
      ensures ok && space.User? && PathOf(virt).i4 < 256 && old(OpenAbove(pmm.mem, tabs)) && flags.user ==>
        EffectiveRights(pmm.mem, space.pml4, PathOf(virt)) == Some(Rights(flags.writable, true, flags.nx))
      ensures !ok ==> SameTranslations(old(pmm.mem), old(tabs), pmm.mem, tabs)
      ensures !ok ==> phys as nat * 4096 > cpuPageMask || pmm.Avail() == {}
      ensures ok ==> phys as nat * 4096 <= cpuPageMask
      ensures Intact(old(pmm.mem), pmm.mem, Out())
      ensures StaysOpen(old(pmm.mem), old(tabs), pmm.mem, tabs, OwnerOf(space, PathOf(virt)).User? ==> flags.user)
    {
      hide ListOk, CursorOk, FramesFrom, TablesOk, Grown, OpenAbove, KernelOpen, Changed, Remapped, SameTranslations;
      hide PathOf;
      var p := PathOf(virt);
      ghost var m0, tabs0 := pmm.mem, tabs;
      GrownReflexive(m0, tabs0);
      GrownIsSame(m0, tabs0, m0, tabs0, kernel);
      if phys as nat * 4096 > cpuPageMask {
        return false;
      }
      OwnerLives(space, p);
      TableOfShape(space, p);
      var pt := TableFor(space, p, flags);
      GrownIsSame(m0, tabs0, pmm.mem, tabs, kernel);
      if pt == None {
        return false;
      }
      ghost var m1, leaf := pmm.mem, Some(LeafWord(phys, flags));
      StoreLeaf(pt.value, p.i1, LeafWord(phys, flags), TableOf(space, p));
      GrownThenChanged(m0, tabs0, m1, tabs, pmm.mem, tabs, TableOf(space, p), p.i1, leaf);
      ChangedIsRemapped(m0, tabs0, pmm.mem, tabs, kernel, OwnerOf(space, p), p, leaf);
      LeafMapped(m0, tabs0, space, p, phys, flags);
      ok := true;
    }

    // What stands at the page after it was mapped.
    lemma LeafMapped(m0: Memory, tabs0: Tables, space: Space, p: Path, phys: Frame, flags: Flags)
      requires TablesOk(m0, tabs0, kernel) && TablesOk(pmm.mem, tabs, kernel) && Root(space) in tabs0 && PathOk(p)
      requires Shared(Root(space), p.i4) ==> Entry(m0, space.pml4, p.i4).present
      requires Remapped(m0, tabs0, pmm.mem, tabs, OwnerOf(space, p), p, Some(LeafWord(phys, flags)))
      ensures Lookup(pmm.mem, Pml4Of(space, kernel), p) == Some(LeafWord(phys, flags))
      ensures space.User? && p.i4 < 256 && OpenAbove(pmm.mem, tabs) ==>
        EffectiveRights(pmm.mem, space.pml4, p) == Some(Rights(flags.writable, flags.user, flags.nx))
    {
      hide SlotsOk, Injective, Lookup, EffectiveRights, OpenAbove;
      NodeWithin(m0, tabs0, kernel, Root(space));
      assert Sees(m0, tabs0, space, OwnerOf(space, p), p);
      RightsComeFromLeaf(pmm.mem, tabs, kernel, space, p);
    }

    // The three get_next calls of vmm_map.
    method TableFor(space: Space, p: Path, flags: Flags) returns (pt: Option<Frame>)
      requires Valid() && Live(space) && PathOk(p)
      requires Shared(Root(space), p.i4) ==> Entry(pmm.mem, space.pml4, p.i4).present
      modifies this`tabs, pmm
      ensures |pmm.mem| == |old(pmm.mem)|
      ensures Valid() && Out() == old(Out())
      ensures Grown(old(pmm.mem), old(tabs), pmm.mem, tabs)
      ensures pt == None ==> pmm.Avail() == {}
      ensures pt != None ==> TableOf(space, p) in tabs && tabs[TableOf(space, p)] == pt.value
      ensures pt != None ==> Hinted(pmm.mem, tabs, old(tabs), space, p, flags)
      ensures Intact(old(pmm.mem), pmm.mem, Out())
      ensures StaysOpen(old(pmm.mem), old(tabs), pmm.mem, tabs, OwnerOf(space, p).User? ==> flags.user)
    {
      hide *;
      ghost var m0, tabs0, out := pmm.mem, tabs, Out();
      ThreeBelow(space, p, flags);
      ghost var n3 := Child(Root(space), p.i4);
      ghost var n2, bare := Sub(n3, p.i3), flags.(wthru := false, nocache := false);
      pt := DirectoryFor(space, p, flags);
      if pt == None {
        return;
      }
      ghost var m2, tabs2 := pmm.mem, tabs;
      TablesAre(space);
      pt := GetNext(pt.value, p.i2, SanitizeFlags(flags, 3), n2, m0, tabs0);
      IntactThenIntact(m0, m2, pmm.mem, out, out);
      StaysOpenThen(m0, tabs0, m2, tabs2, pmm.mem, tabs, OwnerOf(space, p).User? ==> flags.user);
      if pt == None {
        return;
      }
      MadeNow(pmm.mem, tabs, tabs2, tabs0, n2, TableOf(space, p), p.i2, SanitizeFlags(flags, 3), flags);
      MadeStill(m2, tabs2, pmm.mem, tabs, tabs0, kernel, n3, n2, p.i3, n2, p.i2, bare);
      MadeStill(m2, tabs2, pmm.mem, tabs, tabs0, kernel, Root(space), n3, p.i4, n2, p.i2, bare);
      AllHinted(pmm.mem, tabs, tabs0, space, p, flags);
    }

    // The first two of them.
    method DirectoryFor(space: Space, p: Path, flags: Flags) returns (pd: Option<Frame>)
      requires Valid() && Live(space) && PathOk(p)
      requires Shared(Root(space), p.i4) ==> Entry(pmm.mem, space.pml4, p.i4).present
      modifies this`tabs, pmm
      ensures |pmm.mem| == |old(pmm.mem)|
      ensures Valid() && Out() == old(Out())
      ensures Grown(old(pmm.mem), old(tabs), pmm.mem, tabs)
      ensures pd == None ==> pmm.Avail() == {}
      ensures var n3 := Child(Root(space), p.i4); var n2 := Sub(n3, p.i3);
        pd != None ==>
          n2 in tabs && tabs[n2] == pd.value && (TableOf(space, p) in tabs ==> TableOf(space, p) in old(tabs)) &&
          MadeAt(pmm.mem, tabs, old(tabs), Root(space), n3, p.i4, flags.(wthru := false, nocache := false)) &&
          MadeAt(pmm.mem, tabs, old(tabs), n3, n2, p.i3, flags.(wthru := false, nocache := false))
      ensures Intact(old(pmm.mem), pmm.mem, Out())
      ensures StaysOpen(old(pmm.mem), old(tabs), pmm.mem, tabs, OwnerOf(space, p).User? ==> flags.user)
    {
      hide *;
      ghost var m0, tabs0, out := pmm.mem, tabs, Out();
      GrownReflexive(m0, tabs0);
      ThreeBelow(space, p, flags);
      TablesAre(space);
      ghost var n4, n3 := Root(space), Child(Root(space), p.i4);
      ghost var n2, bare := Sub(n3, p.i3), flags.(wthru := false, nocache := false);
      pd := GetNext(Pml4Of(space, kernel), p.i4, SanitizeFlags(flags, 1), n4, m0, tabs0);
      if pd == None {
        return;
      }
      ghost var m1, tabs1 := pmm.mem, tabs;
      TablesAre(space);
      MadeNow(m1, tabs1, tabs0, tabs0, n4, n3, p.i4, SanitizeFlags(flags, 1), bare);
      pd := GetNext(pd.value, p.i3, SanitizeFlags(flags, 2), n3, m0, tabs0);
      IntactThenIntact(m0, m1, pmm.mem, out, out);
      StaysOpenThen(m0, tabs0, m1, tabs1, pmm.mem, tabs, OwnerOf(space, p).User? ==> flags.user);
      if pd == None {
        return;
      }
      MadeNow(pmm.mem, tabs, tabs1, tabs0, n3, n2, p.i3, SanitizeFlags(flags, 2), bare);
      MadeStill(m1, tabs1, pmm.mem, tabs, tabs0, kernel, n4, n3, p.i4, n3, p.i3, bare);
    }

    lemma TablesAre(space: Space)
      requires Valid()
      ensures TablesOk(pmm.mem, tabs, kernel)
      ensures Live(space) ==> Root(space) in tabs && tabs[Root(space)] == Pml4Of(space, kernel)
      ensures space.User? ==> Pml4Of(space, kernel) == space.pml4
    {
      if Live(space) { RootFrame(space); }
    }

    // pt[index] = w.
    method StoreLeaf(pt: Frame, index: nat, w: Word, ghost n: Node)
      requires Valid() && n in tabs && tabs[n] == pt && Depth(n) == 3 && index < 512
      modifies pmm`mem
      ensures |pmm.mem| == |old(pmm.mem)|
      ensures Valid() && Out() == old(Out())
      ensures Changed(old(pmm.mem), tabs, pmm.mem, tabs, n, index, if w.present then Some(w) else None)
      ensures Intact(old(pmm.mem), pmm.mem, Out())
      ensures StaysOpen(old(pmm.mem), old(tabs), pmm.mem, tabs, true)
    {
      hide ListOk, CursorOk, FramesFrom, TablesOk, Changed, OpenAbove, KernelOpen;
      assert pt in tabs.Values;
      NodeWithin(pmm.mem, tabs, kernel, n);
      SetLeafOpen(pmm.mem, tabs, kernel, n, index, w);
      SetLeaf(pmm.mem, tabs, kernel, n, index, w);
      pmm.Store(pt, index, w);
    }

    // vmm_unmap, which takes it for granted that the three tables exist.
    method Unmap(space: Space, virt: nat)
      requires Valid() && Live(space) && Mappable(pmm.mem, Pml4Of(space, kernel), PathOf(virt))
      modifies pmm`mem
      ensures Valid() && Out() == old(Out())
      ensures Remapped(old(pmm.mem), tabs, pmm.mem, tabs, OwnerOf(space, PathOf(virt)), PathOf(virt), None)
      ensures Intact(old(pmm.mem), pmm.mem, Out())
      ensures StaysOpen(old(pmm.mem), old(tabs), pmm.mem, tabs, true)
    {
      hide ListOk, CursorOk, FramesFrom, TablesOk, OpenAbove, KernelOpen, Changed, Remapped, PathOf, Mappable;
      var p := PathOf(virt);
      ghost var m0 := pmm.mem;
      RootFrame(space);
      MappableTables(m0, tabs, kernel, space, p);
      var pdpt := pmm.mem[Pml4Of(space, kernel)][p.i4].frame;
      var pd := pmm.mem[pdpt][p.i3].frame;
      var pt := pmm.mem[pd][p.i2].frame;
      StoreLeaf(pt, p.i1, ZERO, TableOf(space, p));
      OwnerLives(space, p);
      ChangedIsRemapped(m0, tabs, pmm.mem, tabs, kernel, OwnerOf(space, p), p, None);
    }

    // vmm_virt_to_phys_as: the physical address, or which level of the walk found nothing.
    method VirtToPhys(space: Space, virt: nat) returns (phys: int)
      requires Valid() && Live(space)
      ensures match Lookup(pmm.mem, Pml4Of(space, kernel), PathOf(virt))
              case Some(leaf) => phys == leaf.frame as int * 4096 + virt % 4096
              case None => phys == -1 - LevelsPresent(pmm.mem, Pml4Of(space, kernel), PathOf(virt))
      ensures Mappable(pmm.mem, Pml4Of(space, kernel), PathOf(virt)) <==> phys >= -4 && phys !in {-1, -2, -3}
      ensures var p, e4 := PathOf(virt), Entry(pmm.mem, Pml4Of(space, kernel), PathOf(virt).i4);
        var e3 := Entry(pmm.mem, e4.frame, p.i3); var e2 := Entry(pmm.mem, e3.frame, p.i2);
        var e1 := Entry(pmm.mem, e2.frame, p.i1);
        (phys == -1 <==> !e4.present) && (phys == -2 <==> e4.present && !e3.present) &&
        (phys == -3 <==> e4.present && e3.present && !e2.present) &&
        (phys == -4 <==> e4.present && e3.present && e2.present && !e1.present) &&
        (phys >= 0 ==> phys == e1.frame as int * 4096 + virt % 4096)
    {
      hide ListOk, CursorOk, FramesFrom, TablesOk, PathOf;
      var p := PathOf(virt);
      var m := pmm.mem;
      RootFrame(space);
      ghost var n4 := Root(space);
      NodeWithin(m, tabs, kernel, n4);
      var e4 := m[Pml4Of(space, kernel)][p.i4];
      if !e4.present { return -1; }
      ghost var n3 := Child(n4, p.i4);
      SlotPresent(m, tabs, kernel, n4, p.i4);
      NodeWithin(m, tabs, kernel, n3);
      var e3 := m[e4.frame][p.i3];
      if !e3.present { return -2; }
      SlotPresent(m, tabs, kernel, n3, p.i3);
      NodeWithin(m, tabs, kernel, Sub(n3, p.i3));
      var e2 := m[e3.frame][p.i2];
      if !e2.present { return -3; }
      SlotPresent(m, tabs, kernel, Sub(n3, p.i3), p.i2);
      NodeWithin(m, tabs, kernel, TableOf(space, p));
      var e1 := m[e2.frame][p.i1];
      if !e1.present { return -4; }
      phys := e1.frame as int * 4096 + virt % 4096;
    }

    // paging_create_address_space. None is the allocator's panic.
    method CreateAddressSpace() returns (space: Option<Space>)
      requires Valid()
      modifies this`tabs, pmm
      ensures Valid() && Out() == old(Out())
      ensures space == None ==> tabs == old(tabs) && pmm.Avail() == {} && Grown(old(pmm.mem), tabs, pmm.mem, tabs)
      ensures space != None ==> Created(old(pmm.mem), old(tabs), pmm.mem, tabs, kernel, space.value)
      ensures Intact(old(pmm.mem), pmm.mem, Out())
      ensures StaysOpen(old(pmm.mem), old(tabs), pmm.mem, tabs, true)
    {
      hide ListOk, CursorOk, FramesFrom, TablesOk, OpenAbove, KernelOpen, Grown, Created, CanCreate, CopiedTo;
      ghost var m0 := pmm.mem;
      var pml4 := AllocTable();
      if pml4 == None {
        return None;
      }
      ghost var m1 := pmm.mem;
      var f := pml4.value;
      CopyKernelHalf(f);
      NewRoot(m1, tabs, kernel, f, pmm.mem[f]);
      CreatedFrom(m0, m1, tabs, kernel, f, pmm.mem[f]);
      tabs := tabs[Root(User(f)) := f];
      space := Some(User(f));
    }

    // paging_copy_kernel_half, on a page that is still clear.
    method CopyKernelHalf(pml4: Frame)
      requires Valid() && pml4 in Out() && pml4 as nat < |pmm.mem| && pmm.mem[pml4] == ZeroPage()
      modifies pmm`mem
      ensures pmm.Valid() && pml4 as nat < |pmm.mem| && pmm.mem == old(pmm.mem)[pml4 := pmm.mem[pml4]]
      ensures CanCreate(old(pmm.mem), tabs, kernel, pml4, pmm.mem[pml4])
    {
      assert Root(Kernel) in tabs && kernel in tabs.Values;
      hide ListOk, CursorOk, FramesFrom, TablesOk;
      ghost var m := pmm.mem;
      NodeWithin(m, tabs, kernel, Root(Kernel));
      RootFrame(Kernel);
      for i := 256 to 512
        invariant pmm.Valid() && |pmm.mem| == |m| && pmm.mem == m[pml4 := pmm.mem[pml4]]
        invariant CopiedTo(pmm.mem[pml4], m[kernel], i)
      {
        pmm.Store(pml4, i, pmm.mem[kernel][i]);
      }
    }

    // One loop of paging_destroy_address_space: free what each of the first `width` slots of a
    // table refers to. The four nested loops are this one at heights 4, 3, 2 and 1.
    method FreeSlots(table: Frame, height: nat, width: nat)
      requires pmm.Valid() && 0 < height && width <= 512 && table as nat < |pmm.mem|
      requires Freeable(Pushes(pmm.mem, table, height, width), pmm.Usable(), pmm.Avail())
      requires table !in Pushes(pmm.mem, table, height, width)
      modifies pmm`mem, pmm`head, pmm`free
      ensures pmm.Valid()
      ensures FreedFrom(Pushes(old(pmm.mem), table, height, width), old(pmm.free), old(pmm.Avail()), old(pmm.mem),
                        pmm.free, pmm.Avail(), pmm.mem)
      decreases height, 1
    {
      hide *;
      ghost var free0, avail0, m0 := pmm.free, pmm.Avail(), pmm.mem;
      NoPushes(m0, table, height);
      FreedNothing(free0, avail0, m0);
      for i := 0 to width
        invariant pmm.Valid()
        invariant FreedFrom(Pushes(m0, table, height, i), free0, avail0, m0, pmm.free, pmm.Avail(), pmm.mem)
      {
        NextSlot(m0, table, height, i, width, pmm.Usable(), free0, avail0, pmm.free, pmm.Avail(), pmm.mem);
        ghost var free1, avail1, m1 := pmm.free, pmm.Avail(), pmm.mem;
        var e := pmm.mem[table][i];
        FreeSlot(e, height);
        FreedThenFreed(Pushes(m0, table, height, i), SlotPushes(m1, e, height),
                       free0, avail0, m0, free1, avail1, m1, pmm.free, pmm.Avail(), pmm.mem);
      }
    }

    // The body of such a loop: the table below first, then the frame itself.
    method FreeSlot(e: Word, height: nat)
      requires pmm.Valid() && 0 < height
      requires Freeable(SlotPushes(pmm.mem, e, height), pmm.Usable(), pmm.Avail())
      modifies pmm`mem, pmm`head, pmm`free
      ensures pmm.Valid()
      ensures FreedFrom(SlotPushes(old(pmm.mem), e, height), old(pmm.free), old(pmm.Avail()), old(pmm.mem),
                        pmm.free, pmm.Avail(), pmm.mem)
      decreases height, 0
    {
      hide ListOk, CursorOk, FramesFrom, Pushes, FreedFrom, Freeable;
      ghost var free0, avail0, m0 := pmm.free, pmm.Avail(), pmm.mem;
      FreedNothing(free0, avail0, m0);
      if !e.present {
        return;
      }
      ghost var p := if height > 1 then Pushes(m0, e.frame, height - 1, 512) else [];
      assert SlotPushes(m0, e, height) == p + [e.frame];
      FreeableParts(p, [e.frame], pmm.Usable(), avail0);
      LastFreeable(p, e.frame, pmm.Usable(), avail0);
      pmm.AvailUsable();
      if height > 1 {
        FreeSlots(e.frame, height - 1, 512);
      }
      FreeFrame(e.frame, p, free0, avail0, m0);
    }

    // pmm_free_page, after the frames p.
    method FreeFrame(f: Frame, ghost p: seq<Frame>, ghost free0: seq<Frame>, ghost avail0: set<Frame>, ghost m0: Memory)
      requires pmm.Valid() && FreedFrom(p, free0, avail0, m0, pmm.free, pmm.Avail(), pmm.mem)
      requires f in pmm.Usable() && f !in avail0 && f !in p
      modifies pmm`mem, pmm`head, pmm`free
      ensures pmm.Valid() && FreedFrom(p + [f], free0, avail0, m0, pmm.free, pmm.Avail(), pmm.mem)
    {
      hide ListOk, CursorOk, FramesFrom;
      pmm.FreePage(f);
      assert pmm.mem == old(pmm.mem)[f := pmm.mem[f]];
      assert Reverse(p + [f]) == [f] + Reverse(p) by { assert (p + [f])[..|p|] == p; }
    }

    // paging_destroy_address_space. The frames of the PML4, of every table of the process's half and
    // of every page mapped there are pushed onto the free list, as AllPushes lists them.
    method DestroyAddressSpace(space: Space)
      requires Valid() && Live(space) && space.User?
      requires PrivatePages(pmm.mem, space.pml4, Out())
      modifies this`tabs, pmm`mem, pmm`head, pmm`free
      ensures Valid() && Out() == old(Out()) - Elements(AllPushes(old(pmm.mem), space.pml4))
      ensures pmm.free == Reverse(AllPushes(old(pmm.mem), space.pml4)) + old(pmm.free)
      ensures Destroyed(old(pmm.mem), old(tabs), pmm.mem, tabs, space)
      ensures Intact(old(pmm.mem), pmm.mem, Out())
      ensures StaysOpen(old(pmm.mem), old(tabs), pmm.mem, tabs, true)
    {
      hide ListOk, CursorOk, FramesFrom, TablesOk, HeldOnce, PagesIn, PrivatePages, Destroyed, OpenAbove, KernelOpen;
      hide AllPushes, Freeable;
      ghost var free0, avail0, m0, f := pmm.free, pmm.Avail(), pmm.mem, space.pml4;
      ghost var out := Out();
      PrivateIsHeldOnce(m0, tabs, kernel, f, out);
      FreedFramesFreeable(m0, tabs, kernel, f, pmm.Usable(), avail0);
      FramesAfter(m0, tabs, kernel, f, pmm.Usable(), avail0);
      FreeAll(space);
      DestroyedFrom(m0, pmm.mem, tabs, kernel, f, out, free0, avail0, pmm.free, pmm.Avail());
      tabs := Without(tabs, space);
    }

    method FreeAll(space: Space)
      requires pmm.Valid() && space.User? && Freeable(AllPushes(pmm.mem, space.pml4), pmm.Usable(), pmm.Avail())
      modifies pmm`mem, pmm`head, pmm`free
      ensures pmm.Valid()
      ensures FreedFrom(AllPushes(old(pmm.mem), space.pml4), old(pmm.free), old(pmm.Avail()), old(pmm.mem),
                        pmm.free, pmm.Avail(), pmm.mem)
    {
      hide ListOk, CursorOk, FramesFrom, Pushes, FreedFrom, Freeable;
      ghost var free0, avail0, m0 := pmm.free, pmm.Avail(), pmm.mem;
      ghost var p := Pushes(m0, space.pml4, 4, 256);
      FreeableParts(p, [space.pml4], pmm.Usable(), avail0);
      LastFreeable(p, space.pml4, pmm.Usable(), avail0);
      pmm.AvailUsable();
      FreeSlots(space.pml4, 4, 256);
      FreeFrame(space.pml4, p, free0, avail0, m0);
    }
  }
}
