// Whole runs: any sequence of maps, unmaps, creations and destructions, in any order and on any
// number of address spaces.

module Runs {
  import opened PageFormat
  import opened Sequences
  import opened PageTables
  import opened Teardown
  import opened VirtualMemory

  datatype Snapshot = Snapshot(m: Memory, tabs: Tables)

  datatype Event =
    | Set(space: Space, path: Path, leaf: Option<Word>)  // vmm_map, or vmm_unmap with no leaf
    | Make(space: Space)                                 // paging_create_address_space
    | Drop(space: Space)                                 // paging_destroy_address_space
    | Idle                                               // anything that leaves every mapping alone

  ghost predicate Step(e: Event, a: Snapshot, b: Snapshot, kernel: Frame) {
    match e
    case Set(s, p, leaf) =>
      Root(s) in a.tabs && PathOk(p) && !Shared(Root(s), p.i4) && Remapped(a.m, a.tabs, b.m, b.tabs, s, p, leaf)
    case Make(s) => Created(a.m, a.tabs, b.m, b.tabs, kernel, s)
    case Drop(s) => s.User? && Destroyed(a.m, a.tabs, b.m, b.tabs, s)
    case Idle => SameTranslations(a.m, a.tabs, b.m, b.tabs)
  }

  // Every live space has its own PML4, and the kernel is one of them.
  ghost predicate RootsOk(tabs: Tables, kernel: Frame) {
    Root(Kernel) in tabs && forall s :: Root(s) in tabs ==> tabs[Root(s)] == Pml4Of(s, kernel)
  }

  ghost predicate Run(es: seq<Event>, states: seq<Snapshot>, kernel: Frame) {
    |states| == |es| + 1 && RootsOk(states[0].tabs, kernel) &&
    forall i :: 0 <= i < |es| ==> Step(es[i], states[i], states[i + 1], kernel)
  }

  // The leaf at (s, p) after the events, given the one before: the last event that names it decides.
  function LastSet(es: seq<Event>, s: Space, p: Path, before: Option<Word>): Option<Word> {
    if es == [] then before
    else
      var rest := LastSet(es[..|es| - 1], s, p, before);
      match es[|es| - 1]
      case Set(s', p', leaf) => if s' == s && p' == p then leaf else rest
      case Make(s') => if s' == s then None else rest
      case _ => rest
  }

  lemma StepRoots(e: Event, a: Snapshot, b: Snapshot, kernel: Frame)
    requires RootsOk(a.tabs, kernel) && Step(e, a, b, kernel)
    ensures RootsOk(b.tabs, kernel)
  {
    hide Lookup;
    assert PathOk(Path(0, 0, 0, 0));
  }

  // One step changes the page it names and no other.
  lemma StepTranslation(e: Event, a: Snapshot, b: Snapshot, kernel: Frame, s: Space, p: Path, before: Option<Word>)
    requires RootsOk(a.tabs, kernel) && Step(e, a, b, kernel)
    requires PathOk(p) && !Shared(Root(s), p.i4) && Root(s) in b.tabs
    requires Root(s) in a.tabs ==> Lookup(a.m, Pml4Of(s, kernel), p) == before
    ensures Lookup(b.m, Pml4Of(s, kernel), p) == LastSet([e], s, p, before)
  {
    hide Lookup;
    assert [e][..0] == [];
  }

  // The walk after any run finds, at every page of a process's own half and at every page of the
  // kernel, what the last event on that page left there.
  lemma {:induction false} RunTranslation(es: seq<Event>, states: seq<Snapshot>, kernel: Frame, s: Space, p: Path)
    requires Run(es, states, kernel) && PathOk(p) && !Shared(Root(s), p.i4)
    ensures RootsOk(states[|es|].tabs, kernel)
    ensures Root(s) in states[|es|].tabs ==>
      Lookup(states[|es|].m, Pml4Of(s, kernel), p) == LastSet(es, s, p, Lookup(states[0].m, Pml4Of(s, kernel), p))
  {
    hide Lookup, Step, RootsOk;
    if es != [] {
      var n := |es| - 1;
      RunTranslation(es[..n], states[..n + 1], kernel, s, p);
      StepRoots(es[n], states[n], states[n + 1], kernel);
      if Root(s) in states[n + 1].tabs {
        var before := LastSet(es[..n], s, p, Lookup(states[0].m, Pml4Of(s, kernel), p));
        StepTranslation(es[n], states[n], states[n + 1], kernel, s, p, before);
        assert [es[n]][..0] == [];
      }
    }
  }

  // What a process's slot j of the top level owes to the kernel's at its creation.
  ghost predicate Inherits(m: Memory, kernel: Frame, f: Frame, j: nat, present: bool) {
    if present then Entry(m, kernel, j).present && Entry(m, f, j) == Entry(m, kernel, j) else !Entry(m, f, j).present
  }

  lemma MakeInherits(a: Snapshot, b: Snapshot, kernel: Frame, f: Frame, j: nat)
    requires RootsOk(a.tabs, kernel) && Step(Make(User(f)), a, b, kernel) && 256 <= j < 512
    ensures Root(User(f)) in b.tabs && Inherits(b.m, kernel, f, j, Entry(a.m, kernel, j).present)
  {
    hide Lookup;
  }

  lemma StepInherits(e: Event, a: Snapshot, b: Snapshot, kernel: Frame, f: Frame, j: nat, present: bool)
    requires RootsOk(a.tabs, kernel) && Step(e, a, b, kernel) && e != Drop(User(f)) && 256 <= j < 512
    requires Root(User(f)) in a.tabs && Inherits(a.m, kernel, f, j, present)
    ensures Root(User(f)) in b.tabs && Inherits(b.m, kernel, f, j, present)
  {
    hide Lookup;
    assert Shared(Root(User(f)), j) && PathOk(Path(0, 0, 0, 0));
  }

  // Under each slot of the upper half that the kernel had filled when the process was created, the
  // process sees at every later time what the kernel sees then; under the others it sees nothing.
  lemma {:induction false} KernelHalfForever(es: seq<Event>, states: seq<Snapshot>, kernel: Frame, f: Frame, i: nat,
                                             k: nat, q: Path)
    requires Run(es, states, kernel) && i < k <= |es| && es[i] == Make(User(f))
    requires forall j :: i < j < k ==> es[j] != Drop(User(f))
    requires PathOk(q) && q.i4 >= 256
    ensures Root(User(f)) in states[k].tabs
    ensures Inherits(states[k].m, kernel, f, q.i4, Entry(states[i].m, kernel, q.i4).present)
    ensures Lookup(states[k].m, f, q) ==
      if Entry(states[i].m, kernel, q.i4).present then Lookup(states[k].m, kernel, q) else None
    decreases k
  {
    hide Step, RootsOk;
    RunTranslation(es[..k - 1], states[..k], kernel, Kernel, q);
    if k == i + 1 {
      MakeInherits(states[i], states[k], kernel, f, q.i4);
    } else {
      KernelHalfForever(es, states, kernel, f, i, k - 1, q);
      StepInherits(es[k - 1], states[k - 1], states[k], kernel, f, q.i4, Entry(states[i].m, kernel, q.i4).present);
    }
  }

  // ---- vmm.c makes these steps, and no others ----

  datatype Call =
    | MapPage(space: Space, virt: nat, phys: Frame, flags: Flags)
    | UnmapPage(space: Space, virt: nat)
    | CreateSpace
    | DestroySpace(space: Space)

  ghost function Now(vmm: Vmm): Snapshot
    reads vmm, vmm.pmm
  {
    Snapshot(vmm.pmm.mem, vmm.tabs)
  }

  // What the methods of Vmm demand of their callers.
  ghost predicate Allowed(vmm: Vmm, c: Call)
    reads vmm, vmm.pmm
  {
    vmm.Valid() &&
    match c
    case MapPage(s, virt, _, _) =>
      vmm.Live(s) && (Shared(Root(s), PathOf(virt).i4) ==> Entry(vmm.pmm.mem, s.pml4, PathOf(virt).i4).present)
    case UnmapPage(s, virt) =>
      vmm.Live(s) && Mappable(vmm.pmm.mem, Pml4Of(s, vmm.kernel), PathOf(virt))
    case CreateSpace => true
    case DestroySpace(s) => s.User? && vmm.Live(s) && PrivatePages(vmm.pmm.mem, s.pml4, vmm.Out())
  }

  ghost predicate Becomes(c: Call, e: Event) {
    match c
    case MapPage(s, virt, phys, flags) => 
      e in {Idle, Set(OwnerOf(s, PathOf(virt)), PathOf(virt), Some(LeafWord(phys, flags)))}
    case UnmapPage(s, virt) => e == Set(OwnerOf(s, PathOf(virt)), PathOf(virt), None)
    case CreateSpace => e == Idle || e.Make?
    case DestroySpace(s) => e == Drop(s)
  }

  // Any state of the object is the start of a history.
  lemma StartsRun(vmm: Vmm)
    requires vmm.Valid()
    ensures Run([], [Now(vmm)], vmm.kernel)
  {
    forall s | Root(s) in vmm.tabs ensures vmm.tabs[Root(s)] == Pml4Of(s, vmm.kernel) { vmm.RootFrame(s); }
  }

  lemma RunLonger(es: seq<Event>, states: seq<Snapshot>, e: Event, b: Snapshot, kernel: Frame)
    requires Run(es, states, kernel) && Step(e, states[|es|], b, kernel)
    ensures Run(es + [e], states + [b], kernel)
  {
    hide Step, RootsOk;
    var es', states' := es + [e], states + [b];
    forall i | 0 <= i < |es'| ensures Step(es'[i], states'[i], states'[i + 1], kernel) {
      if i < |es| { assert es'[i] == es[i] && states'[i] == states[i] && states'[i + 1] == states[i + 1]; }
    }
  }

  // A call makes the history longer by one step. Idle stands for the calls that panic, for want of memory
  // or of address bits.
  method Serve(vmm: Vmm, c: Call, ghost es: seq<Event>, ghost states: seq<Snapshot>) returns (ghost e: Event)
    requires Allowed(vmm, c)
    requires Run(es, states, vmm.kernel) && states[|es|] == Now(vmm)
    modifies vmm`tabs, vmm.pmm
    ensures vmm.Valid() && Step(e, old(Now(vmm)), Now(vmm), vmm.kernel) && Becomes(c, e)
    ensures Run(es + [e], states + [Now(vmm)], vmm.kernel)
    ensures e == Idle ==> vmm.pmm.Avail() == {} || (c.MapPage? && c.phys as nat * 4096 > vmm.cpuPageMask)
  {
    hide Remapped, SameTranslations, Created, Destroyed, Mappable, PrivatePages, PathOf, TablesOk, Grown, Vmm.Valid;
    hide Run, RootsOk;
    e := Idle;
    Owners(vmm);
    match c {
      case MapPage(s, virt, phys, flags) =>
        var ok := vmm.Map(s, virt, phys, flags);
        if ok { e := Set(OwnerOf(s, PathOf(virt)), PathOf(virt), Some(LeafWord(phys, flags))); }
      case UnmapPage(s, virt) =>
        vmm.Unmap(s, virt);
        e := Set(OwnerOf(s, PathOf(virt)), PathOf(virt), None);
      case CreateSpace =>
        ghost var m0 := vmm.pmm.mem;
        Tables(vmm);
        var space := vmm.CreateAddressSpace();
        Tables(vmm);
        if space == None {
          GrownIsSame(m0, vmm.tabs, vmm.pmm.mem, vmm.tabs, vmm.kernel);
        } else {
          e := Make(space.value);
        }
      case DestroySpace(s) =>
        vmm.DestroyAddressSpace(s);
        e := Drop(s);
    }
    RunLonger(es, states, e, Now(vmm), vmm.kernel);
  }

  lemma Owners(vmm: Vmm)
    requires vmm.Valid()
    ensures forall s, p :: vmm.Live(s) ==> vmm.Live(OwnerOf(s, p)) && !Shared(Root(OwnerOf(s, p)), p.i4)
  {
  }

  lemma Tables(vmm: Vmm)
    requires vmm.Valid()
    ensures TablesOk(vmm.pmm.mem, vmm.tabs, vmm.kernel)
  {
  }
}
