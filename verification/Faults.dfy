// What a page fault and an munmap do to the pages, the stack and the areas of a process, and what any run
// of faults does to the agreement between them.

module Faults {
  import opened PageFormat
  import opened Sequences
  import opened PageTables
  import opened Teardown
  import opened Ownership
  import opened Regions
  import opened UserPages

  // Panic stands for a kernel panic: out of memory, or a frame beyond the processor's limit.
  datatype Outcome = Done(ok: bool) | Panic

  // What a fault on an address with this behind it may end in.
  predicate FaultOutcome(b: Backing, driverOk: bool, r: Outcome) {
    match b
    case Nothing => r == Done(false)
    case Anonymous => r == Done(true) || r == Panic
    case FileAt(_, _) => r == Done(driverOk)
  }

  // A process at one moment: its pages, its stack and its areas.
  datatype Image = Image(view: View, bottom: nat, areas: seq<Vma>)

  // Whether page_fault_handler takes the fault for stack growth. The page below the limit counts as
  // stack, so an area there is only reached once the stack is fully grown.
  predicate Grows(a: Image, max: nat, addr: nat) { addr + 4096 >= max && max < a.bottom && addr < a.bottom }

  // The first half of page_fault_handler: the stack grew by a page, or all pages stayed.
  ghost predicate StackHandled(a: Image, b: Image, s: Space, max: nat, addr: nat, r: Outcome) {
    s.User? && Steps(a.view, b.view, s) && b.areas == a.areas && (Grows(a, max, addr) <==> r != Done(false)) &&
    (if r == Done(true) then b.bottom == a.bottom - 4096 && PageAdded(a.view, b.view, s.pml4, b.bottom / 4096)
     else b.bottom == a.bottom && NothingAdded(a.view, b.view, s.pml4))
  }

  // Page n of area k was mapped and listed there; nothing else changed.
  ghost predicate PageListed(a: Image, b: Image, pml4: Frame, k: nat, n: nat, f: Frame) {
    k < |a.areas| && UserPages.Inside(a.areas[k], n) && PageTaken(a.view, b.view, pml4, n, f) &&
    b.areas == a.areas[k := WithPage(a.areas[k], n, f)]
  }

  // The second half: the page asked for was mapped, and listed by its area, or all pages and lists stayed.
  ghost predicate AreaHandled(a: Image, b: Image, s: Space, addr: nat, driverOk: bool, r: Outcome) {
    s.User? && Steps(a.view, b.view, s) && b.bottom == a.bottom &&
    FaultOutcome(BackingOf(a.areas, addr), driverOk, r) &&
    (if r == Done(true) && BackingOf(a.areas, addr) == Anonymous
     then exists k, f :: PageListed(a, b, s.pml4, k, addr / 4096, f)
     else NothingAdded(a.view, b.view, s.pml4) && b.areas == a.areas)
  }

  // The whole of it: one half or the other.
  ghost predicate FaultHandled(a: Image, b: Image, s: Space, max: nat, addr: nat, driverOk: bool, r: Outcome) {
    if Grows(a, max, addr) then StackHandled(a, b, s, max, addr, r) else AreaHandled(a, b, s, addr, driverOk, r)
  }

  lemma HalvesHandle(a: Image, b: Image, c: Image, s: Space, max: nat, addr: nat, driverOk: bool, r: Outcome)
    requires StackHandled(a, b, s, max, addr, Done(false)) && AreaHandled(b, c, s, addr, driverOk, r)
    ensures FaultHandled(a, c, s, max, addr, driverOk, r)
  {
    hide PageAdded, PageTaken, NothingAdded, Steps, BackingOf, FaultOutcome;
    StepsTransitive(a.view, b.view, c.view, s);
    NoneLost(a.view, b.view, s);
    if r == Done(true) && BackingOf(a.areas, addr) == Anonymous {
      var k, f :| PageListed(b, c, s.pml4, k, addr / 4096, f);
      AfterNothing(a.view, b.view, c.view, s.pml4, addr / 4096, f);
      assert PageListed(a, c, s.pml4, k, addr / 4096, f);
    } else {
      AfterNothing(a.view, b.view, c.view, s.pml4, addr / 4096, 0);
    }
  }

  lemma NoneLost(a: View, b: View, s: Space)
    requires Steps(a, b, s)
    ensures a.out <= b.out
  {
  }

  // Either way the areas keep their bounds and backing, and no other process notices.
  lemma HandledKeeps(a: Image, b: Image, s: Space, max: nat, addr: nat, driverOk: bool, r: Outcome)
    requires FaultHandled(a, b, s, max, addr, driverOk, r)
    ensures Steps(a.view, b.view, s) && SameRegions(a.areas, b.areas)
  {
    hide PageAdded, PageTaken, NothingAdded, Steps, BackingOf, FaultOutcome;
    SameRegionsReflexive(a.areas);
    if b.areas != a.areas {
      var k, f :| PageListed(a, b, s.pml4, k, addr / 4096, f);
      ListedRegions(a.areas, k, addr / 4096, f);
    }
  }

  // What munmap of whole pages answers and leaves. It comes back unless a page is lost, and succeeds when
  // one area holds the range; then the range has nothing behind it and does not translate.
  ghost predicate MunmapHandled(a: Image, b: Image, s: Space, max: nat, top: nat, addr: nat, len: nat,
                                r: Option<int>) {
    s.User? && (r == None <==> len != 0 && !NoPagesLost(a.areas, addr, len)) &&
    (r == None || r == Some(0) || r == Some(0xFFFF_FFFF_FFFF_FFEA)) &&
    (r != None ==> (r == Some(0) <==> len != 0 && Unmappable(a.areas, addr, len))) &&
    (r == Some(0xFFFF_FFFF_FFFF_FFEA) ==> b.areas == a.areas && b.view.m == a.view.m) &&
    (r == Some(0) ==>
      RangeGone(a.view.m, b.view.m, s.pml4, addr, len, max, top) && BackingGone(a.areas, b.areas, addr, len))
  }

  // ---- Whole runs of faults ----

  datatype Fault = Fault(addr: nat, driverOk: bool, r: Outcome)

  ghost predicate FaultStep(e: Fault, a: Image, b: Image, s: Space, max: nat) {
    s.User? && AbsentIn(a.view.m, s.pml4, a.areas, e.addr) && FaultHandled(a, b, s, max, e.addr, e.driverOk, e.r)
  }

  ghost predicate FaultRun(es: seq<Fault>, states: seq<Image>, s: Space, max: nat) {
    |states| == |es| + 1 && forall i :: 0 <= i < |es| ==> FaultStep(es[i], states[i], states[i + 1], s, max)
  }

  lemma FaultRunLonger(es: seq<Fault>, states: seq<Image>, e: Fault, b: Image, s: Space, max: nat)
    requires FaultRun(es, states, s, max) && FaultStep(e, states[|es|], b, s, max)
    ensures FaultRun(es + [e], states + [b], s, max)
  {
    hide FaultStep;
    var es', states' := es + [e], states + [b];
    forall i | 0 <= i < |es'| ensures FaultStep(es'[i], states'[i], states'[i + 1], s, max) {
      if i < |es| { assert es'[i] == es[i] && states'[i] == states[i] && states'[i + 1] == states[i + 1]; }
    }
  }

  // Stack and areas of a process are in order.
  ghost predicate ImageOk(a: Image, s: Space, max: nat, top: nat) {
    s.User? && a.bottom % 4096 == 0 && max % 4096 == 0 && top % 4096 == 0 &&
    StackOk(a.view.m, s.pml4, max / 4096, a.bottom / 4096, top / 4096) &&
    AreasAgree(a.view.m, s.pml4, a.areas, max / 4096, top / 4096)
  }

  ghost predicate ListsRight(a: Image, s: Space) { s.User? && AllListed(a.view.m, s.pml4, a.areas) }

  lemma StackStepOk(a: Image, b: Image, s: Space, max: nat, top: nat, addr: nat, r: Outcome)
    requires ImageOk(a, s, max, top) && StackHandled(a, b, s, max, addr, r) && Grows(a, max, addr)
    ensures ImageOk(b, s, max, top) && b.areas == a.areas && b.bottom <= a.bottom
  {
    hide StackOk, AreasAgree, Steps, PageSet, PagesSame;
    if r == Done(true) {
      var f :| PageTaken(a.view, b.view, s.pml4, b.bottom / 4096, f);
      assert a.bottom / 4096 - 1 == b.bottom / 4096;
      StackGrown(a.view.m, b.view.m, s.pml4, max / 4096, a.bottom / 4096, top / 4096, a.areas, f);
    } else {
      NothingMoves(a.view.m, b.view.m, s.pml4, max / 4096, a.bottom / 4096, top / 4096, a.areas);
    }
  }

  lemma AreaStepOk(a: Image, b: Image, s: Space, max: nat, top: nat, addr: nat, driverOk: bool, r: Outcome)
    requires ImageOk(a, s, max, top) && AreaHandled(a, b, s, addr, driverOk, r) && !Grows(a, max, addr)
    requires AbsentIn(a.view.m, s.pml4, a.areas, addr)
    ensures ImageOk(b, s, max, top) && SameRegions(a.areas, b.areas) && b.bottom == a.bottom
  {
    hide StackOk, AreasAgree, Steps, PageSet, PagesSame, PageAt, BackingOf, FaultOutcome;
    if b.areas == a.areas && NothingAdded(a.view, b.view, s.pml4) {
      SameRegionsReflexive(a.areas);
      NothingMoves(a.view.m, b.view.m, s.pml4, max / 4096, a.bottom / 4096, top / 4096, a.areas);
    } else {
      var k, f :| PageListed(a, b, s.pml4, k, addr / 4096, f);
      ListedRegions(a.areas, k, addr / 4096, f);
      FaultBeside(a, s, max, top, addr, k);
      AreaFaulted(a.view.m, b.view.m, s.pml4, max / 4096, a.bottom / 4096, top / 4096, a.areas, k, addr / 4096, f);
    }
  }

  // A fault that does not grow the stack is on no page of its range.
  lemma FaultBeside(a: Image, s: Space, max: nat, top: nat, addr: nat, k: nat)
    requires ImageOk(a, s, max, top) && !Grows(a, max, addr) && AbsentIn(a.view.m, s.pml4, a.areas, addr)
    requires k < |a.areas| && UserPages.Inside(a.areas[k], addr / 4096)
    ensures Beside(a.areas[k], addr / 4096, max / 4096, top / 4096)
    ensures PageAt(a.view.m, s.pml4, addr / 4096) == None
  {
    hide PageAt, Agrees, Tight;
    assert a.areas[k].start <= addr < a.areas[k].end;
  }

  lemma StepOk(e: Fault, a: Image, b: Image, s: Space, max: nat, top: nat)
    requires ImageOk(a, s, max, top) && FaultStep(e, a, b, s, max)
    ensures ImageOk(b, s, max, top) && SameRegions(a.areas, b.areas) && b.bottom <= a.bottom
  {
    hide ImageOk, StackHandled, AreaHandled, Grows, AbsentIn;
    if Grows(a, max, e.addr) {
      StackStepOk(a, b, s, max, top, e.addr, e.r);
      SameRegionsReflexive(a.areas);
    } else {
      AreaStepOk(a, b, s, max, top, e.addr, e.driverOk, e.r);
    }
  }

  lemma ClearRegions(vs: seq<Vma>, vs': seq<Vma>, lo: nat, hi: nat)
    requires SameRegions(vs, vs')
    ensures Clear(vs', lo, hi) <==> Clear(vs, lo, hi)
  {
    forall i | 0 <= i < |vs| ensures vs'[i].start == vs[i].start && vs'[i].end == vs[i].end {
      assert vs'[i].(pages := []) == vs[i].(pages := []);
    }
  }

  lemma ClearHigher(vs: seq<Vma>, lo: nat, lo': nat, hi: nat)
    requires Clear(vs, lo, hi) && lo <= lo'
    ensures Clear(vs, lo', hi)
  {
  }

  // After any run of faults stack and areas are in order, and every list is right exactly when no area
  // reaches into the stack as far as it has grown by then.
  lemma {:induction false} RunListsRight(es: seq<Fault>, states: seq<Image>, s: Space, max: nat, top: nat)
    requires FaultRun(es, states, s, max) && ImageOk(states[0], s, max, top)
    ensures ImageOk(states[|es|], s, max, top) && SameRegions(states[0].areas, states[|es|].areas)
    ensures max <= states[|es|].bottom <= states[0].bottom
    ensures ListsRight(states[|es|], s) <==> Clear(states[0].areas, states[|es|].bottom / 4096, top / 4096)
  {
    hide FaultStep, SameRegions, Clear, AllListed, StackOk, AreasAgree;
    if es == [] {
      SameRegionsReflexive(states[0].areas);
    } else {
      var n := |es| - 1;
      RunListsRight(es[..n], states[..n + 1], s, max, top);
      StepOk(es[n], states[n], states[n + 1], s, max, top);
      SameRegionsTransitive(states[0].areas, states[n].areas, states[n + 1].areas);
    }
    EndListsRight(states[0], states[|es|], s, max, top);
  }

  lemma EndListsRight(a: Image, b: Image, s: Space, max: nat, top: nat)
    requires ImageOk(b, s, max, top) && SameRegions(a.areas, b.areas)
    ensures ListsRight(b, s) <==> Clear(a.areas, b.bottom / 4096, top / 4096)
    ensures max <= b.bottom
  {
    hide SameRegions, Clear, AllListed, AreasAgree;
    AllListedExactly(b.view.m, s.pml4, max / 4096, b.bottom / 4096, top / 4096, b.areas);
    ClearRegions(a.areas, b.areas, b.bottom / 4096, top / 4096);
    StackBelow(b.view.m, s.pml4, max / 4096, b.bottom / 4096, top / 4096);
  }

  // The lists are right now and after every run of faults from here.
  ghost predicate StayRight(a: Image, s: Space, max: nat) {
    forall es, states :: FaultRun(es, states, s, max) && states[0] == a ==> ListsRight(states[|es|], s)
  }

  // No fault ever makes a list wrong if no area reaches into the range the stack may grow to.
  lemma ClearStaysRight(a: Image, s: Space, max: nat, top: nat)
    requires ImageOk(a, s, max, top) && Clear(a.areas, max / 4096, top / 4096)
    ensures StayRight(a, s, max)
  {
    hide FaultStep, Clear, ListsRight, ImageOk;
    forall es: seq<Fault>, states: seq<Image> | FaultRun(es, states, s, max) && states[0] == a
      ensures ListsRight(states[|es|], s)
    {
      RunListsRight(es, states, s, max, top);
      ClearHigher(a.areas, max / 4096, states[|es|].bottom / 4096, top / 4096);
    }
  }

  // And only then, as some run grows the stack to its limit.
  lemma StayRightExactly(es: seq<Fault>, states: seq<Image>, s: Space, max: nat, top: nat)
    requires FaultRun(es, states, s, max) && ImageOk(states[0], s, max, top) && states[|es|].bottom == max
    ensures StayRight(states[0], s, max) <==> Clear(states[0].areas, max / 4096, top / 4096)
  {
    hide FaultStep, Clear, ListsRight, ImageOk;
    RunListsRight(es, states, s, max, top);
    if Clear(states[0].areas, max / 4096, top / 4096) { ClearStaysRight(states[0], s, max, top); }
  }

  lemma WrongNow(a: Image, s: Space, max: nat)
    requires !ListsRight(a, s)
    ensures !StayRight(a, s, max)
  {
    var es: seq<Fault>, states := [], [a];
    assert FaultRun(es, states, s, max) && states[|es|] == a;
  }

  // After do_sys_mmap all faults keep the lists right exactly when the new area ends at or below the limit
  // of the stack, where some run of faults can grow the stack that far.
  lemma MapStaysRightExactly(a: Image, es: seq<Fault>, states: seq<Image>, s: Space, max: nat, top: nat, length: nat,
                             file: Option<File>, pgoff: nat)
    requires ImageOk(a, s, max, top) && 0x1000_0000 <= max && forall i :: 0 <= i < |a.areas| ==> a.areas[i].end <= max
    requires 0 < length < 0x1_0000_0000_0000_0000 && AlignUp64(length) != 0
    requires FirstFit(a.areas, length) + AlignUp64(length) < 0x1_0000_0000_0000_0000
    requires FaultRun(es, states, s, max) && states[|es|].bottom == max
    requires states[0] == a.(areas := Insert(a.areas, NewArea(a.areas, length, file, pgoff)))
    ensures StayRight(states[0], s, max) <==> FirstFit(a.areas, length) + AlignUp64(length) <= max
  {
    var m, pml4, bottom := a.view.m, s.pml4, a.bottom;
    hide FaultStep, Clear, StackOk, AreasAgree, AllListed, FirstFit, AlignUp64, Insert, NewArea, StayRight, Good;
    StackBelow(m, pml4, max / 4096, bottom / 4096, top / 4096);
    AreasAgreeParts(m, pml4, a.areas, max / 4096, top / 4096);
    MapClearExactly(a.areas, length, file, pgoff, max / 4096, top / 4096);
    if FirstFit(a.areas, length) + AlignUp64(length) <= 0x8000_0000_0000 {
      AreaMapped(m, pml4, max / 4096, top / 4096, a.areas, length, file, pgoff);
      StayRightExactly(es, states, s, max, top);
    } else {
      MapKeepsGood(a.areas, length, file, pgoff);
      TightAnyway(m, pml4, max / 4096, top / 4096, a.areas, length, file, pgoff);
      MapAgreesExactly(m, pml4, max / 4096, bottom / 4096, top / 4096, a.areas, length, file, pgoff);
      WrongNow(states[0], s, max);
    }
  }
}
