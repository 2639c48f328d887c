// Which frames belong to whom: what one address space takes, maps, unmaps or gives back leaves the
// pages of every other one private.

module Ownership {
  import opened PageFormat
  import opened Sequences
  import opened PageTables
  import opened Teardown

  // The holder of `owned` took some of the frames that were handed out since, and nobody lost any.
  ghost predicate Takes(owned: set<Frame>, out: set<Frame>, owned': set<Frame>, out': set<Frame>) {
    owned <= owned' && out <= out' && (owned' - owned) !! out
  }

  lemma TakesNothing(owned: set<Frame>, out: set<Frame>, out': set<Frame>)
    requires out <= out'
    ensures Takes(owned, out, owned, out')
  {
  }

  lemma TakesOne(owned: set<Frame>, out: set<Frame>, f: Frame, out': set<Frame>)
    requires f !in out && out' == out + {f}
    ensures Takes(owned, out, owned + {f}, out')
  {
  }

  // Whoever holds other frames keeps them, and stays apart.
  lemma TakesApart(owned: set<Frame>, out: set<Frame>, owned': set<Frame>, out': set<Frame>, other: set<Frame>)
    requires Takes(owned, out, owned', out') && other <= out && owned !! other
    ensures other <= out' && owned' !! other
  {
  }

  // The lower half of one address space stays as it is.
  ghost predicate LowerSame(m: Memory, m': Memory, pml4: Frame) {
    forall q :: PathOk(q) && q.i4 < 256 ==> Lookup(m', pml4, q) == Lookup(m, pml4, q)
  }

  lemma PrivateStays(m: Memory, m': Memory, pml4: Frame, owned: set<Frame>)
    requires LowerSame(m, m', pml4) && PrivatePages(m, pml4, owned)
    ensures PrivatePages(m', pml4, owned)
  {
    hide Lookup;
    forall q | OwnPage(m', pml4, q) ensures OwnPage(m, pml4, q) && Lookup(m', pml4, q) == Lookup(m, pml4, q) {
    }
  }

  lemma PrivateWidens(m: Memory, pml4: Frame, owned: set<Frame>, out: set<Frame>)
    requires PrivatePages(m, pml4, owned) && owned <= out
    ensures PrivatePages(m, pml4, out)
  {
    hide Lookup;
  }

  // No other address space notices.
  ghost predicate OthersSame(m: Memory, tabs: Tables, m': Memory, tabs': Tables, s: Space) {
    forall x, q :: Root(x) in tabs && x != s && PathOk(q) ==>
      Root(x) in tabs' && tabs'[Root(x)] == tabs[Root(x)] && Lookup(m', tabs[Root(x)], q) == Lookup(m, tabs[Root(x)], q)
  }

  // No process's own half notices; what the kernel maps shows in the shared half.
  ghost predicate ProcessesSame(m: Memory, tabs: Tables, m': Memory, tabs': Tables) {
    forall x, q :: Root(x) in tabs && x.User? && PathOk(q) && q.i4 < 256 ==>
      Root(x) in tabs' && tabs'[Root(x)] == tabs[Root(x)] && Lookup(m', tabs[Root(x)], q) == Lookup(m, tabs[Root(x)], q)
  }

  lemma OthersKept(m: Memory, tabs: Tables, m': Memory, tabs': Tables, s: Space, pml4: Frame)
    requires OthersSame(m, tabs, m', tabs', s) || (s == Kernel && ProcessesSame(m, tabs, m', tabs'))
    requires s != User(pml4) && Root(User(pml4)) in tabs && tabs[Root(User(pml4))] == pml4
    ensures LowerSame(m, m', pml4) && Root(User(pml4)) in tabs' && tabs'[Root(User(pml4))] == pml4
  {
    hide Lookup;
    assert PathOk(Path(0, 0, 0, 0));
  }

  lemma ProcessesTransitive(m0: Memory, tabs0: Tables, m1: Memory, tabs1: Tables, m: Memory, tabs: Tables)
    requires ProcessesSame(m0, tabs0, m1, tabs1) && ProcessesSame(m1, tabs1, m, tabs)
    ensures ProcessesSame(m0, tabs0, m, tabs)
  {
    hide Lookup;
  }

  lemma KernelRemapped(m: Memory, tabs: Tables, m': Memory, tabs': Tables, p: Path, leaf: Option<Word>)
    requires SameTranslations(m, tabs, m', tabs') || Remapped(m, tabs, m', tabs', Kernel, p, leaf)
    ensures ProcessesSame(m, tabs, m', tabs')
  {
    hide Lookup;
  }

  lemma DestroyedOthers(m: Memory, tabs: Tables, m': Memory, tabs': Tables, s: Space)
    requires Destroyed(m, tabs, m', tabs', s)
    ensures OthersSame(m, tabs, m', tabs', s)
  {
    hide Lookup;
  }

  // ---- One step of one address space ----

  // Memory, tables and handed-out frames, as the owner of some of these sees them.
  datatype View = View(m: Memory, tabs: Tables, owned: set<Frame>, out: set<Frame>)

  // What the kernel may do for the space s: no other address space notices, the space takes only fresh
  // frames and finds them cleared, and no frame that was handed out before is written to.
  ghost predicate Steps(a: View, b: View, s: Space) {
    OthersSame(a.m, a.tabs, b.m, b.tabs, s) && Takes(a.owned, a.out, b.owned, b.out) &&
    Intact(a.m, b.m, a.out) && b.owned - a.owned <= b.out && Cleared(b.m, b.owned - a.owned)
  }

  lemma StepsTransitive(a: View, b: View, c: View, s: Space)
    requires Steps(a, b, s) && Steps(b, c, s)
    ensures Steps(a, c, s)
  {
    hide Lookup;
    IntactThenIntact(a.m, b.m, c.m, a.out, b.out);
    IntactCleared(b.m, c.m, b.owned - a.owned, b.out);
    assert c.owned - a.owned == (c.owned - b.owned) + (b.owned - a.owned);
  }

  lemma NoStep(a: View, s: Space)
    ensures Steps(a, a, s)
  {
    hide Lookup;
  }

  // What the kernel may do on its own account: it writes to no frame of others.
  ghost predicate KernelSteps(a: View, b: View) {
    ProcessesSame(a.m, a.tabs, b.m, b.tabs) && Takes(a.owned, a.out, b.owned, b.out) &&
    Intact(a.m, b.m, a.out - a.owned)
  }

  lemma KernelStepsTransitive(a: View, b: View, c: View)
    requires KernelSteps(a, b) && KernelSteps(b, c)
    ensures KernelSteps(a, c)
  {
    hide Lookup;
    IntactThenIntact(a.m, b.m, c.m, a.out - a.owned, b.out - b.owned);
  }

  lemma NoKernelStep(a: View)
    ensures KernelSteps(a, a)
  {
    hide Lookup;
  }

  // Destroying an address space takes handed-out frames back from its owner only.
  lemma FreedAreOwned(m: Memory, tabs: Tables, kernel: Frame, pml4: Frame, owned: set<Frame>, out: set<Frame>,
                      other: set<Frame>)
    requires TablesOk(m, tabs, kernel) && Root(User(pml4)) in tabs && tabs.Values !! out
    requires PrivatePages(m, pml4, owned) && owned <= out && other <= out && owned !! other
    ensures other <= out - Elements(AllPushes(m, pml4))
  {
    hide TablesOk, AllPushes, PrivatePages, HeldOnce;
    PrivateIsHeldOnce(m, tabs, kernel, pml4, owned);
    forall f | f in other ensures f !in AllPushes(m, pml4) {
      AllPushesExact(m, tabs, kernel, pml4, f);
      forall d | SpaceOf(d) == User(pml4) ensures Held(m, tabs, d) != Some(f) {
        if d in tabs { ValueIn(tabs, d); }
      }
    }
  }
}
