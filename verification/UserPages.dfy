// The pages of a process, seen through its page tables: the stack, and the pages behind each area.

module UserPages {
  import opened PageFormat
  import opened Sequences
  import opened PageTables
  import opened Teardown
  import opened Ownership
  import opened Regions

  // PAGE_PRESENT | PAGE_USER | PAGE_WRITABLE
  function UserFlags(): Flags { Flags(true, true, true, false, false, false) }

  // The entry that maps the n-th page of the lower half.
  function PageAt(m: Memory, pml4: Frame, n: nat): Option<Word> { Lookup(m, pml4, PathOf(n * 4096)) }

  function Number(p: Path): nat { ((p.i4 * 512 + p.i3) * 512 + p.i2) * 512 + p.i1 }

  lemma PathDigits(a: nat)
    ensures PathOf(a) ==
      Path(a / 4096 / 512 / 512 / 512 % 512, a / 4096 / 512 / 512 % 512, a / 4096 / 512 % 512, a / 4096 % 512)
  {
    Quotients(a);
  }

  // Addresses of the lower half with the same path are on the same page.
  lemma PathNumber(a: nat)
    requires a < 0x8000_0000_0000
    ensures Number(PathOf(a)) == a / 4096 && PathOf(a).i4 < 256 && PathOf(a) == PathOf(a / 4096 * 4096)
  {
    var n := a / 4096;
    PathDigits(a);
    PathDigits(n * 4096);
    assert n * 4096 / 4096 == n;
    LowerDigits(n);
  }

  lemma LowerDigits(n: nat)
    requires n < 0x8_0000_0000
    ensures ((n / 512 / 512 / 512 % 512 * 512 + n / 512 / 512 % 512) * 512 + n / 512 % 512) * 512 + n % 512 == n
    ensures n / 512 / 512 / 512 % 512 < 256
  {
    var n1, n2, n3 := n / 512, n / 512 / 512, n / 512 / 512 / 512;
    assert n == n1 * 512 + n % 512 && n1 == n2 * 512 + n1 % 512 && n2 == n3 * 512 + n2 % 512;
    assert n3 < 256 && n3 % 512 == n3;
  }

  // ---- One page changes ----

  // Page n became `leaf`, all other pages of the lower half stayed.
  ghost predicate PageSet(m: Memory, m': Memory, pml4: Frame, n: nat, leaf: Option<Word>) {
    forall k :: 0 <= k < 0x8_0000_0000 ==> PageAt(m', pml4, k) == if k == n then leaf else PageAt(m, pml4, k)
  }

  ghost predicate PagesSame(m: Memory, m': Memory, pml4: Frame) {
    forall k :: 0 <= k < 0x8_0000_0000 ==> PageAt(m', pml4, k) == PageAt(m, pml4, k)
  }

  lemma RemappedPage(m: Memory, tabs: Tables, m': Memory, tabs': Tables, pml4: Frame, n: nat, leaf: Option<Word>)
    requires Root(User(pml4)) in tabs && tabs[Root(User(pml4))] == pml4 && n < 0x8_0000_0000
    requires Remapped(m, tabs, m', tabs', User(pml4), PathOf(n * 4096), leaf)
    ensures PageSet(m, m', pml4, n, leaf)
  {
    hide Lookup, PathOf;
    forall k | 0 <= k < 0x8_0000_0000 ensures PageAt(m', pml4, k) == if k == n then leaf else PageAt(m, pml4, k) {
      PathNumber(k * 4096);
      PathNumber(n * 4096);
    }
  }

  lemma SamePages(m: Memory, tabs: Tables, m': Memory, tabs': Tables, pml4: Frame)
    requires Root(User(pml4)) in tabs && tabs[Root(User(pml4))] == pml4 && SameTranslations(m, tabs, m', tabs')
    ensures PagesSame(m, m', pml4)
  {
    hide Lookup, PathOf;
    forall k | 0 <= k < 0x8_0000_0000 ensures PageAt(m', pml4, k) == PageAt(m, pml4, k) {
      assert PathOk(PathOf(k * 4096));
    }
  }

  // Mapping a frame nobody holds keeps the pages private; so does unmapping.
  lemma RemapKeepsPrivate(m: Memory, tabs: Tables, m': Memory, tabs': Tables, pml4: Frame, p: Path, leaf: Option<Word>,
                          out: set<Frame>, out': set<Frame>)
    requires Root(User(pml4)) in tabs && tabs[Root(User(pml4))] == pml4 && PrivatePages(m, pml4, out) && out <= out'
    requires Remapped(m, tabs, m', tabs', User(pml4), p, leaf)
    requires leaf.Some? ==> leaf.value.frame in out' && leaf.value.frame !in out
    ensures PrivatePages(m', pml4, out')
  {
    hide Lookup;
    forall q | OwnPage(m', pml4, q)
      ensures if q == p then Lookup(m', pml4, q) == leaf
              else OwnPage(m, pml4, q) && Lookup(m', pml4, q) == Lookup(m, pml4, q)
    {
      assert Sees(m, tabs, User(pml4), User(pml4), p);
    }
  }

  lemma SameKeepsPrivate(m: Memory, tabs: Tables, m': Memory, tabs': Tables, pml4: Frame, out: set<Frame>,
                         out': set<Frame>)
    requires Root(User(pml4)) in tabs && tabs[Root(User(pml4))] == pml4 && PrivatePages(m, pml4, out) && out <= out'
    requires SameTranslations(m, tabs, m', tabs')
    ensures PrivatePages(m', pml4, out')
  {
    hide Lookup;
    forall q | OwnPage(m', pml4, q) ensures OwnPage(m, pml4, q) && Lookup(m', pml4, q) == Lookup(m, pml4, q) {
    }
  }

  // ---- The stack ----

  // Pages [bottom, top) are user-writable; pages [max, bottom) are still absent.
  ghost predicate StackOk(m: Memory, pml4: Frame, max: nat, bottom: nat, top: nat) {
    max <= bottom < top <= 0x8_0000_0000 &&
    (forall n :: bottom <= n < top ==> PageAt(m, pml4, n).Some? && Grants(PageAt(m, pml4, n).value)) &&
    (forall n :: max <= n < bottom ==> PageAt(m, pml4, n) == None)
  }

  predicate Grants(w: Word) { w.present && w.user && w.writable }

  lemma StackGrows(m: Memory, m': Memory, pml4: Frame, max: nat, bottom: nat, top: nat, f: Frame)
    requires StackOk(m, pml4, max, bottom, top) && max < bottom
    requires PageSet(m, m', pml4, bottom - 1, Some(LeafWord(f, UserFlags())))
    ensures StackOk(m', pml4, max, bottom - 1, top)
  {
    hide PageAt;
  }

  lemma StackStays(m: Memory, m': Memory, pml4: Frame, max: nat, bottom: nat, top: nat, n: nat, leaf: Option<Word>)
    requires StackOk(m, pml4, max, bottom, top) && !(max <= n < top) && PageSet(m, m', pml4, n, leaf)
    ensures StackOk(m', pml4, max, bottom, top)
  {
    hide PageAt;
  }

  // Of the lower half exactly [lo, hi) is mapped, user-writable.
  ghost predicate OnlyStack(m: Memory, pml4: Frame, lo: nat, hi: nat) {
    forall n :: 0 <= n < 0x8_0000_0000 ==>
      if lo <= n < hi then PageAt(m, pml4, n).Some? && Grants(PageAt(m, pml4, n).value) else PageAt(m, pml4, n) == None
  }

  lemma FreshSpace(m0: Memory, tabs0: Tables, m: Memory, tabs: Tables, kernel: Frame, s: Space, lo: nat,
                   out: set<Frame>)
    requires Created(m0, tabs0, m, tabs, kernel, s)
    ensures OnlyStack(m, s.pml4, lo, lo) && PrivatePages(m, s.pml4, out) && OthersSame(m0, tabs0, m, tabs, s)
  {
    hide Lookup, PathOf;
    forall n | 0 <= n < 0x8_0000_0000 ensures PageAt(m, s.pml4, n) == None {
      PathNumber(n * 4096);
    }
  }

  lemma CreatedRoot(m0: Memory, tabs0: Tables, m: Memory, tabs: Tables, kernel: Frame, s: Space)
    requires Created(m0, tabs0, m, tabs, kernel, s)
    ensures s.User? && Root(s) in tabs && Root(s) !in tabs0
  {
  }

  lemma StackPageAdded(m: Memory, m': Memory, pml4: Frame, lo: nat, hi: nat, f: Frame)
    requires OnlyStack(m, pml4, lo, hi) && lo <= hi < 0x8_0000_0000
    requires PageSet(m, m', pml4, hi, Some(LeafWord(f, UserFlags())))
    ensures OnlyStack(m', pml4, lo, hi + 1)
  {
    hide PageAt;
  }

  lemma StackMade(m: Memory, pml4: Frame, max: nat, lo: nat, hi: nat)
    requires OnlyStack(m, pml4, lo, hi) && max <= lo < hi <= 0x8_0000_0000
    ensures StackOk(m, pml4, max, lo, hi) && AreasAgree(m, pml4, [], max, hi)
  {
    hide PageAt;
  }

  // ---- Demand paging ----

  // Beside the stack's range, which are the pages [max, top), an area's list of pages is the set of its
  // pages that translate, with the same frames; in that range it lists none.
  ghost predicate Agrees(m: Memory, pml4: Frame, v: Vma, max: nat, top: nat) {
    (forall i :: 0 <= i < |v.pages| ==> Listed(m, pml4, v, v.pages[i], max, top)) &&
    (forall i, j :: 0 <= i < j < |v.pages| ==> v.pages[i].start != v.pages[j].start) &&
    forall n :: Beside(v, n, max, top) && PageAt(m, pml4, n).Some? ==> n in Starts(v.pages)
  }

  predicate Inside(v: Vma, n: nat) { v.start <= n * 4096 < v.end }

  predicate Beside(v: Vma, n: nat, max: nat, top: nat) { Inside(v, n) && !(max <= n < top) }

  predicate Listed(m: Memory, pml4: Frame, v: Vma, p: PhysPage, max: nat, top: nat) {
    p.start % 4096 == 0 && Beside(v, p.start / 4096, max, top) &&
    PageAt(m, pml4, p.start / 4096) == Some(LeafWord(p.phys, UserFlags()))
  }

  // The processor does not fault on a present page of an area: those are user-writable.
  ghost predicate AbsentIn(m: Memory, pml4: Frame, vs: seq<Vma>, addr: nat) {
    Covers(vs, addr) ==> PageAt(m, pml4, addr / 4096) == None
  }

  ghost function Starts(pages: seq<PhysPage>): set<nat> {
    set i | 0 <= i < |pages| :: pages[i].start / 4096
  }

  // From VMA_BASE on only pages of areas translate, beside the stack.
  ghost predicate Tight(m: Memory, pml4: Frame, vs: seq<Vma>, max: nat, top: nat) {
    forall n :: 0x1_0000 <= n < 0x8_0000_0000 && !(max <= n < top) && PageAt(m, pml4, n).Some? ==> Covers(vs, n * 4096)
  }

  // The areas all agree, in the lower half.
  ghost predicate AreasAgree(m: Memory, pml4: Frame, vs: seq<Vma>, max: nat, top: nat) {
    Good(vs) && max <= top <= 0x8_0000_0000 && Tight(m, pml4, vs, max, top) &&
    forall i :: 0 <= i < |vs| ==> Agrees(m, pml4, vs[i], max, top) && vs[i].end <= 0x8000_0000_0000
  }

  lemma AgreesElsewhere(m: Memory, m': Memory, pml4: Frame, v: Vma, n: nat, leaf: Option<Word>, max: nat, top: nat)
    requires Agrees(m, pml4, v, max, top) && PageSet(m, m', pml4, n, leaf) && !Beside(v, n, max, top)
    requires v.end <= 0x8000_0000_0000
    ensures Agrees(m', pml4, v, max, top)
  {
    hide PageAt;
  }

  // vma_add_page
  function WithPage(v: Vma, n: nat, f: Frame): Vma { v.(pages := v.pages + [PhysPage(n * 4096, f)]) }

  // The areas keep their bounds and what stands behind them; their page lists may differ.
  ghost predicate SameRegions(vs: seq<Vma>, vs': seq<Vma>) {
    |vs'| == |vs| && forall i :: 0 <= i < |vs| ==> vs'[i].(pages := []) == vs[i].(pages := [])
  }

  lemma SameRegionsReflexive(vs: seq<Vma>)
    ensures SameRegions(vs, vs)
  {
  }

  lemma SameRegionsTransitive(a: seq<Vma>, b: seq<Vma>, c: seq<Vma>)
    requires SameRegions(a, b) && SameRegions(b, c)
    ensures SameRegions(a, c)
  {
  }

  lemma ListedRegions(vs: seq<Vma>, k: nat, n: nat, f: Frame)
    requires k < |vs|
    ensures SameRegions(vs, vs[k := WithPage(vs[k], n, f)]) && SameRegions(vs, vs)
  {
  }

  lemma {:induction false} SameRegionsBacking(vs: seq<Vma>, vs': seq<Vma>, a: nat)
    requires SameRegions(vs, vs')
    ensures BackingOf(vs', a) == BackingOf(vs, a)
    decreases |vs|
  {
    if vs != [] {
      assert vs'[0].(pages := []) == vs[0].(pages := []);
      SameRegionsBacking(vs[1..], vs'[1..], a);
    }
  }

  // A fault on an absent page of an area, handled: the page is mapped and listed.
  lemma FaultAgrees(m: Memory, m': Memory, pml4: Frame, v: Vma, n: nat, f: Frame, max: nat, top: nat)
    requires Agrees(m, pml4, v, max, top) && Beside(v, n, max, top) && PageAt(m, pml4, n) == None
    requires v.end <= 0x8000_0000_0000
    requires PageSet(m, m', pml4, n, Some(LeafWord(f, UserFlags())))
    ensures Agrees(m', pml4, WithPage(v, n, f), max, top)
  {
    hide PageAt;
    var v' := WithPage(v, n, f);
    forall i | 0 <= i < |v'.pages| ensures Listed(m', pml4, v', v'.pages[i], max, top) {
      if i < |v.pages| { assert Listed(m, pml4, v, v.pages[i], max, top); }
    }
    assert v'.pages[|v.pages|].start / 4096 == n;
    forall k | Beside(v', k, max, top) && PageAt(m', pml4, k).Some? ensures k in Starts(v'.pages) {
      if k != n {
        assert Beside(v, k, max, top) && k in Starts(v.pages);
        var i :| 0 <= i < |v.pages| && v.pages[i].start / 4096 == k;
        assert v'.pages[i].start / 4096 == k;
      }
    }
  }

  // ---- Composition ----

  lemma SameThenSet(m: Memory, m1: Memory, m': Memory, pml4: Frame, n: nat, leaf: Option<Word>)
    requires PagesSame(m, m1, pml4) && PageSet(m1, m', pml4, n, leaf)
    ensures PageSet(m, m', pml4, n, leaf)
  {
    hide PageAt;
  }

  lemma SameThenSame(m: Memory, m1: Memory, m': Memory, pml4: Frame)
    requires PagesSame(m, m1, pml4) && PagesSame(m1, m', pml4)
    ensures PagesSame(m, m', pml4)
  {
    hide PageAt;
  }

  lemma OthersAfter(m: Memory, tabs: Tables, m1: Memory, tabs1: Tables, m': Memory, tabs': Tables, s: Space, p: Path,
                    leaf: Option<Word>)
    requires SameTranslations(m, tabs, m1, tabs1) && s.User?
    requires SameTranslations(m1, tabs1, m', tabs') || Remapped(m1, tabs1, m', tabs', s, p, leaf)
    ensures OthersSame(m, tabs, m', tabs', s)
  {
    hide Lookup;
  }

  lemma OthersRemapped(m: Memory, tabs: Tables, m': Memory, tabs': Tables, s: Space, p: Path, leaf: Option<Word>)
    requires s.User? && Remapped(m, tabs, m', tabs', s, p, leaf)
    ensures OthersSame(m, tabs, m', tabs', s)
  {
    hide Lookup;
  }

  // What one process does leaves the memory of another as it was.
  lemma OthersKeep(m: Memory, m': Memory, pml4: Frame, owned: set<Frame>, max: nat, bottom: nat, top: nat, vs: seq<Vma>)
    requires LowerSame(m, m', pml4) && PrivatePages(m, pml4, owned)
    requires StackOk(m, pml4, max, bottom, top) && AreasAgree(m, pml4, vs, max, top)
    ensures StackOk(m', pml4, max, bottom, top) && AreasAgree(m', pml4, vs, max, top) && PrivatePages(m', pml4, owned)
  {
    hide Lookup, StackOk, AreasAgree, PathOf, PrivatePages;
    PrivateStays(m, m', pml4, owned);
    assert PagesSame(m, m', pml4) by {
      forall k | 0 <= k < 0x8_0000_0000 ensures PageAt(m', pml4, k) == PageAt(m, pml4, k) {
        PathNumber(k * 4096);
        assert PathOk(PathOf(k * 4096));
      }
    }
    NothingMoves(m, m', pml4, max, bottom, top, vs);
  }

  // Nothing of the process changes.
  lemma NothingMoves(m: Memory, m': Memory, pml4: Frame, max: nat, bottom: nat, top: nat, vs: seq<Vma>)
    requires PagesSame(m, m', pml4) && StackOk(m, pml4, max, bottom, top) && AreasAgree(m, pml4, vs, max, top)
    ensures StackOk(m', pml4, max, bottom, top) && AreasAgree(m', pml4, vs, max, top)
  {
    hide PageAt;
    forall i | 0 <= i < |vs| ensures Agrees(m', pml4, vs[i], max, top) {
      AgreesSame(m, m', pml4, vs[i], max, top);
    }
  }

  lemma AgreesSame(m: Memory, m': Memory, pml4: Frame, v: Vma, max: nat, top: nat)
    requires Agrees(m, pml4, v, max, top) && PagesSame(m, m', pml4) && v.end <= 0x8000_0000_0000
    ensures Agrees(m', pml4, v, max, top)
  {
    hide PageAt;
    forall i | 0 <= i < |v.pages| ensures Listed(m', pml4, v, v.pages[i], max, top) {
      assert Listed(m, pml4, v, v.pages[i], max, top);
    }
  }

  // A page of the stack's range changes: the areas do not notice.
  lemma AreasBeside(m: Memory, m': Memory, pml4: Frame, vs: seq<Vma>, max: nat, top: nat, n: nat, leaf: Option<Word>)
    requires AreasAgree(m, pml4, vs, max, top) && PageSet(m, m', pml4, n, leaf) && max <= n < top
    ensures AreasAgree(m', pml4, vs, max, top)
  {
    hide PageAt;
    forall i | 0 <= i < |vs| ensures Agrees(m', pml4, vs[i], max, top) {
      AgreesElsewhere(m, m', pml4, vs[i], n, leaf, max, top);
    }
  }

  lemma SameCover(vs: seq<Vma>, vs': seq<Vma>)
    requires |vs'| == |vs| && forall i :: 0 <= i < |vs| ==> vs'[i].start == vs[i].start && vs'[i].end == vs[i].end
    ensures forall a :: Covers(vs, a) ==> Covers(vs', a)
    ensures Good(vs) ==> Good(vs')
  {
    forall a: nat | Covers(vs, a) ensures Covers(vs', a) {
      var i :| 0 <= i < |vs| && vs[i].start <= a < vs[i].end;
      assert vs'[i].start <= a < vs'[i].end;
    }
  }

  // A page of area k is mapped and listed there: the other areas do not notice.
  lemma AreasAfterFault(m: Memory, m': Memory, pml4: Frame, vs: seq<Vma>, max: nat, top: nat, k: nat, n: nat, f: Frame)
    requires AreasAgree(m, pml4, vs, max, top) && k < |vs| && Beside(vs[k], n, max, top)
    requires PageAt(m, pml4, n) == None && PageSet(m, m', pml4, n, Some(LeafWord(f, UserFlags())))
    ensures AreasAgree(m', pml4, vs[k := WithPage(vs[k], n, f)], max, top)
  {
    hide PageAt;
    var vs' := vs[k := WithPage(vs[k], n, f)];
    FaultAgrees(m, m', pml4, vs[k], n, f, max, top);
    SameCover(vs, vs');
    forall i | 0 <= i < |vs'| ensures Agrees(m', pml4, vs'[i], max, top) {
      if i != k {
        assert !Inside(vs[i], n);
        AgreesElsewhere(m, m', pml4, vs[i], n, Some(LeafWord(f, UserFlags())), max, top);
      }
    }
  }

  // ---- One step of a process ----

  // Page n was mapped, user-writable, to the frame f, which had been handed out to nobody and reads as
  // zero.
  ghost predicate PageTaken(a: View, b: View, pml4: Frame, n: nat, f: Frame) {
    PageSet(a.m, b.m, pml4, n, Some(LeafWord(f, UserFlags()))) && f !in a.out && b.owned == a.owned + {f} &&
    f as nat < |b.m| && b.m[f] == ZeroPage()
  }

  // User code may read, write and execute there, and the page is cached.
  lemma TakenPage(a: View, b: View, pml4: Frame, n: nat, f: Frame)
    requires PageTaken(a, b, pml4, n, f) && n < 0x8_0000_0000
    ensures PageAt(b.m, pml4, n).Some?
    ensures var w := PageAt(b.m, pml4, n).value;
      w.frame == f && w.writable && w.user && !w.nx && !w.wthru && !w.nocache
  {
    hide PageAt;
  }

  ghost predicate PageAdded(a: View, b: View, pml4: Frame, n: nat) { exists f :: PageTaken(a, b, pml4, n, f) }

  // All pages stayed.
  ghost predicate NothingAdded(a: View, b: View, pml4: Frame) { PagesSame(a.m, b.m, pml4) && b.owned == a.owned }

  lemma StackGrown(m: Memory, m': Memory, pml4: Frame, max: nat, bottom: nat, top: nat, vs: seq<Vma>, f: Frame)
    requires StackOk(m, pml4, max, bottom, top) && AreasAgree(m, pml4, vs, max, top) && max < bottom
    requires PageSet(m, m', pml4, bottom - 1, Some(LeafWord(f, UserFlags())))
    ensures StackOk(m', pml4, max, bottom - 1, top) && AreasAgree(m', pml4, vs, max, top)
  {
    StackGrows(m, m', pml4, max, bottom, top, f);
    AreasBeside(m, m', pml4, vs, max, top, bottom - 1, Some(LeafWord(f, UserFlags())));
  }

  lemma AreaFaulted(m: Memory, m': Memory, pml4: Frame, max: nat, bottom: nat, top: nat, vs: seq<Vma>, k: nat, n: nat,
                    f: Frame)
    requires StackOk(m, pml4, max, bottom, top) && AreasAgree(m, pml4, vs, max, top)
    requires k < |vs| && Beside(vs[k], n, max, top) && PageAt(m, pml4, n) == None
    requires PageSet(m, m', pml4, n, Some(LeafWord(f, UserFlags())))
    ensures StackOk(m', pml4, max, bottom, top)
    ensures AreasAgree(m', pml4, vs[k := WithPage(vs[k], n, f)], max, top)
    ensures Good(vs[k := WithPage(vs[k], n, f)])
  {
    StackStays(m, m', pml4, max, bottom, top, n, Some(LeafWord(f, UserFlags())));
    AreasAfterFault(m, m', pml4, vs, max, top, k, n, f);
  }

  lemma AfterNothing(a: View, b: View, c: View, pml4: Frame, n: nat, f: Frame)
    requires NothingAdded(a, b, pml4) && a.out <= b.out
    ensures PageTaken(b, c, pml4, n, f) ==> PageTaken(a, c, pml4, n, f)
    ensures NothingAdded(b, c, pml4) ==> NothingAdded(a, c, pml4)
  {
    hide PageAt;
    if PageTaken(b, c, pml4, n, f) { SameThenSet(a.m, b.m, c.m, pml4, n, Some(LeafWord(f, UserFlags()))); }
  }

  // ---- Unmapping ----

  // The pages in `gone` became absent, all other pages of the lower half stayed.
  ghost predicate PagesGone(m: Memory, m': Memory, pml4: Frame, gone: set<nat>) {
    forall k :: 0 <= k < 0x8_0000_0000 ==> PageAt(m', pml4, k) == if k in gone then None else PageAt(m, pml4, k)
  }

  lemma NothingGone(m: Memory, pml4: Frame, pages: seq<PhysPage>)
    ensures PagesGone(m, m, pml4, Starts(pages[..0]))
  {
    hide PageAt;
  }

  lemma OneMoreGone(m: Memory, m1: Memory, m': Memory, pml4: Frame, pages: seq<PhysPage>, i: nat)
    requires i < |pages| && PagesGone(m, m1, pml4, Starts(pages[..i]))
    requires PageSet(m1, m', pml4, pages[i].start / 4096, None)
    ensures PagesGone(m, m', pml4, Starts(pages[..i + 1]))
  {
    hide PageAt;
    assert Starts(pages[..i + 1]) == Starts(pages[..i]) + {pages[i].start / 4096} by {
      assert pages[..i + 1] == pages[..i] + [pages[i]];
      StartsAppend(pages[..i], pages[i]);
    }
  }

  lemma StartsAppend(pages: seq<PhysPage>, p: PhysPage)
    ensures Starts(pages + [p]) == Starts(pages) + {p.start / 4096}
  {
    var s := pages + [p];
    assert s[|pages|] == p;
    forall n | n in Starts(pages) ensures n in Starts(s) {
      var i :| 0 <= i < |pages| && pages[i].start / 4096 == n;
      assert s[i] == pages[i];
    }
  }

  // Nothing translates in [addr, addr + len) any more but the stack's own pages, and all other pages of
  // the lower half stayed.
  ghost predicate RangeGone(m: Memory, m': Memory, pml4: Frame, addr: nat, len: nat, max: nat, top: nat) {
    forall k :: 0 <= k < 0x8_0000_0000 ==>
      PageAt(m', pml4, k) == if addr <= k * 4096 < addr + len && !(max <= k < top) then None else PageAt(m, pml4, k)
  }

  // The pages still listed are still there.
  lemma StillListed(m: Memory, m': Memory, pml4: Frame, v: Vma, i: nat, max: nat, top: nat)
    requires Agrees(m, pml4, v, max, top) && i < |v.pages| && PagesGone(m, m', pml4, Starts(v.pages[..i]))
    requires v.end <= 0x8000_0000_0000
    ensures v.pages[i].start % 4096 == 0 && v.pages[i].start / 4096 < 0x8_0000_0000
    ensures PageAt(m', pml4, v.pages[i].start / 4096).Some?
  {
    hide PageAt;
    assert Listed(m, pml4, v, v.pages[i], max, top);
    var n := v.pages[i].start / 4096;
    forall j | 0 <= j < i ensures v.pages[..i][j].start / 4096 != n {
      assert Listed(m, pml4, v, v.pages[j], max, top);
    }
  }

  // A whole area is unmapped and its listed pages with it: nothing in its range translates any more,
  // and everything else agrees as before.
  lemma AreaDestroyed(m: Memory, m': Memory, pml4: Frame, max: nat, bottom: nat, top: nat, vs: seq<Vma>, k: nat)
    requires StackOk(m, pml4, max, bottom, top) && AreasAgree(m, pml4, vs, max, top) && k < |vs|
    requires PagesGone(m, m', pml4, Starts(vs[k].pages))
    ensures StackOk(m', pml4, max, bottom, top) && AreasAgree(m', pml4, vs[..k] + vs[k + 1..], max, top)
    ensures RangeGone(m, m', pml4, vs[k].start, vs[k].end - vs[k].start, max, top)
  {
    hide PageAt;
    var v, vs' := vs[k], vs[..k] + vs[k + 1..];
    forall n | n in Starts(v.pages) ensures Beside(v, n, max, top) {
      var i :| 0 <= i < |v.pages| && v.pages[i].start / 4096 == n;
      assert Listed(m, pml4, v, v.pages[i], max, top);
    }
    assert forall n: nat :: Beside(v, n, max, top) && n !in Starts(v.pages) ==> PageAt(m, pml4, n) == None;
    forall i | 0 <= i < |vs'| ensures Agrees(m', pml4, vs'[i], max, top) && vs'[i].end <= 0x8000_0000_0000 {
      var j := if i < k then i else i + 1;
      assert vs'[i] == vs[j];
      AgreesAway(m, m', pml4, vs[j], v, Starts(v.pages), max, top);
    }
    DropGood(vs, k);
    forall n | 0x1_0000 <= n < 0x8_0000_0000 && !(max <= n < top) && PageAt(m', pml4, n).Some?
      ensures Covers(vs', n * 4096)
    {
      assert Covers(vs, n * 4096);
      assert !Inside(v, n);
      CoverKept(vs, k, n * 4096);
    }
  }

  lemma CoverKept(vs: seq<Vma>, k: nat, a: nat)
    requires k < |vs| && Covers(vs, a) && !(vs[k].start <= a < vs[k].end)
    ensures Covers(vs[..k] + vs[k + 1..], a)
  {
    var j :| 0 <= j < |vs| && vs[j].start <= a < vs[j].end;
    assert (vs[..k] + vs[k + 1..])[if j < k then j else j - 1] == vs[j];
  }

  lemma AgreesAway(m: Memory, m': Memory, pml4: Frame, w: Vma, v: Vma, gone: set<nat>, max: nat, top: nat)
    requires Agrees(m, pml4, w, max, top) && PagesGone(m, m', pml4, gone) && w.end <= 0x8000_0000_0000
    requires (w.end <= v.start || v.end <= w.start) && forall n :: n in gone ==> Inside(v, n)
    ensures Agrees(m', pml4, w, max, top)
  {
    hide PageAt;
    forall i | 0 <= i < |w.pages| ensures Listed(m', pml4, w, w.pages[i], max, top) {
      assert Listed(m, pml4, w, w.pages[i], max, top);
    }
  }

  lemma DropGood(vs: seq<Vma>, k: nat)
    requires Good(vs) && k < |vs|
    ensures Good(vs[..k] + vs[k + 1..])
  {
    var vs' := vs[..k] + vs[k + 1..];
    forall i | 0 <= i < |vs'| ensures vs'[i] == vs[if i < k then i else i + 1] {
    }
  }

  // Every page listed by an area lies in what munmap_region leaves of it.
  predicate PagesKept(v: Vma, addr: nat, len: nat) {
    forall i :: 0 <= i < |v.pages| ==>
      if addr == v.start then addr + len <= v.pages[i].start else v.pages[i].start < addr
  }

  // A part of an area is unmapped, without pages there: the rest still agrees, and nothing in the
  // part translates.
  lemma AreaTrimmed(m: Memory, pml4: Frame, max: nat, top: nat, vs: seq<Vma>, k: nat, addr: nat, len: nat)
    requires AreasAgree(m, pml4, vs, max, top) && CanUnmap(vs, k, addr, len) && addr % 4096 == 0 && len % 4096 == 0
    requires PagesKept(vs[k], addr, len) && Pieces(vs[k], addr, len) != []
    ensures AreasAgree(m, pml4, Unmapped(vs, k, addr, len), max, top)
    ensures RangeGone(m, m, pml4, addr, len, max, top)
  {
    hide PageAt;
    var v, vs', p := vs[k], Unmapped(vs, k, addr, len), Pieces(vs[k], addr, len);
    UnmapKeepsGood(vs, k, addr, len);
    forall n | addr <= n * 4096 < addr + len && !(max <= n < top) ensures PageAt(m, pml4, n) == None {
      NotKept(m, pml4, v, addr, len, n, max, top);
    }
    forall i | 0 <= i < |vs'| ensures Agrees(m, pml4, vs'[i], max, top) && vs'[i].end <= 0x8000_0000_0000 {
      UnmappedAt(vs, k, addr, len, i);
      if k <= i < k + |p| { PieceAgrees(m, pml4, v, addr, len, i - k, max, top); }
    }
    forall n | 0x1_0000 <= n < 0x8_0000_0000 && !(max <= n < top) && PageAt(m, pml4, n).Some?
      ensures Covers(vs', n * 4096)
    {
      UnmapBacking(vs, k, addr, len, n * 4096);
      CoversIsBacked(vs, n * 4096);
      CoversIsBacked(vs', n * 4096);
    }
  }

  // After split and trim lists and tables agree exactly when no page lies in what was unmapped; then
  // vma_cleanup has nothing to do.
  lemma TrimAgreesExactly(m: Memory, pml4: Frame, max: nat, top: nat, vs: seq<Vma>, k: nat, addr: nat, len: nat)
    requires AreasAgree(m, pml4, vs, max, top) && CanUnmap(vs, k, addr, len) && addr % 4096 == 0 && len % 4096 == 0
    requires Pieces(vs[k], addr, len) != []
    ensures AreasAgree(m, pml4, Unmapped(vs, k, addr, len), max, top) <==> PagesKept(vs[k], addr, len)
  {
    hide PageAt, AreasAgree;
    if PagesKept(vs[k], addr, len) { AreaTrimmed(m, pml4, max, top, vs, k, addr, len); }
    if AreasAgree(m, pml4, Unmapped(vs, k, addr, len), max, top) {
      var w := Pieces(vs[k], addr, len)[0];
      UnmappedAt(vs, k, addr, len, k);
      AgreesAt(m, pml4, Unmapped(vs, k, addr, len), max, top, k);
      forall i | 0 <= i < |w.pages|
        ensures if addr == vs[k].start then addr + len <= w.pages[i].start else w.pages[i].start < addr
      {
        assert Listed(m, pml4, w, w.pages[i], max, top);
      }
    }
  }

  lemma AgreesAt(m: Memory, pml4: Frame, vs: seq<Vma>, max: nat, top: nat, i: nat)
    requires AreasAgree(m, pml4, vs, max, top) && i < |vs|
    ensures Good(vs) && Agrees(m, pml4, vs[i], max, top) && vs[i].end <= 0x8000_0000_0000
  {
  }

  // Unmapping the second page of an area when it is there leaves vma_cleanup a page to drop:
  lemma LostPage()
    ensures var v := Vma(0x1000_0000, 0x1000_2000, None, 0, [PhysPage(0x1000_1000, 7)]);
      CanUnmap([v], 0, 0x1000_1000, 0x1000) && Pieces(v, 0x1000_1000, 0x1000) != [] &&
        !PagesKept(v, 0x1000_1000, 0x1000)
  {
    var v := Vma(0x1000_0000, 0x1000_2000, None, 0, [PhysPage(0x1000_1000, 7)]);
    assert [v][0] == v && v.pages[0].start == 0x1000_1000;
  }

  lemma NotKept(m: Memory, pml4: Frame, v: Vma, addr: nat, len: nat, n: nat, max: nat, top: nat)
    requires Agrees(m, pml4, v, max, top) && PagesKept(v, addr, len) && Beside(v, n, max, top)
    requires if addr == v.start then n * 4096 < addr + len else addr <= n * 4096
    ensures PageAt(m, pml4, n) == None
  {
    hide PageAt;
    forall i | 0 <= i < |v.pages| ensures v.pages[i].start / 4096 != n {
      assert Listed(m, pml4, v, v.pages[i], max, top);
    }
  }

  lemma PieceAgrees(m: Memory, pml4: Frame, v: Vma, addr: nat, len: nat, i: nat, max: nat, top: nat)
    requires Agrees(m, pml4, v, max, top) && PagesKept(v, addr, len) && AreaOk(v)
    requires v.start <= addr < v.end && 0 < len && addr + len <= v.end && i < |Pieces(v, addr, len)|
    ensures Agrees(m, pml4, Pieces(v, addr, len)[i], max, top) && Pieces(v, addr, len)[i].end <= v.end
  {
    hide PageAt;
    var w := Pieces(v, addr, len)[i];
    if i == 0 {
      forall j | 0 <= j < |w.pages| ensures Listed(m, pml4, w, w.pages[j], max, top) {
        assert Listed(m, pml4, v, v.pages[j], max, top);
      }
    } else {
      forall n | Beside(w, n, max, top) ensures PageAt(m, pml4, n) == None {
        NotKept(m, pml4, v, addr, len, n, max, top);
      }
    }
  }

  // ---- Mapping ----

  // A new area with no pages: nothing in its range translates yet.
  lemma AreaAdded(m: Memory, pml4: Frame, max: nat, top: nat, vs: seq<Vma>, v: Vma, k: nat)
    requires AreasAgree(m, pml4, vs, max, top) && k <= |vs| && Good(vs[..k] + [v] + vs[k..])
    requires v.pages == [] && v.end <= 0x8000_0000_0000
    ensures AreasAgree(m, pml4, vs[..k] + [v] + vs[k..], max, top)
  {
    hide PageAt;
    var vs' := vs[..k] + [v] + vs[k..];
    NewAgrees(m, pml4, max, top, vs, v, k);
    forall n | 0x1_0000 <= n < 0x8_0000_0000 && !(max <= n < top) && PageAt(m, pml4, n).Some?
      ensures Covers(vs', n * 4096)
    {
      CoverGrows(vs, v, k, n * 4096);
    }
    forall i | 0 <= i < |vs'| ensures Agrees(m, pml4, vs'[i], max, top) && vs'[i].end <= 0x8000_0000_0000 {
      if i != k { assert vs'[i] == vs[if i < k then i else i - 1]; }
    }
  }

  lemma CoverGrows(vs: seq<Vma>, v: Vma, k: nat, a: nat)
    requires k <= |vs| && Covers(vs, a)
    ensures Covers(vs[..k] + [v] + vs[k..], a)
    ensures Good(vs[..k] + [v] + vs[k..]) ==> !(v.start <= a < v.end)
  {
    var vs' := vs[..k] + [v] + vs[k..];
    var i :| 0 <= i < |vs| && vs[i].start <= a < vs[i].end;
    assert vs'[if i < k then i else i + 1] == vs[i] && vs'[k] == v;
  }

  lemma NewAgrees(m: Memory, pml4: Frame, max: nat, top: nat, vs: seq<Vma>, v: Vma, k: nat)
    requires Tight(m, pml4, vs, max, top) && k <= |vs| && Good(vs[..k] + [v] + vs[k..])
    requires v.pages == [] && v.end <= 0x8000_0000_0000
    ensures Agrees(m, pml4, v, max, top)
  {
    hide PageAt;
    assert (vs[..k] + [v] + vs[k..])[k] == v;
    forall n: nat | Beside(v, n, max, top) ensures PageAt(m, pml4, n) == None {
      if Covers(vs, n * 4096) { CoverGrows(vs, v, k, n * 4096); }
    }
  }

  ghost predicate RangeEmpty(m: Memory, pml4: Frame, start: nat, end: nat, max: nat, top: nat) {
    forall n :: 0 <= n < 0x8_0000_0000 && start <= n * 4096 < end && !(max <= n < top) ==> PageAt(m, pml4, n) == None
  }

  // do_sys_mmap's new area keeps the agreement beside the stack, and starts out empty there.
  lemma AreaMapped(m: Memory, pml4: Frame, max: nat, top: nat, vs: seq<Vma>, length: nat, file: Option<File>,
                   pgoff: nat)
    requires AreasAgree(m, pml4, vs, max, top) && 0 < length < 0x1_0000_0000_0000_0000 && AlignUp64(length) != 0
    requires FirstFit(vs, length) + AlignUp64(length) <= 0x8000_0000_0000
    ensures AreasAgree(m, pml4, Insert(vs, NewArea(vs, length, file, pgoff)), max, top)
    ensures Good(Insert(vs, NewArea(vs, length, file, pgoff)))
    ensures RangeEmpty(m, pml4, FirstFit(vs, length), FirstFit(vs, length) + AlignUp64(length), max, top)
  {
    var v := NewArea(vs, length, file, pgoff);
    var k := NewAreaPlace(vs, length, file, pgoff);
    MapKeepsGood(vs, length, file, pgoff);
    hide AlignUp64, FirstFit, PageAt, AreasAgree;
    AreasAgreeParts(m, pml4, vs, max, top);
    assert v.end == FirstFit(vs, length) + AlignUp64(length) by { NoWrap(v.start + AlignUp64(length)); }
    AreaAdded(m, pml4, max, top, vs, v, k);
    NewAgrees(m, pml4, max, top, vs, v, k);
    forall n | 0 <= n < 0x8_0000_0000 && v.start <= n * 4096 < v.end && !(max <= n < top)
      ensures PageAt(m, pml4, n) == None
    {
      assert Beside(v, n, max, top);
    }
  }

  lemma RangeEmptyBelow(m: Memory, pml4: Frame, start: nat, end: nat, max: nat, bottom: nat, top: nat)
    requires RangeEmpty(m, pml4, start, end, max, top) && StackOk(m, pml4, max, bottom, top)
    ensures RangeEmpty(m, pml4, start, end, bottom, top)
  {
    hide PageAt;
  }

  // A new area takes nothing away.
  lemma TightAnyway(m: Memory, pml4: Frame, max: nat, top: nat, vs: seq<Vma>, length: nat, file: Option<File>,
                    pgoff: nat)
    requires Good(vs) && Tight(m, pml4, vs, max, top) && 0 < length < 0x1_0000_0000_0000_0000
    requires AlignUp64(length) != 0
    ensures Tight(m, pml4, Insert(vs, NewArea(vs, length, file, pgoff)), max, top)
  {
    hide PageAt, Insert, AlignUp64, FirstFit, Covers, Good;
    var v := NewArea(vs, length, file, pgoff);
    var k := NewAreaPlace(vs, length, file, pgoff);
    forall n | 0x1_0000 <= n < 0x8_0000_0000 && !(max <= n < top) && PageAt(m, pml4, n).Some?
      ensures Covers(Insert(vs, v), n * 4096)
    {
      CoverGrows(vs, v, k, n * 4096);
    }
  }

  // ---- Areas and the stack ----

  // Every area lists exactly its pages that translate, with no exception for the stack.
  ghost predicate AllListed(m: Memory, pml4: Frame, vs: seq<Vma>) {
    forall i :: 0 <= i < |vs| ==> Agrees(m, pml4, vs[i], 0, 0)
  }

  // No area reaches into the pages [lo, hi).
  predicate Clear(vs: seq<Vma>, lo: nat, hi: nat) {
    forall i :: 0 <= i < |vs| ==> vs[i].end <= lo * 4096 || hi * 4096 <= vs[i].start
  }

  lemma AgreesWhole(m: Memory, pml4: Frame, max: nat, bottom: nat, top: nat, v: Vma)
    requires StackOk(m, pml4, max, bottom, top) && Agrees(m, pml4, v, max, top) && AreaOk(v)
    ensures Agrees(m, pml4, v, 0, 0) <==> v.end <= bottom * 4096 || top * 4096 <= v.start
  {
    hide PageAt;
    if v.end <= bottom * 4096 || top * 4096 <= v.start {
      forall i | 0 <= i < |v.pages| ensures Listed(m, pml4, v, v.pages[i], 0, 0) {
        assert Listed(m, pml4, v, v.pages[i], max, top);
      }
      forall n | Beside(v, n, 0, 0) && PageAt(m, pml4, n).Some? ensures n in Starts(v.pages) {
        assert Beside(v, n, max, top);
      }
    } else {
      var n := if bottom * 4096 < v.start then v.start / 4096 else bottom;
      assert Beside(v, n, 0, 0) && PageAt(m, pml4, n).Some?;
      forall i | 0 <= i < |v.pages| ensures v.pages[i].start / 4096 != n {
        assert Listed(m, pml4, v, v.pages[i], max, top);
      }
    }
  }

  // Lists and tables agree exactly when no area reaches into the stack as far as it has grown.
  lemma AllListedExactly(m: Memory, pml4: Frame, max: nat, bottom: nat, top: nat, vs: seq<Vma>)
    requires StackOk(m, pml4, max, bottom, top) && AreasAgree(m, pml4, vs, max, top)
    ensures AllListed(m, pml4, vs) <==> Clear(vs, bottom, top)
  {
    hide PageAt, Agrees, StackOk;
    forall i | 0 <= i < |vs|
      ensures Agrees(m, pml4, vs[i], 0, 0) <==> vs[i].end <= bottom * 4096 || top * 4096 <= vs[i].start
    {
      AgreesWhole(m, pml4, max, bottom, top, vs[i]);
    }
  }

  lemma ClearWith(vs: seq<Vma>, v: Vma, k: nat, lo: nat, hi: nat)
    requires Clear(vs, lo, hi) && k <= |vs| && (v.end <= lo * 4096 || hi * 4096 <= v.start)
    ensures Clear(vs[..k] + [v] + vs[k..], lo, hi)
  {
    var vs' := vs[..k] + [v] + vs[k..];
    forall i | 0 <= i < |vs'| ensures vs'[i].end <= lo * 4096 || hi * 4096 <= vs'[i].start {
      if i != k { assert vs'[i] == vs[if i < k then i else i - 1]; }
    }
  }

  // A new area with a page that already translates is wrong from the start.
  lemma CoveredPage(m: Memory, pml4: Frame, vs: seq<Vma>, v: Vma, k: nat, n: nat)
    requires k <= |vs| && v.pages == [] && Inside(v, n) && PageAt(m, pml4, n).Some?
    ensures !AllListed(m, pml4, vs[..k] + [v] + vs[k..])
  {
    hide PageAt;
    assert (vs[..k] + [v] + vs[k..])[k] == v && Beside(v, n, 0, 0);
    assert Starts(v.pages) == {};
  }

  lemma MapBelowStack(m: Memory, pml4: Frame, max: nat, bottom: nat, top: nat, vs: seq<Vma>, length: nat,
                      file: Option<File>, pgoff: nat)
    requires StackOk(m, pml4, max, bottom, top) && AreasAgree(m, pml4, vs, max, top) && Clear(vs, bottom, top)
    requires 0 < length < 0x1_0000_0000_0000_0000 && AlignUp64(length) != 0
    requires FirstFit(vs, length) + AlignUp64(length) <= bottom * 4096
    ensures var vs' := Insert(vs, NewArea(vs, length, file, pgoff));
      AreasAgree(m, pml4, vs', max, top) && AllListed(m, pml4, vs')
  {
    hide StackOk, AreasAgree, FirstFit, AlignUp64, Insert, Clear, AllListed;
    var v := NewArea(vs, length, file, pgoff);
    StackBelow(m, pml4, max, bottom, top);
    AreasAgreeParts(m, pml4, vs, max, top);
    var k := NewAreaPlace(vs, length, file, pgoff);
    NoWrap(FirstFit(vs, length) + AlignUp64(length));
    AreaMapped(m, pml4, max, top, vs, length, file, pgoff);
    ClearWith(vs, v, k, bottom, top);
    AllListedExactly(m, pml4, max, bottom, top, Insert(vs, v));
  }

  lemma StackBelow(m: Memory, pml4: Frame, max: nat, bottom: nat, top: nat)
    requires StackOk(m, pml4, max, bottom, top)
    ensures max <= bottom < top <= 0x8_0000_0000 && PageAt(m, pml4, bottom).Some?
  {
  }

  lemma ClearBelow(vs: seq<Vma>, lo: nat, hi: nat)
    requires forall i :: 0 <= i < |vs| ==> vs[i].end <= lo * 4096
    ensures Clear(vs, lo, hi)
  {
  }

  lemma MapOverStack(m: Memory, pml4: Frame, max: nat, bottom: nat, top: nat, vs: seq<Vma>, length: nat,
                     file: Option<File>, pgoff: nat)
    requires StackOk(m, pml4, max, bottom, top) && Good(vs) && 0x1_0000 <= bottom
    requires forall i :: 0 <= i < |vs| ==> vs[i].end <= bottom * 4096
    requires 0 < length < 0x1_0000_0000_0000_0000 && AlignUp64(length) != 0
    requires bottom * 4096 < FirstFit(vs, length) + AlignUp64(length) < 0x1_0000_0000_0000_0000
    ensures !AllListed(m, pml4, Insert(vs, NewArea(vs, length, file, pgoff)))
  {
    hide StackOk, FirstFit, AlignUp64, Insert, AllListed, PageAt, Wrap, Good;
    StackBelow(m, pml4, max, bottom, top);
    FirstFitBelow(vs, length, bottom * 4096);
    NoWrap(FirstFit(vs, length) + AlignUp64(length));
    var k := NewAreaPlace(vs, length, file, pgoff);
    CoveredPage(m, pml4, vs, NewArea(vs, length, file, pgoff), k, bottom);
  }

  // do_sys_mmap does not look where the stack is. Whatever length is asked for, the areas stay in order
  // and agree with the tables exactly when the new one ends at or below the bottom of the stack.
  lemma MapAgreesExactly(m: Memory, pml4: Frame, max: nat, bottom: nat, top: nat, vs: seq<Vma>, length: nat,
                         file: Option<File>, pgoff: nat)
    requires StackOk(m, pml4, max, bottom, top) && AreasAgree(m, pml4, vs, max, top) && 0x1_0000 <= max
    requires forall i :: 0 <= i < |vs| ==> vs[i].end <= bottom * 4096
    requires 0 < length < 0x1_0000_0000_0000_0000 && AlignUp64(length) != 0
    ensures var vs' := Insert(vs, NewArea(vs, length, file, pgoff));
      FirstFit(vs, length) + AlignUp64(length) <= bottom * 4096 <==>
      Good(vs') && Tight(m, pml4, vs', max, top) && AllListed(m, pml4, vs')
  {
    hide *;
    ClearBelow(vs, bottom, top);
    StackBelow(m, pml4, max, bottom, top);
    AreasAgreeParts(m, pml4, vs, max, top);
    MapKeepsGood(vs, length, file, pgoff);
    if FirstFit(vs, length) + AlignUp64(length) <= bottom * 4096 {
      MapBelowStack(m, pml4, max, bottom, top, vs, length, file, pgoff);
      AreasAgreeParts(m, pml4, Insert(vs, NewArea(vs, length, file, pgoff)), max, top);
    } else if FirstFit(vs, length) + AlignUp64(length) < 0x1_0000_0000_0000_0000 {
      MapOverStack(m, pml4, max, bottom, top, vs, length, file, pgoff);
    }
  }

  // It reaches into the pages [lo, hi) exactly when it ends above lo.
  lemma MapClearExactly(vs: seq<Vma>, length: nat, file: Option<File>, pgoff: nat, lo: nat, hi: nat)
    requires Good(vs) && 0x1_0000 <= lo < hi && forall i :: 0 <= i < |vs| ==> vs[i].end <= lo * 4096
    requires 0 < length < 0x1_0000_0000_0000_0000 && AlignUp64(length) != 0
    requires FirstFit(vs, length) + AlignUp64(length) < 0x1_0000_0000_0000_0000
    ensures Clear(Insert(vs, NewArea(vs, length, file, pgoff)), lo, hi)
      <==> FirstFit(vs, length) + AlignUp64(length) <= lo * 4096
  {
    hide FirstFit, AlignUp64, Insert, Clear, Good, Wrap;
    var v := NewArea(vs, length, file, pgoff);
    var k := NewAreaPlace(vs, length, file, pgoff);
    FirstFitBelow(vs, length, lo * 4096);
    NoWrap(FirstFit(vs, length) + AlignUp64(length));
    if v.end <= lo * 4096 {
      ClearBelow(vs, lo, hi);
      ClearWith(vs, v, k, lo, hi);
    } else {
      NotClear(vs[..k] + [v] + vs[k..], k, lo, hi);
    }
  }

  lemma NotClear(vs: seq<Vma>, k: nat, lo: nat, hi: nat)
    requires k < |vs| && lo * 4096 < vs[k].end && vs[k].start < hi * 4096
    ensures !Clear(vs, lo, hi)
  {
  }

  // An area of 3.5 GiB in an empty address space reaches over the stack of a new process:
  lemma LargeMmapCoversStack()
    ensures FirstFit([], 0xE000_0000) == 0x1000_0000
    ensures Covers(Insert([], NewArea([], 0xE000_0000, None, 0)), 0xF000_0000 - 0x1000)
  {
    assert AlignUp64(0xE000_0000) == 0xE000_0000;
    assert Insert([], NewArea([], 0xE000_0000, None, 0))[0].end == 0xF000_0000;
  }

  lemma AreasAgreeParts(m: Memory, pml4: Frame, vs: seq<Vma>, max: nat, top: nat)
    requires AreasAgree(m, pml4, vs, max, top)
    ensures Good(vs) && max <= top <= 0x8_0000_0000 && Tight(m, pml4, vs, max, top)
  {
  }

  // ---- munmap as a whole ----

  // The request lies inside one area.
  ghost predicate Unmappable(vs: seq<Vma>, addr: nat, len: nat) { exists k :: CanUnmap(vs, k, addr, len) }

  // munmap_region keeps no page list straight but one whose pages all stay, or all go.
  ghost predicate NoPagesLost(vs: seq<Vma>, addr: nat, len: nat) {
    forall k: nat :: CanUnmap(vs, k, addr, len) && Pieces(vs[k], addr, len) != [] ==> PagesKept(vs[k], addr, len)
  }

  lemma OnlyArea(vs: seq<Vma>, k: nat, addr: nat, len: nat)
    requires Good(vs) && k < |vs| && vs[k].start <= addr < vs[k].end && 0 < len
    ensures Unmappable(vs, addr, len) <==> addr + len <= vs[k].end
    ensures addr + len <= vs[k].end <==> CanUnmap(vs, k, addr, len)
  {
    if addr + len <= vs[k].end { assert CanUnmap(vs, k, addr, len); }
  }

  lemma NoArea(vs: seq<Vma>, addr: nat, len: nat)
    requires !Covers(vs, addr)
    ensures !Unmappable(vs, addr, len)
  {
  }

  // Nothing stands behind [addr, addr + len) any more, and all else is as it was.
  ghost predicate BackingGone(vs: seq<Vma>, vs': seq<Vma>, addr: nat, len: nat) {
    forall a: nat :: BackingOf(vs', a) == if addr <= a < addr + len then Nothing else BackingOf(vs, a)
  }

  // The whole step, whichever way munmap_region goes.
  lemma AreaUnmapped(m: Memory, m': Memory, pml4: Frame, max: nat, bottom: nat, top: nat, vs: seq<Vma>, k: nat,
                     addr: nat, len: nat)
    requires StackOk(m, pml4, max, bottom, top) && AreasAgree(m, pml4, vs, max, top)
    requires CanUnmap(vs, k, addr, len) && addr % 4096 == 0 && len % 4096 == 0 && NoPagesLost(vs, addr, len)
    requires if Pieces(vs[k], addr, len) == [] then PagesGone(m, m', pml4, Starts(vs[k].pages)) else m' == m
    ensures StackOk(m', pml4, max, bottom, top) && AreasAgree(m', pml4, Unmapped(vs, k, addr, len), max, top)
    ensures Good(Unmapped(vs, k, addr, len)) && RangeGone(m, m', pml4, addr, len, max, top)
  {
    hide StackOk, AreasAgree, PagesGone, RangeGone;
    if Pieces(vs[k], addr, len) == [] {
      AreaDestroyed(m, m', pml4, max, bottom, top, vs, k);
      WholeArea(vs, k, addr, len);
    } else {
      AreaTrimmed(m, pml4, max, top, vs, k, addr, len);
    }
    UnmapKeepsGood(vs, k, addr, len);
  }

  lemma BackingUnmapped(vs: seq<Vma>, k: nat, addr: nat, len: nat)
    requires CanUnmap(vs, k, addr, len)
    ensures BackingGone(vs, Unmapped(vs, k, addr, len), addr, len)
  {
    hide Good, BackingOf, Unmapped;
    forall a: nat
      ensures BackingOf(Unmapped(vs, k, addr, len), a) == if addr <= a < addr + len then Nothing else BackingOf(vs, a)
    {
      UnmapBacking(vs, k, addr, len, a);
    }
  }

  lemma LostOrKept(vs: seq<Vma>, k: nat, addr: nat, len: nat)
    requires CanUnmap(vs, k, addr, len)
    ensures NoPagesLost(vs, addr, len) <==> Pieces(vs[k], addr, len) == [] || PagesKept(vs[k], addr, len)
  {
    hide PagesKept, Pieces, CanUnmap;
    forall j: nat | CanUnmap(vs, j, addr, len) ensures j == k { SameArea(vs, j, k, addr, len); }
  }

  // Every page an area lists lies in it.
  predicate Clean(v: Vma) { forall i :: 0 <= i < |v.pages| ==> v.start <= v.pages[i].start < v.end }

  // Whether vma_cleanup finds the trimmed area clean is whether its pages were kept.
  lemma CleanIsKept(m: Memory, pml4: Frame, vs: seq<Vma>, k: nat, addr: nat, len: nat, max: nat, top: nat)
    requires CanUnmap(vs, k, addr, len) && Agrees(m, pml4, vs[k], max, top)
    ensures Clean(Trimmed(vs[k], addr, len)) <==> PagesKept(vs[k], addr, len)
  {
    hide PageAt;
    var v, w := vs[k], Trimmed(vs[k], addr, len);
    NoWrap(addr + len);
    forall i | 0 <= i < |v.pages| ensures v.start <= v.pages[i].start < v.end {
      assert Listed(m, pml4, v, v.pages[i], max, top);
    }
    assert w.pages == v.pages && w.start == (if addr == v.start then addr + len else v.start);
  }

  lemma SameArea(vs: seq<Vma>, j: nat, k: nat, addr: nat, len: nat)
    requires CanUnmap(vs, j, addr, len) && CanUnmap(vs, k, addr, len)
    ensures j == k
  {
  }

  lemma NothingLost(vs: seq<Vma>, addr: nat, len: nat)
    requires !Unmappable(vs, addr, len)
    ensures NoPagesLost(vs, addr, len)
  {
    hide CanUnmap;
  }

  lemma WholeArea(vs: seq<Vma>, k: nat, addr: nat, len: nat)
    requires CanUnmap(vs, k, addr, len) && Pieces(vs[k], addr, len) == []
    ensures addr == vs[k].start && len == vs[k].end - vs[k].start && Unmapped(vs, k, addr, len) == vs[..k] + vs[k + 1..]
  {
  }
}
