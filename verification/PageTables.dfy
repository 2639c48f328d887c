// What four-level page tables mean. A ghost map gives each table's place in the hierarchy its
// frame; the invariant says that the words in memory spell out that map and nothing else, and
// a walk over the words is then a lookup in a flat table.

module PageTables {
  import opened PageFormat
  import opened Sequences

  datatype Space = Kernel | User(pml4: Frame)

  // A table's place: a PML4, or the slot of the table above that refers to it.
  datatype Node = Root(space: Space) | Sub(up: Node, index: nat)

  type Tables = map<Node, Frame>

  function Depth(n: Node): nat {
    match n
    case Root(_) => 0
    case Sub(up, _) => Depth(up) + 1
  }

  function SpaceOf(n: Node): Space {
    match n
    case Root(s) => s
    case Sub(up, _) => SpaceOf(up)
  }

  // The upper half of a process's PML4 refers to the kernel's tables.
  predicate Shared(n: Node, i: nat) { n.Root? && n.space.User? && i >= 256 }

  function Child(n: Node, i: nat): Node {
    if Shared(n, i) then Sub(Root(Kernel), i) else Sub(n, i)
  }

  ghost predicate NodeOk(m: Memory, tabs: Tables, n: Node)
    requires n in tabs
  {
    Depth(n) <= 3 && tabs[n] as nat < |m| &&
    match n
    case Root(s) => s.User? ==> s.pml4 == tabs[n]
    case Sub(up, i) => i < 512 && !Shared(up, i) && up in tabs
  }

  // Slot i of the table at n is present exactly when the table below exists, and refers to it.
  // A process's shared slots may also lack kernel tables made after the process was.
  ghost predicate SlotOk(m: Memory, tabs: Tables, n: Node, i: nat)
    requires n in tabs && tabs[n] as nat < |m| && i < 512
  {
    var e, c := m[tabs[n]][i], Child(n, i);
    (e.present ==> c in tabs && e.frame == tabs[c]) && (c in tabs && !Shared(n, i) ==> e.present)
  }

  ghost predicate Injective(tabs: Tables) {
    forall n, n' :: n in tabs && n' in tabs && tabs[n] == tabs[n'] ==> n == n'
  }

  ghost predicate SlotsOk(m: Memory, tabs: Tables)
    requires forall x :: x in tabs ==> tabs[x] as nat < |m|
  {
    forall n, i: nat :: n in tabs && Depth(n) < 3 && i < 512 ==> SlotOk(m, tabs, n, i)
  }

  ghost predicate TablesOk(m: Memory, tabs: Tables, kernel: Frame) {
    Root(Kernel) in tabs && tabs[Root(Kernel)] == kernel &&
    (forall n :: n in tabs ==> NodeOk(m, tabs, n)) && Injective(tabs) && SlotsOk(m, tabs)
  }

  // ---- The walk the hardware and vmm_virt_to_phys_as perform ----

  datatype Path = Path(i4: nat, i3: nat, i2: nat, i1: nat)

  predicate PathOk(p: Path) { p.i4 < 512 && p.i3 < 512 && p.i2 < 512 && p.i1 < 512 }

  // PML4_INDEX, PDPT_INDEX, PD_INDEX and PT_INDEX of a virtual address.
  function PathOf(virt: nat): (p: Path)
    ensures PathOk(p)
  {
    Path(virt / 0x80_0000_0000 % 512, virt / 0x4000_0000 % 512, virt / 0x20_0000 % 512, virt / 4096 % 512)
  }

  // Of all digits below 512 and offsets below 4096, those of the path and the page offset are the ones
  // that make up bits 0 to 47 of the address.
  lemma PathOfDigits(virt: nat, p: Path, offset: nat)
    requires PathOk(p) && offset < 4096
    ensures p == PathOf(virt) && offset == virt % 4096 <==>
      p.i4 * 0x80_0000_0000 + p.i3 * 0x4000_0000 + p.i2 * 0x20_0000 + p.i1 * 4096 + offset == virt % 0x1_0000_0000_0000
  {
    var w := virt % 0x1_0000_0000_0000;
    LowDigits(virt, virt / 0x1_0000_0000_0000, w);
    Digit4096(w, ((p.i4 * 512 + p.i3) * 512 + p.i2) * 512 + p.i1, offset);
    Digit512(w / 4096, (p.i4 * 512 + p.i3) * 512 + p.i2, p.i1);
    Digit512(w / 0x20_0000, p.i4 * 512 + p.i3, p.i2);
    Digit512(w / 0x4000_0000, p.i4, p.i3);
    hide PathOf;
  }

  lemma Digit512(n: nat, q: nat, d: nat)
    requires d < 512
    ensures n == q * 512 + d <==> q == n / 512 && d == n % 512
  {
  }

  lemma Digit4096(n: nat, q: nat, d: nat)
    requires d < 4096
    ensures n == q * 4096 + d <==> q == n / 4096 && d == n % 4096
  {
  }

  // The indices depend on the low 48 bits only.
  lemma LowDigits(virt: nat, high: nat, w: nat)
    requires virt == high * 0x1_0000_0000_0000 + w && w < 0x1_0000_0000_0000
    ensures PathOf(virt) == Path(w / 0x80_0000_0000, w / 0x4000_0000 % 512, w / 0x20_0000 % 512, w / 4096 % 512)
    ensures virt % 4096 == w % 4096 && w / 0x80_0000_0000 < 512
    ensures w / 0x20_0000 == w / 4096 / 512 && w / 0x4000_0000 == w / 0x20_0000 / 512
    ensures w / 0x80_0000_0000 == w / 0x4000_0000 / 512
  {
    Quotients(w);
    LowIndex1(virt, high, w);
    LowIndex2(virt, high, w);
    LowIndex3(virt, high, w);
    LowIndex4(virt, high, w);
  }

  lemma LowIndex1(virt: nat, high: nat, w: nat)
    requires virt == high * 0x1_0000_0000_0000 + w
    ensures virt / 4096 % 512 == w / 4096 % 512 && virt % 4096 == w % 4096
  {
    assert virt / 4096 == high * 0x10_0000_0000 + w / 4096;
  }

  lemma LowIndex2(virt: nat, high: nat, w: nat)
    requires virt == high * 0x1_0000_0000_0000 + w
    ensures virt / 0x20_0000 % 512 == w / 0x20_0000 % 512
  {
    assert virt / 0x20_0000 == high * 0x800_0000 + w / 0x20_0000;
  }

  lemma LowIndex3(virt: nat, high: nat, w: nat)
    requires virt == high * 0x1_0000_0000_0000 + w
    ensures virt / 0x4000_0000 % 512 == w / 0x4000_0000 % 512
  {
    assert virt / 0x4000_0000 == high * 0x4_0000 + w / 0x4000_0000;
  }

  lemma LowIndex4(virt: nat, high: nat, w: nat)
    requires virt == high * 0x1_0000_0000_0000 + w && w < 0x1_0000_0000_0000
    ensures virt / 0x80_0000_0000 % 512 == w / 0x80_0000_0000 < 512
  {
    assert virt / 0x80_0000_0000 == high * 512 + w / 0x80_0000_0000;
  }

  lemma Quotients(a: nat)
    ensures a / 0x20_0000 == a / 4096 / 512 && a / 0x4000_0000 == a / 0x20_0000 / 512
    ensures a / 0x80_0000_0000 == a / 0x4000_0000 / 512
  {
  }

  function Entry(m: Memory, table: Frame, i: nat): Word {
    if table as nat < |m| && i < 512 then m[table][i] else ZERO
  }

  // Of these tables at most one slot changed.
  ghost predicate OneSlot(m: Memory, m': Memory, tables: set<Frame>, table: Frame, index: nat) {
    forall f, i | f in tables && (f != table || i != index) :: Entry(m', f, i) == Entry(m, f, i)
  }

  lemma NoSlot(m: Memory, m': Memory, tables: set<Frame>, table: Frame, index: nat)
    requires Intact(m, m', tables)
    ensures OneSlot(m, m', tables, table, index)
  {
  }

  lemma OneSlotSet(m: Memory, m1: Memory, tables: set<Frame>, table: Frame, index: nat, w: Word)
    requires Intact(m, m1, tables) && table as nat < |m1| && index < 512
    ensures OneSlot(m, m1[table := m1[table][index := w]], tables, table, index)
    ensures Entry(m1[table := m1[table][index := w]], table, index) == w
  {
  }

  // What get_next stores for a new table: always writable and executable, with the hints passed down.
  predicate MadeWith(e: Word, table: Frame, flags: Flags) {
    e.present && e.frame == table && e.writable && !e.nx && e.user == flags.user && e.wthru == flags.wthru &&
    e.nocache == flags.nocache
  }

  // The table at n is there, and if it was made since tabs0, the slot above it was stored with these hints.
  ghost predicate MadeAt(m: Memory, tabs: Tables, tabs0: Tables, up: Node, n: Node, index: nat, flags: Flags) {
    up in tabs && n in tabs && (n !in tabs0 ==> MadeWith(Entry(m, tabs[up], index), tabs[n], flags))
  }

  // Tables made since tabs0 on the way to p carry the user bit, the lowest one the cache hints too.
  ghost predicate Hinted(m: Memory, tabs: Tables, tabs0: Tables, s: Space, p: Path, flags: Flags) {
    var n3 := Child(Root(s), p.i4);
    var n2, bare := Sub(n3, p.i3), flags.(wthru := false, nocache := false);
    MadeAt(m, tabs, tabs0, Root(s), n3, p.i4, bare) && MadeAt(m, tabs, tabs0, n3, n2, p.i3, bare) &&
    MadeAt(m, tabs, tabs0, n2, TableOf(s, p), p.i2, flags)
  }

  lemma MadeNow(m: Memory, tabs: Tables, tabs1: Tables, tabs0: Tables, up: Node, n: Node, index: nat, made: Flags,
                flags: Flags)
    requires up in tabs && n in tabs && (n in tabs1 ==> n in tabs0)
    requires n !in tabs1 ==> MadeWith(Entry(m, tabs[up], index), tabs[n], made)
    requires made.user == flags.user && made.wthru == flags.wthru && made.nocache == flags.nocache
    ensures MadeAt(m, tabs, tabs0, up, n, index, flags)
  {
  }

  // A slot of another table changed.
  lemma MadeStill(m1: Memory, tabs1: Tables, m: Memory, tabs: Tables, tabs0: Tables, kernel: Frame, up: Node, n: Node,
                  index: nat, x: Node, j: nat, flags: Flags)
    requires TablesOk(m1, tabs1, kernel) && MadeAt(m1, tabs1, tabs0, up, n, index, flags) && x in tabs1 && up != x
    requires OneSlot(m1, m, tabs1.Values, tabs1[x], j) && forall y :: y in tabs1 ==> y in tabs && tabs[y] == tabs1[y]
    ensures MadeAt(m, tabs, tabs0, up, n, index, flags)
  {
    hide SlotsOk, Entry, MadeWith;
    if tabs1[up] == tabs1[x] { InjectiveAt(tabs1, up, x); }
    assert tabs1[up] in tabs1.Values;
  }

  lemma ThreeBelow(s: Space, p: Path, flags: Flags)
    requires PathOk(p)
    ensures p.i4 < 512 && p.i3 < 512 && p.i2 < 512 && (Shared(Root(s), p.i4) ==> s.User?)
    ensures var n3 := Child(Root(s), p.i4); var n2 := Sub(n3, p.i3); var n1 := TableOf(s, p);
      n1 == Child(n2, p.i2) && n2 == Child(n3, p.i3) && Depth(Root(s)) == 0 && Depth(n3) == 1 && Depth(n2) == 2 &&
      Root(s) != n3 && Root(s) != n2 && n3 != n2 && n3 != n1 && n2 != n1 &&
      SpaceOf(n1) == SpaceOf(n2) == SpaceOf(n3) == OwnerOf(s, p) && !Shared(n3, p.i3) && !Shared(n2, p.i2)
    ensures var s1, s2, s3 := SanitizeFlags(flags, 1), SanitizeFlags(flags, 2), SanitizeFlags(flags, 3);
      s1.user == s2.user == s3.user == flags.user && !s1.wthru && !s1.nocache && !s2.wthru && !s2.nocache && s3 == flags
  {
    TableOfShape(s, p);
  }

  lemma AllHinted(m: Memory, tabs: Tables, tabs0: Tables, s: Space, p: Path, flags: Flags)
    requires var n3 := Child(Root(s), p.i4); var n2, bare := Sub(n3, p.i3), flags.(wthru := false, nocache := false);
      MadeAt(m, tabs, tabs0, Root(s), n3, p.i4, bare) && MadeAt(m, tabs, tabs0, n3, n2, p.i3, bare) &&
      MadeAt(m, tabs, tabs0, n2, TableOf(s, p), p.i2, flags)
    ensures Hinted(m, tabs, tabs0, s, p, flags)
  {
    hide MadeAt;
  }

  // How many levels of a walk from this PML4 are present.
  function LevelsPresent(m: Memory, pml4: Frame, p: Path): nat {
    var e4 := Entry(m, pml4, p.i4);
    if !e4.present then 0 else
    var e3 := Entry(m, e4.frame, p.i3);
    if !e3.present then 1 else
    var e2 := Entry(m, e3.frame, p.i2);
    if !e2.present then 2 else if Entry(m, e2.frame, p.i1).present then 4 else 3
  }

  // address_space->pml4
  function Pml4Of(s: Space, kernel: Frame): Frame {
    match s
    case Kernel => kernel
    case User(f) => f
  }

  // Whose table a leaf stands in: the upper half belongs to the kernel.
  function OwnerOf(s: Space, p: Path): Space { if s.User? && p.i4 >= 256 then Kernel else s }

  // The leaf entry a walk from this PML4 ends at, if every level is present.
  function Lookup(m: Memory, pml4: Frame, p: Path): Option<Word> {
    var e4 := Entry(m, pml4, p.i4);
    if !e4.present then None else
    var e3 := Entry(m, e4.frame, p.i3);
    if !e3.present then None else
    var e2 := Entry(m, e3.frame, p.i2);
    if !e2.present then None else
    var e1 := Entry(m, e2.frame, p.i1);
    if e1.present then Some(e1) else None
  }

  // ---- The flat table ----

  function TableOf(s: Space, p: Path): Node {
    Sub(Sub(Child(Root(s), p.i4), p.i3), p.i2)
  }

  lemma TableOfShape(s: Space, p: Path)
    ensures Depth(TableOf(s, p)) == 3 && SpaceOf(TableOf(s, p)) == OwnerOf(s, p)
    ensures var n3 := Child(Root(s), p.i4); SpaceOf(n3) == SpaceOf(Sub(n3, p.i3)) == OwnerOf(s, p)
    ensures !Shared(Root(s), p.i4) ==> TableOf(s, p) == Sub(Sub(Sub(Root(s), p.i4), p.i3), p.i2)
  {
    var n3 := Child(Root(s), p.i4);
    assert Depth(n3) == 1 && SpaceOf(n3) == OwnerOf(s, p);
    assert Depth(Sub(n3, p.i3)) == 2 && SpaceOf(Sub(n3, p.i3)) == OwnerOf(s, p);
  }

  // The page a page table maps at slot i.
  function LeafAt(m: Memory, tabs: Tables, n: Node, i: nat): Option<Word> {
    if n in tabs && Depth(n) == 3 && Entry(m, tabs[n], i).present then Some(Entry(m, tabs[n], i)) else None
  }

  function TopPresent(m: Memory, tabs: Tables, s: Space, i: nat): bool {
    Root(s) in tabs && Entry(m, tabs[Root(s)], i).present
  }

  function Flat(m: Memory, tabs: Tables, s: Space, p: Path): Option<Word> {
    if Shared(Root(s), p.i4) && !TopPresent(m, tabs, s, p.i4) then None else LeafAt(m, tabs, TableOf(s, p), p.i1)
  }

  // The four-level walk is a lookup in the flat table.
  lemma LookupIsFlat(m: Memory, tabs: Tables, kernel: Frame, s: Space, p: Path)
    requires TablesOk(m, tabs, kernel) && Root(s) in tabs && PathOk(p)
    ensures Lookup(m, tabs[Root(s)], p) == Flat(m, tabs, s, p)
  {
    var n4 := Root(s);
    var n3 := Child(n4, p.i4);
    var n2 := Sub(n3, p.i3);
    var n1 := Sub(n2, p.i2);
    assert SlotOk(m, tabs, n4, p.i4);
    if n1 in tabs { assert NodeOk(m, tabs, n1); }
    if n2 in tabs { assert NodeOk(m, tabs, n2); }
    if Entry(m, tabs[n4], p.i4).present {
      assert NodeOk(m, tabs, n3) && SlotOk(m, tabs, n3, p.i3);
      if Entry(m, tabs[n3], p.i3).present {
        assert SlotOk(m, tabs, n2, p.i2);
      }
    }
  }

  // ---- What a step may change ----

  // No process lost or changed a reference to the kernel's tables, and the kernel lost none of its own.
  ghost predicate SameTops(m: Memory, tabs: Tables, m': Memory) {
    forall s, j :: Root(s) in tabs && (Shared(Root(s), j) || (s == Kernel && Entry(m, tabs[Root(s)], j).present)) ==>
      Entry(m', tabs[Root(s)], j) == Entry(m, tabs[Root(s)], j)
  }

  // From (m, tabs) to (m', tabs') tables were only added, and no page gained or lost a mapping.
  ghost predicate Grown(m: Memory, tabs: Tables, m': Memory, tabs': Tables) {
    (forall n :: n in tabs ==> n in tabs' && tabs'[n] == tabs[n]) &&
    (forall n, i :: LeafAt(m', tabs', n, i) == LeafAt(m, tabs, n, i)) &&
    SameTops(m, tabs, m') &&
    (forall s :: Root(s) in tabs' ==> Root(s) in tabs)
  }

  // Memory changed, but not in any table.
  lemma TablesFrame(m: Memory, m': Memory, tabs: Tables, kernel: Frame)
    requires TablesOk(m, tabs, kernel) && |m'| == |m|
    requires forall n :: n in tabs ==> m'[tabs[n]] == m[tabs[n]]
    ensures TablesOk(m', tabs, kernel) && Grown(m, tabs, m', tabs)
  {
    forall n | n in tabs ensures NodeOk(m', tabs, n) { assert NodeOk(m, tabs, n); }
    forall n, i: nat | n in tabs && Depth(n) < 3 && i < 512 ensures SlotOk(m', tabs, n, i) {
      assert SlotOk(m, tabs, n, i);
    }
  }

  function SetWord(m: Memory, f: Frame, i: nat, w: Word): Memory
    requires f as nat < |m| && i < 512
  {
    m[f := m[f][i := w]]
  }

  // get_next on an absent slot: a cleared frame f that is no table becomes the table below.
  ghost predicate CanAdd(m: Memory, tabs: Tables, kernel: Frame, n: Node, i: nat, f: Frame, w: Word) {
    TablesOk(m, tabs, kernel) && n in tabs && Depth(n) < 3 && i < 512 && !Shared(n, i) &&
    f as nat < |m| && m[f] == ZeroPage() && f !in tabs.Values && tabs[n] as nat < |m| && !m[tabs[n]][i].present &&
    w.present && w.frame == f
  }

  lemma AddTable(m: Memory, tabs: Tables, kernel: Frame, n: Node, i: nat, f: Frame, w: Word)
    requires CanAdd(m, tabs, kernel, n, i, f, w)
    ensures var m', tabs' := SetWord(m, tabs[n], i, w), tabs[Child(n, i) := f];
            TablesOk(m', tabs', kernel) && Grown(m, tabs, m', tabs') && tabs'.Values == tabs.Values + {f}
  {
    hide SlotOk;
    var m', tabs' := SetWord(m, tabs[n], i, w), tabs[Child(n, i) := f];
    AddTableGrown(m, tabs, kernel, n, i, f, w);
    forall x | x in tabs' ensures NodeOk(m', tabs', x) {
      if x in tabs { assert NodeOk(m, tabs, x); }
    }
    forall x, j: nat | x in tabs' && Depth(x) < 3 && j < 512 ensures SlotOk(m', tabs', x, j) {
      AddTableSlot(m, tabs, kernel, n, i, f, w, x, j);
    }
  }

  lemma AddTableGrown(m: Memory, tabs: Tables, kernel: Frame, n: Node, i: nat, f: Frame, w: Word)
    requires CanAdd(m, tabs, kernel, n, i, f, w)
    ensures Child(n, i) !in tabs && Grown(m, tabs, SetWord(m, tabs[n], i, w), tabs[Child(n, i) := f])
    ensures tabs[Child(n, i) := f].Values == tabs.Values + {f}
  {
    hide SlotsOk;
    SlotsOkAt(m, tabs, n, i);
    AddValue(tabs, Child(n, i), f);
  }

  lemma AddValue(tabs: Tables, c: Node, f: Frame)
    requires c !in tabs
    ensures tabs[c := f].Values == tabs.Values + {f}
  {
    var tabs' := tabs[c := f];
    assert f in tabs'.Values by { assert tabs'[c] == f; }
    forall g | g in tabs.Values ensures g in tabs'.Values {
      var n :| n in tabs && tabs[n] == g;
      assert tabs'[n] == g;
    }
  }

  lemma AddTableSlot(m: Memory, tabs: Tables, kernel: Frame, n: Node, i: nat, f: Frame, w: Word, x: Node, j: nat)
    requires CanAdd(m, tabs, kernel, n, i, f, w)
    requires (x in tabs || x == Child(n, i)) && Depth(x) < 3 && j < 512
    ensures var m', tabs' := SetWord(m, tabs[n], i, w), tabs[Child(n, i) := f];
            tabs'[x] as nat < |m'| && SlotOk(m', tabs', x, j)
  {
    hide SlotsOk, Injective;
    var c := Child(n, i);
    SlotsOkAt(m, tabs, n, i);
    if x in tabs {
      SlotsOkAt(m, tabs, x, j);
      if tabs[x] == tabs[n] { InjectiveAt(tabs, x, n); }
      assert NodeOk(m, tabs, x);
    } else {
      assert Sub(c, j) !in tabs;
    }
  }

  lemma SlotsOkAt(m: Memory, tabs: Tables, n: Node, i: nat)
    requires forall x :: x in tabs ==> tabs[x] as nat < |m|
    requires SlotsOk(m, tabs) && n in tabs && Depth(n) < 3 && i < 512
    ensures SlotOk(m, tabs, n, i)
  {
  }

  lemma InjectiveAt(tabs: Tables, n: Node, n': Node)
    requires Injective(tabs) && n in tabs && n' in tabs && tabs[n] == tabs[n']
    ensures n == n'
  {
  }

  // ---- Whole operations ----

  // One leaf entry became `leaf`; tables may have been added on the way to it.
  ghost predicate Changed(m: Memory, tabs: Tables, m': Memory, tabs': Tables, n: Node, i: nat, leaf: Option<Word>) {
    (forall x :: x in tabs ==> x in tabs' && tabs'[x] == tabs[x]) &&
    (forall x, j :: LeafAt(m', tabs', x, j) == if x == n && j == i then leaf else LeafAt(m, tabs, x, j)) &&
    SameTops(m, tabs, m') &&
    (forall s :: Root(s) in tabs' ==> Root(s) in tabs)
  }

  // pt[pt_i] = w.
  lemma SetLeaf(m: Memory, tabs: Tables, kernel: Frame, n: Node, i: nat, w: Word)
    requires TablesOk(m, tabs, kernel) && n in tabs && Depth(n) == 3 && i < 512 && tabs[n] as nat < |m|
    ensures TablesOk(SetWord(m, tabs[n], i, w), tabs, kernel)
    ensures Changed(m, tabs, SetWord(m, tabs[n], i, w), tabs, n, i, if w.present then Some(w) else None)
  {
    var m' := SetWord(m, tabs[n], i, w);
    forall x | x in tabs ensures NodeOk(m', tabs, x) { assert NodeOk(m, tabs, x); }
    forall x, j: nat | x in tabs && Depth(x) < 3 && j < 512 ensures SlotOk(m', tabs, x, j) {
      assert SlotOk(m, tabs, x, j);
    }
  }

  lemma GrownReflexive(m: Memory, tabs: Tables)
    ensures Grown(m, tabs, m, tabs)
  {
  }

  lemma NodeWithin(m: Memory, tabs: Tables, kernel: Frame, n: Node)
    requires TablesOk(m, tabs, kernel) && n in tabs
    ensures NodeOk(m, tabs, n) && tabs[n] as nat < |m|
  {
  }

  // A present slot leads to the table the flat map names.
  lemma SlotPresent(m: Memory, tabs: Tables, kernel: Frame, n: Node, i: nat)
    requires TablesOk(m, tabs, kernel) && n in tabs && Depth(n) < 3 && i < 512 && Entry(m, tabs[n], i).present
    ensures Child(n, i) in tabs && tabs[Child(n, i)] == Entry(m, tabs[n], i).frame
  {
    assert NodeOk(m, tabs, n) && SlotOk(m, tabs, n, i);
  }

  lemma GrownThenGrown(m: Memory, tabs: Tables, m1: Memory, tabs1: Tables, m': Memory, tabs': Tables)
    requires Grown(m, tabs, m1, tabs1) && Grown(m1, tabs1, m', tabs')
    ensures Grown(m, tabs, m', tabs')
  {
  }

  lemma GrownThenChanged(m: Memory, tabs: Tables, m1: Memory, tabs1: Tables, m': Memory, tabs': Tables,
                         n: Node, i: nat, leaf: Option<Word>)
    requires Grown(m, tabs, m1, tabs1) && Changed(m1, tabs1, m', tabs', n, i, leaf)
    ensures Changed(m, tabs, m', tabs', n, i, leaf)
  {
  }

  // Address space s' reaches the page table that s uses for path p.
  predicate Sees(m: Memory, tabs: Tables, s': Space, s: Space, p: Path) {
    s' == s || (s == Kernel && Shared(Root(s'), p.i4) && TopPresent(m, tabs, s', p.i4))
  }

  // In every address space, the page at p in s now has leaf entry `leaf` wherever it is visible,
  // and every other page translates as before.
  ghost predicate Remapped(m: Memory, tabs: Tables, m': Memory, tabs': Tables, s: Space, p: Path, leaf: Option<Word>) {
    (forall x :: Root(x) in tabs' <==> Root(x) in tabs) && SameTops(m, tabs, m') &&
    forall x, q :: Root(x) in tabs && PathOk(q) ==>
      Root(x) in tabs' && tabs'[Root(x)] == tabs[Root(x)] &&
      Lookup(m', tabs[Root(x)], q) ==
        if q == p && Sees(m, tabs, x, s, p) then leaf else Lookup(m, tabs[Root(x)], q)
  }

  ghost predicate SameTranslations(m: Memory, tabs: Tables, m': Memory, tabs': Tables) {
    (forall x :: Root(x) in tabs' <==> Root(x) in tabs) && SameTops(m, tabs, m') &&
    forall x, q :: Root(x) in tabs && PathOk(q) ==>
      Root(x) in tabs' && tabs'[Root(x)] == tabs[Root(x)] &&
      Lookup(m', tabs[Root(x)], q) == Lookup(m, tabs[Root(x)], q)
  }

  lemma SameTable(s: Space, p: Path, x: Space, q: Path)
    requires !Shared(Root(s), p.i4) && TableOf(x, q) == TableOf(s, p)
    ensures q.i4 == p.i4 && q.i3 == p.i3 && q.i2 == p.i2 && (x == s || (s == Kernel && Shared(Root(x), p.i4)))
  {
  }

  lemma FlatChanged(m: Memory, tabs: Tables, m': Memory, tabs': Tables, s: Space, p: Path, leaf: Option<Word>,
                    x: Space, q: Path)
    requires Root(x) in tabs && !Shared(Root(s), p.i4)
    requires Changed(m, tabs, m', tabs', TableOf(s, p), p.i1, leaf)
    ensures Flat(m', tabs', x, q) == if q == p && Sees(m, tabs, x, s, p) then leaf else Flat(m, tabs, x, q)
  {
    hide LeafAt, TableOf;
    if TableOf(x, q) == TableOf(s, p) {
      SameTable(s, p, x, q);
    }
    if q == p && Sees(m, tabs, x, s, p) {
      assert TableOf(x, q) == TableOf(s, p) by { SeesSameTable(m, tabs, x, s, p); }
    }
  }

  lemma SeesSameTable(m: Memory, tabs: Tables, x: Space, s: Space, p: Path)
    requires Sees(m, tabs, x, s, p)
    ensures TableOf(x, p) == TableOf(s, p)
  {
  }

  lemma ChangedIsRemapped(m: Memory, tabs: Tables, m': Memory, tabs': Tables, kernel: Frame,
                          s: Space, p: Path, leaf: Option<Word>)
    requires TablesOk(m, tabs, kernel) && TablesOk(m', tabs', kernel)
    requires Root(s) in tabs && PathOk(p) && !Shared(Root(s), p.i4)
    requires Changed(m, tabs, m', tabs', TableOf(s, p), p.i1, leaf)
    ensures Remapped(m, tabs, m', tabs', s, p, leaf)
  {
    forall x, q | Root(x) in tabs && PathOk(q)
      ensures Root(x) in tabs' && tabs'[Root(x)] == tabs[Root(x)]
      ensures Lookup(m', tabs[Root(x)], q) ==
        if q == p && Sees(m, tabs, x, s, p) then leaf else Lookup(m, tabs[Root(x)], q)
    {
      hide TablesOk, Lookup, Flat;
      LookupIsFlat(m, tabs, kernel, x, q);
      LookupIsFlat(m', tabs', kernel, x, q);
      FlatChanged(m, tabs, m', tabs', s, p, leaf, x, q);
    }
  }

  lemma GrownIsSame(m: Memory, tabs: Tables, m': Memory, tabs': Tables, kernel: Frame)
    requires TablesOk(m, tabs, kernel) && TablesOk(m', tabs', kernel) && Grown(m, tabs, m', tabs')
    ensures SameTranslations(m, tabs, m', tabs')
  {
    forall x, q | Root(x) in tabs && PathOk(q)
      ensures Root(x) in tabs' && tabs'[Root(x)] == tabs[Root(x)]
      ensures Lookup(m', tabs[Root(x)], q) == Lookup(m, tabs[Root(x)], q)
    {
      hide TablesOk, Lookup;
      LookupIsFlat(m, tabs, kernel, x, q);
      LookupIsFlat(m', tabs', kernel, x, q);
    }
  }

  // ---- Access rights (Intel SDM Vol. 3A, section 4.6) ----

  // In the tables a process owns every entry above the leaves grants writing, execution and user access.
  ghost predicate OpenAbove(m: Memory, tabs: Tables) {
    forall n, i :: n in tabs && SpaceOf(Child(n, i)).User? ==> OpenSlot(m, tabs, n, i)
  }

  // In the kernel's, writing and execution: what the boot loader left there is its own choice.
  ghost predicate KernelOpen(m: Memory, tabs: Tables) {
    forall n, i :: n in tabs && SpaceOf(Child(n, i)) == Kernel ==> OpenSlot(m, tabs, n, i)
  }

  ghost predicate OpenSlot(m: Memory, tabs: Tables, n: Node, i: nat)
    requires n in tabs
  {
    var e := Entry(m, tabs[n], i);
    Depth(n) < 3 && e.present ==> e.writable && !e.nx && (SpaceOf(Child(n, i)).User? ==> e.user)
  }

  // Both last; the first needs new tables of processes to carry the user bit.
  ghost predicate StaysOpen(m: Memory, tabs: Tables, m': Memory, tabs': Tables, user: bool) {
    (OpenAbove(m, tabs) && user ==> OpenAbove(m', tabs')) && (KernelOpen(m, tabs) ==> KernelOpen(m', tabs'))
  }

  lemma StaysOpenThen(m: Memory, tabs: Tables, m1: Memory, tabs1: Tables, m': Memory, tabs': Tables, user: bool)
    requires StaysOpen(m, tabs, m1, tabs1, user) && StaysOpen(m1, tabs1, m', tabs', user)
    ensures StaysOpen(m, tabs, m', tabs', user)
  {
    hide OpenAbove, KernelOpen;
  }

  datatype Rights = Rights(writable: bool, user: bool, nx: bool)

  // What the processor grants: writable and user must hold at all four levels, no-execute at one.
  function EffectiveRights(m: Memory, pml4: Frame, p: Path): Option<Rights> {
    if Lookup(m, pml4, p).None? then None else
    var e4 := Entry(m, pml4, p.i4);
    var e3 := Entry(m, e4.frame, p.i3);
    var e2 := Entry(m, e3.frame, p.i2);
    var e1 := Entry(m, e2.frame, p.i1);
    Some(Rights(e4.writable && e3.writable && e2.writable && e1.writable,
                e4.user && e3.user && e2.user && e1.user, e4.nx || e3.nx || e2.nx || e1.nx))
  }

  // In a process's own half the leaf decides alone. In the kernel's half it does so for writing and
  // execution if the boot loader's entries allow both; and no page anywhere grants more than its leaf.
  lemma RightsComeFromLeaf(m: Memory, tabs: Tables, kernel: Frame, s: Space, p: Path)
    requires TablesOk(m, tabs, kernel) && Root(s) in tabs && PathOk(p)
    ensures match Lookup(m, tabs[Root(s)], p)
            case None => EffectiveRights(m, tabs[Root(s)], p) == None
            case Some(leaf) =>
              EffectiveRights(m, tabs[Root(s)], p).Some? &&
              var r := EffectiveRights(m, tabs[Root(s)], p).value;
              (r.writable ==> leaf.writable) && (r.user ==> leaf.user) && (leaf.nx ==> r.nx) &&
              (OpenAbove(m, tabs) && s.User? && p.i4 < 256 ==> r == Rights(leaf.writable, leaf.user, leaf.nx)) &&
              (KernelOpen(m, tabs) && OwnerOf(s, p) == Kernel ==> r.writable == leaf.writable && r.nx == leaf.nx)
  {
    var n4 := Root(s);
    var n3 := Child(n4, p.i4);
    var n2 := Sub(n3, p.i3);
    var n1 := Sub(n2, p.i2);
    if Lookup(m, tabs[n4], p).Some? {
      assert SlotOk(m, tabs, n4, p.i4) && NodeOk(m, tabs, n3);
      assert SlotOk(m, tabs, n3, p.i3) && NodeOk(m, tabs, n2);
      assert SlotOk(m, tabs, n2, p.i2) && NodeOk(m, tabs, n1);
      assert SpaceOf(n1) == SpaceOf(n2) == SpaceOf(n3) == if Shared(n4, p.i4) then Kernel else s;
      assert Child(n3, p.i3) == n2 && Child(n2, p.i2) == n1;
      if OpenAbove(m, tabs) && s.User? && p.i4 < 256 {
        assert OpenSlot(m, tabs, n4, p.i4) && OpenSlot(m, tabs, n3, p.i3) && OpenSlot(m, tabs, n2, p.i2);
      }
      if KernelOpen(m, tabs) && OwnerOf(s, p) == Kernel {
        assert OpenSlot(m, tabs, n4, p.i4) && OpenSlot(m, tabs, n3, p.i3) && OpenSlot(m, tabs, n2, p.i2);
      }
    }
  }

  lemma AddTableOpen(m: Memory, tabs: Tables, kernel: Frame, n: Node, i: nat, f: Frame, w: Word)
    requires CanAdd(m, tabs, kernel, n, i, f, w) && w.writable && !w.nx
    ensures StaysOpen(m, tabs, SetWord(m, tabs[n], i, w), tabs[Child(n, i) := f], SpaceOf(n).User? ==> w.user)
  {
    hide SlotsOk;
    var m', tabs' := SetWord(m, tabs[n], i, w), tabs[Child(n, i) := f];
    SlotsOkAt(m, tabs, n, i);
    if OpenAbove(m, tabs) && (SpaceOf(n).User? ==> w.user) {
      forall x, j | x in tabs' && SpaceOf(Child(x, j)).User? ensures OpenSlot(m', tabs', x, j) {
        if x in tabs { assert OpenSlot(m, tabs, x, j); }
      }
    }
    if KernelOpen(m, tabs) {
      forall x, j | x in tabs' && SpaceOf(Child(x, j)) == Kernel ensures OpenSlot(m', tabs', x, j) {
        if x in tabs { assert OpenSlot(m, tabs, x, j); }
      }
    }
  }

  lemma SetLeafOpen(m: Memory, tabs: Tables, kernel: Frame, n: Node, i: nat, w: Word)
    requires TablesOk(m, tabs, kernel) && n in tabs && Depth(n) == 3 && i < 512 && tabs[n] as nat < |m|
    ensures StaysOpen(m, tabs, SetWord(m, tabs[n], i, w), tabs, true)
  {
    forall x, j | x in tabs && OpenSlot(m, tabs, x, j) ensures OpenSlot(SetWord(m, tabs[n], i, w), tabs, x, j) {
    }
  }

  lemma OpenFrame(m: Memory, m': Memory, tabs: Tables)
    requires |m'| == |m| && forall n :: n in tabs ==> tabs[n] as nat < |m| && m'[tabs[n]] == m[tabs[n]]
    ensures StaysOpen(m, tabs, m', tabs, true)
  {
    forall n, i | n in tabs && OpenSlot(m, tabs, n, i) ensures OpenSlot(m', tabs, n, i) {
    }
  }

  // All three tables above the page exist: what vmm_unmap relies on without checking it.
  ghost predicate Mappable(m: Memory, pml4: Frame, p: Path) {
    var e4 := Entry(m, pml4, p.i4);
    var e3 := Entry(m, e4.frame, p.i3);
    var e2 := Entry(m, e3.frame, p.i2);
    e4.present && e3.present && e2.present
  }

  lemma MappableTables(m: Memory, tabs: Tables, kernel: Frame, s: Space, p: Path)
    requires TablesOk(m, tabs, kernel) && Root(s) in tabs && PathOk(p) && Mappable(m, tabs[Root(s)], p)
    ensures var n4 := Root(s); var n3 := Child(n4, p.i4); var n2 := Sub(n3, p.i3); var n1 := TableOf(s, p);
      n3 in tabs && n2 in tabs && n1 in tabs && Depth(n1) == 3 &&
      tabs[n4] as nat < |m| && tabs[n3] as nat < |m| && tabs[n2] as nat < |m| && tabs[n1] as nat < |m| &&
      tabs[n3] == m[tabs[n4]][p.i4].frame && tabs[n2] == m[tabs[n3]][p.i3].frame && tabs[n1] == m[tabs[n2]][p.i2].frame
  {
    hide SlotsOk, Injective;
    var n4 := Root(s);
    var n3 := Child(n4, p.i4);
    var n2 := Sub(n3, p.i3);
    NodeWithin(m, tabs, kernel, n4);
    SlotPresent(m, tabs, kernel, n4, p.i4);
    NodeWithin(m, tabs, kernel, n3);
    SlotPresent(m, tabs, kernel, n3, p.i3);
    NodeWithin(m, tabs, kernel, n2);
    SlotPresent(m, tabs, kernel, n2, p.i2);
    NodeWithin(m, tabs, kernel, TableOf(s, p));
  }

  lemma MappedIsMappable(m: Memory, pml4: Frame, p: Path)
    requires Lookup(m, pml4, p).Some?
    ensures Mappable(m, pml4, p)
  {
  }

  // ---- A new address space ----

  // The page paging_create_address_space fills: the upper half of the kernel's PML4, up to slot n.
  ghost predicate CopiedTo(page: Page, kernelPage: Page, n: nat) {
    forall j :: 0 <= j < 512 ==> page[j] == if 256 <= j < n then kernelPage[j] else ZERO
  }

  ghost predicate CanCreate(m: Memory, tabs: Tables, kernel: Frame, f: Frame, page: Page) {
    TablesOk(m, tabs, kernel) && f as nat < |m| && f !in tabs.Values && kernel as nat < |m| &&
    CopiedTo(page, m[kernel], 512)
  }

  lemma NewRootSlot(m: Memory, tabs: Tables, kernel: Frame, f: Frame, page: Page, x: Node, j: nat)
    requires CanCreate(m, tabs, kernel, f, page)
    requires (x in tabs || x == Root(User(f))) && Depth(x) < 3 && j < 512
    ensures var m', tabs' := m[f := page], tabs[Root(User(f)) := f];
      tabs'[x] as nat < |m'| && SlotOk(m', tabs', x, j)
  {
    NodeWithin(m, tabs, kernel, Root(Kernel));
    SlotsOkAt(m, tabs, Root(Kernel), j);
    RootIsFresh(m, tabs, kernel, f);
    if x in tabs {
      NodeWithin(m, tabs, kernel, x);
      SlotsOkAt(m, tabs, x, j);
    } else {
      assert Child(x, j) in tabs ==> j >= 256;
    }
  }

  lemma RootIsFresh(m: Memory, tabs: Tables, kernel: Frame, f: Frame)
    requires TablesOk(m, tabs, kernel) && f !in tabs.Values
    ensures Root(User(f)) !in tabs
    ensures forall n :: n in tabs ==> SpaceOf(n) != User(f)
  {
    if Root(User(f)) in tabs {
      NodeWithin(m, tabs, kernel, Root(User(f)));
      assert false;
    }
    forall n | n in tabs ensures SpaceOf(n) != User(f) {
      RootInTabs(m, tabs, kernel, n);
    }
  }

  lemma {:induction false} RootInTabs(m: Memory, tabs: Tables, kernel: Frame, n: Node)
    requires TablesOk(m, tabs, kernel) && n in tabs
    ensures Root(SpaceOf(n)) in tabs
  {
    if n.Sub? {
      NodeWithin(m, tabs, kernel, n);
      RootInTabs(m, tabs, kernel, n.up);
    }
  }

  lemma NewRoot(m: Memory, tabs: Tables, kernel: Frame, f: Frame, page: Page)
    requires CanCreate(m, tabs, kernel, f, page)
    ensures var m', tabs' := m[f := page], tabs[Root(User(f)) := f];
      Root(User(f)) !in tabs && TablesOk(m', tabs', kernel) && tabs'.Values == tabs.Values + {f} &&
      StaysOpen(m, tabs, m', tabs', true)
  {
    hide SlotOk, CopiedTo, StaysOpen;
    var m', tabs' := m[f := page], tabs[Root(User(f)) := f];
    RootIsFresh(m, tabs, kernel, f);
    AddValue(tabs, Root(User(f)), f);
    forall x | x in tabs' ensures NodeOk(m', tabs', x) {
      if x in tabs { assert NodeOk(m, tabs, x); }
    }
    forall x, j: nat | x in tabs' && Depth(x) < 3 && j < 512 ensures SlotOk(m', tabs', x, j) {
      NewRootSlot(m, tabs, kernel, f, page, x, j);
    }
    NewRootOpen(m, tabs, kernel, f, page);
  }

  lemma NewRootOpen(m: Memory, tabs: Tables, kernel: Frame, f: Frame, page: Page)
    requires CanCreate(m, tabs, kernel, f, page)
    ensures StaysOpen(m, tabs, m[f := page], tabs[Root(User(f)) := f], true)
  {
    var m', tabs' := m[f := page], tabs[Root(User(f)) := f];
    forall x, j | x in tabs && OpenSlot(m, tabs, x, j) ensures OpenSlot(m', tabs', x, j) {
      NodeWithin(m, tabs, kernel, x);
    }
    RootIsFresh(m, tabs, kernel, f);
    if KernelOpen(m, tabs) {
      forall j | SpaceOf(Child(Root(User(f)), j)) == Kernel ensures OpenSlot(m', tabs', Root(User(f)), j) {
        assert OpenSlot(m, tabs, Root(Kernel), j);
      }
    }
  }

  // The new address space has nothing in its own half, and the kernel's half as it stands.
  lemma NewRootLookup(m: Memory, tabs: Tables, kernel: Frame, f: Frame, page: Page, x: Space, q: Path)
    requires CanCreate(m, tabs, kernel, f, page) && PathOk(q) && (Root(x) in tabs || x == User(f))
    ensures var m' := m[f := page];
      if x == User(f) then Lookup(m', f, q) == if q.i4 < 256 then None else Lookup(m, kernel, q)
      else Lookup(m', tabs[Root(x)], q) == Lookup(m, tabs[Root(x)], q)
  {
    hide SlotOk, SlotsOk, Injective, Lookup, CopiedTo;
    var m', tabs' := m[f := page], tabs[Root(User(f)) := f];
    NewRoot(m, tabs, kernel, f, page);
    LookupIsFlat(m', tabs', kernel, x, q);
    NewRootFlat(m, tabs, kernel, f, page, x, q);
    if x == User(f) {
      LookupIsFlat(m, tabs, kernel, Kernel, q);
    } else {
      LookupIsFlat(m, tabs, kernel, x, q);
    }
  }

  lemma NewRootFlat(m: Memory, tabs: Tables, kernel: Frame, f: Frame, page: Page, x: Space, q: Path)
    requires CanCreate(m, tabs, kernel, f, page) && PathOk(q) && (Root(x) in tabs || x == User(f))
    ensures Flat(m[f := page], tabs[Root(User(f)) := f], x, q) ==
      if x == User(f) then (if q.i4 < 256 then None else Flat(m, tabs, Kernel, q)) else Flat(m, tabs, x, q)
  {
    hide SlotsOk, Injective;
    RootIsFresh(m, tabs, kernel, f);
    NodeWithin(m, tabs, kernel, Root(Kernel));
    TableOfShape(x, q);
    if x != User(f) { NodeWithin(m, tabs, kernel, Root(x)); }
    if x == User(f) && q.i4 >= 256 && !Entry(m, kernel, q.i4).present {
      NoTableBelow(m, tabs, kernel, q);
    }
    if TableOf(x, q) in tabs { NodeWithin(m, tabs, kernel, TableOf(x, q)); }
  }

  lemma NoTableBelow(m: Memory, tabs: Tables, kernel: Frame, q: Path)
    requires TablesOk(m, tabs, kernel) && PathOk(q) && !Entry(m, kernel, q.i4).present
    ensures TableOf(Kernel, q) !in tabs
  {
    if TableOf(Kernel, q) in tabs {
      NodeWithin(m, tabs, kernel, TableOf(Kernel, q));
      NodeWithin(m, tabs, kernel, Sub(Sub(Root(Kernel), q.i4), q.i3));
      SlotsOkAt(m, tabs, Root(Kernel), q.i4);
      assert false;
    }
  }

  // The new upper half of the top level has what the kernel's had, and no more.
  ghost predicate SharesTops(m: Memory, m': Memory, pml4: Frame, kernel: Frame) {
    forall j :: 256 <= j < 512 ==>
      if Entry(m, kernel, j).present then Entry(m', pml4, j) == Entry(m, kernel, j) else !Entry(m', pml4, j).present
  }

  // What creating an address space does to every translation.
  ghost predicate Created(m: Memory, tabs: Tables, m': Memory, tabs': Tables, kernel: Frame, s: Space) {
    s.User? && Root(s) !in tabs && tabs' == tabs[Root(s) := s.pml4] && SameTops(m, tabs, m') &&
    SharesTops(m, m', s.pml4, kernel) &&
    (forall q :: PathOk(q) ==> Lookup(m', s.pml4, q) == if q.i4 < 256 then None else Lookup(m, kernel, q)) &&
    forall x, q :: Root(x) in tabs && PathOk(q) ==> Lookup(m', tabs[Root(x)], q) == Lookup(m, tabs[Root(x)], q)
  }

  // First a page is allocated, which changes no table, then it is filled.
  lemma CreatedFrom(m: Memory, m1: Memory, tabs: Tables, kernel: Frame, f: Frame, page: Page)
    requires TablesOk(m, tabs, kernel) && Grown(m, tabs, m1, tabs) && CanCreate(m1, tabs, kernel, f, page)
    ensures Created(m, tabs, m1[f := page], tabs[Root(User(f)) := f], kernel, User(f))
  {
    hide SlotsOk, Injective, CopiedTo, Lookup, Grown, SharesTops;
    var m' := m1[f := page];
    GrownIsSame(m, tabs, m1, tabs, kernel);
    RootIsFresh(m1, tabs, kernel, f);
    TopsAfterCreate(m, m1, tabs, f, page);
    CopiedTops(m, m1, tabs, kernel, f, page);
    forall q | PathOk(q) ensures Lookup(m', f, q) == if q.i4 < 256 then None else Lookup(m, kernel, q) {
      NewRootLookup(m1, tabs, kernel, f, page, User(f), q);
    }
    forall x, q | Root(x) in tabs && PathOk(q) ensures Lookup(m', tabs[Root(x)], q) == Lookup(m, tabs[Root(x)], q) {
      NewRootLookup(m1, tabs, kernel, f, page, x, q);
    }
  }

  lemma CopiedTops(m: Memory, m1: Memory, tabs: Tables, kernel: Frame, f: Frame, page: Page)
    requires TablesOk(m, tabs, kernel) && Grown(m, tabs, m1, tabs) && CanCreate(m1, tabs, kernel, f, page)
    ensures SharesTops(m, m1[f := page], f, kernel)
  {
    hide SlotsOk, Injective;
    NodeWithin(m, tabs, kernel, Root(Kernel));
    NodeWithin(m1, tabs, kernel, Root(Kernel));
    forall j | 256 <= j < 512
      ensures if Entry(m, kernel, j).present then page[j] == Entry(m, kernel, j) else !page[j].present
    {
      SlotsOkAt(m, tabs, Root(Kernel), j);
      SlotsOkAt(m1, tabs, Root(Kernel), j);
    }
  }

  lemma TopsAfterCreate(m: Memory, m1: Memory, tabs: Tables, f: Frame, page: Page)
    requires Grown(m, tabs, m1, tabs) && f as nat < |m1| && f !in tabs.Values
    ensures SameTops(m, tabs, m1[f := page])
  {
  }

  // Where a process refers to the kernel's tables, it sees exactly what the kernel maps.
  lemma KernelHalfAgrees(m: Memory, tabs: Tables, kernel: Frame, f: Frame, q: Path)
    requires TablesOk(m, tabs, kernel) && Root(User(f)) in tabs && PathOk(q)
    requires q.i4 >= 256 && Entry(m, f, q.i4).present
    ensures Lookup(m, f, q) == Lookup(m, kernel, q)
  {
    hide SlotsOk, Injective;
    NodeWithin(m, tabs, kernel, Root(User(f)));
    LookupIsFlat(m, tabs, kernel, User(f), q);
    LookupIsFlat(m, tabs, kernel, Kernel, q);
  }
}
