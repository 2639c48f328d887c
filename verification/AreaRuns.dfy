// Whole runs of mmap and munmap against the simplest description of an address space: what stands
// behind every address, and where areas begin.

module AreaRuns {
  import opened Sequences
  import opened Regions
  import opened VmaTrees

  datatype Op = Mmap(length: nat, file: Option<File>, pgoff: nat) | Munmap(addr: nat, length: nat)

  // Which area holds the address.
  function Holder(vs: seq<Vma>, a: nat): Option<nat> {
    if vs == [] then None
    else if vs[0].start <= a < vs[0].end then Some(0)
    else match Holder(vs[1..], a)
      case None => None
      case Some(k) => Some(k + 1)
  }

  lemma {:induction false} HolderCovers(vs: seq<Vma>, a: nat)
    ensures match Holder(vs, a)
      case None => BackingOf(vs, a) == Nothing
      case Some(k) => k < |vs| && vs[k].start <= a < vs[k].end && BackingOf(vs, a) == BackingIn(vs[k], a)
  {
    if vs != [] { HolderCovers(vs[1..], a); }
  }

  predicate MmapSucceeds(op: Op)
    requires op.Mmap?
  {
    AlignUp64(op.length) != 0 && (op.file == None || op.file.value.canFault)
  }

  predicate MunmapSucceeds(vs: seq<Vma>, op: Op)
    requires op.Munmap?
  {
    AlignUp64(op.length) != 0 && Holder(vs, op.addr) != None && Holder(vs, op.addr).value < |vs| &&
    Wrap(op.addr + AlignUp64(op.length)) <= vs[Holder(vs, op.addr).value].end
  }

  // The areas after a system call, as the calls' contracts give them while addr + len does not wrap.
  function Apply(vs: seq<Vma>, op: Op): seq<Vma> {
    match op
    case Mmap(length, file, pgoff) =>
      if MmapSucceeds(op) then Insert(vs, NewArea(vs, length, file, pgoff)) else vs
    case Munmap(addr, length) =>
      if MunmapSucceeds(vs, op) then Unmapped(vs, Holder(vs, addr).value, addr, AlignUp64(length)) else vs
  }

  function Run(vs: seq<Vma>, ops: seq<Op>): seq<Vma> {
    if ops == [] then vs else Apply(Run(vs, ops[..|ops| - 1]), ops[|ops| - 1])
  }

  // ---- The flat machine ----

  // What stands behind each address that has something behind it, and at which addresses areas begin:
  // two areas side by side look like one, but cannot be unmapped in one.
  datatype Flat = Flat(backing: imap<nat, Backing>, starts: iset<nat>)

  ghost predicate FreeAt(f: Flat, a: nat, length: nat) { forall x: nat :: a <= x < a + length ==> x !in f.backing }

  // The lowest address with that much room.
  ghost predicate IsFirstFit(f: Flat, length: nat, r: nat) {
    r >= 0x1000_0000 && FreeAt(f, r, length) && forall a: nat :: 0x1000_0000 <= a < r ==> !FreeAt(f, a, length)
  }

  ghost function Placed(f: Flat, r: nat, len: nat, file: Option<File>, pgoff: nat): Flat {
    Flat(imap a: nat | a in f.backing || r <= a < r + len ::
           if r <= a < r + len then (if file == None then Anonymous else FileAt(file.value, Wrap(a - r + pgoff)))
           else f.backing[a],
         f.starts + iset{r})
  }

  // One area has all of [addr, addr + len).
  ghost predicate InOneArea(f: Flat, addr: nat, len: nat) {
    (forall x: nat :: addr <= x < addr + len ==> x in f.backing) &&
    forall x: nat :: addr < x < addr + len ==> x !in f.starts
  }

  ghost function Cleared(f: Flat, addr: nat, len: nat): Flat {
    Flat(imap a: nat | a in f.backing && !(addr <= a < addr + len) :: f.backing[a],
         iset a: nat | (a in f.starts && a != addr) || (a == addr + len && a in f.backing))
  }

  // mmap and munmap of this machine.
  ghost predicate FlatStep(f: Flat, op: Op, g: Flat) {
    match op
    case Mmap(length, file, pgoff) =>
      if MmapSucceeds(op)
      then exists r: nat :: IsFirstFit(f, length, r) && g == Placed(f, r, AlignUp64(length), file, pgoff)
      else g == f
    case Munmap(addr, length) =>
      var len := AlignUp64(length);
      g == if len != 0 && InOneArea(f, addr, len) then Cleared(f, addr, len) else f
  }

  // What a caller can check: the end of what is mapped or unmapped does not wrap around, and an
  // address to unmap is page aligned.
  ghost predicate Proper(f: Flat, op: Op) {
    match op
    case Mmap(length, _, _) =>
      length < 0x1_0000_0000_0000_0000 &&
      forall r: nat :: IsFirstFit(f, length, r) ==> r + AlignUp64(length) < 0x1_0000_0000_0000_0000
    case Munmap(addr, length) =>
      length < 0x1_0000_0000_0000_0000 && addr % 4096 == 0 && addr + AlignUp64(length) < 0x1_0000_0000_0000_0000
  }

  ghost predicate FlatRun(fs: seq<Flat>, ops: seq<Op>) {
    |fs| == |ops| + 1 && forall i :: 0 <= i < |ops| ==> FlatStep(fs[i], ops[i], fs[i + 1])
  }

  // ---- What a new area does ----

  lemma AlignedLength(length: nat)
    ensures AlignUp64(length) % 4096 == 0 && AlignUp64(length) < 0x1_0000_0000_0000_0000
    ensures AlignUp64(length) != 0 ==> length > 0
  {
  }

  // A new area is backed as asked, and takes nothing from the others.
  lemma MapBacking(vs: seq<Vma>, length: nat, file: Option<File>, pgoff: nat, a: nat)
    requires Good(vs) && 0 < length < 0x1_0000_0000_0000_0000 && AlignUp64(length) != 0
    requires FirstFit(vs, length) + AlignUp64(length) < 0x1_0000_0000_0000_0000
    ensures var v := NewArea(vs, length, file, pgoff);
      v.end == v.start + AlignUp64(length) &&
      BackingOf(Insert(vs, v), a) == if v.start <= a < v.end then BackingIn(v, a) else BackingOf(vs, a)
  {
    hide BackingOf, AlignUp64, FirstFit, Insert, BackingIn;
    var v := NewArea(vs, length, file, pgoff);
    var k := NewAreaPlace(vs, length, file, pgoff);
    assert v.end == v.start + AlignUp64(length);
    SpliceBacking(vs, k, v, a);
  }

  lemma SpliceBacking(vs: seq<Vma>, k: nat, v: Vma, a: nat)
    requires Good(vs) && k <= |vs| && (k > 0 ==> vs[k - 1].end <= v.start)
    ensures BackingOf(vs[..k] + [v] + vs[k..], a) == if v.start <= a < v.end then BackingIn(v, a) else BackingOf(vs, a)
  {
    hide BackingOf, Good;
    if v.start <= a < v.end { NothingBefore(vs, k, v, a); }
    OneBacking(v, a);
    BackingConcat(vs[..k] + [v], vs[k..], a);
    BackingConcat(vs[..k], [v], a);
    BackingConcat(vs[..k], vs[k..], a);
    assert vs == vs[..k] + vs[k..];
  }

  lemma NothingBefore(vs: seq<Vma>, k: nat, v: Vma, a: nat)
    requires Good(vs) && k <= |vs| && (k > 0 ==> vs[k - 1].end <= v.start) && v.start <= a < v.end
    ensures BackingOf(vs[..k], a) == Nothing
  {
    BeforeAndAfter(vs, k, v);
    NothingOutside(vs, 0, k, v, a);
    assert vs[0..k] == vs[..k];
  }

  lemma BeforeAndAfter(vs: seq<Vma>, k: nat, v: Vma)
    requires Good(vs) && k <= |vs| && (k > 0 ==> vs[k - 1].end <= v.start)
    ensures forall i :: 0 <= i < k ==> vs[i].end <= v.start
  {
    forall i | 0 <= i < k ensures vs[i].end <= v.start { EndsBefore(vs, i, k - 1); }
  }

  lemma OneBacking(v: Vma, a: nat)
    ensures BackingOf([v], a) == if v.start <= a < v.end then BackingIn(v, a) else Nothing
  {
    assert [v][1..] == [];
  }

  // ---- Areas, seen flat ----

  ghost predicate IsStart(vs: seq<Vma>, a: nat) { exists i :: 0 <= i < |vs| && vs[i].start == a }

  ghost function FlatOf(vs: seq<Vma>): Flat {
    Flat(imap a: nat | BackingOf(vs, a) != Nothing :: BackingOf(vs, a), iset a: nat | IsStart(vs, a))
  }

  lemma RoomIsFree(vs: seq<Vma>, a: nat, length: nat)
    requires Good(vs) && length > 0
    ensures Room(vs, a, length) <==> FreeAt(FlatOf(vs), a, length)
  {
    hide BackingOf;
    if i :| 0 <= i < |vs| && Overlap(vs[i], a, a + length) {
      var x := if a < vs[i].start then vs[i].start else a;
      CoversIsBacked(vs, x);
      assert vs[i].start <= x < vs[i].end;
      assert x in FlatOf(vs).backing;
    }
    if x: nat :| a <= x < a + length && x in FlatOf(vs).backing {
      CoversIsBacked(vs, x);
      var i :| 0 <= i < |vs| && vs[i].start <= x < vs[i].end;
      assert Overlap(vs[i], a, a + length);
    }
  }

  // The sweep over the areas finds the place the flat machine chooses.
  lemma FirstFitIsFlat(vs: seq<Vma>, length: nat, r: nat)
    requires Good(vs) && length > 0
    ensures IsFirstFit(FlatOf(vs), length, r) <==> r == FirstFit(vs, length)
  {
    FirstFitIsLowest(vs, length);
    hide FlatOf, FreeAt, FirstFit, Room, Good;
    forall a: nat ensures Room(vs, a, length) <==> FreeAt(FlatOf(vs), a, length) { RoomIsFree(vs, a, length); }
  }

  lemma StartSpliced(vs: seq<Vma>, v: Vma, k: nat, a: nat)
    requires k <= |vs|
    ensures IsStart(vs[..k] + [v] + vs[k..], a) <==> IsStart(vs, a) || a == v.start
  {
    var vs' := vs[..k] + [v] + vs[k..];
    assert vs'[k] == v;
    if i :| 0 <= i < |vs| && vs[i].start == a { assert vs'[if i < k then i else i + 1] == vs[i]; }
    if i :| 0 <= i < |vs'| && vs'[i].start == a && i != k { assert vs'[i] == vs[if i < k then i else i - 1]; }
  }

  // Inserting an area is placing it.
  lemma MapIsFlat(vs: seq<Vma>, length: nat, file: Option<File>, pgoff: nat)
    requires Good(vs) && 0 < length < 0x1_0000_0000_0000_0000 && AlignUp64(length) != 0
    requires FirstFit(vs, length) + AlignUp64(length) < 0x1_0000_0000_0000_0000
    ensures FlatOf(Insert(vs, NewArea(vs, length, file, pgoff)))
         == Placed(FlatOf(vs), FirstFit(vs, length), AlignUp64(length), file, pgoff)
  {
    hide *;
    var f := FlatOf(Insert(vs, NewArea(vs, length, file, pgoff)));
    var g := Placed(FlatOf(vs), FirstFit(vs, length), AlignUp64(length), file, pgoff);
    forall x: nat
      ensures (x in f.backing <==> x in g.backing) && (x in f.backing ==> f.backing[x] == g.backing[x])
      ensures x in f.starts <==> x in g.starts
    {
      MapBackingFlat(vs, length, file, pgoff, x);
      MapStartsFlat(vs, length, file, pgoff, x);
    }
    SameFlat(f, g);
  }

  lemma SameFlat(f: Flat, g: Flat)
    requires forall x: nat :: (x in f.backing <==> x in g.backing) && (x in f.backing ==> f.backing[x] == g.backing[x])
    requires forall x: nat :: x in f.starts <==> x in g.starts
    ensures f == g
  {
    assert f.backing == g.backing && f.starts == g.starts;
  }

  lemma MapBackingFlat(vs: seq<Vma>, length: nat, file: Option<File>, pgoff: nat, x: nat)
    requires Good(vs) && 0 < length < 0x1_0000_0000_0000_0000 && AlignUp64(length) != 0
    requires FirstFit(vs, length) + AlignUp64(length) < 0x1_0000_0000_0000_0000
    ensures var f := FlatOf(Insert(vs, NewArea(vs, length, file, pgoff)));
      var g := Placed(FlatOf(vs), FirstFit(vs, length), AlignUp64(length), file, pgoff);
      (x in f.backing <==> x in g.backing) && (x in f.backing ==> f.backing[x] == g.backing[x])
  {
    hide BackingOf, BackingIn, AlignUp64, FirstFit, Insert, Good, IsStart, NewArea;
    MapBacking(vs, length, file, pgoff, x);
    NewBacking(vs, length, file, pgoff, x);
  }

  lemma MapStartsFlat(vs: seq<Vma>, length: nat, file: Option<File>, pgoff: nat, x: nat)
    requires Good(vs) && 0 < length < 0x1_0000_0000_0000_0000 && AlignUp64(length) != 0
    ensures var f := FlatOf(Insert(vs, NewArea(vs, length, file, pgoff)));
      x in f.starts <==> x in Placed(FlatOf(vs), FirstFit(vs, length), AlignUp64(length), file, pgoff).starts
  {
    hide BackingOf, AlignUp64, FirstFit, Insert, Good, IsStart, NewArea;
    var k := NewAreaPlace(vs, length, file, pgoff);
    NewBacking(vs, length, file, pgoff, x);
    StartSpliced(vs, NewArea(vs, length, file, pgoff), k, x);
  }

  lemma NewBacking(vs: seq<Vma>, length: nat, file: Option<File>, pgoff: nat, a: nat)
    ensures var v := NewArea(vs, length, file, pgoff);
      v.start == FirstFit(vs, length) &&
      BackingIn(v, a) == if file == None then Anonymous else FileAt(file.value, Wrap(a - v.start + pgoff))
  {
  }

  // munmap finds one area that has the range exactly when the flat machine does.
  lemma HolderIsFlat(vs: seq<Vma>, addr: nat, len: nat)
    requires Good(vs) && 0 < len && addr + len < 0x1_0000_0000_0000_0000
    ensures InOneArea(FlatOf(vs), addr, len)
      <==> Holder(vs, addr) != None && CanUnmap(vs, Holder(vs, addr).value, addr, len)
  {
    HolderCovers(vs, addr);
    hide BackingOf, Holder;
    if Holder(vs, addr) != None {
      var k := Holder(vs, addr).value;
      if addr + len <= vs[k].end {
        forall x: nat | addr <= x < addr + len ensures x in FlatOf(vs).backing { CoversIsBacked(vs, x); }
        forall i | 0 <= i < |vs| ensures !(addr < vs[i].start < addr + len) {
          if i < k { EndsBefore(vs, i, k); } else if i > k { assert vs[k].end <= vs[i].start; }
        }
      } else {
        var x: nat := vs[k].end;
        EndIsStart(vs, k, x);
        assert addr < x < addr + len && (IsStart(vs, x) <==> x in FlatOf(vs).starts);
      }
    } else {
      assert addr !in FlatOf(vs).backing;
    }
  }

  // Behind the end of an area there is nothing, or another one begins.
  lemma EndIsStart(vs: seq<Vma>, k: nat, x: nat)
    requires Good(vs) && k < |vs| && x == vs[k].end
    ensures x in FlatOf(vs).backing ==> IsStart(vs, x)
  {
    hide BackingOf;
    CoversIsBacked(vs, x);
    forall i | 0 <= i < k ensures vs[i].end <= x { EndsBefore(vs, i, k); }
    if i :| 0 <= i < |vs| && vs[i].start <= x < vs[i].end {
      assert vs[k].end <= vs[i].start;
    }
  }

  lemma UnmapIsFlat(vs: seq<Vma>, k: nat, addr: nat, len: nat)
    requires CanUnmap(vs, k, addr, len)
    ensures FlatOf(Unmapped(vs, k, addr, len)) == Cleared(FlatOf(vs), addr, len)
  {
    var f, g := FlatOf(Unmapped(vs, k, addr, len)), Cleared(FlatOf(vs), addr, len);
    hide BackingOf, Unmapped, IsStart, CanUnmap;
    forall x: nat
      ensures (x in f.backing <==> x in g.backing) && (x in f.backing ==> f.backing[x] == g.backing[x])
      ensures x in f.starts <==> x in g.starts
    {
      UnmapBacking(vs, k, addr, len, x);
      UnmapStarts(vs, k, addr, len, x);
    }
    SameFlat(f, g);
  }

  lemma UnmapStarts(vs: seq<Vma>, k: nat, addr: nat, len: nat, a: nat)
    requires CanUnmap(vs, k, addr, len)
    ensures IsStart(Unmapped(vs, k, addr, len), a)
      <==> (IsStart(vs, a) && a != addr) || (a == addr + len && a in FlatOf(vs).backing)
  {
    hide *;
    EndsAfter(vs, k, addr, len);
    InsideIsBacked(vs, k, addr + len);
    EndIsStart(vs, k, vs[k].end);
    if IsStart(Unmapped(vs, k, addr, len), a) { StartLeft(vs, k, addr, len, a); }
    if IsStart(vs, a) && a != addr { OtherStart(vs, k, addr, len, a); }
    if a == addr + len < vs[k].end { UpperStart(vs, k, addr, len); }
  }

  lemma EndsAfter(vs: seq<Vma>, k: nat, addr: nat, len: nat)
    requires CanUnmap(vs, k, addr, len)
    ensures Good(vs) && k < |vs| && vs[k].start <= addr < addr + len <= vs[k].end < 0x1_0000_0000_0000_0000
  {
  }

  lemma StartLeft(vs: seq<Vma>, k: nat, addr: nat, len: nat, a: nat)
    requires CanUnmap(vs, k, addr, len) && IsStart(Unmapped(vs, k, addr, len), a)
    ensures (IsStart(vs, a) && a != addr) || a == addr + len < vs[k].end
  {
    EndsAfter(vs, k, addr, len);
    hide Unmapped, AreaOk, Pieces;
    var p := Pieces(vs[k], addr, len);
    var i :| 0 <= i < |Unmapped(vs, k, addr, len)| && Unmapped(vs, k, addr, len)[i].start == a;
    UnmappedAt(vs, k, addr, len, i);
    if i < k {
      EndsBefore(vs, i, k);
      assert vs[i].start == a;
      assert vs[i].start < vs[i].end <= vs[k].start by { StartsBefore(vs, i, k); }
    } else if i < k + |p| {
      PieceStart(vs[k], addr, len, i - k);
    } else {
      assert vs[i - |p| + 1].start == a && vs[k].end <= vs[i - |p| + 1].start;
    }
  }

  lemma StartsBefore(vs: seq<Vma>, i: nat, k: nat)
    requires Good(vs) && i < k < |vs|
    ensures vs[i].start < vs[i].end <= vs[k].start
  {
  }

  lemma PieceStart(v: Vma, addr: nat, len: nat, j: nat)
    requires v.start <= addr < v.end < 0x1_0000_0000_0000_0000 && 0 < len && addr + len <= v.end
    requires j < |Pieces(v, addr, len)|
    ensures var s := Pieces(v, addr, len)[j].start; (s == v.start && s != addr) || s == addr + len < v.end
  {
  }

  lemma UpperStart(vs: seq<Vma>, k: nat, addr: nat, len: nat)
    requires CanUnmap(vs, k, addr, len) && addr + len < vs[k].end
    ensures IsStart(Unmapped(vs, k, addr, len), addr + len)
  {
    hide Unmapped;
    UnmappedAt(vs, k, addr, len, k + |Pieces(vs[k], addr, len)| - 1);
  }

  lemma InsideIsBacked(vs: seq<Vma>, k: nat, a: nat)
    requires k < |vs|
    ensures vs[k].start <= a < vs[k].end ==> a in FlatOf(vs).backing
  {
    CoversIsBacked(vs, a);
  }

  lemma OtherStart(vs: seq<Vma>, k: nat, addr: nat, len: nat, a: nat)
    requires CanUnmap(vs, k, addr, len) && IsStart(vs, a) && a != addr
    ensures IsStart(Unmapped(vs, k, addr, len), a)
  {
    hide Unmapped;
    var p := Pieces(vs[k], addr, len);
    var i :| 0 <= i < |vs| && vs[i].start == a;
    var j := if i <= k then i else i + |p| - 1;
    UnmappedAt(vs, k, addr, len, j);
    assert Unmapped(vs, k, addr, len)[j].start == a;
  }

  // ---- One call ----

  lemma MmapRefines(vs: seq<Vma>, op: Op, g: Flat)
    requires Good(vs) && op.Mmap? && Proper(FlatOf(vs), op)
    ensures Good(Apply(vs, op)) && FlatStep(FlatOf(vs), op, FlatOf(Apply(vs, op)))
    ensures FlatStep(FlatOf(vs), op, g) ==> g == FlatOf(Apply(vs, op))
  {
    hide AlignUp64, FirstFit, IsFirstFit, Good, NewArea, Insert, FlatOf, Placed;
    AlignedLength(op.length);
    if MmapSucceeds(op) {
      var r := FirstFit(vs, op.length);
      FirstFitIsFlat(vs, op.length, r);
      MapKeepsGood(vs, op.length, op.file, op.pgoff);
      MapIsFlat(vs, op.length, op.file, op.pgoff);
      forall x: nat | IsFirstFit(FlatOf(vs), op.length, x) ensures x == r { FirstFitIsFlat(vs, op.length, x); }
    }
  }

  lemma MunmapRefines(vs: seq<Vma>, op: Op, g: Flat)
    requires Good(vs) && op.Munmap? && Proper(FlatOf(vs), op)
    ensures Good(Apply(vs, op)) && FlatStep(FlatOf(vs), op, FlatOf(Apply(vs, op)))
    ensures FlatStep(FlatOf(vs), op, g) ==> g == FlatOf(Apply(vs, op))
  {
    hide AlignUp64, Good, FlatOf, Cleared, InOneArea, Unmapped, Holder, Wrap;
    AlignedLength(op.length);
    var len := AlignUp64(op.length);
    if len != 0 {
      HolderIsFlat(vs, op.addr, len);
      NoWrap(op.addr + len);
      HolderCovers(vs, op.addr);
      if MunmapSucceeds(vs, op) {
        UnmapKeepsGood(vs, Holder(vs, op.addr).value, op.addr, len);
        UnmapIsFlat(vs, Holder(vs, op.addr).value, op.addr, len);
      }
    }
  }

  // ---- Runs ----

  // Whatever the flat machine does from the flat view of some areas, the areas do too: they stay
  // non-empty, aligned, ordered and disjoint, and their flat view is the flat machine's state.
  lemma {:induction false} RunRefinesFlat(vs: seq<Vma>, ops: seq<Op>, fs: seq<Flat>)
    requires Good(vs) && FlatRun(fs, ops) && fs[0] == FlatOf(vs)
    requires forall i :: 0 <= i < |ops| ==> Proper(fs[i], ops[i])
    ensures Good(Run(vs, ops)) && fs[|ops|] == FlatOf(Run(vs, ops))
    decreases |ops|
  {
    hide Good, Proper, Apply, FlatStep, FlatOf;
    if ops != [] {
      var last := |ops| - 1;
      RunRefinesFlat(vs, ops[..last], fs[..last + 1]);
      var now := Run(vs, ops[..last]);
      match ops[last]
      case Mmap(_, _, _) => MmapRefines(now, ops[last], fs[last + 1]);
      case Munmap(_, _) => MunmapRefines(now, ops[last], fs[last + 1]);
    }
  }

  // And the flat machine never gets stuck where the areas go on.
  lemma StepExists(vs: seq<Vma>, op: Op)
    requires Good(vs) && Proper(FlatOf(vs), op)
    ensures Good(Apply(vs, op)) && FlatStep(FlatOf(vs), op, FlatOf(Apply(vs, op)))
  {
    hide Good, Proper, Apply, FlatStep, FlatOf;
    match op
    case Mmap(_, _, _) => MmapRefines(vs, op, FlatOf(vs));
    case Munmap(_, _) => MunmapRefines(vs, op, FlatOf(vs));
  }

  // The search tree makes these steps: do_sys_mmap, and do_sys_munmap with munmap_region.
  method Serve(t: VmaTree, op: Op)
    requires t.Valid() && Proper(FlatOf(t.Areas()), op)
    modifies t, t.Nodes()
    ensures t.Valid() && t.Areas() == Apply(old(t.Areas()), op)
  {
    hide *;
    ghost var vs := t.Areas();
    t.AreasGood();
    StepExists(vs, op);
    ApplyIs(vs, op);
    assert allocated(InOrder(t.tree));
    match op
    case Mmap(length, file, pgoff) =>
      var _ := t.SysMmap(length, file, pgoff);
      t.StillValid(Apply(vs, op));
    case Munmap(addr, length) =>
      var len := AlignUp64(length);
      if len != 0 {
        MunmapOne(t, addr, len);
      }
  }

  // Apply, spelled out, for a proper call.
  lemma ApplyIs(vs: seq<Vma>, op: Op)
    requires Good(vs) && Proper(FlatOf(vs), op)
    ensures op.Mmap? ==> op.length < 0x1_0000_0000_0000_0000
    ensures op.Mmap? ==>
      Apply(vs, op) == if AlignUp64(op.length) != 0 && (op.file == None || op.file.value.canFault)
                       then Insert(vs, NewArea(vs, op.length, op.file, op.pgoff)) else vs
    ensures op.Munmap? ==>
      var len := AlignUp64(op.length);
      op.addr % 4096 == 0 && len % 4096 == 0 && op.addr + len < 0x1_0000_0000_0000_0000 &&
      Apply(vs, op) == if len != 0 then MunmappedBy(vs, op.addr, len) else vs
  {
    hide AlignUp64, FirstFit, IsFirstFit, Good, Insert, NewArea, Unmapped, Holder, Wrap, FlatOf;
    AlignedLength(op.length);
  }

  // What munmap_region leaves.
  function MunmappedBy(vs: seq<Vma>, addr: nat, len: nat): seq<Vma> {
    var k := Holder(vs, addr);
    if k != None && k.value < |vs| && Wrap(addr + len) <= vs[k.value].end then Unmapped(vs, k.value, addr, len) else vs
  }

  method MunmapOne(t: VmaTree, addr: nat, len: nat)
    requires t.Valid() && addr % 4096 == 0 && len % 4096 == 0 && 0 < len && addr + len < 0x1_0000_0000_0000_0000
    modifies t, t.Nodes()
    ensures t.Valid() && t.Areas() == MunmappedBy(old(t.Areas()), addr, len)
  {
    hide VmaTree.Valid, VmaTree.Areas, Unmapped, Wrap, Holder, Covers;
    t.AreasGood();
    assert allocated(InOrder(t.tree));
    ghost var vs := t.Areas();
    var v, k := t.Find(addr);
    assert t.Areas() == vs;
    HolderCovers(vs, addr);
    CoversIsBacked(vs, addr);
    if v != null {
      t.AreaValue(v, k);
      HolderIs(vs, k, addr);
      if Wrap(addr + len) <= v.end {
        var _ := t.Unmap(v, k, addr, len);
      }
    }
  }

  lemma HolderIs(vs: seq<Vma>, k: nat, addr: nat)
    requires Good(vs) && k < |vs| && vs[k].start <= addr < vs[k].end
    ensures Holder(vs, addr) == Some(k)
  {
    HolderCovers(vs, addr);
    CoversIsBacked(vs, addr);
  }

  // Without the guards the promises fail. A mapping longer than the rest of the address space:
  lemma WrappingMmapBreaks()
    ensures var op := Mmap(0xFFFF_FFFF_FFFF_F000, None, 0);
      Good([]) && !Proper(FlatOf([]), op) && !Good(Apply([], op))
  {
    var op := Mmap(0xFFFF_FFFF_FFFF_F000, None, 0);
    assert Good([]);
    FirstFitIsFlat([], op.length, 0x1000_0000);
    assert AlignUp64(op.length) == 0xFFFF_FFFF_FFFF_F000;
    assert Apply([], op)[0].end == 0xFFF_F000;
  }

  // And an address in the middle of a page:
  lemma UnalignedMunmapBreaks()
    ensures var vs, op := [Vma(0x1000_0000, 0x1000_3000, None, 0, [])], Munmap(0x1000_0800, 0x1000);
      Good(vs) && !Proper(FlatOf(vs), op) && !Good(Apply(vs, op))
  {
    var vs, op := [Vma(0x1000_0000, 0x1000_3000, None, 0, [])], Munmap(0x1000_0800, 0x1000);
    assert AlignUp64(op.length) == 0x1000;
    assert Holder(vs, op.addr) == Some(0);
    assert Apply(vs, op)[0].end == 0x1000_0800;
  }
}
