// The areas of a process's address space as values, in address order: what searching, mapping
// and unmapping mean. Addresses and lengths are 64-bit; sums wrap.

module Regions {
  import opened PageFormat
  import opened Sequences

  // VMA_BASE is 0x1000_0000.

  // A file and whether its driver can fill pages (vnode->ops->vma_fault is set).
  datatype File = File(id: nat, canFault: bool)

  // A page the fault handler added to an area.
  datatype PhysPage = PhysPage(start: nat, phys: Frame)

  datatype Vma = Vma(start: nat, end: nat, file: Option<File>, pgoff: nat, pages: seq<PhysPage>)

  function Wrap(x: int): nat { x % 0x1_0000_0000_0000_0000 }

  // ALIGN_UP(length, PAGE_SIZE) on 64 bits.
  function AlignUp64(length: nat): nat { Wrap(length + 4095) / 4096 * 4096 }

  // -EINVAL, -ENODEV and -ENOMEM, as the caller sees them.
  function EINVAL(): (r: nat)
    ensures r == 0xFFFF_FFFF_FFFF_FFEA
  {
    Wrap(-22)
  }

  function ENODEV(): (r: nat)
    ensures r == 0xFFFF_FFFF_FFFF_FFED
  {
    Wrap(-19)
  }

  function ENOMEM(): (r: nat)
    ensures r == 0xFFFF_FFFF_FFFF_FFF4
  {
    Wrap(-12)
  }

  // The last 4095 values of 64 bits, among them these three.
  predicate IsError(r: int) { 0xFFFF_FFFF_FFFF_F001 <= r < 0x1_0000_0000_0000_0000 }

  predicate AreaOk(v: Vma) {
    0x1000_0000 <= v.start < v.end < 0x1_0000_0000_0000_0000 && v.start % 4096 == 0 && v.end % 4096 == 0
  }

  // Non-empty, page-aligned areas from VMA_BASE on, in search order and pairwise disjoint.
  ghost predicate Good(vs: seq<Vma>) {
    (forall i :: 0 <= i < |vs| ==> AreaOk(vs[i])) &&
    forall i, j :: 0 <= i < j < |vs| ==> vs[i].end <= vs[j].start
  }

  ghost predicate Covers(vs: seq<Vma>, a: nat) {
    exists i :: 0 <= i < |vs| && vs[i].start <= a < vs[i].end
  }

  ghost predicate Overlap(v: Vma, start: nat, end: nat) { start < v.end && v.start < end }

  ghost predicate Overlaps(vs: seq<Vma>, start: nat, end: nat) {
    exists i :: 0 <= i < |vs| && Overlap(vs[i], start, end)
  }

  // `length` bytes are free from a on.
  ghost predicate Room(vs: seq<Vma>, a: nat, length: nat) { !Overlaps(vs, a, a + length) }

  // What stands behind an address: nothing, anonymous memory, or a file at an offset.
  datatype Backing = Nothing | Anonymous | FileAt(file: File, offset: nat)

  function BackingIn(v: Vma, a: nat): Backing {
    if v.file == None then Anonymous else FileAt(v.file.value, Wrap(a - v.start + v.pgoff))
  }

  function BackingOf(vs: seq<Vma>, a: nat): Backing {
    if vs == [] then Nothing
    else if vs[0].start <= a < vs[0].end then BackingIn(vs[0], a)
    else BackingOf(vs[1..], a)
  }

  lemma {:induction false} BackingConcat(a: seq<Vma>, b: seq<Vma>, x: nat)
    ensures BackingOf(a + b, x) == if BackingOf(a, x) != Nothing then BackingOf(a, x) else BackingOf(b, x)
    decreases |a|
  {
    if a == [] {
      assert a + b == b;
    } else {
      assert (a + b)[1..] == a[1..] + b;
      BackingConcat(a[1..], b, x);
    }
  }

  lemma {:induction false} CoversIsBacked(vs: seq<Vma>, a: nat)
    ensures Covers(vs, a) <==> BackingOf(vs, a) != Nothing
    decreases |vs|
  {
    if vs != [] {
      CoversIsBacked(vs[1..], a);
      if Covers(vs, a) && !(vs[0].start <= a < vs[0].end) {
        var i :| 0 <= i < |vs| && vs[i].start <= a < vs[i].end;
        assert vs[1..][i - 1] == vs[i];
      }
      if Covers(vs[1..], a) {
        var i :| 0 <= i < |vs[1..]| && vs[1..][i].start <= a < vs[1..][i].end;
        assert vs[i + 1] == vs[1..][i];
      }
    }
  }

  lemma {:induction false} BackingAt(vs: seq<Vma>, k: nat, a: nat)
    requires Good(vs) && k < |vs| && vs[k].start <= a < vs[k].end
    ensures BackingOf(vs, a) == BackingIn(vs[k], a)
    decreases |vs|
  {
    if k > 0 {
      GoodPart(vs, 1, |vs|);
      BackingAt(vs[1..], k - 1, a);
    }
  }

  lemma GoodPart(vs: seq<Vma>, lo: nat, hi: nat)
    requires Good(vs) && lo <= hi <= |vs|
    ensures Good(vs[lo..hi])
  {
    var p := vs[lo..hi];
    assert forall i :: 0 <= i < |p| ==> p[i] == vs[lo + i];
  }

  // ---- First fit ----

  // The in-order sweep of scan, from a given last_end: the final last_end and the result (0 for none).
  function Sweep(vs: seq<Vma>, lastEnd: nat, length: nat): (nat, nat)
    decreases |vs|
  {
    if vs == [] then (lastEnd, 0)
    else if Wrap(vs[0].start - lastEnd) >= length then (lastEnd, lastEnd)
    else Sweep(vs[1..], vs[0].end, length)
  }

  ghost predicate After(vs: seq<Vma>, lastEnd: nat) {
    0 < lastEnd && forall i :: 0 <= i < |vs| ==> lastEnd <= vs[i].start
  }

  lemma {:induction false} SweepConcat(a: seq<Vma>, b: seq<Vma>, lastEnd: nat, length: nat)
    requires Good(a) && After(a, lastEnd)
    ensures var (e, r) := Sweep(a, lastEnd, length);
      Sweep(a + b, lastEnd, length) == (if r != 0 then (e, r) else Sweep(b, e, length))
    decreases |a|
  {
    if a == [] {
      assert a + b == b;
    } else {
      assert (a + b)[1..] == a[1..] + b;
      if Wrap(a[0].start - lastEnd) < length {
        GoodPart(a, 1, |a|);
        SweepConcat(a[1..], b, a[0].end, length);
      }
    }
  }

  // A hit in the areas before v is a hit at v as well: v starts no earlier than the gap's end.
  lemma {:induction false} RetestHits(a: seq<Vma>, v: Vma, lastEnd: nat, length: nat)
    requires Good(a + [v]) && After(a + [v], lastEnd)
    ensures lastEnd <= Sweep(a, lastEnd, length).0 <= v.start
    ensures var (e, r) := Sweep(a, lastEnd, length);
      r != 0 ==> r == e && Wrap(v.start - e) >= length
    decreases |a|
  {
    if a != [] {
      var av := a + [v];
      assert av[0] == a[0] && av[|a|] == v;
      if Wrap(a[0].start - lastEnd) < length {
        GoodPart(av, 1, |av|);
        assert av[1..] == a[1..] + [v];
        assert After(av[1..], a[0].end) by {
          forall i | 0 <= i < |av[1..]| ensures a[0].end <= av[1..][i].start { assert av[1..][i] == av[i + 1]; }
        }
        RetestHits(a[1..], v, a[0].end, length);
      }
    }
  }

  function FirstFit(vs: seq<Vma>, length: nat): nat {
    var (e, r) := Sweep(vs, 0x1000_0000, length);
    if r != 0 then r else e
  }

  // Where the sweep stops: everything before position k ends at or before the answer, and the rest
  // leaves the gap free.
  lemma {:induction false} SweepStops(vs: seq<Vma>, lastEnd: nat, length: nat) returns (k: nat)
    requires Good(vs) && After(vs, lastEnd) && length > 0
    ensures var (e, r) := Sweep(vs, lastEnd, length);
      lastEnd <= e && k <= |vs| && (r == 0 <==> k == |vs|) && (r != 0 ==> r == e) &&
      (if k == 0 then e == lastEnd else e == vs[k - 1].end) && (k < |vs| ==> e + length <= vs[k].start)
    decreases |vs|
  {
    if vs == [] || Wrap(vs[0].start - lastEnd) >= length {
      k := 0;
    } else {
      GoodPart(vs, 1, |vs|);
      k := SweepStops(vs[1..], vs[0].end, length);
      k := k + 1;
    }
  }

  lemma {:induction false} SweepLowest(vs: seq<Vma>, lastEnd: nat, length: nat, a: nat)
    requires Good(vs) && After(vs, lastEnd) && length > 0 && lastEnd <= a < Sweep(vs, lastEnd, length).0
    ensures !Room(vs, a, length)
    decreases |vs|
  {
    if a < vs[0].end {
      assert Overlap(vs[0], a, a + length);
    } else {
      GoodPart(vs, 1, |vs|);
      SweepLowest(vs[1..], vs[0].end, length, a);
      var i :| 0 <= i < |vs[1..]| && Overlap(vs[1..][i], a, a + length);
      assert Overlap(vs[i + 1], a, a + length);
    }
  }

  // The answer is the lowest address from VMA_BASE on with `length` free bytes.
  lemma FirstFitIsLowest(vs: seq<Vma>, length: nat)
    requires Good(vs) && length > 0
    ensures var r := FirstFit(vs, length);
      r >= 0x1000_0000 && r % 4096 == 0 && Room(vs, r, length) &&
      forall a :: 0x1000_0000 <= a < r ==> !Room(vs, a, length)
  {
    var k := SweepStops(vs, 0x1000_0000, length);
    forall a: nat | 0x1000_0000 <= a < FirstFit(vs, length) ensures !Room(vs, a, length) {
      SweepLowest(vs, 0x1000_0000, length, a);
    }
  }

  // Nothing further up than VMA_BASE and the ends of the areas is ever chosen.
  lemma FirstFitBelow(vs: seq<Vma>, length: nat, limit: nat)
    requires Good(vs) && length > 0 && 0x1000_0000 <= limit && forall i :: 0 <= i < |vs| ==> vs[i].end <= limit
    ensures 0x1000_0000 <= FirstFit(vs, length) <= limit
  {
    var k := SweepStops(vs, 0x1000_0000, length);
  }

  // No area begins or lies among the errors, and first fit never answers one.
  lemma ErrorsAreNoAreas(vs: seq<Vma>, length: nat, r: nat)
    requires Good(vs) && length > 0 && 0xFFFF_FFFF_FFFF_F001 <= r < 0x1_0000_0000_0000_0000
    ensures !Covers(vs, r) && FirstFit(vs, length) != r && IsError(r)
    ensures IsError(EINVAL()) && IsError(ENODEV()) && IsError(ENOMEM())
  {
    forall i | 0 <= i < |vs| ensures vs[i].end <= 0xFFFF_FFFF_FFFF_F000 { assert AreaOk(vs[i]); }
    FirstFitBelow(vs, length, 0xFFFF_FFFF_FFFF_F000);
  }

  // ---- Mapping ----

  // The areas after bstree_insert of a new one.
  function Insert(vs: seq<Vma>, v: Vma): seq<Vma>
    decreases |vs|
  {
    if vs == [] || v.start < vs[0].start then [v] + vs else [vs[0]] + Insert(vs[1..], v)
  }

  lemma {:induction false} InsertAt(vs: seq<Vma>, v: Vma, k: nat)
    requires k <= |vs|
    requires forall i :: 0 <= i < k ==> vs[i].start <= v.start
    requires forall i :: k <= i < |vs| ==> v.start < vs[i].start
    ensures Insert(vs, v) == vs[..k] + [v] + vs[k..]
    decreases |vs|
  {
    if k > 0 {
      InsertAt(vs[1..], v, k - 1);
      assert vs[..k] == [vs[0]] + vs[1..][..k - 1] && vs[1..][k - 1..] == vs[k..];
    } else {
      assert vs[..0] + [v] + vs[0..] == [v] + vs;
    }
  }

  // The area do_sys_mmap adds.
  function NewArea(vs: seq<Vma>, length: nat, file: Option<File>, pgoff: nat): Vma {
    var r := FirstFit(vs, length);
    Vma(r, Wrap(r + AlignUp64(length)), file, if file == None then 0 else pgoff, [])
  }

  // Searching with the length as asked and mapping it rounded up to whole pages keeps every
  // promise about the areas exactly when the new one does not run past the 64-bit address range.
  lemma MapKeepsGood(vs: seq<Vma>, length: nat, file: Option<File>, pgoff: nat)
    requires Good(vs) && 0 < length < 0x1_0000_0000_0000_0000 && AlignUp64(length) != 0
    ensures Good(Insert(vs, NewArea(vs, length, file, pgoff)))
      <==> FirstFit(vs, length) + AlignUp64(length) < 0x1_0000_0000_0000_0000
  {
    hide AlignUp64, Wrap, FirstFit, AreaOk;
    var v := NewArea(vs, length, file, pgoff);
    var k := NewAreaPlace(vs, length, file, pgoff);
    assert (vs[..k] + [v] + vs[k..])[k] == v;
    if FirstFit(vs, length) + AlignUp64(length) < 0x1_0000_0000_0000_0000 {
      SplicedGood(vs, v, k);
    }
  }

  // Where the new area goes. A gap between page-aligned areas that holds `length` bytes holds them
  // rounded up to whole pages.
  lemma NewAreaPlace(vs: seq<Vma>, length: nat, file: Option<File>, pgoff: nat) returns (k: nat)
    requires Good(vs) && 0 < length < 0x1_0000_0000_0000_0000 && AlignUp64(length) != 0
    ensures var v := NewArea(vs, length, file, pgoff);
      var fits := FirstFit(vs, length) + AlignUp64(length) < 0x1_0000_0000_0000_0000;
      k <= |vs| && Insert(vs, v) == vs[..k] + [v] + vs[k..] && (AreaOk(v) <==> fits) &&
      (k > 0 ==> vs[k - 1].end <= v.start) && (k < |vs| && fits ==> v.end <= vs[k].start)
  {
    hide AlignUp64, Wrap, Insert, Room;
    k := SweepStops(vs, 0x1000_0000, length);
    var v := NewArea(vs, length, file, pgoff);
    FirstFitIsLowest(vs, length);
    hide FirstFit, Sweep;
    forall i | 0 <= i < k ensures vs[i].start <= v.start {
      assert vs[i].end <= vs[k - 1].end;
    }
    forall i | k <= i < |vs| ensures v.start < vs[i].start {
      assert vs[k].start <= vs[i].start;
    }
    InsertAt(vs, v, k);
    NewAreaEnd(v.start, length, if k < |vs| then vs[k].start else 0);
  }

  lemma NewAreaEnd(start: nat, length: nat, next: nat)
    requires start % 4096 == 0 && 0 < length < 0x1_0000_0000_0000_0000 && AlignUp64(length) != 0
    requires start >= 0x1000_0000 && next % 4096 == 0 && next < 0x1_0000_0000_0000_0000
    ensures var end := Wrap(start + AlignUp64(length));
      (start + AlignUp64(length) < 0x1_0000_0000_0000_0000 <==> start < end && end % 4096 == 0) &&
      (start + length <= next ==> start + AlignUp64(length) <= next) &&
      (start + AlignUp64(length) < 0x1_0000_0000_0000_0000 ==> end == start + AlignUp64(length)) &&
      AlignUp64(length) % 4096 == 0 && length <= AlignUp64(length)
  {
    assert AlignUp64(length) == (length + 4095) / 4096 * 4096;
  }

  lemma SplicedGood(vs: seq<Vma>, v: Vma, k: nat)
    requires Good(vs) && AreaOk(v) && k <= |vs|
    requires (k > 0 ==> vs[k - 1].end <= v.start) && (k < |vs| ==> v.end <= vs[k].start)
    ensures Good(vs[..k] + [v] + vs[k..])
  {
    var vs' := vs[..k] + [v] + vs[k..];
    hide AreaOk;
    forall i, j | 0 <= i < j < |vs'| ensures vs'[i].end <= vs'[j].start { SplicedOrder(vs, v, k, i, j); }
    forall i | 0 <= i < |vs'| ensures AreaOk(vs'[i]) {
      assert vs'[i] == if i < k then vs[i] else if i == k then v else vs[i - 1];
    }
  }

  lemma SplicedOrder(vs: seq<Vma>, v: Vma, k: nat, i: nat, j: nat)
    requires Good(vs) && k <= |vs| && i < j <= |vs| && v.start < v.end
    requires (k > 0 ==> vs[k - 1].end <= v.start) && (k < |vs| ==> v.end <= vs[k].start)
    ensures var vs' := vs[..k] + [v] + vs[k..]; vs'[i].end <= vs'[j].start
  {
    hide AreaOk;
    var vs' := vs[..k] + [v] + vs[k..];
    assert vs'[i] == if i < k then vs[i] else if i == k then v else vs[i - 1];
    assert vs'[j] == if j < k then vs[j] else if j == k then v else vs[j - 1];
    if i < k { EndsBefore(vs, i, k - 1); }
    if j > k { EndsBefore(vs, k, j - 1); }
  }

  lemma EndsBefore(vs: seq<Vma>, i: nat, j: nat)
    requires Good(vs) && i <= j < |vs|
    ensures vs[i].end <= vs[j].end && vs[i].start <= vs[j].start
  {
  }

  // ---- Unmapping ----

  // What munmap_region leaves of an area when [addr, addr + len) lies inside it.
  function Pieces(v: Vma, addr: nat, len: nat): seq<Vma> {
    if addr == v.start then
      if v.start + len < v.end
      then [v.(start := v.start + len, pgoff := if v.file == None then v.pgoff else Wrap(v.pgoff + len))]
      else []
    else if addr + len < v.end then [v.(end := addr), UpperPiece(v, addr, len)]
    else [v.(end := addr)]
  }

  // The area munmap_region inserts when it splits one.
  function UpperPiece(v: Vma, addr: nat, len: nat): Vma {
    var start := Wrap(addr + len);
    Vma(start, v.end, v.file, if v.file == None then 0 else Wrap(v.pgoff + (start - v.start)), [])
  }

  function Unmapped(vs: seq<Vma>, k: nat, addr: nat, len: nat): seq<Vma>
    requires k < |vs|
  {
    vs[..k] + Pieces(vs[k], addr, len) + vs[k + 1..]
  }

  ghost predicate CanUnmap(vs: seq<Vma>, k: nat, addr: nat, len: nat) {
    Good(vs) && k < |vs| && vs[k].start <= addr < vs[k].end && 0 < len && addr + len <= vs[k].end
  }

  lemma UnmappedAt(vs: seq<Vma>, k: nat, addr: nat, len: nat, i: nat)
    requires CanUnmap(vs, k, addr, len)
    ensures var p, vs' := Pieces(vs[k], addr, len), Unmapped(vs, k, addr, len);
      |vs'| == |vs| + |p| - 1 && |p| <= 2 &&
      (i < k ==> vs'[i] == vs[i]) && (k <= i < k + |p| ==> vs'[i] == p[i - k]) &&
      (k + |p| <= i < |vs'| ==> vs'[i] == vs[i - |p| + 1])
  {
  }

  // The areas stay good exactly when the caller's address is page aligned; the length already is.
  lemma UnmapKeepsGood(vs: seq<Vma>, k: nat, addr: nat, len: nat)
    requires CanUnmap(vs, k, addr, len) && len % 4096 == 0
    ensures Good(Unmapped(vs, k, addr, len)) <==> addr % 4096 == 0
  {
    var v, p, vs' := vs[k], Pieces(vs[k], addr, len), Unmapped(vs, k, addr, len);
    if addr % 4096 == 0 {
      forall i | 0 <= i < |vs'| ensures AreaOk(vs'[i]) {
        UnmappedAt(vs, k, addr, len, i);
        PiecesOk(v, addr, len);
      }
      forall i, j | 0 <= i < j < |vs'| ensures vs'[i].end <= vs'[j].start {
        UnmappedAt(vs, k, addr, len, i);
        UnmappedAt(vs, k, addr, len, j);
        PiecesOk(v, addr, len);
      }
    } else {
      UnmappedAt(vs, k, addr, len, k);
      assert vs'[k].end == addr;
    }
  }

  lemma PiecesOk(v: Vma, addr: nat, len: nat)
    requires AreaOk(v) && v.start <= addr < v.end && 0 < len && addr + len <= v.end && len % 4096 == 0
    requires addr % 4096 == 0
    ensures var p := Pieces(v, addr, len);
      (forall i :: 0 <= i < |p| ==> AreaOk(p[i]) && v.start <= p[i].start && p[i].end <= v.end) &&
      (|p| == 2 ==> p[0].end <= p[1].start)
  {
  }

  lemma PiecesBacking(v: Vma, addr: nat, len: nat, a: nat)
    requires AreaOk(v) && v.start <= addr < v.end && 0 < len && addr + len <= v.end
    ensures BackingOf(Pieces(v, addr, len), a) == if addr <= a < addr + len then Nothing else BackingOf([v], a)
  {
    var p := Pieces(v, addr, len);
    assert BackingOf([v], a) == if v.start <= a < v.end then BackingIn(v, a) else Nothing by { assert [v][1..] == []; }
    if |p| == 2 {
      assert Wrap(addr + len) == addr + len;
      WrapInner(v.pgoff + (addr + len - v.start), a - (addr + len));
      TwoBacking(p[0], p[1], a);
    } else if |p| == 1 {
      assert p[1..] == [];
      WrapInner(v.pgoff + len, a - (v.start + len));
    }
  }

  lemma TwoBacking(v: Vma, w: Vma, a: nat)
    ensures BackingOf([v, w], a) ==
      if v.start <= a < v.end then BackingIn(v, a) else if w.start <= a < w.end then BackingIn(w, a) else Nothing
  {
    assert [v, w][1..] == [w];
    assert [w][1..] == [];
    assert BackingOf([w], a) == if w.start <= a < w.end then BackingIn(w, a) else Nothing;
  }

  lemma WrapInner(x: int, y: int)
    ensures Wrap(y + Wrap(x)) == Wrap(y + x)
  {
  }

  lemma NothingOutside(vs: seq<Vma>, lo: nat, hi: nat, v: Vma, a: nat)
    requires lo <= hi <= |vs| && v.start <= a < v.end
    requires forall i :: lo <= i < hi ==> vs[i].end <= v.start || v.end <= vs[i].start
    ensures BackingOf(vs[lo..hi], a) == Nothing
  {
    CoversIsBacked(vs[lo..hi], a);
  }

  // Exactly [addr, addr + len) is gone, and every other address keeps what stood behind it: a file's
  // bytes stay at their offsets.
  lemma UnmapBacking(vs: seq<Vma>, k: nat, addr: nat, len: nat, a: nat)
    requires CanUnmap(vs, k, addr, len)
    ensures BackingOf(Unmapped(vs, k, addr, len), a) == if addr <= a < addr + len then Nothing else BackingOf(vs, a)
  {
    var before, v, p, rest := vs[..k], vs[k], Pieces(vs[k], addr, len), vs[k + 1..];
    assert vs == before + [v] + rest;
    PiecesBacking(v, addr, len, a);
    if addr <= a < addr + len {
      NothingOutside(vs, 0, k, v, a);
      NothingOutside(vs, k + 1, |vs|, v, a);
      assert vs[0..k] == before && vs[k + 1..|vs|] == rest;
    }
    hide Pieces, BackingOf;
    BackingConcat(before + p, rest, a);
    BackingConcat(before, p, a);
    BackingConcat(before + [v], rest, a);
    BackingConcat(before, [v], a);
  }

  // What munmap_region does to the fields of the area itself.
  function Trimmed(v: Vma, addr: nat, len: nat): Vma {
    if addr == v.start
    then v.(start := Wrap(v.start + len), pgoff := if v.file == None then v.pgoff else Wrap(v.pgoff + len))
    else v.(end := addr)
  }

  // Whether the hole lies inside the area, with something left on both sides.
  predicate Splits(v: Vma, addr: nat, len: nat) { addr > v.start && Wrap(addr + len) < v.end }

  // The areas after the split: the part above the hole is one of its own, the area still covers it.
  function SplitAt(vs: seq<Vma>, k: nat, addr: nat, len: nat, at: nat): seq<Vma>
    requires k < |vs| && at <= |vs|
  {
    if Splits(vs[k], addr, len) then vs[..at] + [UpperPiece(vs[k], addr, len)] + vs[at..] else vs
  }

  function IndexAfter(vs: seq<Vma>, k: nat, addr: nat, len: nat, at: nat): nat
    requires k < |vs|
  {
    if Splits(vs[k], addr, len) && at <= k then k + 1 else k
  }

  // The areas after the trim, which drops an emptied one.
  function TrimAt(vs: seq<Vma>, j: nat, addr: nat, len: nat): seq<Vma>
    requires j < |vs|
  {
    var w := Trimmed(vs[j], addr, len);
    if w.start >= w.end then vs[..j] + vs[j + 1..] else vs[j := w]
  }

  lemma AreaStays(vs: seq<Vma>, k: nat, addr: nat, len: nat, at: nat)
    requires k < |vs| && at <= |vs|
    ensures var vs1, j := SplitAt(vs, k, addr, len, at), IndexAfter(vs, k, addr, len, at); j < |vs1| && vs1[j] == vs[k]
  {
    hide Splits, UpperPiece;
  }

  // Split first, trim afterwards: what is left is what Unmapped says. When addr + len wraps around,
  // the address to be unmapped stays covered instead.
  lemma UnmapIsTrim(vs: seq<Vma>, k: nat, addr: nat, len: nat, at: nat)
    requires Good(vs) && k < |vs| && vs[k].start <= addr < vs[k].end && at <= |vs|
    requires 0 < len < 0x1_0000_0000_0000_0000 && Wrap(addr + len) <= vs[k].end
    requires Splits(vs[k], addr, len) && addr + len < 0x1_0000_0000_0000_0000 ==> at == k + 1
    ensures var w, vs1, j := Trimmed(vs[k], addr, len), SplitAt(vs, k, addr, len, at), IndexAfter(vs, k, addr, len, at);
      j < |vs1| && vs1[j] == vs[k] &&
      (addr + len < 0x1_0000_0000_0000_0000 ==>
        (w.start >= w.end <==> Pieces(vs[k], addr, len) == []) &&
        Unmapped(vs, k, addr, len) == TrimAt(vs1, j, addr, len)) &&
      (addr + len >= 0x1_0000_0000_0000_0000 ==> w.start < w.end && Covers(TrimAt(vs1, j, addr, len), addr))
  {
    hide Wrap, Splits, SplitAt, TrimAt, Trimmed, Pieces, Unmapped, UpperPiece, IndexAfter, Covers;
    AreaStays(vs, k, addr, len, at);
    if addr + len < 0x1_0000_0000_0000_0000 {
      NoWrap(addr + len);
      UnmapTrims(vs, k, addr, len, at);
    } else {
      WrapCovers(vs, k, addr, len, at);
    }
  }

  lemma NoWrap(x: nat)
    requires x < 0x1_0000_0000_0000_0000
    ensures Wrap(x) == x
  {
  }

  lemma UnmapTrims(vs: seq<Vma>, k: nat, addr: nat, len: nat, at: nat)
    requires CanUnmap(vs, k, addr, len) && at <= |vs| && (Splits(vs[k], addr, len) ==> at == k + 1)
    ensures var w, vs1, j := Trimmed(vs[k], addr, len), SplitAt(vs, k, addr, len, at), IndexAfter(vs, k, addr, len, at);
      j < |vs1| && (w.start >= w.end <==> Pieces(vs[k], addr, len) == []) &&
      Unmapped(vs, k, addr, len) == TrimAt(vs1, j, addr, len)
  {
    hide AreaOk, Wrap, Pieces, Unmapped, Trimmed, UpperPiece;
    UnmapRange(vs, k, addr, len);
    NoWrap(addr + len);
    AreaStays(vs, k, addr, len, at);
    UnmapPieces(vs, k, addr, len);
    hide Good;
  }

  lemma UnmapRange(vs: seq<Vma>, k: nat, addr: nat, len: nat)
    requires CanUnmap(vs, k, addr, len)
    ensures k < |vs| && addr + len < 0x1_0000_0000_0000_0000
  {
  }

  lemma WrapCovers(vs: seq<Vma>, k: nat, addr: nat, len: nat, at: nat)
    requires k < |vs| && vs[k].start <= addr < vs[k].end && addr < 0x1_0000_0000_0000_0000 && at <= |vs|
    requires len < 0x1_0000_0000_0000_0000 <= addr + len && Wrap(addr + len) <= vs[k].end
    ensures var w, vs1, j := Trimmed(vs[k], addr, len), SplitAt(vs, k, addr, len, at), IndexAfter(vs, k, addr, len, at);
      j < |vs1| && w.start < w.end && Covers(TrimAt(vs1, j, addr, len), addr)
  {
    var v, w := vs[k], Trimmed(vs[k], addr, len);
    var vs1, j := SplitAt(vs, k, addr, len, at), IndexAfter(vs, k, addr, len, at);
    AreaStays(vs, k, addr, len, at);
    WrappedSum(addr, len);
    hide Wrap;
    if Splits(v, addr, len) {
      assert vs1[j := w][at] == UpperPiece(v, addr, len);
    } else {
      assert vs1[j := w][j] == w;
    }
  }

  // munmap of an area's start and nearly 2^64 bytes passes the test, and the area moves below VMA_BASE:
  lemma WrappingMunmapMoves()
    ensures var v, len := Vma(0x1000_0000, 0x1000_1000, None, 0, []), 0xFFFF_FFFF_FFFF_F000;
      Good([v]) && Wrap(v.start + len) <= v.end && Trimmed(v, v.start, len).start == 0x0FFF_F000 &&
        !Good([Trimmed(v, v.start, len)])
  {
    var v, len := Vma(0x1000_0000, 0x1000_1000, None, 0, []), 0xFFFF_FFFF_FFFF_F000;
    assert [Trimmed(v, v.start, len)][0].start == 0x0FFF_F000;
  }

  lemma WrappedSum(addr: nat, len: nat)
    requires addr < 0x1_0000_0000_0000_0000 && len < 0x1_0000_0000_0000_0000 && addr + len >= 0x1_0000_0000_0000_0000
    ensures Wrap(addr + len) < addr
  {
  }

  lemma UnmapPieces(vs: seq<Vma>, k: nat, addr: nat, len: nat)
    requires CanUnmap(vs, k, addr, len)
    ensures var v, w := vs[k], Trimmed(vs[k], addr, len);
      var split := addr > v.start && addr + len < v.end;
      var vs1 := if split then vs[..k + 1] + [UpperPiece(v, addr, len)] + vs[k + 1..] else vs;
      (w.start >= w.end <==> Pieces(v, addr, len) == []) &&
      Unmapped(vs, k, addr, len) == (if w.start >= w.end then vs1[..k] + vs1[k + 1..] else vs1[k := w])
  {
    assert Wrap(addr + len) == addr + len;
    hide Good, Wrap;
  }

  // The upper piece belongs right behind the area it is cut from.
  lemma UpperPlace(vs: seq<Vma>, k: nat, addr: nat, len: nat, at: nat)
    requires Good(vs) && k < |vs| && vs[k].start < addr && 0 < len && at <= |vs|
    requires addr + len < 0x1_0000_0000_0000_0000 && Wrap(addr + len) < vs[k].end
    requires forall i :: 0 <= i < |vs| ==> (i < at <==> vs[i].start <= Wrap(addr + len))
    ensures at == k + 1
  {
    assert Wrap(addr + len) == addr + len;
    if k + 1 < |vs| { assert vs[k].end <= vs[k + 1].start; }
  }
}
