// The boot loader's memory map and the page frames the allocator may take from it.

module MemoryMap {
  import opened PageFormat
  import opened Sequences


  // An entry of the memory map. Physical addresses have 52 bits.
  datatype RawRegion = Region(base: nat, length: nat, usable: bool)
  type Region = r: RawRegion | r.base + r.length <= 0x10_0000_0000_0000 witness Region(0, 0, false)

  function AlignUp(x: nat): nat { (x + (4096 - 1)) / 4096 * 4096 }

  function AlignDown(x: nat): nat { x / 4096 * 4096 }

  // aligned_start and aligned_end of pmm_fill, as byte addresses.
  function AlignedStart(r: Region): nat {
    if AlignUp(r.base) < 0x10_0000 then 0x10_0000 else AlignUp(r.base)
  }

  function AlignedEnd(r: Region): nat { AlignDown(r.base + r.length) }

  // The frames lo, lo + 1, .., hi - 1.
  function Range(lo: nat, hi: nat): seq<Frame>
    requires hi <= 0x100_0000_0000
    decreases hi - lo
  {
    if lo < hi then [lo as Frame] + Range(lo + 1, hi) else []
  }

  lemma {:induction false} RangeExact(lo: nat, hi: nat, f: Frame)
    requires hi <= 0x100_0000_0000
    ensures f in Range(lo, hi) <==> lo <= f as nat < hi
    ensures NoDup(Range(lo, hi))
    decreases hi - lo
  {
    if lo < hi {
      RangeExact(lo + 1, hi, f);
      RangeExact(lo + 1, hi, lo as Frame);
      NoDupConcat([lo as Frame], Range(lo + 1, hi));
    }
  }

  // The same bounds as frame numbers.
  function FirstFrame(r: Region): nat {
    var up := (r.base + (4096 - 1)) / 4096;
    if up < 256 then 256 else up
  }

  function EndFrame(r: Region): nat { (r.base + r.length) / 4096 }

  lemma AlignedBounds(r: Region)
    ensures AlignedStart(r) == FirstFrame(r) * 4096 && AlignedEnd(r) == EndFrame(r) * 4096
    ensures r.base <= AlignedStart(r)
  {
  }

  function RegionFrames(r: Region): seq<Frame> {
    if r.usable then Range(FirstFrame(r), EndFrame(r)) else []
  }

  // The frames of entries k, k + 1, .. in the order a one-shot enumeration meets them.
  function FramesFrom(map_: seq<Region>, k: nat): seq<Frame>
    decreases |map_| - k
  {
    if k >= |map_| then [] else RegionFrames(map_[k]) + FramesFrom(map_, k + 1)
  }

  // The frame the cursor points at.
  function Position(r: Region, offset: nat): nat { (r.base + offset) / 4096 }

  // What pmm_fill still has to add when its cursor stands at (entry, offset).
  function Remaining(map_: seq<Region>, entry: nat, offset: nat): seq<Frame> {
    if entry >= |map_| then []
    else if offset == 0 then FramesFrom(map_, entry)
    else Range(Position(map_[entry], offset), EndFrame(map_[entry])) + FramesFrom(map_, entry + 1)
  }

  // The offset leads to the start of a frame of the entry, or to the entry's aligned end.
  ghost predicate AtFrame(r: Region, offset: nat) {
    r.base + offset == Position(r, offset) * 4096 && FirstFrame(r) <= Position(r, offset) <= EndFrame(r)
  }

  ghost predicate CursorOk(map_: seq<Region>, entry: nat, offset: nat) {
    entry <= |map_| &&
    (offset != 0 ==>
      entry < |map_| && map_[entry].usable && AtFrame(map_[entry], offset))
  }

  // The cursor stands at a byte inside the usable part of an entry that is not empty.
  ghost predicate InEntry(map_: seq<Region>, entry: nat, offset: nat) {
    entry < |map_| && map_[entry].usable &&
    (offset == 0 ==> map_[entry].base == FirstFrame(map_[entry]) * 4096) && AtFrame(map_[entry], offset)
  }

  lemma PositionStep(r: Region, offset: nat)
    requires AtFrame(r, offset) && r.base + offset + 4096 <= AlignedEnd(r)
    ensures Position(r, offset) < EndFrame(r) <= 0x100_0000_0000
    ensures Position(r, offset + 4096) == Position(r, offset) + 1
    ensures AtFrame(r, offset + 4096)
  {
    AlignedBounds(r);
  }

  // Taking one page moves the cursor behind exactly that page.
  lemma RemainingStep(map_: seq<Region>, entry: nat, offset: nat)
    requires InEntry(map_, entry, offset) && map_[entry].base + offset + 4096 <= AlignedEnd(map_[entry])
    ensures Position(map_[entry], offset) < EndFrame(map_[entry])
    ensures Remaining(map_, entry, offset) != []
    ensures Remaining(map_, entry, offset)[0] as nat == Position(map_[entry], offset)
    ensures Remaining(map_, entry, offset + 4096) == Remaining(map_, entry, offset)[1..]
    ensures InEntry(map_, entry, offset + 4096) && CursorOk(map_, entry, offset + 4096)
  {
    hide AlignedEnd, FirstFrame, EndFrame, Position, FramesFrom;
    PositionStep(map_[entry], offset);
    RemainingInEntry(map_, entry, offset);
    RemainingInEntry(map_, entry, offset + 4096);
    RangeStep(Position(map_[entry], offset), EndFrame(map_[entry]), FramesFrom(map_, entry + 1));
  }

  lemma RangeStep(lo: nat, hi: nat, rest: seq<Frame>)
    requires lo < hi <= 0x100_0000_0000
    ensures Range(lo, hi) + rest == [lo as Frame] + (Range(lo + 1, hi) + rest)
  {
  }

  lemma RemainingInEntry(map_: seq<Region>, entry: nat, offset: nat)
    requires InEntry(map_, entry, offset)
    ensures Remaining(map_, entry, offset)
         == Range(Position(map_[entry], offset), EndFrame(map_[entry])) + FramesFrom(map_, entry + 1)
  {
  }

  // Entering an entry, or coming back to it, loses no frame.
  lemma EnterEntry(map_: seq<Region>, entry: nat, offset: nat, offset': nat)
    requires CursorOk(map_, entry, offset) && entry < |map_| && map_[entry].usable
    requires AlignedStart(map_[entry]) < AlignedEnd(map_[entry])
    requires offset' == if offset == 0 then AlignedStart(map_[entry]) - map_[entry].base else offset
    ensures InEntry(map_, entry, offset') && Remaining(map_, entry, offset') == Remaining(map_, entry, offset)
  {
    AlignedBounds(map_[entry]);
    if offset == 0 {
      RemainingInEntry(map_, entry, offset');
    }
  }

  lemma InEntryCursorOk(map_: seq<Region>, entry: nat, offset: nat)
    requires InEntry(map_, entry, offset)
    ensures CursorOk(map_, entry, offset)
  {
  }

  // With no whole page left the cursor may move to the next entry.
  lemma RemainingNext(map_: seq<Region>, entry: nat, offset: nat)
    requires InEntry(map_, entry, offset) && map_[entry].base + offset + 4096 > AlignedEnd(map_[entry])
    ensures Remaining(map_, entry, offset) == Remaining(map_, entry + 1, 0) && CursorOk(map_, entry + 1, 0)
  {
    hide AlignedStart, AlignedEnd, FirstFrame, EndFrame;
    AlignedBounds(map_[entry]);
    RemainingInEntry(map_, entry, offset);
    assert Position(map_[entry], offset) == EndFrame(map_[entry]);
    assert [] + FramesFrom(map_, entry + 1) == FramesFrom(map_, entry + 1);
  }

  lemma RemainingEnd(map_: seq<Region>, entry: nat, offset: nat)
    ensures entry >= |map_| ==> Remaining(map_, entry, offset) == []
  {
  }

  // An entry that is not usable, or holds no whole page, contributes nothing.
  lemma RemainingSkip(map_: seq<Region>, entry: nat, offset: nat)
    requires CursorOk(map_, entry, offset) && entry < |map_|
    requires !map_[entry].usable || AlignedEnd(map_[entry]) <= AlignedStart(map_[entry])
    ensures Remaining(map_, entry, offset) == Remaining(map_, entry + 1, 0) && CursorOk(map_, entry + 1, 0)
  {
    hide AlignedStart, AlignedEnd, FirstFrame, EndFrame, Position;
    AlignedBounds(map_[entry]);
    if offset == 0 {
      assert RegionFrames(map_[entry]) == [];
    }
    assert Remaining(map_, entry, offset) == [] + FramesFrom(map_, entry + 1);
  }

  // A frame lies wholly inside a usable entry and not below 1 MiB.
  predicate Inside(r: Region, f: Frame) {
    r.usable && 0x10_0000 <= f as nat * 4096 && r.base <= f as nat * 4096 && (f as nat + 1) * 4096 <= r.base + r.length
  }

  ghost predicate UsableFrame(map_: seq<Region>, f: Frame) {
    exists k :: 0 <= k < |map_| && Inside(map_[k], f)
  }

  // Usable entries do not overlap (the boot protocol promises this).
  ghost predicate NonOverlapping(map_: seq<Region>) {
    forall j, k :: 0 <= j < k < |map_| && map_[j].usable && map_[k].usable ==>
      map_[j].base + map_[j].length <= map_[k].base || map_[k].base + map_[k].length <= map_[j].base
  }

  lemma RegionFramesExact(r: Region, f: Frame)
    ensures f in RegionFrames(r) <==> Inside(r, f)
  {
    RangeExact(FirstFrame(r), EndFrame(r), f);
  }

  // The enumeration finds every usable frame and nothing else.
  lemma {:induction false} FramesFromExact(map_: seq<Region>, k: nat, f: Frame)
    ensures f in FramesFrom(map_, k) <==> exists j :: k <= j < |map_| && Inside(map_[j], f)
    decreases |map_| - k
  {
    if k < |map_| {
      RegionFramesExact(map_[k], f);
      FramesFromExact(map_, k + 1, f);
    }
  }

  // It finds each of them once.
  lemma {:induction false} FramesFromNoDup(map_: seq<Region>, k: nat)
    requires NonOverlapping(map_)
    ensures NoDup(FramesFrom(map_, k))
    decreases |map_| - k
  {
    if k < |map_| {
      FramesFromNoDup(map_, k + 1);
      forall f | f in RegionFrames(map_[k]) ensures f !in FramesFrom(map_, k + 1) {
        RegionFramesExact(map_[k], f);
        FramesFromExact(map_, k + 1, f);
      }
      RangeExact(FirstFrame(map_[k]), EndFrame(map_[k]), 0);
      NoDupConcat(RegionFrames(map_[k]), FramesFrom(map_, k + 1));
    }
  }

  lemma UsableFramesExact(map_: seq<Region>, f: Frame)
    ensures f in FramesFrom(map_, 0) <==> UsableFrame(map_, f)
  {
    FramesFromExact(map_, 0, f);
  }
}
