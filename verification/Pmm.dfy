// The physical frame allocator: an intrusive free list threaded through word 0 of the free
// frames, refilled from the memory map by a cursor that stops and resumes.

module PhysicalMemory {
  import opened PageFormat
  import opened Sequences
  import opened MemoryMap

  // The list that starts at the pointer `head` and goes on through word 0 of each free frame.
  ghost predicate Chain(m: Memory, hhdm: DirectMap, head: Word, free: seq<Frame>)
    decreases free
  {
    if free == [] then head == ZERO
    else
      free[0] as nat < |m| && free[0] as nat + hhdm.frame < 0x100_0000_0000 &&
      head == Link(hhdm, free[0]) && Chain(m, hhdm, m[free[0]][0], free[1..])
  }

  // The list depends on the free frames only.
  lemma {:induction false} ChainFrame(m: Memory, m': Memory, hhdm: DirectMap, head: Word, free: seq<Frame>)
    requires Chain(m, hhdm, head, free) && |m'| == |m|
    requires forall f :: f in free && f as nat < |m| ==> m'[f] == m[f]
    ensures Chain(m', hhdm, head, free)
    decreases free
  {
    if free != [] {
      ChainFrame(m, m', hhdm, m[free[0]][0], free[1..]);
    }
  }

  // The allocator's state: the free list is chained through memory, and the listed frames and
  // those still to be listed are distinct usable frames.
  ghost predicate ListOk(m: Memory, hhdm: DirectMap, head: Word, free: seq<Frame>, todo: seq<Frame>,
                         usable: seq<Frame>) {
    |m| + hhdm.frame <= 0x100_0000_0000 &&
    (forall f :: f in usable ==> 0 < f as nat < |m|) &&
    Chain(m, hhdm, head, free) && NoDup(free + todo) &&
    (forall f :: f in free + todo ==> f in usable)
  }

  // node->next = head; head = node: one more frame on the list, one word changed.
  lemma ChainPush(m: Memory, hhdm: DirectMap, head: Word, free: seq<Frame>, f: Frame)
    requires Chain(m, hhdm, head, free) && f as nat < |m| && f !in free && f as nat + hhdm.frame < 0x100_0000_0000
    ensures Chain(m[f := m[f][0 := head]], hhdm, Link(hhdm, f), [f] + free)
  {
    ChainFrame(m, m[f := m[f][0 := head]], hhdm, head, free);
    assert ([f] + free)[1..] == free;
  }

  lemma MoveFront(s: seq<Frame>, t: seq<Frame>)
    requires NoDup(s + t) && t != []
    ensures t[0] !in s && NoDup(([t[0]] + s) + t[1..])
    ensures forall x :: x in s + t <==> x in ([t[0]] + s) + t[1..]
  {
    assert t == [t[0]] + t[1..];
    NoDupConcat(s, t);
    NoDupConcat([t[0]], t[1..]);
    NoDupConcat([t[0]], s);
    NoDupConcat([t[0]] + s, t[1..]);
  }

  // pmm_fill's step: the first frame not listed yet goes to the front of the list.
  lemma ListFill(m: Memory, hhdm: DirectMap, head: Word, free: seq<Frame>, todo: seq<Frame>, usable: seq<Frame>)
    requires ListOk(m, hhdm, head, free, todo, usable) && todo != []
    ensures todo[0] as nat < |m| && todo[0] as nat + hhdm.frame < 0x100_0000_0000
    ensures ListOk(m[todo[0] := m[todo[0]][0 := head]], hhdm, Link(hhdm, todo[0]), [todo[0]] + free, todo[1..], usable)
  {
    MoveFront(free, todo);
    assert todo[0] in free + todo;
    ChainPush(m, hhdm, head, free, todo[0]);
  }

  // node = head; head = node->next, and the page is cleared.
  lemma ListPop(m: Memory, hhdm: DirectMap, head: Word, free: seq<Frame>, todo: seq<Frame>, usable: seq<Frame>)
    requires ListOk(m, hhdm, head, free, todo, usable) && free != []
    ensures hhdm.frame <= head.frame as nat && Unlink(hhdm, head) == free[0] && free[0] as nat < |m|
    ensures ListOk(m[free[0] := ZeroPage()], hhdm, m[free[0]][0], free[1..], todo, usable)
    ensures free[0] in Elements(free + todo) && Elements(free[1..] + todo) == Elements(free + todo) - {free[0]}
  {
    var f, rest := free[0], free[1..];
    assert free + todo == [f] + (rest + todo);
    NoDupConcat([f], rest + todo);
    assert f in [f] && forall g :: g in rest ==> g in rest + todo;
    ChainFrame(m, m[f := ZeroPage()], hhdm, m[f][0], rest);
  }

  lemma ListFree(m: Memory, hhdm: DirectMap, head: Word, free: seq<Frame>, todo: seq<Frame>, usable: seq<Frame>,
                 f: Frame)
    requires ListOk(m, hhdm, head, free, todo, usable) && f in usable && f !in free + todo
    ensures f as nat < |m| && f as nat + hhdm.frame < 0x100_0000_0000
    ensures ListOk(m[f := m[f][0 := head]], hhdm, Link(hhdm, f), [f] + free, todo, usable)
    ensures Elements([f] + free + todo) == Elements(free + todo) + {f}
  {
    assert ([f] + free) + todo == [f] + (free + todo);
    NoDupConcat([f], free + todo);
    assert forall g :: g in free ==> g in free + todo;
    ChainPush(m, hhdm, head, free, f);
  }

  // A null head means an empty list: no listed frame is frame 0.
  lemma NullHead(m: Memory, hhdm: DirectMap, head: Word, free: seq<Frame>, todo: seq<Frame>, usable: seq<Frame>)
    requires ListOk(m, hhdm, head, free, todo, usable)
    ensures head == ZERO <==> free == []
  {
    if free != [] {
      assert free[0] in free + todo;
    }
  }

  // Filling only moves frames from one side of the available ones to the other.
  lemma FillKeepsAvail(n: nat, todo: seq<Frame>, free0: seq<Frame>)
    requires n <= |todo|
    ensures Elements(Reverse(todo[..n]) + free0 + todo[n..]) == Elements(free0 + todo)
  {
    ReverseElements(todo[..n]);
    assert todo == todo[..n] + todo[n..];
  }

  // What one call of pmm_fill does to the frames still to be listed and to the free list.
  function FillResult(pages: nat, todo: seq<Frame>, free: seq<Frame>): (seq<Frame>, seq<Frame>) {
    var k := if pages <= |todo| then pages else |todo|;
    (todo[k..], Reverse(todo[..k]) + free)
  }

  function FillRun(calls: seq<nat>, todo: seq<Frame>, free: seq<Frame>): (seq<Frame>, seq<Frame>)
    decreases |calls|
  {
    if calls == [] then (todo, free)
    else var (todo', free') := FillResult(calls[0], todo, free); FillRun(calls[1..], todo', free')
  }

  function Total(calls: seq<nat>): nat {
    if calls == [] then 0 else calls[0] + Total(calls[1..])
  }

  lemma FillTwice(a: nat, b: nat, todo: seq<Frame>, free: seq<Frame>)
    ensures var (todo', free') := FillResult(a, todo, free);
            FillResult(b, todo', free') == FillResult(a + b, todo, free)
  {
    hide Reverse;
    var k := if a <= |todo| then a else |todo|;
    var rest := todo[k..];
    var j := if b <= |rest| then b else |rest|;
    assert rest[j..] == todo[k + j..];
    assert todo[..k + j] == todo[..k] + rest[..j];
    ReverseAppend(todo[..k], rest[..j]);
    assert Reverse(rest[..j]) + (Reverse(todo[..k]) + free) == (Reverse(rest[..j]) + Reverse(todo[..k])) + free;
  }

  // Stopping and resuming does not matter: any run of calls is one call with their total.
  lemma {:induction false} FillRunIsOneFill(calls: seq<nat>, todo: seq<Frame>, free: seq<Frame>)
    ensures FillRun(calls, todo, free) == FillResult(Total(calls), todo, free)
    decreases |calls|
  {
    if calls == [] {
      assert todo[0..] == todo && Reverse(todo[..0]) + free == free;
    } else {
      var (todo', free') := FillResult(calls[0], todo, free);
      FillRunIsOneFill(calls[1..], todo', free');
      FillTwice(calls[0], Total(calls[1..]), todo, free);
    }
  }

  // From the empty list, calls that ask for enough pages list every usable frame, once.
  lemma FillRunFindsAll(memmap: seq<Region>, calls: seq<nat>, f: Frame)
    requires NonOverlapping(memmap) && Total(calls) >= |FramesFrom(memmap, 0)|
    ensures var (todo, free) := FillRun(calls, FramesFrom(memmap, 0), []);
            todo == [] && NoDup(free) && (f in free <==> UsableFrame(memmap, f))
  {
    var all := FramesFrom(memmap, 0);
    FillRunIsOneFill(calls, all, []);
    assert all[..|all|] == all && Reverse(all) + [] == Reverse(all);
    FramesFromNoDup(memmap, 0);
    ReverseNoDup(all);
    ReverseElements(all);
    UsableFramesExact(memmap, f);
  }

  // Writing to a frame that is in use does not disturb the list.
  lemma ListWrite(m: Memory, hhdm: DirectMap, head: Word, free: seq<Frame>, todo: seq<Frame>, usable: seq<Frame>,
                  f: Frame, page: Page)
    requires ListOk(m, hhdm, head, free, todo, usable) && f as nat < |m| && f !in free + todo
    ensures ListOk(m[f := page], hhdm, head, free, todo, usable)
  {
    assert forall g :: g in free ==> g in free + todo;
    ChainFrame(m, m[f := page], hhdm, head, free);
  }

  lemma ListWithin(m: Memory, hhdm: DirectMap, head: Word, free: seq<Frame>, todo: seq<Frame>, usable: seq<Frame>)
    requires ListOk(m, hhdm, head, free, todo, usable) && todo != []
    ensures todo[0] as nat < |m|
  {
    assert todo[0] in free + todo;
  }

  // Only first words of the listed frames changed.
  ghost predicate OnlyLinks(m: Memory, m': Memory, listed: seq<Frame>) {
    |m'| == |m| && forall f: Frame :: f as nat < |m| ==>
      if f in listed then m'[f] == m[f][0 := m'[f][0]] else m'[f] == m[f]
  }

  lemma OneMoreLink(m: Memory, m1: Memory, todo: seq<Frame>, n: nat, w: Word)
    requires n < |todo| && OnlyLinks(m, m1, todo[..n]) && todo[n] as nat < |m|
    ensures OnlyLinks(m, m1[todo[n] := m1[todo[n]][0 := w]], todo[..n + 1])
  {
    assert todo[..n + 1] == todo[..n] + [todo[n]];
    var f := todo[n];
    var m' := m1[f := m1[f][0 := w]];
    assert m'[f] == m[f][0 := m'[f][0]];
  }

  class Pmm {
    var mem: Memory  // physical memory, one element a page frame
    const hhdm: DirectMap
    const memmap: seq<Region>
    var head: Word
    var fillEntry: nat
    var fillOffset: nat
    ghost var free: seq<Frame>  // the free list, head first

    ghost function Unfilled(): seq<Frame>
      reads this
    {
      Remaining(memmap, fillEntry, fillOffset)
    }

    // Frames the allocator can still hand out.
    ghost function Avail(): set<Frame>
      reads this
    {
      Elements(free + Unfilled())
    }

    ghost function Usable(): set<Frame> {
      Elements(FramesFrom(memmap, 0))
    }

    ghost predicate Valid()
      reads this
    {
      CursorOk(memmap, fillEntry, fillOffset) &&
      ListOk(mem, hhdm, head, free, Unfilled(), FramesFrom(memmap, 0))
    }

    constructor (mem: Memory, hhdm: DirectMap, memmap: seq<Region>)
      requires |mem| + hhdm.frame <= 0x100_0000_0000
      requires NonOverlapping(memmap)
      requires forall f: Frame :: UsableFrame(memmap, f) ==> f as nat < |mem|
      ensures Valid() && this.mem == mem && this.hhdm == hhdm && this.memmap == memmap
      ensures free == [] && Avail() == Usable()
    {
      this.mem := mem;
      this.hhdm := hhdm;
      this.memmap := memmap;
      head := ZERO;
      fillEntry := 0;
      fillOffset := 0;
      free := [];
      new;
      FramesFromNoDup(memmap, 0);
      forall f | f in FramesFrom(memmap, 0) ensures 0 < f as nat < |mem| { UsableFramesExact(memmap, f); }
      assert free + Unfilled() == FramesFrom(memmap, 0);
    }

    lemma AvailUsable()
      requires Valid()
      ensures Avail() <= Usable() && forall f :: f in Usable() ==> f as nat < |mem|
    {
    }

    // None is the out-of-memory panic: it is reached exactly when every usable frame is in use.
    method AllocPage() returns (page: Option<Frame>)
      requires Valid()
      modifies this
      ensures Valid() && |mem| == |old(mem)|
      ensures page == None <==> old(Avail()) == {}
      ensures page == None ==> Avail() == {}
      ensures page != None ==>
        page.value in old(Avail()) && Avail() == old(Avail()) - {page.value} && page.value as nat < |mem| &&
          mem[page.value] == ZeroPage()
      ensures forall f: Frame :: f as nat < |mem| && f !in old(Avail()) ==> mem[f] == old(mem)[f]
      ensures old(free) != [] ==> page == Some(old(free)[0]) && free == old(free)[1..]
    {
      hide ListOk;
      NullHead(mem, hhdm, head, free, Unfilled(), FramesFrom(memmap, 0));
      if head == ZERO {
        Fill(512);
      }
      NullHead(mem, hhdm, head, free, Unfilled(), FramesFrom(memmap, 0));
      if head == ZERO {
        return None;
      }
      ListPop(mem, hhdm, head, free, Unfilled(), FramesFrom(memmap, 0));
      var node := Unlink(hhdm, head);
      head := mem[node][0];
      mem := mem[node := ZeroPage()];
      free := free[1..];
      page := Some(node);
    }

    method FreePage(page: Frame)
      requires Valid() && page in Usable() && page !in Avail()
      modifies `mem, `head, `free
      ensures Valid() && Avail() == old(Avail()) + {page} && free == [page] + old(free)
      ensures |mem| == |old(mem)| && page as nat < |mem| && mem == old(mem)[page := old(mem)[page][0 := old(head)]]
    {
      hide ListOk;
      ListFree(mem, hhdm, head, free, Unfilled(), FramesFrom(memmap, 0), page);
      mem := mem[page := mem[page][0 := head]];
      head := Link(hhdm, page);
      free := [page] + free;
    }

    // table[index] = w, in a frame that is in use.
    method Store(table: Frame, index: nat, w: Word)
      requires Valid() && table as nat < |mem| && table !in Avail() && index < 512
      modifies `mem
      ensures Valid() && mem == old(mem)[table := old(mem)[table][index := w]]
    {
      hide ListOk;
      ListWrite(mem, hhdm, head, free, Unfilled(), FramesFrom(memmap, 0), table, mem[table][index := w]);
      mem := mem[table := mem[table][index := w]];
    }

    // memset(page, 0, PAGE_SIZE), on a frame that is in use.
    method Clear(page: Frame)
      requires Valid() && page as nat < |mem| && page !in Avail()
      modifies `mem
      ensures Valid() && mem == old(mem)[page := ZeroPage()]
    {
      hide ListOk;
      ListWrite(mem, hhdm, head, free, Unfilled(), FramesFrom(memmap, 0), page, ZeroPage());
      mem := mem[page := ZeroPage()];
    }

    // node->next = head; head = node, for the first frame of those still to be listed.
    method PushFrame(node: Frame, ghost todo: seq<Frame>, ghost usable: seq<Frame>)
      requires ListOk(mem, hhdm, head, free, todo, usable) && todo != [] && node == todo[0] && node as nat < |mem|
      modifies `mem, `head, `free
      ensures ListOk(mem, hhdm, head, free, todo[1..], usable)
      ensures free == [node] + old(free)
      ensures mem == old(mem)[node := old(mem)[node][0 := old(head)]]
    {
      ListFill(mem, hhdm, head, free, todo, usable);
      mem := mem[node := mem[node][0 := head]];
      head := Link(hhdm, node);
      free := [node] + free;
    }

    // n frames of todo have been listed, on top of free0; of memory m0 only their first words changed.
    ghost predicate Filled(n: nat, todo: seq<Frame>, free0: seq<Frame>, m0: Memory)
      reads this
    {
      n <= |todo| && |m0| == |mem| && Unfilled() == todo[n..] && free == Reverse(todo[..n]) + free0 &&
      OnlyLinks(m0, mem, todo[..n])
    }

    // Adds up to `pages` frames to the free list, in memory-map order, and leaves the cursor
    // exactly behind them.
    method Fill(pages: nat)
      requires Valid()
      modifies this
      ensures Valid() && Avail() == old(Avail())
      ensures free == [] && pages > 0 ==> Avail() == {}
      ensures Filled(if pages <= |old(Unfilled())| then pages else |old(Unfilled())|,
                     old(Unfilled()), old(free), old(mem))
    {
      hide ListOk, FramesFrom, Remaining, AlignedStart, AlignedEnd;
      var pagesAdded: nat := 0;
      ghost var todo, free0, m0 := Unfilled(), free, mem;
      while fillEntry < |memmap| && pagesAdded < pages
        invariant Valid()
        invariant pagesAdded <= pages && Filled(pagesAdded, todo, free0, m0)
        decreases |memmap| - fillEntry, pages - pagesAdded
      {
        var entry := memmap[fillEntry];
        var alignedStart := AlignedStart(entry);
        var alignedEnd := AlignedEnd(entry);
        if !entry.usable || alignedEnd <= alignedStart {
          RemainingSkip(memmap, fillEntry, fillOffset);
          fillEntry, fillOffset := fillEntry + 1, 0;
          continue;
        }
        pagesAdded := FillEntry(pagesAdded, pages, alignedStart, alignedEnd, todo, free0, m0);
      }
      RemainingEnd(memmap, fillEntry, fillOffset);
      FillKeepsAvail(pagesAdded, todo, free0);
      ReverseElements(todo[..pagesAdded]);
    }

    // pmm_fill inside one entry: the pages that fit under the limit, then on to the next entry
    // when no whole page is left.
    method FillEntry(pagesAdded: nat, pages: nat, alignedStart: nat, alignedEnd: nat,
                     ghost todo: seq<Frame>, ghost free0: seq<Frame>, ghost m0: Memory) returns (added: nat)
      requires Valid() && fillEntry < |memmap| && memmap[fillEntry].usable
      requires alignedStart == AlignedStart(memmap[fillEntry]) && alignedEnd == AlignedEnd(memmap[fillEntry])
      requires alignedStart < alignedEnd && pagesAdded < pages && Filled(pagesAdded, todo, free0, m0)
      modifies this
      ensures Valid()
      ensures added <= pages && Filled(added, todo, free0, m0)
      ensures added < pages ==> fillEntry == old(fillEntry) + 1
      ensures fillEntry == old(fillEntry) || fillEntry == old(fillEntry) + 1
    {
      hide ListOk, CursorOk, FramesFrom, InEntry, Remaining, AlignedStart, AlignedEnd, Reverse, OnlyLinks;
      var base := memmap[fillEntry].base;
      added := pagesAdded;
      AlignedBounds(memmap[fillEntry]);
      EnterEntry(memmap, fillEntry, fillOffset, if fillOffset == 0 then alignedStart - base else fillOffset);
      if fillOffset == 0 {
        fillOffset := alignedStart - base;
      }
      while base + fillOffset + 4096 <= alignedEnd && added < pages
        invariant ListOk(mem, hhdm, head, free, Unfilled(), FramesFrom(memmap, 0))
        invariant InEntry(memmap, fillEntry, fillOffset) && fillEntry == old(fillEntry)
        invariant added <= pages && Filled(added, todo, free0, m0)
        decreases pages - added
      {
        RemainingStep(memmap, fillEntry, fillOffset);
        ReverseNext(todo, added);
        ghost var rest, m1 := Unfilled(), mem;
        assert rest == todo[added..];
        ListWithin(mem, hhdm, head, free, rest, FramesFrom(memmap, 0));
        OneMoreLink(m0, m1, todo, added, head);
        PushFrame(((base + fillOffset) / 4096) as Frame, rest, FramesFrom(memmap, 0));
        fillOffset := fillOffset + 4096;
        added := added + 1;
        assert Unfilled() == rest[1..];
      }
      InEntryCursorOk(memmap, fillEntry, fillOffset);
      if base + fillOffset + 4096 > alignedEnd {
        RemainingNext(memmap, fillEntry, fillOffset);
        fillEntry, fillOffset := fillEntry + 1, 0;
      }
    }
  }
}
