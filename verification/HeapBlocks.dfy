// The kernel heap's blocks as values: where they lie, how they are linked, and which of the heap's
// pages the kernel's tables map.

module HeapBlocks {
  import opened PageFormat
  import opened Sequences
  import opened PageTables
  import opened Ownership
  import opened UserPages

  // BLOCK_MAGIC is 0x5245_4444_594F_5348, HEAP_START is 0xFFFF_C000_0000_0000, sizeof(block_t) is 32.

  // block_t: what stands in the first 32 bytes of a block.
  datatype Header = Header(magic: nat, size: nat, free: bool, next: nat)

  type Headers = map<nat, Header>

  // A block: its first address, and the bytes behind its header.
  datatype Extent = Extent(base: nat, size: nat) {
    function End(): nat { base + 32 + size }
  }

  // block_is_valid: page aligned and carrying the magic number.
  predicate BlockIsValid(h: Headers, p: nat) {
    p != 0 && p % 4096 == 0 && p in h && h[p].magic == 0x5245_4444_594F_5348
  }

  // (block_t*)ptr - 1, on 64 bits.
  function HeaderOf(ptr: nat): nat { (ptr + 0x1_0000_0000_0000_0000 - 32) % 0x1_0000_0000_0000_0000 }

  lemma HeaderBehind(ptr: nat)
    requires ptr < 0x1_0000_0000_0000_0000
    ensures HeaderOf(ptr) == if ptr >= 32 then ptr - 32 else ptr + 0xFFFF_FFFF_FFFF_FFE0
    ensures ptr > 32 && ptr % 4096 == 32 <==> ptr != 0 && HeaderOf(ptr) != 0 && HeaderOf(ptr) % 4096 == 0
  {
    if ptr >= 32 {
      assert ptr + 0x1_0000_0000_0000_0000 - 32 == 0x1_0000_0000_0000_0000 + (ptr - 32);
      PageBehind(ptr - 32);
    }
  }

  lemma PageBehind(p: nat)
    ensures p % 4096 == 0 <==> (p + 32) % 4096 == 32
  {
  }

  // The list from p on: the blocks from the top of the heap downwards, each of whole pages and
  // followed by one guard page.
  ghost predicate Chained(h: Headers, p: nat, top: nat, blocks: seq<Extent>)
    decreases |blocks|
  {
    if blocks == [] then p == 0 && top == 0xFFFF_C000_0000_0000
    else
      var b := blocks[0];
      p == b.base && BlockIsValid(h, p) && h[p].size == b.size &&
      b.base >= 0xFFFF_C000_0000_0000 && b.End() % 4096 == 0 && b.End() + 4096 == top &&
      Chained(h, h[p].next, b.base, blocks[1..])
  }

  lemma {:induction false} ChainedAt(h: Headers, p: nat, top: nat, blocks: seq<Extent>, i: nat)
    requires Chained(h, p, top, blocks) && i < |blocks|
    ensures BlockIsValid(h, blocks[i].base) && h[blocks[i].base].size == blocks[i].size
    ensures 0xFFFF_C000_0000_0000 <= blocks[i].base && blocks[i].End() + 4096 <= top && blocks[i].End() % 4096 == 0
    ensures Chained(h, if i + 1 < |blocks| then blocks[i + 1].base else 0, blocks[i].base, blocks[i + 1..])
    ensures h[blocks[i].base].next == if i + 1 < |blocks| then blocks[i + 1].base else 0
    decreases i
  {
    if i > 0 {
      ChainedAt(h, h[p].next, blocks[0].base, blocks[1..], i - 1);
      assert blocks[1..][i - 1 + 1..] == blocks[i + 1..];
    }
  }

  function BaseAt(blocks: seq<Extent>, i: nat): nat { if i < |blocks| then blocks[i].base else 0 }

  // Walking the list visits the blocks in order, and every pointer on the way passes block_is_valid.
  lemma WalkStart(h: Headers, p: nat, top: nat, blocks: seq<Extent>)
    requires Chained(h, p, top, blocks)
    ensures p == BaseAt(blocks, 0) && (p == 0 <==> blocks == [])
  {
  }

  lemma WalkStep(h: Headers, p: nat, top: nat, blocks: seq<Extent>, i: nat)
    requires Chained(h, p, top, blocks) && i < |blocks|
    ensures BlockIsValid(h, blocks[i].base) && blocks[i].base in h
    ensures blocks[i].base != 0 && blocks[i].base % 4096 == 0 && h[blocks[i].base].magic == 0x5245_4444_594F_5348
    ensures h[blocks[i].base].next == BaseAt(blocks, i + 1)
    ensures if i + 1 < |blocks| then BlockIsValid(h, BaseAt(blocks, i + 1)) && BaseAt(blocks, i + 1) != 0
            else BaseAt(blocks, i + 1) == 0
  {
    ChainedAt(h, p, top, blocks, i);
    if i + 1 < |blocks| { ChainedAt(h, p, top, blocks, i + 1); }
  }

  // Blocks do not touch each other: there is a guard page between any two.
  lemma ChainedApart(h: Headers, p: nat, top: nat, blocks: seq<Extent>, i: nat, j: nat)
    requires Chained(h, p, top, blocks) && i < j < |blocks|
    ensures blocks[j].End() + 4096 <= blocks[i].base
  {
    ChainedAt(h, p, top, blocks, i);
    var rest := blocks[i + 1..];
    assert rest[j - i - 1] == blocks[j];
    ChainedAt(h, if i + 1 < |blocks| then blocks[i + 1].base else 0, blocks[i].base, rest, j - i - 1);
  }

  // Marking a block free or used leaves the list alone; so does adding a header elsewhere.
  lemma {:induction false} ChainedKeeps(h: Headers, h': Headers, p: nat, top: nat, blocks: seq<Extent>)
    requires Chained(h, p, top, blocks)
    requires forall b :: b in h ==> b in h' && h'[b] == h[b].(free := h'[b].free)
    ensures Chained(h', p, top, blocks)
    decreases |blocks|
  {
    if blocks != [] {
      ChainedKeeps(h, h', h[p].next, blocks[0].base, blocks[1..]);
    }
  }

  // The headers are those of the listed blocks.
  ghost predicate Known(h: Headers, blocks: seq<Extent>) { forall p :: p in h ==> IsBase(blocks, p) }

  ghost predicate IsBase(blocks: seq<Extent>, p: nat) { exists i :: 0 <= i < |blocks| && blocks[i].base == p }

  lemma Apart(h: Headers, top: nat, end: nat, blocks: seq<Extent>, p: nat, q: nat)
    requires Chained(h, top, end, blocks) && Known(h, blocks) && p in h && q in h && p != q
    ensures p + 32 + h[p].size + 4096 <= q || q + 32 + h[q].size + 4096 <= p
  {
    hide Chained;
    var i :| 0 <= i < |blocks| && blocks[i].base == p;
    var j :| 0 <= j < |blocks| && blocks[j].base == q;
    ChainedAt(h, top, end, blocks, i);
    ChainedAt(h, top, end, blocks, j);
    if i < j { ChainedApart(h, top, end, blocks, i, j); } else { ChainedApart(h, top, end, blocks, j, i); }
  }

  // ---- Sizes ----

  // (size + 15) & ~15 on 64 bits.
  function Round16(size: nat): nat { (size + 15) % 0x1_0000_0000_0000_0000 / 16 * 16 }

  // The pages kmalloc requests for a rounded size.
  function PagesFor(size: nat): nat {
    ((32 + size) % 0x1_0000_0000_0000_0000 + 4095) % 0x1_0000_0000_0000_0000 / 4096
  }

  // The size is rounded up to the next multiple of 16, except that the largest ones wrap to 0.
  lemma Round16Exact(size: nat)
    requires size < 0x1_0000_0000_0000_0000
    ensures size <= 0xFFFF_FFFF_FFFF_FFF0 ==> size <= Round16(size) < size + 16 && Round16(size) % 16 == 0
    ensures size > 0xFFFF_FFFF_FFFF_FFF0 ==> Round16(size) == 0
  {
  }

  // As many whole pages as the header and the size need and no more, except that the sum wraps for the largest.
  lemma PagesForExact(size: nat)
    requires size < 0x1_0000_0000_0000_0000
    ensures size <= 0xFFFF_FFFF_FFFF_EFE0 ==> PagesFor(size) * 4096 - 4096 < 32 + size <= PagesFor(size) * 4096
    ensures 0xFFFF_FFFF_FFFF_EFE0 < size < 0xFFFF_FFFF_FFFF_FFE0 ==> PagesFor(size) == 0
    ensures 0xFFFF_FFFF_FFFF_FFE0 <= size ==> PagesFor(size) == if size == 0xFFFF_FFFF_FFFF_FFE0 then 0 else 1
  {
  }

  // Up to 2^64 - 4128 bytes a new block holds what was asked for. Beyond, either the rounded size or the page
  // count has wrapped, and the block is too small or has no pages at all.
  lemma RequestFits(size: nat)
    requires size < 0x1_0000_0000_0000_0000
    ensures size <= Round16(size) && PagesFor(Round16(size)) * 4096 >= 32 + size <==> size <= 0xFFFF_FFFF_FFFF_EFE0
  {
    var s := size + 15;
    assert size <= 0xFFFF_FFFF_FFFF_EFE0 ==> Round16(size) <= 0xFFFF_FFFF_FFFF_EFE0 && Round16(size) >= size;
  }

  // Asking for the very largest size is granted a page, and a little less than that no page at all.
  lemma HugeRequestsWrap()
    ensures Round16(0xFFFF_FFFF_FFFF_FFFF) == 0 && PagesFor(0) == 1
    ensures Round16(0xFFFF_FFFF_FFFF_EFE1) == 0xFFFF_FFFF_FFFF_EFF0 && PagesFor(0xFFFF_FFFF_FFFF_EFF0) == 0
  {
  }

  // ---- Searching ----

  predicate Fits(h: Headers, p: nat, size: nat) { p in h && h[p].free && h[p].size >= size }

  // p is the first block of the list that fits.
  ghost predicate FirstFits(h: Headers, blocks: seq<Extent>, size: nat, p: nat) {
    exists i :: 0 <= i < |blocks| && blocks[i].base == p && Fits(h, p, size) && NoneFits(h, blocks[..i], size)
  }

  ghost predicate NoneFits(h: Headers, blocks: seq<Extent>, size: nat) {
    forall j :: 0 <= j < |blocks| ==> !Fits(h, blocks[j].base, size)
  }

  // Nothing fits exactly when every block of the heap is in use or too small.
  lemma NoneMeans(h: Headers, p: nat, top: nat, blocks: seq<Extent>, size: nat)
    requires Chained(h, p, top, blocks) && Known(h, blocks)
    ensures NoneFits(h, blocks, size) <==> forall b :: b in h ==> !h[b].free || h[b].size < size
  {
    hide Chained;
    forall j | 0 <= j < |blocks| ensures blocks[j].base in h { ChainedAt(h, p, top, blocks, j); }
    if NoneFits(h, blocks, size) {
      forall b | b in h ensures !h[b].free || h[b].size < size {
        var i :| 0 <= i < |blocks| && blocks[i].base == b;
        assert !Fits(h, blocks[i].base, size);
      }
    }
  }

  // The first that fits is free and large enough, and every block before it is in use or too small.
  lemma FirstMeans(h: Headers, head: nat, top: nat, blocks: seq<Extent>, size: nat, p: nat)
    requires Chained(h, head, top, blocks)
    ensures FirstFits(h, blocks, size, p) <==>
      exists i :: 0 <= i < |blocks| && blocks[i].base == p && p in h && h[p].free && h[p].size >= size &&
                  forall j :: 0 <= j < i && blocks[j].base in h ==>
                    !h[blocks[j].base].free || h[blocks[j].base].size < size
  {
    hide Chained;
    forall j | 0 <= j < |blocks| ensures blocks[j].base in h { ChainedAt(h, head, top, blocks, j); }
  }

  lemma FirstNotNone(h: Headers, blocks: seq<Extent>, size: nat, p: nat)
    requires FirstFits(h, blocks, size, p)
    ensures !NoneFits(h, blocks, size)
  {
  }

  // One block of that many pages came first in the list.
  ghost predicate Grew(blocks: seq<Extent>, blocks': seq<Extent>, base: nat, pages: nat) {
    |blocks'| == |blocks| + 1 && blocks'[1..] == blocks && blocks'[0].base == base &&
      blocks'[0].End() == base + pages * 4096
  }

  // The block at p went from nobody to the caller; no other block changed.
  ghost predicate Handed(h: Headers, h': Headers, p: nat) {
    p in h' && !h'[p].free && (p in h ==> h[p].free && h'[p] == h[p].(free := false)) &&
    (forall b :: b in h' ==> b == p || b in h) &&
    forall b :: b in h && b != p ==> b in h' && h'[b] == h[b]
  }

  lemma Marked(h: Headers, p: nat, top: nat, blocks: seq<Extent>, q: nat, free: bool)
    requires Chained(h, p, top, blocks) && Known(h, blocks) && q in h
    ensures Chained(h[q := h[q].(free := free)], p, top, blocks) && Known(h[q := h[q].(free := free)], blocks)
  {
    ChainedKeeps(h, h[q := h[q].(free := free)], p, top, blocks);
  }

  // A new block on top of the heap, linked in front.
  lemma Pushed(h: Headers, p: nat, top: nat, blocks: seq<Extent>, b: Extent, hd: Header)
    requires Chained(h, p, top, blocks) && Known(h, blocks) && b.base == top && b.End() % 4096 == 0
    requires hd.magic == 0x5245_4444_594F_5348 && hd.size == b.size && hd.next == p
    ensures top !in h
    ensures Chained(h[top := hd], top, b.End() + 4096, [b] + blocks) && Known(h[top := hd], [b] + blocks)
  {
    TopAligned(h, p, top, blocks);
    if top in h {
      var i :| 0 <= i < |blocks| && blocks[i].base == top;
      ChainedAt(h, p, top, blocks, i);
    } else {
      ChainedKeeps(h, h[top := hd], p, top, blocks);
      assert ([b] + blocks)[1..] == blocks && ([b] + blocks)[0] == b;
      forall q | q in h[top := hd] ensures IsBase([b] + blocks, q) {
        if q != top {
          var i :| 0 <= i < |blocks| && blocks[i].base == q;
          assert ([b] + blocks)[i + 1].base == q;
        }
      }
    }
  }

  lemma TopAligned(h: Headers, p: nat, top: nat, blocks: seq<Extent>)
    requires Chained(h, p, top, blocks)
    ensures top % 4096 == 0 && top >= 0xFFFF_C000_0000_0000
  {
  }

  // The list of blocks: the headers, block_list, the end of the last request, and the blocks.
  datatype List = List(h: Headers, head: nat, top: nat, blocks: seq<Extent>)

  ghost predicate Linked(a: List) { Chained(a.h, a.head, a.top, a.blocks) && Known(a.h, a.blocks) }

  // A new block of that many pages came to stand on top, in front of the list.
  ghost predicate OnTop(a: List, b: List, pages: nat) {
    Handed(a.h, b.h, a.top) && a.top % 4096 == 0 && Grew(a.blocks, b.blocks, a.top, pages) && b.head == a.top &&
    b.top == a.top + pages * 4096 + 4096 && b.h[a.top].magic == 0x5245_4444_594F_5348 && b.h[a.top].next == a.head &&
    b.h[a.top].size + 32 == pages * 4096
  }

  lemma MoreBlocks(a: List, b: List, pages: nat)
    requires OnTop(a, b, pages)
    ensures |b.blocks| == |a.blocks| + 1
  {
    hide Handed;
  }

  // What a successful kmalloc(size) has done: handed out the first free block that fits, or only if
  // there is none, a new block.
  ghost predicate Served(size: nat, a: List, b: List, p: nat) {
    Handed(a.h, b.h, p) && p % 4096 == 0 && (size <= 0xFFFF_FFFF_FFFF_EFE0 ==> b.h[p].size >= size) &&
    if NoneFits(a.h, a.blocks, Round16(size)) then p == a.top && OnTop(a, b, PagesFor(Round16(size)))
    else FirstFits(a.h, a.blocks, Round16(size), p) && b == a.(h := b.h)
  }

  // What kfree has done to the block at p.
  ghost predicate Released(a: List, b: List, p: nat) { p in a.h && b == a.(h := a.h[p := a.h[p].(free := true)]) }

  lemma ReuseServes(size: nat, a: List, b: List, p: nat)
    requires FirstFits(a.h, a.blocks, Round16(size), p) && Handed(a.h, b.h, p) && b.h[p].size >= Round16(size)
    requires p % 4096 == 0 && b == a.(h := b.h)
    requires size <= 0xFFFF_FFFF_FFFF_EFE0 ==> size <= Round16(size)
    ensures Served(size, a, b, p)
  {
    hide Round16, Handed, PagesFor;
    FirstNotNone(a.h, a.blocks, Round16(size), p);
  }

  lemma ExtendServes(size: nat, a: List, b: List)
    requires NoneFits(a.h, a.blocks, Round16(size)) && OnTop(a, b, PagesFor(Round16(size)))
    requires size <= 0xFFFF_FFFF_FFFF_EFE0 ==> PagesFor(Round16(size)) * 4096 >= 32 + size
    ensures Served(size, a, b, a.top)
  {
    hide Round16, Handed, PagesFor, Grew, FirstFits, NoneFits;
  }

  // The list stays linked.
  lemma ServedLinked(size: nat, a: List, b: List, p: nat)
    requires Linked(a) && Served(size, a, b, p)
    ensures Linked(b)
  {
    hide Chained, Round16, PagesFor;
    if NoneFits(a.h, a.blocks, Round16(size)) {
      OnTopLinked(a, b, PagesFor(Round16(size)));
    } else {
      ChainedKeeps(a.h, b.h, a.head, a.top, a.blocks);
    }
  }

  lemma OnTopLinked(a: List, b: List, pages: nat)
    requires Linked(a) && OnTop(a, b, pages)
    ensures Linked(b)
  {
    hide Chained, Known;
    var e := b.blocks[0];
    assert e.size == b.h[a.top].size && e.End() == a.top + pages * 4096;
    Pushed(a.h, a.head, a.top, a.blocks, e, b.h[a.top]);
    assert b.h == a.h[a.top := b.h[a.top]];
    assert b.blocks == [e] + a.blocks;
  }

  lemma ReleasedLinked(a: List, b: List, p: nat)
    requires Linked(a) && Released(a, b, p)
    ensures Linked(b)
  {
    Marked(a.h, a.head, a.top, a.blocks, p, true);
  }

  // ---- The heap's pages ----

  // The pages from HEAP_START on that the heap may take. The cursor stays within 32 TiB of HEAP_START, so
  // all of them lie above the kernel's stacks and below its image, which belong to the rest of the kernel.
  const HEAP_FIRST: nat := 0xF_FFFC_0000_0000
  const HEAP_END: nat := 0xF_FFFF_0000_0000

  // Pages of the canonical upper half are told apart by their paths.
  lemma KernelPathNumber(a: nat)
    requires 0xFFFF_8000_0000_0000 <= a < 0x1_0000_0000_0000_0000
    ensures Number(PathOf(a)) == a / 4096 - 0xF_FFF0_0000_0000 && PathOf(a) == PathOf(a / 4096 * 4096)
    ensures PathOf(a).i4 >= 256
  {
    var n := a / 4096;
    PathDigits(a);
    PathDigits(n * 4096);
    assert n * 4096 / 4096 == n;
    UpperDigits(n);
  }

  // In the upper half the top digits of a page number are all ones.
  lemma UpperDigits(n: nat)
    requires 0xF_FFF8_0000_0000 <= n < 0x10_0000_0000_0000
    ensures ((n / 512 / 512 / 512 % 512 * 512 + n / 512 / 512 % 512) * 512 + n / 512 % 512) * 512 + n % 512 ==
      n - 0xF_FFF0_0000_0000
    ensures n / 512 / 512 / 512 % 512 >= 256
  {
    var n1, n2, n3 := n / 512, n / 512 / 512, n / 512 / 512 / 512;
    assert n == n1 * 512 + n % 512 && n1 == n2 * 512 + n1 % 512 && n2 == n3 * 512 + n2 % 512;
    assert 0x1ff_ff00 <= n3 < 0x200_0000;
    assert n3 % 512 == n3 - 0x1ff_fe00;
  }

  // PAGE_WRITABLE | PAGE_NX
  function HeapFlags(): Flags { Flags(false, true, false, false, false, true) }

  predicate OnBlock(b: Extent, n: nat) { b.base <= n * 4096 < b.End() }

  ghost predicate OnHeap(blocks: seq<Extent>, n: nat) {
    exists i :: 0 <= i < |blocks| && OnBlock(blocks[i], n)
  }

  lemma PageInside(start: nat, end: nat, a: nat)
    requires start % 4096 == 0 && end % 4096 == 0 && start <= a < end
    ensures start <= a / 4096 * 4096 < end
  {
  }

  // A guard page lies on no block.
  lemma NotOnHeap(h: Headers, p: nat, top: nat, blocks: seq<Extent>, i: nat, a: nat)
    requires Chained(h, p, top, blocks) && i < |blocks| && blocks[i].End() <= a < blocks[i].End() + 4096
    ensures !OnHeap(blocks, a / 4096)
  {
    ChainedAt(h, p, top, blocks, i);
    PageInside(blocks[i].End(), blocks[i].End() + 4096, a);
    forall j | 0 <= j < |blocks| ensures !OnBlock(blocks[j], a / 4096) {
      ChainedAt(h, p, top, blocks, j);
      if i < j { ChainedApart(h, p, top, blocks, i, j); }
      if j < i { ChainedApart(h, p, top, blocks, j, i); }
    }
  }

  // Under the blocks, or under the pages [lo, hi) of a request in progress.
  ghost predicate Used(blocks: seq<Extent>, lo: nat, hi: nat, n: nat) { OnHeap(blocks, n) || lo <= n < hi }

  // What page n of the heap's part of the address space maps to: a held frame where it is used, nothing elsewhere.
  ghost predicate HeapPage(m: Memory, kernel: Frame, used: bool, n: nat, held: set<Frame>) {
    if used then
      PageAt(m, kernel, n).Some? && PageAt(m, kernel, n).value.frame in held &&
      PageAt(m, kernel, n).value == LeafWord(PageAt(m, kernel, n).value.frame, HeapFlags())
    else PageAt(m, kernel, n) == None
  }

  ghost predicate HeapMapped(m: Memory, kernel: Frame, blocks: seq<Extent>, lo: nat, hi: nat, held: set<Frame>) {
    forall n :: HEAP_FIRST <= n < HEAP_END ==>
      HeapPage(m, kernel, Used(blocks, lo, hi, n), n, held)
  }

  lemma HeapPageAt(m: Memory, kernel: Frame, blocks: seq<Extent>, n: nat, held: set<Frame>)
    requires HeapMapped(m, kernel, blocks, 0, 0, held) && HEAP_FIRST <= n < HEAP_END
    ensures HeapPage(m, kernel, OnHeap(blocks, n), n, held)
  {
    assert HeapPage(m, kernel, Used(blocks, 0, 0, n), n, held);
  }

  // The kernel may write there but not execute, and user code may do neither.
  lemma HeapPageRights(m: Memory, kernel: Frame, n: nat, held: set<Frame>)
    requires HeapPage(m, kernel, true, n, held)
    ensures PageAt(m, kernel, n).Some?
    ensures var w := PageAt(m, kernel, n).value;
      w.frame in held && w.writable && w.nx && !w.user && !w.wthru && !w.nocache
  {
    hide PageAt;
  }

  predicate SameFrame(a: Option<Word>, b: Option<Word>) { a.Some? && b.Some? && a.value.frame == b.value.frame }

  // No two pages of the heap share a frame.
  ghost predicate HeapPrivate(m: Memory, kernel: Frame) {
    forall n, k | HEAP_FIRST <= n < HEAP_END && HEAP_FIRST <= k < HEAP_END ::
      PageAt(m, kernel, n).Some? && SameFrame(PageAt(m, kernel, n), PageAt(m, kernel, k)) ==> n == k
  }

  // What happens to the heap's part of the kernel's tables when page n is mapped.
  ghost predicate HeapPageSet(m: Memory, m': Memory, kernel: Frame, n: nat, leaf: Option<Word>) {
    forall k :: HEAP_FIRST <= k < HEAP_END ==>
      PageAt(m', kernel, k) == if k == n then leaf else PageAt(m, kernel, k)
  }

  ghost predicate HeapSame(m: Memory, m': Memory, kernel: Frame) {
    forall k :: HEAP_FIRST <= k < HEAP_END ==> PageAt(m', kernel, k) == PageAt(m, kernel, k)
  }

  lemma HeapRemapped(m: Memory, tabs: Tables, m': Memory, tabs': Tables, kernel: Frame, n: nat, leaf: Option<Word>)
    requires Root(Kernel) in tabs && tabs[Root(Kernel)] == kernel && HEAP_FIRST <= n < HEAP_END
    requires Remapped(m, tabs, m', tabs', Kernel, PathOf(n * 4096), leaf)
    ensures HeapPageSet(m, m', kernel, n, leaf)
  {
    hide Lookup, PathOf;
    KernelPathNumber(n * 4096);
    forall k | HEAP_FIRST <= k < HEAP_END
      ensures PageAt(m', kernel, k) == if k == n then leaf else PageAt(m, kernel, k)
    {
      KernelPathNumber(k * 4096);
      assert PathOk(PathOf(k * 4096));
    }
  }

  // Whatever else the kernel maps, its image, its stacks or devices, leaves the heap's part alone.
  lemma HeapBeside(m: Memory, tabs: Tables, m': Memory, tabs': Tables, kernel: Frame, virt: nat, leaf: Option<Word>)
    requires Root(Kernel) in tabs && tabs[Root(Kernel)] == kernel
    requires 0xFFFF_8000_0000_0000 <= virt < 0x1_0000_0000_0000_0000 && !(HEAP_FIRST <= virt / 4096 < HEAP_END)
    requires Remapped(m, tabs, m', tabs', Kernel, PathOf(virt), leaf)
    ensures HeapSame(m, m', kernel) && PageAt(m', kernel, virt / 4096) == leaf
  {
    hide Lookup, PathOf;
    KernelPathNumber(virt);
    assert PathOk(PathOf(virt));
    forall k | HEAP_FIRST <= k < HEAP_END ensures PageAt(m', kernel, k) == PageAt(m, kernel, k) {
      KernelPathNumber(k * 4096);
      assert PathOk(PathOf(k * 4096));
    }
  }

  lemma HeapUntouched(m: Memory, tabs: Tables, m': Memory, tabs': Tables, kernel: Frame)
    requires Root(Kernel) in tabs && tabs[Root(Kernel)] == kernel && SameTranslations(m, tabs, m', tabs')
    ensures HeapSame(m, m', kernel)
  {
    hide Lookup, PathOf;
    forall k | HEAP_FIRST <= k < HEAP_END ensures PageAt(m', kernel, k) == PageAt(m, kernel, k) {
      assert PathOk(PathOf(k * 4096));
    }
  }

  // One more page of a request, in a frame the heap did not hold.
  lemma OnePageMore(m: Memory, m1: Memory, m': Memory, kernel: Frame, blocks: seq<Extent>, lo: nat, n: nat, f: Frame,
                    held: set<Frame>)
    requires HeapMapped(m, kernel, blocks, lo, n, held) && HeapPrivate(m, kernel) && f !in held
    requires HeapSame(m, m1, kernel) && HeapPageSet(m1, m', kernel, n, Some(LeafWord(f, HeapFlags())))
    requires HEAP_FIRST <= lo <= n < HEAP_END
    ensures HeapMapped(m', kernel, blocks, lo, n + 1, held + {f}) && HeapPrivate(m', kernel)
  {
    hide PageAt, OnHeap;
    var hi := n + 1;
    forall k | HEAP_FIRST <= k < HEAP_END
      ensures HeapPage(m', kernel, Used(blocks, lo, hi, k), k, held + {f})
    {
      OnePage(m, m1, m', kernel, blocks, lo, n, f, held, k);
    }
    forall j, k | HEAP_FIRST <= j < HEAP_END && HEAP_FIRST <= k < HEAP_END
      ensures PageAt(m', kernel, j).Some? && SameFrame(PageAt(m', kernel, j), PageAt(m', kernel, k)) ==> j == k
    {
      OnePage(m, m1, m', kernel, blocks, lo, n, f, held, j);
      OnePage(m, m1, m', kernel, blocks, lo, n, f, held, k);
      if j != n && k != n { StillApart(m, m', kernel, j, k); }
    }
  }

  lemma StillApart(m: Memory, m': Memory, kernel: Frame, j: nat, k: nat)
    requires HeapPrivate(m, kernel) && HEAP_FIRST <= j < HEAP_END && HEAP_FIRST <= k < HEAP_END
    requires PageAt(m', kernel, j) == PageAt(m, kernel, j) && PageAt(m', kernel, k) == PageAt(m, kernel, k)
    ensures PageAt(m', kernel, j).Some? && SameFrame(PageAt(m', kernel, j), PageAt(m', kernel, k)) ==> j == k
  {
    hide PageAt;
  }

  lemma OnePage(m: Memory, m1: Memory, m': Memory, kernel: Frame, blocks: seq<Extent>, lo: nat, n: nat, f: Frame,
                held: set<Frame>, k: nat)
    requires HeapMapped(m, kernel, blocks, lo, n, held) && f !in held
    requires HeapSame(m, m1, kernel) && HeapPageSet(m1, m', kernel, n, Some(LeafWord(f, HeapFlags())))
    requires HEAP_FIRST <= lo <= n && HEAP_FIRST <= k < HEAP_END
    ensures HeapPage(m', kernel, Used(blocks, lo, n + 1, k), k, held + {f})
    ensures if k == n then PageAt(m', kernel, k) == Some(LeafWord(f, HeapFlags()))
            else PageAt(m', kernel, k) == PageAt(m, kernel, k)
    ensures k != n && PageAt(m', kernel, k).Some? ==> PageAt(m', kernel, k).value.frame != f
  {
    hide PageAt, OnHeap;
    assert HeapPage(m, kernel, Used(blocks, lo, n, k), k, held);
    assert PageAt(m1, kernel, k) == PageAt(m, kernel, k);
  }

  // The same, from the steps request_pages takes: allocate, then map.
  lemma PageRequested(m0: Memory, tabs0: Tables, m1: Memory, m: Memory, tabs: Tables, kernel: Frame,
                      blocks: seq<Extent>, lo: nat, n: nat, f: Frame, held: set<Frame>)
    requires Root(Kernel) in tabs0 && tabs0[Root(Kernel)] == kernel && f !in held
    requires TablesOk(m0, tabs0, kernel) && TablesOk(m1, tabs0, kernel) && Grown(m0, tabs0, m1, tabs0)
    requires Remapped(m1, tabs0, m, tabs, Kernel, PathOf(n * 4096), Some(LeafWord(f, HeapFlags())))
    requires HeapMapped(m0, kernel, blocks, lo, n, held) && HeapPrivate(m0, kernel)
    requires HEAP_FIRST <= lo <= n < HEAP_END
    ensures HeapMapped(m, kernel, blocks, lo, n + 1, held + {f}) && HeapPrivate(m, kernel)
    ensures Root(Kernel) in tabs
  {
    hide TablesOk, HeapPrivate, HeapMapped, Grown, SameTranslations, Remapped, PathOf, HeapSame, HeapPageSet;
    hide OnHeap, PageAt;
    GrownIsSame(m0, tabs0, m1, tabs0, kernel);
    HeapUntouched(m0, tabs0, m1, tabs0, kernel);
    HeapRemapped(m1, tabs0, m, tabs, kernel, n, Some(LeafWord(f, HeapFlags())));
    OnePageMore(m0, m1, m, kernel, blocks, lo, n, f, held);
    RootStays(m1, tabs0, m, tabs, PathOf(n * 4096), Some(LeafWord(f, HeapFlags())));
  }

  lemma RootStays(m1: Memory, tabs0: Tables, m: Memory, tabs: Tables, p: Path, leaf: Option<Word>)
    requires Remapped(m1, tabs0, m, tabs, Kernel, p, leaf) && Root(Kernel) in tabs0
    ensures Root(Kernel) in tabs
  {
    hide Lookup;
  }

  lemma NothingRequested(m: Memory, kernel: Frame, blocks: seq<Extent>, lo: nat, held: set<Frame>)
    requires HeapMapped(m, kernel, blocks, 0, 0, held)
    ensures HeapMapped(m, kernel, blocks, lo, lo, held)
  {
    hide OnHeap;
    forall n | HEAP_FIRST <= n < HEAP_END
      ensures HeapPage(m, kernel, Used(blocks, lo, lo, n), n, held)
    {
      assert HeapPage(m, kernel, Used(blocks, 0, 0, n), n, held);
    }
  }

  // The request becomes the first block of the list.
  lemma RequestDone(m: Memory, kernel: Frame, blocks: seq<Extent>, b: Extent, lo: nat, hi: nat, held: set<Frame>)
    requires HeapMapped(m, kernel, blocks, lo, hi, held) && b.base == lo * 4096 && b.End() == hi * 4096
    ensures HeapMapped(m, kernel, [b] + blocks, 0, 0, held)
  {
    hide PageAt;
    forall n | HEAP_FIRST <= n < HEAP_END
      ensures HeapPage(m, kernel, Used([b] + blocks, 0, 0, n), n, held)
    {
      assert HeapPage(m, kernel, Used(blocks, lo, hi, n), n, held);
      OnMore(blocks, b, n);
    }
  }

  lemma OnMore(blocks: seq<Extent>, b: Extent, n: nat)
    ensures OnHeap([b] + blocks, n) <==> OnHeap(blocks, n) || OnBlock(b, n)
  {
    var bs := [b] + blocks;
    assert bs[0] == b;
    if i :| 0 <= i < |blocks| && OnBlock(blocks[i], n) { assert bs[i + 1] == blocks[i]; }
  }

  // ---- The heap among the processes ----

  lemma {:induction false} SubsetCount<T>(s: set<T>, all: set<T>)
    requires s <= all
    ensures |s| <= |all|
    decreases s
  {
    if s != {} {
      var x :| x in s;
      SubsetCount(s - {x}, all - {x});
    }
  }

  // What the kernel maps in the heap's range, no process's own half shows.
  lemma PageShared(m0: Memory, tabs0: Tables, m1: Memory, m: Memory, tabs: Tables, kernel: Frame, n: nat, f: Frame)
    requires HEAP_FIRST <= n < HEAP_END
    requires TablesOk(m0, tabs0, kernel) && TablesOk(m1, tabs0, kernel) && Grown(m0, tabs0, m1, tabs0)
    requires Remapped(m1, tabs0, m, tabs, Kernel, PathOf(n * 4096), Some(LeafWord(f, HeapFlags())))
    ensures ProcessesSame(m0, tabs0, m, tabs)
  {
    hide TablesOk, Grown, SameTranslations, Remapped, PathOf, ProcessesSame;
    KernelPathNumber(n * 4096);
    GrownIsSame(m0, tabs0, m1, tabs0, kernel);
    KernelRemapped(m0, tabs0, m1, tabs0, PathOf(n * 4096), None);
    KernelRemapped(m1, tabs0, m, tabs, PathOf(n * 4096), Some(LeafWord(f, HeapFlags())));
    ProcessesTransitive(m0, tabs0, m1, tabs0, m, tabs);
  }

  // Steps of processes leave the heap's range alone.
  lemma HeapKept(m: Memory, tabs: Tables, m': Memory, tabs': Tables, kernel: Frame, s: Space)
    requires OthersSame(m, tabs, m', tabs', s) && s.User? && Root(Kernel) in tabs && tabs[Root(Kernel)] == kernel
    ensures Root(Kernel) in tabs' && HeapSame(m, m', kernel)
  {
    hide Lookup, PathOf;
    assert PathOk(Path(0, 0, 0, 0));
    forall k | HEAP_FIRST <= k < HEAP_END ensures PageAt(m', kernel, k) == PageAt(m, kernel, k) {
      assert PathOk(PathOf(k * 4096));
    }
  }

  lemma SameHeap(m: Memory, m': Memory, kernel: Frame, blocks: seq<Extent>, held: set<Frame>)
    requires HeapSame(m, m', kernel) && HeapMapped(m, kernel, blocks, 0, 0, held) && HeapPrivate(m, kernel)
    ensures HeapMapped(m', kernel, blocks, 0, 0, held) && HeapPrivate(m', kernel)
  {
    hide PageAt, OnHeap;
    forall n | HEAP_FIRST <= n < HEAP_END
      ensures HeapPage(m', kernel, Used(blocks, 0, 0, n), n, held)
    {
      assert HeapPage(m, kernel, Used(blocks, 0, 0, n), n, held);
    }
  }
}
