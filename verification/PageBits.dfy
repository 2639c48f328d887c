// The 64-bit expressions vmm.c stores, on raw words: why the fields of PageFormat describe them.

module PageBits {
  import opened PageFormat

  const PAGE_PRESENT: bv64 := 1
  const PAGE_WRITABLE: bv64 := 2
  const PAGE_USER: bv64 := 4
  const PAGE_WTHRU: bv64 := 8
  const PAGE_NOCACHE: bv64 := 16
  const PAGE_NX: bv64 := 0x8000_0000_0000_0000
  const PAGE_MASK: bv64 := 0x000F_FFFF_FFFF_F000

  const ALL_FLAGS: bv64 := 0x8000_0000_0000_001F

  // The fields of a raw word, each number still a bit-vector.
  datatype Fields = Fields(flags: Flags, avail: bv64, frame: bv64, ext: bv64)

  function FlagsOf(b: bv64): Flags {
    Flags(b & PAGE_PRESENT != 0, b & PAGE_WRITABLE != 0, b & PAGE_USER != 0, b & PAGE_WTHRU != 0,
          b & PAGE_NOCACHE != 0, b & PAGE_NX != 0)
  }

  function FieldsOf(b: bv64): Fields {
    Fields(FlagsOf(b), (b >> 5) & 0x7F, (b & PAGE_MASK) >> 12, (b >> 52) & 0x7FF)
  }

  // The bits of b spell the fields of w, at the places the SDM gives them.
  ghost predicate Spells(b: bv64, w: Word) {
    w.present == (b & 1 != 0) && w.writable == (b & 2 != 0) && w.user == (b & 4 != 0) && w.wthru == (b & 8 != 0) &&
    w.nocache == (b & 16 != 0) && w.nx == (b & 0x8000_0000_0000_0000 != 0) && w.avail == ((b >> 5) & 0x7F) as int &&
    w.frame as int == ((b & 0x000F_FFFF_FFFF_F000) >> 12) as int && w.ext == ((b >> 52) & 0x7FF) as int
  }

  // vmm_map stores (phys & cpu_page_mask) | PAGE_PRESENT | flags. For a page-aligned address that
  // the mask admits, the OR mixes no fields: the bits spell LeafWord of that frame and those flags.
  lemma LeafWordBits(phys: bv64, cpuPageMask: bv64, flags: bv64, frame: Frame)
    requires flags & ALL_FLAGS == flags && phys & PAGE_MASK == phys && frame as int == (phys >> 12) as int
    requires cpuPageMask & (cpuPageMask + 1) == 0 && phys <= cpuPageMask
    ensures FieldsOf((phys & cpuPageMask) | PAGE_PRESENT | flags)
         == Fields(FlagsOf(flags).(present := true), 0, phys >> 12, 0)
    ensures Spells((phys & cpuPageMask) | PAGE_PRESENT | flags, LeafWord(frame, FlagsOf(flags)))
  {
    hide *;
    LeafFields(phys, cpuPageMask, flags);
    LeafParts(frame, FlagsOf(flags));
    SpellsFields((phys & cpuPageMask) | PAGE_PRESENT | flags, LeafWord(frame, FlagsOf(flags)), phys >> 12);
  }

  lemma LeafFields(phys: bv64, cpuPageMask: bv64, flags: bv64)
    requires flags & ALL_FLAGS == flags && phys & PAGE_MASK == phys
    requires cpuPageMask & (cpuPageMask + 1) == 0 && phys <= cpuPageMask
    ensures FieldsOf((phys & cpuPageMask) | PAGE_PRESENT | flags)
         == Fields(FlagsOf(flags).(present := true), 0, phys >> 12, 0)
  {
    assert phys & cpuPageMask == phys;
  }

  lemma LeafParts(frame: Frame, flags: Flags)
    ensures var w := LeafWord(frame, flags);
      Flags(w.present, w.writable, w.user, w.wthru, w.nocache, w.nx) == flags.(present := true) &&
      w.frame == frame && w.avail == 0 && w.ext == 0
  {
  }

  lemma SpellsFields(b: bv64, w: Word, frame: bv64)
    requires FieldsOf(b) == Fields(Flags(w.present, w.writable, w.user, w.wthru, w.nocache, w.nx), 0, frame, 0)
    requires w.frame as int == frame as int && w.avail == 0 && w.ext == 0
    ensures Spells(b, w)
  {
  }

  // get_next stores the table's address | PAGE_PRESENT | PAGE_WRITABLE | (flags & the three hints):
  // the bits spell TableWord, never no-execute and always writable.
  lemma TableWordBits(phys: bv64, flags: bv64, table: Frame)
    requires phys & PAGE_MASK == phys && table as int == (phys >> 12) as int
    ensures FieldsOf(phys | PAGE_PRESENT | PAGE_WRITABLE | (flags & (PAGE_USER | PAGE_WTHRU | PAGE_NOCACHE)))
         == Fields(FlagsOf(flags).(present := true, writable := true, nx := false), 0, phys >> 12, 0)
    ensures Spells(phys | PAGE_PRESENT | PAGE_WRITABLE | (flags & (PAGE_USER | PAGE_WTHRU | PAGE_NOCACHE)),
                   TableWord(table, FlagsOf(flags)))
  {
    hide *;
    TableFields(phys, flags);
    TableParts(table, FlagsOf(flags));
    SpellsFields(phys | PAGE_PRESENT | PAGE_WRITABLE | (flags & (PAGE_USER | PAGE_WTHRU | PAGE_NOCACHE)),
                 TableWord(table, FlagsOf(flags)), phys >> 12);
  }

  lemma TableFields(phys: bv64, flags: bv64)
    requires phys & PAGE_MASK == phys
    ensures FieldsOf(phys | PAGE_PRESENT | PAGE_WRITABLE | (flags & (PAGE_USER | PAGE_WTHRU | PAGE_NOCACHE)))
         == Fields(FlagsOf(flags).(present := true, writable := true, nx := false), 0, phys >> 12, 0)
  {
    var b := phys | PAGE_PRESENT | PAGE_WRITABLE | (flags & (PAGE_USER | PAGE_WTHRU | PAGE_NOCACHE));
    assert b & PAGE_MASK == phys;
  }

  lemma TableParts(table: Frame, flags: Flags)
    ensures var w := TableWord(table, flags);
      Flags(w.present, w.writable, w.user, w.wthru, w.nocache, w.nx)
        == flags.(present := true, writable := true, nx := false) &&
      w.frame == table && w.avail == 0 && w.ext == 0
  {
  }

  // What memset(page, 0, PAGE_SIZE) leaves in every word.
  lemma ZeroBits(i: nat)
    requires i < 512
    ensures Spells(0, ZeroPage()[i]) && Spells(0, ZERO)
  {
    assert FlagsOf(0) == Flags(false, false, false, false, false, false);
  }

  // The pointer VIRT(f) is the page's physical address plus the offset of the direct map. Where the sum of
  // the two page numbers stays below 2^40, the bits of that pointer spell Link.
  lemma LinkBits(f: Frame, hhdm: DirectMap, page: bv64, high: bv64)
    requires f as nat + hhdm.frame < 0x100_0000_0000 && page < 0x100_0000_0000
    requires page as int == f as int + hhdm.frame && high & 0xFFF0_0000_0000_0000 == high
    requires hhdm.ext == ((high >> 52) & 0x7FF) as int && hhdm.nx == (high & 0x8000_0000_0000_0000 != 0)
    ensures Spells((page << 12) | high, Link(hhdm, f))
  {
    LinkFields(page, high);
  }

  lemma LinkFields(page: bv64, high: bv64)
    requires page < 0x100_0000_0000 && high & 0xFFF0_0000_0000_0000 == high
    ensures var b := (page << 12) | high;
      b & 1 == 0 && b & 2 == 0 && b & 4 == 0 && b & 8 == 0 && b & 16 == 0 && (b >> 5) & 0x7F == 0 &&
      (b & 0x000F_FFFF_FFFF_F000) >> 12 == page && (b >> 52) & 0x7FF == (high >> 52) & 0x7FF &&
      b & 0x8000_0000_0000_0000 == high & 0x8000_0000_0000_0000
  {
  }

  // sanitize_flags masks the flags of vmm_map by level.
  lemma SanitizeBits(flags: bv64)
    ensures FlagsOf(flags & PAGE_PRESENT) == SanitizeFlags(FlagsOf(flags), 0)
    ensures FlagsOf(flags & (PAGE_PRESENT | PAGE_USER)) == SanitizeFlags(FlagsOf(flags), 1)
    ensures FlagsOf(flags & (PAGE_PRESENT | PAGE_USER | PAGE_WRITABLE)) == SanitizeFlags(FlagsOf(flags), 2)
    ensures FlagsOf(flags) == SanitizeFlags(FlagsOf(flags), 3)
  {
  }

  // PML4_INDEX .. PT_INDEX are digits below 512 that, with the page offset, make up bits 0 to 47. Only
  // one choice of such digits does: PageTables.PathOfDigits.
  lemma IndexBits(virt: bv64)
    ensures (((virt >> 39) & 0x1FF) << 39) | (((virt >> 30) & 0x1FF) << 30) | (((virt >> 21) & 0x1FF) << 21)
          | (((virt >> 12) & 0x1FF) << 12) | (virt & 0xFFF) == virt & 0xFFFF_FFFF_FFFF
    ensures (virt >> 39) & 0x1FF < 512 && (virt >> 30) & 0x1FF < 512 && (virt >> 21) & 0x1FF < 512
    ensures (virt >> 12) & 0x1FF < 512 && virt & 0xFFF < 4096
  {
  }
}
