// The 64-bit words that fill a physical page: page-table entries of x86-64 4-level paging
// (Intel SDM Vol. 3A, section 4.5) and the free-list links the frame allocator keeps in them.

module PageFormat {

  // A physical page number. Entries hold bits 12..51 of a physical address.
  newtype Frame = f: int | 0 <= f < 0x100_0000_0000

  // A 64-bit word, split at the boundaries the entry format uses:
  // bits 0..4, 5..11 (avail), 12..51 (frame), 52..62 (ext), 63 (nx).
  datatype Word = Word(present: bool, writable: bool, user: bool, wthru: bool, nocache: bool,
                       avail: nat, frame: Frame, ext: nat, nx: bool)

  const ZERO: Word := Word(false, false, false, false, false, 0, 0, 0, false)

  type Page = p: seq<Word> | |p| == 512 witness seq(512, _ => ZERO)

  // What memset(page, 0, PAGE_SIZE) leaves.
  function ZeroPage(): (p: Page)
    ensures forall i :: 0 <= i < 512 ==> p[i] == ZERO
  {
    seq(512, _ => ZERO)
  }

  type Memory = seq<Page>

  // These frames read as before.
  ghost predicate Intact(m: Memory, m': Memory, frames: set<Frame>) {
    |m'| == |m| && forall f :: f in frames && f as nat < |m| ==> m'[f] == m[f]
  }

  lemma IntactThenIntact(m: Memory, m1: Memory, m': Memory, frames: set<Frame>, frames1: set<Frame>)
    requires Intact(m, m1, frames) && Intact(m1, m', frames1) && frames <= frames1
    ensures Intact(m, m', frames)
  {
  }

  lemma IntactPart(m: Memory, m': Memory, frames: set<Frame>, part: set<Frame>)
    requires Intact(m, m', frames) && part <= frames
    ensures Intact(m, m', part)
  {
  }

  // These frames read as zero.
  ghost predicate Cleared(m: Memory, frames: set<Frame>) {
    forall f :: f in frames ==> f as nat < |m| && m[f] == ZeroPage()
  }

  lemma IntactCleared(m: Memory, m': Memory, frames: set<Frame>, out: set<Frame>)
    requires Intact(m, m', out) && Cleared(m, frames) && frames <= out
    ensures Cleared(m', frames)
  {
  }

  // The PAGE_* bits a caller may pass.
  datatype Flags = Flags(present: bool, writable: bool, user: bool, wthru: bool, nocache: bool, nx: bool)

  // sanitize_flags(flags, level) for the levels vmm_map uses.
  function SanitizeFlags(flags: Flags, level: nat): Flags {
    match level
    case 0 => Flags(flags.present, false, false, false, false, false)
    case 1 => Flags(flags.present, false, flags.user, false, false, false)
    case 2 => Flags(flags.present, flags.writable, flags.user, false, false, false)
    case _ => flags
  }

  // The entry get_next writes for a fresh table.
  function TableWord(table: Frame, flags: Flags): Word {
    Word(true, true, flags.user, flags.wthru, flags.nocache, 0, table, 0, false)
  }

  // The entry vmm_map writes for the page itself.
  function LeafWord(frame: Frame, flags: Flags): Word {
    Word(true, flags.writable, flags.user, flags.wthru, flags.nocache, 0, frame, 0, flags.nx)
  }

  // The direct map: physical page f is visible to the kernel at virtual page f + offset, where
  // offset has the fields below. The offset is page aligned.
  datatype DirectMap = DirectMap(frame: nat, ext: nat, nx: bool)

  // The pointer VIRT(f), as stored in a free page.
  function Link(hhdm: DirectMap, f: Frame): Word
    requires f as nat + hhdm.frame < 0x100_0000_0000
  {
    Word(false, false, false, false, false, 0, (f as nat + hhdm.frame) as Frame, hhdm.ext, hhdm.nx)
  }

  // memphys of such a pointer.
  function Unlink(hhdm: DirectMap, w: Word): Frame
    requires hhdm.frame <= w.frame as nat
  {
    (w.frame as nat - hhdm.frame) as Frame
  }
}
