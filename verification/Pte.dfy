/**
 The 64-bit words of a four-level page table, the addresses they translate, and
 their decoding into structured entries.

 All bit-vector masking of page-table words lives here.  The rest of the project
 works on decoded entries; `DecodeInjective` says that nothing is lost by that.
 */
module Pte {
  /** A physical address; frames are named by the address of their first byte. */
  datatype PhysAddr = PhysAddr(raw: bv64)

  const PAGE_SIZE: bv64 := 4096
  const ADDR_MASK: bv64 := 0x000f_ffff_ffff_f000

  const PTE_P: bv64 := 0x1
  const PTE_W: bv64 := 0x2
  const PTE_U: bv64 := 0x4
  const PTE_PWT: bv64 := 0x8
  const PTE_PCD: bv64 := 0x10
  const PTE_PS: bv64 := 0x80
  const PTE_G: bv64 := 0x100
  const PTE_NX: bv64 := 0x8000_0000_0000_0000
  /** The bits of a word that no constant above names. */
  const REST_MASK: bv64 := 0x7ff0_0000_0000_0e60

  // ---- Mapping intent -------------------------------------------------------

  /** The architecture-neutral mapping intent: a bit set. */
  type MapFlags = bv32
  const READ: MapFlags := 0x1
  const WRITE: MapFlags := 0x2
  const EXEC: MapFlags := 0x4
  const USER: MapFlags := 0x8
  const GLOBAL: MapFlags := 0x10
  const UNCACHED: MapFlags := 0x20

  predicate Contains(flags: MapFlags, bit: MapFlags) {
    flags & bit == bit
  }

  // ---- Entries --------------------------------------------------------------

  datatype Attr = Attr(present: bool, writable: bool, user: bool, writeThrough: bool, cacheDisable: bool,
                       huge: bool, global: bool, noExec: bool, rest: bv64)

  datatype Entry = Entry(target: PhysAddr, attr: Attr)

  const NO_ATTR := Attr(false, false, false, false, false, false, false, false, 0)
  const ZERO_ENTRY := Entry(PhysAddr(0), NO_ATTR)

  function DecodeAttr(w: bv64): Attr {
    Attr(w & PTE_P != 0, w & PTE_W != 0, w & PTE_U != 0, w & PTE_PWT != 0, w & PTE_PCD != 0,
         w & PTE_PS != 0, w & PTE_G != 0, w & PTE_NX != 0, w & REST_MASK)
  }

  function Decode(w: bv64): Entry {
    Entry(PhysAddr(w & ADDR_MASK), DecodeAttr(w))
  }

  /** The two entries agree in everything the code looks at. */
  predicate SameButRest(e: Entry, e': Entry) {
    e'.target == e.target && e'.attr.(rest := e.attr.rest) == e.attr
  }

  lemma DecodeZero()
    ensures Decode(0) == ZERO_ENTRY
  {
  }

  /** Two words that decode alike are the same word. */
  lemma DecodeInjective(w: bv64, x: bv64)
    requires Decode(w) == Decode(x)
    ensures w == x
  {
  }

  /** A frame address that an entry holds without losing bits. */
  predicate IsFrame(p: bv64) {
    p & ADDR_MASK == p
  }

  predicate Aligned4K(x: bv64) {
    x & (PAGE_SIZE - 1) == 0
  }

  /** An aligned physical address survives being stored in an entry exactly when it is below 2^52. */
  lemma AlignedFrameFits(p: bv64)
    requires Aligned4K(p)
    ensures IsFrame(p) <==> p < 0x10_0000_0000_0000
  {
  }

  /** `flags_to_pte`: the attribute bits of a mapping intent. */
  function FlagsToPte(flags: MapFlags, nxe: bool): bv64 {
    var p := PTE_P;
    var p := if Contains(flags, WRITE) then p | PTE_W else p;
    var p := if Contains(flags, USER) then p | PTE_U else p;
    var p := if Contains(flags, GLOBAL) then p | PTE_G else p;
    var p := if !Contains(flags, EXEC) && nxe then p | PTE_NX else p;
    if Contains(flags, UNCACHED) then p | (PTE_PCD | PTE_PWT) else p
  }

  /** What a mapping intent means, field by field. */
  function FlagsToAttr(flags: MapFlags, nxe: bool): Attr {
    Attr(true, Contains(flags, WRITE), Contains(flags, USER), Contains(flags, UNCACHED), Contains(flags, UNCACHED),
         false, Contains(flags, GLOBAL), !Contains(flags, EXEC) && nxe, 0)
  }

  lemma FlagsDecode(flags: MapFlags, nxe: bool)
    ensures DecodeAttr(FlagsToPte(flags, nxe)) == FlagsToAttr(flags, nxe)
    ensures FlagsToPte(flags, nxe) & ADDR_MASK == 0
  {
  }

  /** Frame bits and attribute bits of an assembled word do not interfere. */
  lemma AssembleDecode(paddr: bv64, attr: bv64)
    requires attr & ADDR_MASK == 0
    ensures Decode((paddr & ADDR_MASK) | attr) == Entry(PhysAddr(paddr & ADDR_MASK), DecodeAttr(attr))
  {
  }

  /** What `map_4k` and `protect_4k` store decodes to the frame and the intent. */
  lemma LeafDecode(paddr: bv64, flags: MapFlags, nxe: bool)
    ensures Decode((paddr & ADDR_MASK) | FlagsToPte(flags, nxe)) == Entry(PhysAddr(paddr & ADDR_MASK), FlagsToAttr(flags, nxe))
  {
    FlagsDecode(flags, nxe);
    AssembleDecode(paddr, FlagsToPte(flags, nxe));
  }

  function TableAttr(user: bool): Attr {
    Attr(true, true, user, false, false, false, false, false, 0)
  }

  function TableBits(user: bool): bv64 {
    var flags := PTE_P | PTE_W;
    if user then flags | PTE_U else flags
  }

  /** What `ensure_table` stores decodes to a plain link. */
  lemma TableDecode(frame: bv64, user: bool)
    ensures Decode((frame & ADDR_MASK) | TableBits(user)) == Entry(PhysAddr(frame & ADDR_MASK), TableAttr(user))
  {
  }

  function TableWord(frame: PhysAddr, user: bool): bv64 {
    (frame.raw & ADDR_MASK) | TableBits(user)
  }

  function LeafWord(paddr: bv64, flags: MapFlags, nxe: bool): bv64 {
    (paddr & ADDR_MASK) | FlagsToPte(flags, nxe)
  }

  // ---- Words by bit position ------------------------------------------------

  /** The word that binds a page, bit by bit: frame, present, the flags where the processor expects them, nothing else. */
  predicate StoredLeaf(w: bv64, paddr: bv64, flags: MapFlags, nxe: bool) {
    && w & 0x000f_ffff_ffff_f000 == paddr & 0x000f_ffff_ffff_f000
    && w & 0x1 != 0
    && (w & 0x2 != 0 <==> flags & 0x2 != 0)
    && (w & 0x4 != 0 <==> flags & 0x8 != 0)
    && (w & 0x8 != 0 <==> flags & 0x20 != 0)
    && (w & 0x10 != 0 <==> flags & 0x20 != 0)
    && (w & 0x100 != 0 <==> flags & 0x10 != 0)
    && (w & 0x8000_0000_0000_0000 != 0 <==> flags & 0x4 == 0 && nxe)
    && w & 0x7ff0_0000_0000_0ee0 == 0
  }

  /** The word that links a table, bit by bit: frame, present, writable, user as asked, nothing else. */
  predicate StoredLink(w: bv64, frame: bv64, user: bool) {
    && w & 0x000f_ffff_ffff_f000 == frame & 0x000f_ffff_ffff_f000
    && w & 0x3 == 0x3
    && (w & 0x4 != 0 <==> user)
    && w & 0xfff0_0000_0000_0ff8 == 0
  }

  /** The mapping intent, flag by flag. */
  lemma FlagsByBit(flags: MapFlags, nxe: bool)
    ensures var a := FlagsToAttr(flags, nxe);
            && a.present && !a.huge && a.rest == 0
            && (a.writable <==> flags & 0x2 != 0) && (a.user <==> flags & 0x8 != 0)
            && (a.writeThrough <==> flags & 0x20 != 0) && (a.cacheDisable <==> flags & 0x20 != 0)
            && (a.global <==> flags & 0x10 != 0) && (a.noExec <==> flags & 0x4 == 0 && nxe)
  {
  }

  /** The fields of a decoded word, bit by bit. */
  lemma DecodeByBit(w: bv64)
    ensures var e := Decode(w);
            && e.target.raw == w & 0x000f_ffff_ffff_f000
            && (e.attr.present <==> w & 0x1 != 0) && (e.attr.writable <==> w & 0x2 != 0) && (e.attr.user <==> w & 0x4 != 0)
            && (e.attr.writeThrough <==> w & 0x8 != 0) && (e.attr.cacheDisable <==> w & 0x10 != 0)
            && (e.attr.huge <==> w & 0x80 != 0) && (e.attr.global <==> w & 0x100 != 0)
            && (e.attr.noExec <==> w & 0x8000_0000_0000_0000 != 0) && e.attr.rest == w & 0x7ff0_0000_0000_0e60
  {
  }

  /** What `map_4k` and `protect_4k` store, for all flags, by bit position. */
  lemma LeafByBit(w: bv64, paddr: bv64, flags: MapFlags, nxe: bool)
    ensures w == LeafWord(paddr, flags, nxe) <==> StoredLeaf(w, paddr, flags, nxe)
  {
    LeafStored(paddr, flags, nxe);
    if StoredLeaf(w, paddr, flags, nxe) {
      StoredOnce(w, LeafWord(paddr, flags, nxe), paddr, flags, nxe);
    }
  }

  lemma LeafStored(paddr: bv64, flags: MapFlags, nxe: bool)
    ensures StoredLeaf(LeafWord(paddr, flags, nxe), paddr, flags, nxe)
  {
    LeafDecode(paddr, flags, nxe);
    FlagsByBit(flags, nxe);
    DecodeByBit(LeafWord(paddr, flags, nxe));
    RestAndHuge(LeafWord(paddr, flags, nxe));
  }

  lemma RestAndHuge(w: bv64)
    ensures w & 0x7ff0_0000_0000_0ee0 == 0 <==> w & 0x7ff0_0000_0000_0e60 == 0 && w & 0x80 == 0
  {
  }

  lemma StoredOnce(w: bv64, x: bv64, paddr: bv64, flags: MapFlags, nxe: bool)
    requires StoredLeaf(w, paddr, flags, nxe) && StoredLeaf(x, paddr, flags, nxe)
    ensures w == x
  {
    DecodeByBit(w);
    DecodeByBit(x);
    RestAndHuge(w);
    RestAndHuge(x);
    DecodeInjective(w, x);
  }

  /** What `ensure_table` stores, by bit position. */
  lemma LinkByBit(w: bv64, frame: PhysAddr, user: bool)
    ensures w == TableWord(frame, user) <==> StoredLink(w, frame.raw, user)
  {
    LinkStored(frame, user);
    if StoredLink(w, frame.raw, user) {
      LinkStoredOnce(w, TableWord(frame, user), frame.raw, user);
    }
  }

  lemma LinkStoredOnce(w: bv64, x: bv64, frame: bv64, user: bool)
    requires StoredLink(w, frame, user) && StoredLink(x, frame, user)
    ensures w == x
  {
    LinkFields(w, frame, user);
    LinkFields(x, frame, user);
    DecodeInjective(w, x);
  }

  lemma LinkStored(frame: PhysAddr, user: bool)
    ensures StoredLink(TableWord(frame, user), frame.raw, user)
  {
  }

  lemma LinkFields(w: bv64, frame: bv64, user: bool)
    requires StoredLink(w, frame, user)
    ensures Decode(w) == Entry(PhysAddr(frame & 0x000f_ffff_ffff_f000), Attr(true, true, user, false, false, false, false, false, 0))
  {
    DecodeByBit(w);
    LinkBits(w);
  }

  lemma LinkBits(w: bv64)
    requires w & 0x3 == 0x3 && w & 0xfff0_0000_0000_0ff8 == 0
    ensures w & 0x1 != 0 && w & 0x2 != 0 && w & 0x8 == 0 && w & 0x10 == 0 && w & 0x80 == 0 && w & 0x100 == 0
    ensures w & 0x8000_0000_0000_0000 == 0 && w & 0x7ff0_0000_0000_0e60 == 0
  {
  }

  // ---- Virtual addresses ----------------------------------------------------

  /** An index into a 512-entry table. */
  type Index = bv9

  /** The first PML4 index of the half that every address space inherits from the kernel. */
  const KERNEL_PML4_START: Index := 256

  predicate IsCanonical(addr: bv64) {
    var sign := (addr >> 47) & 1;
    var upper := addr >> 48;
    if sign == 0 then upper == 0 else upper == 0xffff
  }

  function Pml4Index(v: bv64): Index { ((v >> 39) & 0x1ff) as bv9 }
  function PdptIndex(v: bv64): Index { ((v >> 30) & 0x1ff) as bv9 }
  function PdIndex(v: bv64): Index { ((v >> 21) & 0x1ff) as bv9 }
  function PtIndex(v: bv64): Index { ((v >> 12) & 0x1ff) as bv9 }

  /** Table indices, root first. */
  type Path = seq<Index>
  /** The four indices that name a 4K page. */
  type Page = p: Path | |p| == 4 witness [0, 0, 0, 0]

  function PageOf(v: bv64): Page {
    [Pml4Index(v), PdptIndex(v), PdIndex(v), PtIndex(v)]
  }

  /** The canonical address of the first byte of a page. */
  function AddressOf(p: Page): bv64 {
    Canonical(p[0], p[1], p[2], p[3])
  }

  function Canonical(i4: Index, i3: Index, i2: Index, i1: Index): bv64 {
    var low := ((i4 as bv64) << 39) | ((i3 as bv64) << 30) | ((i2 as bv64) << 21) | ((i1 as bv64) << 12);
    if i4 < KERNEL_PML4_START then low else low | 0xffff_0000_0000_0000
  }

  lemma CanonicalIsCanonical(i4: Index, i3: Index, i2: Index, i1: Index)
    ensures IsCanonical(Canonical(i4, i3, i2, i1)) && Aligned4K(Canonical(i4, i3, i2, i1))
  {
  }

  lemma CanonicalIndices(i4: Index, i3: Index, i2: Index, i1: Index)
    ensures Pml4Index(Canonical(i4, i3, i2, i1)) == i4 && PdptIndex(Canonical(i4, i3, i2, i1)) == i3
    ensures PdIndex(Canonical(i4, i3, i2, i1)) == i2 && PtIndex(Canonical(i4, i3, i2, i1)) == i1
  {
  }

  lemma SameIndicesSameAddress(v: bv64, w: bv64)
    requires IsCanonical(v) && Aligned4K(v) && IsCanonical(w) && Aligned4K(w)
    requires Pml4Index(v) == Pml4Index(w) && PdptIndex(v) == PdptIndex(w)
    requires PdIndex(v) == PdIndex(w) && PtIndex(v) == PtIndex(w)
    ensures v == w
  {
  }

  /** The canonical addresses are the lowest and the highest 2^47. */
  lemma CanonicalRange(v: bv64)
    ensures IsCanonical(v) <==> v < 0x8000_0000_0000 || v >= 0xffff_8000_0000_0000
  {
  }

  lemma AlignedMeans(v: bv64)
    ensures Aligned4K(v) <==> v & 0xfff == 0
  {
  }

  /** Canonical page-aligned addresses and index quadruples correspond one to one. */
  lemma PageAddressBijection(v: bv64, p: Page)
    ensures IsCanonical(AddressOf(p)) && Aligned4K(AddressOf(p)) && PageOf(AddressOf(p)) == p
    ensures IsCanonical(v) && Aligned4K(v) ==> AddressOf(PageOf(v)) == v
  {
    CanonicalIsCanonical(p[0], p[1], p[2], p[3]);
    CanonicalIndices(p[0], p[1], p[2], p[3]);
    if IsCanonical(v) && Aligned4K(v) {
      var q := PageOf(v);
      CanonicalIsCanonical(q[0], q[1], q[2], q[3]);
      CanonicalIndices(q[0], q[1], q[2], q[3]);
      SameIndicesSameAddress(v, AddressOf(q));
    }
  }

  /** The lower half of the address space is the lower half of the root table. */
  lemma LowerHalf(v: bv64)
    requires IsCanonical(v)
    ensures Pml4Index(v) < KERNEL_PML4_START <==> v < 0x8000_0000_0000
  {
  }

  /** The first index selects the 512 GiB region, the first two the 1 GiB region, the first three the 2 MiB region. */
  lemma PrefixIsRegion(v: bv64, w: bv64)
    requires IsCanonical(v) && IsCanonical(w)
    ensures PageOf(v)[..1] == PageOf(w)[..1] <==> v >> 39 == w >> 39
    ensures PageOf(v)[..2] == PageOf(w)[..2] <==> v >> 30 == w >> 30
    ensures PageOf(v)[..3] == PageOf(w)[..3] <==> v >> 21 == w >> 21
  {
    Region512G(v, w);
    Region1G(v, w);
    Region2M(v, w);
    var p, q := PageOf(v), PageOf(w);
    assert p[..1] == [p[0]] && p[..2] == [p[0], p[1]] && p[..3] == [p[0], p[1], p[2]];
    assert q[..1] == [q[0]] && q[..2] == [q[0], q[1]] && q[..3] == [q[0], q[1], q[2]];
  }

  lemma Region512G(v: bv64, w: bv64)
    requires IsCanonical(v) && IsCanonical(w)
    ensures Pml4Index(v) == Pml4Index(w) <==> v >> 39 == w >> 39
  {
  }

  lemma Region1G(v: bv64, w: bv64)
    ensures v >> 30 == w >> 30 <==> v >> 39 == w >> 39 && PdptIndex(v) == PdptIndex(w)
  {
  }

  lemma Region2M(v: bv64, w: bv64)
    ensures v >> 21 == w >> 21 <==> v >> 30 == w >> 30 && PdIndex(v) == PdIndex(w)
  {
  }

  /** Adding an offset inside the page changes neither the indices nor canonicality. */
  lemma OffsetStaysInPage(v: bv64, off: bv64)
    requires IsCanonical(v) && Aligned4K(v) && off < PAGE_SIZE
    ensures IsCanonical(v + off) && PageOf(v + off) == PageOf(v)
    ensures (v + off) & 0xfff == off
  {
    OffsetFillsLowBits(v, off);
    OffsetKeepsPageNumber(v, off);
    SamePageNumber(v, v + off);
  }

  lemma OffsetFillsLowBits(v: bv64, off: bv64)
    requires Aligned4K(v) && off < PAGE_SIZE
    ensures v + off == v | off && (v | off) & 0xfff == off
  {
  }

  lemma OffsetKeepsPageNumber(v: bv64, off: bv64)
    requires off < PAGE_SIZE
    ensures (v | off) >> 12 == v >> 12
  {
  }

  /** Canonicality and the indices depend only on the bits above the page offset. */
  lemma SamePageNumber(v: bv64, w: bv64)
    requires v >> 12 == w >> 12
    ensures IsCanonical(v) == IsCanonical(w) && PageOf(v) == PageOf(w)
  {
  }

  /** Combining a frame with an offset by `|` is addition. */
  lemma OffsetIsAdded(base: bv64, off: bv64)
    requires IsFrame(base) && off < PAGE_SIZE
    ensures base | off == base + off
  {
  }
}
