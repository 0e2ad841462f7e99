/**
 One machine, booted from a real memory map, and what happens on it: an input for each
 of the findings about page tables, frames and TLBs.

 The kernel root has one upper-half entry, and behind it a 1 GiB page, as in a direct
 map of physical memory.  The memory map offers the first 4 MiB of that gigabyte.
 */
module Witnesses {
  import opened Wrappers
  import opened Pte
  import opened AddressBits
  import opened FrameSupply
  import FrameCursor
  import opened BootAllocator
  import opened PageTree
  import opened PageMapper
  import opened Creation
  import opened Slots
  import opened Machine
  import opened Runs
  import opened Isolation
  import opened Translation
  import opened AccessRights
  import opened Accounting
  import opened Boot
  import opened Tlb
  import opened Scenarios

  // ---- The machine ----------------------------------------------------------

  const KERNEL_ROOT := PhysAddr(0x1000)
  const KERNEL_PDPT := PhysAddr(0x2000)
  const FIRST_FRAME := PhysAddr(0x4000_0000)

  function MemoryMap(): seq<FrameCursor.MemMapEntry> {
    [FrameCursor.MemMapEntry(0x4000_0000, 0x40_0000, FrameCursor.Usable)]
  }

  function BootMemory(): Memory {
    map[(KERNEL_ROOT, 256) := Entry(KERNEL_PDPT, TableAttr(false)),
        (KERNEL_PDPT, 0) := Entry(FIRST_FRAME, TableAttr(false).(huge := true))]
  }

  function BootOwners(): Ownership {
    Ownership(KERNEL_ROOT, {}, map[KERNEL_ROOT := Node(KERNEL_ROOT, KERNEL_ROOT, []),
                                   KERNEL_PDPT := Node(KERNEL_ROOT, KERNEL_ROOT, [256])])
  }

  function Booted(): State {
    BootState(MemoryMap(), BootMemory(), KERNEL_ROOT, false)
  }

  ghost function BootedLedger(): Ledger {
    BootLedger(MemoryMap(), BootOwners())
  }

  lemma BootPlaced(f: PhysAddr)
    requires f in BootOwners().nodes
    ensures Placed(BootMemory(), BootOwners(), f)
  {
  }

  lemma BootLinkOwned(f: PhysAddr, i: Index)
    requires f in BootOwners().nodes
    ensures LinkOwned(BootMemory(), BootOwners(), f, i)
  {
  }

  lemma BootIsTree()
    ensures Tree(BootMemory(), BootOwners())
  {
    var m, g := BootMemory(), BootOwners();
    forall f | f in g.nodes ensures Placed(m, g, f) {
      BootPlaced(f);
    }
    forall f, i | f in g.nodes ensures LinkOwned(m, g, f, i) {
      BootLinkOwned(f, i);
    }
  }

  lemma BelowTheMap(x: bv64)
    requires x as nat >= 0x4000_0000
    ensures x != 0x1000 && x != 0x2000
  {
  }

  lemma FirstFrameBits(x: bv64)
    requires x as nat == 0x4000_0000
    ensures x == 0x4000_0000
  {
  }

  lemma OfferedValue(entries: seq<FrameCursor.MemMapEntry>, f: PhysAddr) returns (j: nat, x: nat)
    requires Addressable(entries) && f in Frames(FrameCursor.Pending(FrameCursor.Start(entries)))
    ensures j < |entries| && FrameCursor.InEntry(entries[j], x) && f.raw as nat == x
  {
    FrameListed(entries, f);
    j, x :| 0 <= j < |entries| && FrameCursor.InEntry(entries[j], x) && f == Frame(x);
    ToBitsValue(x);
  }

  /** The boot loader's tables do not lie in the memory it offers. */
  lemma TablesNotOffered(f: PhysAddr)
    requires f in Frames(FrameCursor.Pending(FrameCursor.Start(MemoryMap())))
    ensures f != KERNEL_ROOT && f != KERNEL_PDPT
  {
    var j, x := OfferedValue(MemoryMap(), f);
    BelowTheMap(f.raw);
  }

  lemma {:induction false} FramesCount(addr: nat, n: nat)
    ensures |FrameCursor.FramesFrom(addr, addr + n * FrameCursor.PAGE)| == n
    decreases n
  {
    if n > 0 {
      FramesCount(addr + FrameCursor.PAGE, n - 1);
    }
  }

  lemma BootedPending()
    ensures var p := FrameCursor.Pending(FrameCursor.Start(MemoryMap())); |p| == 1024 && p[0] == 0x4000_0000
  {
    FramesCount(0x4000_0000, 1024);
    assert FrameCursor.FirstAddr(MemoryMap()[0], 0) == 0x4000_0000;
  }

  lemma BootedSupply()
    ensures Available(Booted().ram.supply) == 1024 && Alloc(Booted().ram.supply).1 == Some(FIRST_FRAME)
  {
    BootedPending();
    ToBitsValue(0x4000_0000);
    FirstFrameBits(ToBits(0x4000_0000));
  }

  lemma BootedInv()
    ensures Inv(Booted(), BootedLedger())
  {
    BootIsTree();
    forall f | f in BootOwners().nodes ensures f !in Frames(FrameCursor.Pending(FrameCursor.Start(MemoryMap()))) {
      if f in Frames(FrameCursor.Pending(FrameCursor.Start(MemoryMap()))) {
        TablesNotOffered(f);
      }
    }
    BootEstablishesInv(MemoryMap(), BootMemory(), BootOwners(), false);
  }

  lemma BootedReady()
    ensures Ready(Booted(), BootedLedger()) && FilledUpTo(Booted().slots, 0)
  {
    BootedInv();
    BootedSupply();
    assert !Booted().slots[0].used;
  }

  // ---- Its first address space ----------------------------------------------

  function Started(): State {
    NewSpace(Booted()).0
  }

  ghost function StartedLedger(): Ledger {
    NewLedger(Booted(), BootedLedger())
  }

  lemma StartedFacts()
    ensures Inv(Started(), StartedLedger()) && LiveSlot(Started().slots, FIRST) && RootOf(Started(), FIRST) == FIRST_FRAME
    ensures Started().kernel == KERNEL_ROOT && Available(Started().ram.supply) == 1023
    ensures !Rd(Started().ram.mem, FIRST_FRAME, 0).attr.present
  {
    BootedReady();
    BootedSupply();
    FirstSpace(Booted(), BootedLedger(), 0);
  }

  lemma StartedLinks()
    ensures Rd(Started().ram.mem, KERNEL_ROOT, 256) == Entry(KERNEL_PDPT, TableAttr(false))
    ensures Rd(Started().ram.mem, FIRST_FRAME, 256) == Entry(KERNEL_PDPT, TableAttr(false))
  {
    BootedSupply();
    NewRootReads(BootMemory(), KERNEL_ROOT, FIRST_FRAME, KERNEL_ROOT, 256);
    NewRootReads(BootMemory(), KERNEL_ROOT, FIRST_FRAME, FIRST_FRAME, 256);
  }

  lemma StartedPdpt(i: Index)
    ensures Rd(Started().ram.mem, KERNEL_PDPT, i) ==
            if i == 0 then Entry(FIRST_FRAME, TableAttr(false).(huge := true)) else ZERO_ENTRY
  {
    BootedSupply();
    NewRootReads(BootMemory(), KERNEL_ROOT, FIRST_FRAME, KERNEL_PDPT, i);
  }

  // ---- Large pages ----------------------------------------------------------

  /** The kernel's 1 GiB page lies over the root of the first space. */
  lemma StartedOverlaid()
    ensures Overlaid(Started(), FIRST, 256, 0)
  {
    StartedFacts();
    StartedLinks();
    StartedPdpt(0);
  }

  /** [0, 5, 0, 0] and [256, 0, 0, 5]. */
  const USER_PAGE: bv64 := 0x1_4000_0000
  const KERNEL_PAGE: bv64 := 0xffff_8000_0000_5000

  lemma ExampleAddresses()
    ensures PageOf(USER_PAGE) == [0, 5, 0, 0] && PageOf(KERNEL_PAGE) == [256, 0, 0, 5]
    ensures IsCanonical(USER_PAGE) && Aligned4K(USER_PAGE) && IsCanonical(KERNEL_PAGE) && Aligned4K(0x7000)
  {
  }

  /** A map of 0x1_4000_0000 in the first space makes 0xffff_8000_0000_5000 translate in the kernel's. */
  lemma IsolationBroken()
    ensures var s := Started();
            && Allowed(s, Map(FIRST, USER_PAGE, 0x7000, USER))
            && Translate(s, KernelHandle, KERNEL_PAGE) == Fault(NotPresent)
            && Translate(Step(s, Map(FIRST, USER_PAGE, 0x7000, USER)), KernelHandle, KERNEL_PAGE).Physical?
  {
    StartedFacts();
    StartedOverlaid();
    ExampleAddresses();
    FirstMapSucceeds(Started(), StartedLedger(), FIRST, USER_PAGE, 0x7000, USER);
    LargePageBreaksIsolation(Started(), StartedLedger(), FIRST, USER_PAGE, 0x7000, USER, KERNEL_PAGE, 256, 0);
  }

  // ---- Lost frames ----------------------------------------------------------

  /** [300, 0, 0, 0], an upper-half page under no entry of the kernel root. */
  const OWN_UPPER_PAGE: bv64 := 0xffff_9600_0000_0000

  lemma UpperExampleAddress()
    ensures PageOf(OWN_UPPER_PAGE)[0] == 300 && IsCanonical(OWN_UPPER_PAGE) && Aligned4K(OWN_UPPER_PAGE) && Aligned4K(0x7000)
  {
  }

  /** Creating a space, mapping 0xffff_9600_0000_0000 in it and destroying it loses frames. */
  lemma FramesLost()
    ensures var ops := [New, Map(FIRST, OWN_UPPER_PAGE, 0x7000, WRITE), Destroy(FIRST)];
            AllowedRun(Booted(), ops) && LedgerRun(Booted(), BootedLedger(), ops).dropped != {}
  {
    BootedReady();
    UpperExampleAddress();
    UpperMapLosesFrames(Booted(), BootedLedger(), OWN_UPPER_PAGE, 0x7000, WRITE);
  }

  /** Creating 65 spaces loses a frame. */
  lemma RootLost()
    ensures var ops := News(65);
            AllowedRun(Booted(), ops) && LedgerRun(Booted(), BootedLedger(), ops).dropped != {}
  {
    BootedReady();
    BootedSupply();
    SlotsRunOut(Booted(), BootedLedger());
  }

  function ToIndex(j: nat): Index {
    (ToBits(j) & 0x1ff) as bv9
  }

  /** The first page of the j-th 2 MiB region. */
  function RegionPage(j: nat): Page {
    [0, 0, ToIndex(j), 0]
  }

  lemma RegionsDiffer(i: nat, j: nat)
    requires i < j < 512
    ensures RegionPage(i)[..3] != RegionPage(j)[..3]
  {
    ToBitsValue(i);
    ToBitsValue(j);
    SmallValue(ToBits(i));
    SmallValue(ToBits(j));
    LowBitsDiffer(ToBits(i), ToBits(j));
    assert RegionPage(i)[..3][2] == ToIndex(i) && RegionPage(j)[..3][2] == ToIndex(j);
  }

  lemma SmallValue(x: bv64)
    requires x as nat < 512
    ensures x < 512
  {
  }

  lemma LowBitsDiffer(x: bv64, y: bv64)
    requires x < 512 && y < 512 && x != y
    ensures (x & 0x1ff) as bv9 != (y & 0x1ff) as bv9
  {
  }

  /** The first pages of 129 regions of 2 MiB, at 0, 0x20_0000, 0x40_0000 and so on. */
  function Spread(n: nat): seq<bv64> {
    if n == 0 then [] else Spread(n - 1) + [AddressOf(RegionPage(n - 1))]
  }

  lemma {:induction false} SpreadAt(n: nat, j: nat)
    requires j < n
    ensures |Spread(n)| == n && Spread(n)[j] == AddressOf(RegionPage(j))
  {
    if n > 1 {
      SpreadAt(n - 1, if j < n - 1 then j else 0);
    }
  }

  lemma RegionAddress(j: nat)
    ensures LowerAddress(AddressOf(RegionPage(j))) && PageOf(AddressOf(RegionPage(j))) == RegionPage(j)
  {
    PageAddressBijection(0, RegionPage(j));
  }

  lemma SpreadIsSpread(n: nat)
    requires 0 < n <= 512
    ensures SpreadOut(Spread(n)) && |Spread(n)| == n
  {
    SpreadAt(n, 0);
    forall j | 0 <= j < n ensures LowerAddress(Spread(n)[j]) && PageOf(Spread(n)[j]) == RegionPage(j) {
      SpreadAt(n, j);
      RegionAddress(j);
    }
    forall i, j | 0 <= i < j < n ensures PageOf(Spread(n)[i])[..3] != PageOf(Spread(n)[j])[..3] {
      RegionsDiffer(i, j);
    }
  }

  /** Mapping one page in each of 129 regions and destroying the space loses frames. */
  lemma TablesLost()
    ensures var ops := MapsOf(FIRST, Spread(129), 0x7000, WRITE) + [Destroy(FIRST)];
            AllowedRun(Started(), ops) && LedgerRun(Started(), StartedLedger(), ops).dropped != StartedLedger().dropped
  {
    StartedFacts();
    SpreadIsSpread(129);
    UpperExampleAddress();
    StackOverflows(Started(), StartedLedger(), FIRST, Spread(129), 0x7000, WRITE);
  }

  // ---- Addresses cut --------------------------------------------------------

  lemma WideAddress()
    ensures Aligned4K(0x10_0000_0000_0000) && 0x10_0000_0000_0000 & ADDR_MASK == 0
    ensures PageOf(0x0)[0] == 0 && IsCanonical(0x0) && Aligned4K(0x0)
  {
  }

  /** A page mapped to 2^52 translates to 0. */
  lemma AddressCut()
    ensures var (s, res) := Map4K(Started(), FIRST, 0x0, 0x10_0000_0000_0000, WRITE);
            res.Ok? && Translate(s, FIRST, 0x0) == Physical(PhysAddr(0))
  {
    StartedFacts();
    WideAddress();
    FirstMapSucceeds(Started(), StartedLedger(), FIRST, 0x0, 0x10_0000_0000_0000, WRITE);
    MappedTranslates(Started(), StartedLedger(), FIRST, 0x0, 0x10_0000_0000_0000, WRITE);
  }

  // ---- User access ----------------------------------------------------------

  lemma UserExampleAddresses()
    ensures PageOf(0x1000)[..3] == PageOf(0x0)[..3] && PageOf(0x1000) != PageOf(0x0) && PageOf(0x0)[0] == 0
    ensures IsCanonical(0x0) && IsCanonical(0x1000)
    ensures Aligned4K(0x0) && Aligned4K(0x1000) && Aligned4K(0x7000) && Aligned4K(0x8000)
    ensures !Contains(WRITE, USER) && Contains(USER, USER)
  {
    assert PageOf(0x0) == [0, 0, 0, 0] && PageOf(0x1000) == [0, 0, 0, 1];
  }

  /** The page at 0x1000 mapped with USER next to the one at 0 mapped without is bound, and closed to user mode. */
  lemma UserMapUnreachable()
    ensures var (s1, res1) := Map4K(Started(), FIRST, 0x0, 0x7000, WRITE);
            var (s2, res2) := Map4K(s1, FIRST, 0x1000, 0x8000, USER);
            res1.Ok? && res2.Ok? && !Permits(s2.ram.mem, RootOf(s2, FIRST), PageOf(0x1000), User)
  {
    StartedFacts();
    UserExampleAddresses();
    UserMapHiddenFirst(Started(), StartedLedger(), FIRST, 0x0, 0x7000, WRITE, 0x1000, 0x8000, USER);
  }

  // ---- Stale bindings -------------------------------------------------------

  /** [256, 1, 0, 0], behind the entry that the kernel shares with all spaces. */
  const SHARED_PAGE: bv64 := 0xffff_8000_4000_0000

  lemma SharedExampleAddress()
    ensures PageOf(SHARED_PAGE) == [256, 1, 0, 0] && IsCanonical(SHARED_PAGE) && Aligned4K(SHARED_PAGE) && Aligned4K(0x7000)
    ensures !Contains(WRITE, GLOBAL) && Contains(WRITE, WRITE) && !Contains(READ, WRITE)
  {
  }

  /** The page satisfies what the scenario asks for. */
  lemma SharedPageReady()
    ensures Shareable(Started(), StartedLedger(), FIRST, SHARED_PAGE, 0x7000, WRITE)
  {
    StartedFacts();
    StartedLinks();
    SharedExampleAddress();
    SharedPageAbsent(Started().ram.mem, KERNEL_ROOT, PageOf(SHARED_PAGE));
  }

  lemma SharedPageAbsent(m: Memory, r: PhysAddr, page: Page)
    requires m == Started().ram.mem && r == KERNEL_ROOT && page == [256, 1, 0, 0]
    ensures SmallPath(m, r, page) && At(m, r, page, 3).None?
  {
    StartedLinks();
    StartedPdpt(1);
    EndsAtSecond(m, r, page);
  }

  /**
   Processor 0 maps a kernel page, processor 1, running the first space, walks to it,
   processor 0 unmaps it: processor 1 is stale and nothing is pending there.
   */
  lemma StaleAfterUnmap()
    ensures var evs := SharedRun(FIRST, SHARED_PAGE, 0x7000, WRITE, Unmap(KernelHandle, SHARED_PAGE));
            && EnabledRun(TwoCpus(Started()), evs)
            && var e := RunEvents(TwoCpus(Started()), evs);
            1 in e.cpus && e.cpus[1].pending == {} && Stale(e.s.ram.mem, e.cpus[1], PageOf(SHARED_PAGE))
  {
    SharedPageReady();
    SharedUnmapStale(Started(), StartedLedger(), FIRST, SHARED_PAGE, 0x7000, WRITE);
  }

  /** The same with a protect to READ: processor 1 can go on writing. */
  lemma StaleAfterReadOnly()
    ensures var evs := SharedRun(FIRST, SHARED_PAGE, 0x7000, WRITE, Protect(KernelHandle, SHARED_PAGE, READ));
            && EnabledRun(TwoCpus(Started()), evs)
            && var e := RunEvents(TwoCpus(Started()), evs);
            1 in e.cpus && e.cpus[1].pending == {} && Stale(e.s.ram.mem, e.cpus[1], PageOf(SHARED_PAGE))
  {
    SharedPageReady();
    SharedExampleAddress();
    SharedProtectStale(Started(), StartedLedger(), FIRST, SHARED_PAGE, 0x7000, WRITE, READ);
  }
}
