/**
 The memory manager as the kernel has it: raw 64-bit words changed in place, the boot
 allocator, the slot array.  Each method is proved to take the abstract state through
 the step that the properties of the other modules are about.
 */
module X86MmuImpl {
  import opened Wrappers
  import opened Pte
  import opened FrameSupply
  import opened PageTree
  import opened PageMapper
  import opened Teardown
  import opened Slots
  import opened Machine
  import opened PhysicalMemory
  import opened BootAllocator
  import opened Translation

  /** The supply after the table behind entry `i`, and everything below it, has been returned. */
  function EntryFreed(x: Supply, m: Memory, f: PhysAddr, d: nat, i: bv16): Supply
    requires d <= 2 && i < Width(d)
  {
    var e := Rd(m, f, i as bv9);
    if !Link(e) then x
    else Free(if d < 2 then FreeAll(x, Sweep(m, e.target, d + 1, 0)) else x, e.target)
  }

  /** Freeing the entries of a table from `i` on is freeing the one at `i` and then the rest. */
  lemma FreeEntry(x: Supply, m: Memory, f: PhysAddr, d: nat, i: bv16)
    requires d <= 2 && i < Width(d)
    ensures FreeAll(x, Sweep(m, f, d, i)) == FreeAll(EntryFreed(x, m, f, d, i), Sweep(m, f, d, i + 1))
  {
    var e := Rd(m, f, i as bv9);
    FreeAllAppend(x, Below(m, f, d, i), Sweep(m, f, d, i + 1));
    if Link(e) {
      var sub := if d < 2 then Sweep(m, e.target, d + 1, 0) else [];
      FreeAllAppend(x, sub, [e.target]);
    }
  }

  /** The last-level table that the descents of `map_4k` arrive at. */
  function LastTable(s: Ram, root: PhysAddr, page: Page, flags: MapFlags): Option<PhysAddr> {
    match EnsurePath(s, root, page, Contains(flags, USER)).1
    case Ok(pt) => Some(pt)
    case Err(_) => None
  }

  class X86Mmu {
    const mem: PhysMem
    const alloc: BootPtAlloc
    const kernel: PhysAddr
    const nxe: bool
    const slots: array<Slot>

    ghost predicate Valid()
      reads this, alloc
    {
      alloc.mem == mem && alloc.Valid() && slots.Length == MAX_ADDRESS_SPACES
    }

    ghost function Tables(): Ram
      reads mem, alloc, alloc.freeList
      requires alloc.Valid()
    {
      Ram(Decoded(mem.words), alloc.Contents())
    }

    /** The state the properties speak about. */
    ghost function Abs(): State
      reads this, mem, alloc, alloc.freeList, slots
      requires Valid()
    {
      State(Tables(), kernel, nxe, slots[..])
    }

    /** The state after `init_kernel`: the kernel space is the one CR3 names, no other space exists. */
    constructor (mem: PhysMem, alloc: BootPtAlloc, cr3: PhysAddr, nxe: bool)
      requires alloc.mem == mem && alloc.Valid()
      ensures Valid() && fresh(slots)
      ensures this.mem == mem && this.alloc == alloc
      ensures Abs() == State(Tables(), cr3, nxe, seq(MAX_ADDRESS_SPACES, _ => EMPTY_SLOT))
    {
      this.mem, this.alloc, this.kernel, this.nxe := mem, alloc, cr3, nxe;
      slots := new Slot[MAX_ADDRESS_SPACES](_ => EMPTY_SLOT);
      new;
      assert slots[..] == seq(MAX_ADDRESS_SPACES, _ => EMPTY_SLOT);
    }

    // ---- Tables -------------------------------------------------------------

    /** Find the next-level table behind an entry, or allocate, zero and link one. */
    method EnsureTable(parent: PhysAddr, idx: Index, user: bool) returns (r: Result<PhysAddr>)
      requires Valid()
      modifies mem, alloc
      ensures Valid()
      ensures (Tables(), r) == PageMapper.EnsureTable(old(Tables()), parent, idx, user)
      ensures r.Ok? && WordAt(old(mem.words), parent, idx) & 0x1 == 0 ==> StoredLink(WordAt(mem.words, parent, idx), r.value.raw, user)
    {
      DecodeByBit(WordAt(mem.words, parent, idx));
      var present, _, next := mem.Read(parent, idx);
      if present {
        return Ok(next);
      }
      var frame := alloc.AllocFrame4K();
      if frame.None? {
        return Err(OutOfMemory);
      }
      mem.ZeroFrame(frame.value);
      ZeroTwice(old(Decoded(mem.words)), frame.value);
      mem.WriteTable(parent, idx, frame.value, user);
      return Ok(frame.value);
    }

    /** The last-level table of a mapped page. */
    method FindTable(root: PhysAddr, page: Page) returns (pt: Option<PhysAddr>)
      ensures pt == Walk(Decoded(mem.words), root, page)
    {
      var p1, _, pdpt := mem.Read(root, page[0]);
      if !p1 {
        return None;
      }
      var p2, _, pd := mem.Read(pdpt, page[1]);
      if !p2 {
        return None;
      }
      var p3, _, t := mem.Read(pd, page[2]);
      if !p3 {
        return None;
      }
      var p4, _, _ := mem.Read(t, page[3]);
      if !p4 {
        return None;
      }
      return Some(t);
    }

    /** `as_x86`. */
    method Root(h: Handle) returns (root: PhysAddr)
      requires Valid()
      ensures root == RootOf(Abs(), h)
    {
      match h
      case KernelHandle => root := kernel;
      case SlotHandle(i) => root := if i < slots.Length then slots[i].root else PhysAddr(0);
      case DanglingHandle => root := PhysAddr(0);
    }

    // ---- Pages --------------------------------------------------------------

    method Map4K(h: Handle, v: bv64, p: bv64, flags: MapFlags) returns (r: Result<()>)
      requires Valid()
      modifies mem, alloc
      ensures Valid()
      ensures (Abs(), r) == Machine.Map4K(old(Abs()), h, v, p, flags)
      ensures r.Ok? ==> StoredAt(LastTable(old(Tables()), old(RootOf(Abs(), h)), PageOf(v), flags), PageOf(v)[3], p, flags)
    {
      if !Aligned4K(v) || !Aligned4K(p) {
        return Err(Unaligned);
      }
      if !IsCanonical(v) {
        return Err(InvalidArgs);
      }
      var root := Root(h);
      r := MapIn(root, PageOf(v), p, flags);
    }

    /** The word there is what the flags call for, bit by bit. */
    ghost predicate StoredAt(pt: Option<PhysAddr>, i: Index, paddr: bv64, flags: MapFlags)
      reads mem
    {
      pt.Some? && StoredLeaf(WordAt(mem.words, pt.value, i), paddr, flags, nxe)
    }

    /** The body of `map_4k` behind its argument checks. */
    method MapIn(root: PhysAddr, page: Page, p: bv64, flags: MapFlags) returns (r: Result<()>)
      requires Valid()
      modifies mem, alloc
      ensures Valid()
      ensures (Tables(), r) == MapPage(old(Tables()), root, page, LeafEntry(p, flags, nxe))
      ensures r.Ok? ==> StoredAt(LastTable(old(Tables()), root, page, flags), page[3], p, flags)
    {
      var user := Contains(flags, USER);
      var pdpt := EnsureTable(root, page[0], user);
      if pdpt.Err? {
        return Err(pdpt.error);
      }
      var pd := EnsureTable(pdpt.value, page[1], user);
      if pd.Err? {
        return Err(pd.error);
      }
      var pt := EnsureTable(pd.value, page[2], user);
      if pt.Err? {
        return Err(pt.error);
      }
      r := mem.BindLeaf(pt.value, page[3], p, flags, nxe);
    }

    method Unmap4K(h: Handle, v: bv64) returns (r: Result<()>)
      requires Valid()
      modifies mem
      ensures Valid()
      ensures (Abs(), r) == Machine.Unmap4K(old(Abs()), h, v)
    {
      if !Aligned4K(v) {
        return Err(Unaligned);
      }
      if !IsCanonical(v) {
        return Err(InvalidArgs);
      }
      var root := Root(h);
      var page := PageOf(v);
      var pt := FindTable(root, page);
      if pt.None? {
        return Err(NotMapped);
      }
      mem.Clear(pt.value, page[3]);
      return Ok(());
    }

    method Protect4K(h: Handle, v: bv64, flags: MapFlags) returns (r: Result<()>)
      requires Valid()
      modifies mem
      ensures Valid()
      ensures (Abs(), r) == Machine.Protect4K(old(Abs()), h, v, flags)
      ensures r.Ok? ==>
                var pt := Walk(old(Decoded(mem.words)), RootOf(old(Abs()), h), PageOf(v));
                pt.Some? && StoredAt(pt, PageOf(v)[3], WordAt(old(mem.words), pt.value, PageOf(v)[3]), flags)
    {
      if !Aligned4K(v) {
        return Err(Unaligned);
      }
      if !IsCanonical(v) {
        return Err(InvalidArgs);
      }
      var root := Root(h);
      var page := PageOf(v);
      var pt := FindTable(root, page);
      if pt.None? {
        return Err(NotMapped);
      }
      mem.WriteAttributes(pt.value, page[3], flags, nxe);
      return Ok(());
    }

    method Translate(h: Handle, v: bv64) returns (r: TranslateResult)
      requires Valid()
      ensures r == Machine.Translate(Abs(), h, v)
    {
      if !IsCanonical(v) {
        return Fault(InvalidAddress);
      }
      var root := Root(h);
      var page := PageOf(v);
      var pt := FindTable(root, page);
      if pt.None? {
        return Fault(NotPresent);
      }
      var _, _, base := mem.Read(pt.value, page[3]);
      return Physical(WithOffset(base, v));
    }

    /** The offset law, whatever words memory holds. */
    lemma TranslateOffset(h: Handle, v: bv64, off: bv64)
      requires Valid() && IsCanonical(v) && Aligned4K(v) && off < PAGE_SIZE
      ensures Machine.Translate(Abs(), h, v + off) ==
              match Machine.Translate(Abs(), h, v)
              case Physical(p) => Physical(PhysAddr(p.raw + off))
              case Fault(e) => Fault(e)
    {
      DecodedIsMasked(mem.words);
      OffsetLaw(Abs(), h, v, off);
    }

    // ---- Slots --------------------------------------------------------------

    method AllocSlot(root: PhysAddr) returns (r: Result<Handle>)
      requires Valid()
      modifies slots
      ensures Valid()
      ensures (slots[..], r) == Slots.AllocSlot(old(slots[..]), root)
    {
      var i := 0;
      while i < slots.Length
        invariant 0 <= i <= slots.Length && slots[..] == old(slots[..])
        invariant FirstUnused(slots[..], i) == FirstUnused(slots[..], 0)
      {
        if !slots[i].used {
          slots[i] := Slot(true, root, SlotHandle(i));
          return Ok(SlotHandle(i));
        }
        i := i + 1;
      }
      return Err(OutOfMemory);
    }

    method FreeSlot(h: Handle)
      requires Valid()
      modifies slots
      ensures Valid()
      ensures slots[..] == Slots.FreeSlot(old(slots[..]), h)
    {
      var i := 0;
      while i < slots.Length
        invariant 0 <= i <= slots.Length && slots[..] == old(slots[..])
        invariant SlotOf(slots[..], h, i) == SlotOf(slots[..], h, 0)
      {
        if slots[i].used && slots[i].handle == h {
          slots[i] := slots[i].(used := false, root := PhysAddr(0));
          return;
        }
        i := i + 1;
      }
    }

    // ---- Spaces -------------------------------------------------------------

    method AddressSpaceNew() returns (r: Result<Handle>)
      requires Valid()
      modifies mem, alloc, slots
      ensures Valid()
      ensures (Abs(), r) == NewSpace(old(Abs()))
    {
      var pml4 := alloc.AllocFrame4K();
      if pml4.None? {
        return Err(OutOfMemory);
      }
      mem.ZeroFrame(pml4.value);
      ZeroTwice(old(Decoded(mem.words)), pml4.value);
      mem.CopyUpperHalf(kernel, pml4.value);
      r := AllocSlot(pml4.value);
    }

    method AddressSpaceDestroy(h: Handle)
      requires Valid()
      modifies alloc, alloc.freeList, slots
      ensures Valid()
      ensures Abs() == DestroySpace(old(Abs()), h)
    {
      if h == KernelHandle {
        return;
      }
      var root := Root(h);
      FreeLowerHalf(root);
      ghost var sweep := Sweep(Decoded(mem.words), root, 0, 0);
      FreeAllAppend(old(alloc.Contents()), sweep, [root]);
      alloc.FreeFrame4K(root);
      FreeSlot(h);
    }

    /** The outer loop: each PDPT of the lower half, its subtree first. */
    method FreeLowerHalf(root: PhysAddr)
      requires Valid()
      modifies alloc, alloc.freeList
      ensures Valid()
      ensures alloc.Contents() == FreeAll(old(alloc.Contents()), Sweep(Decoded(mem.words), root, 0, 0))
    {
      ghost var m, goal := Decoded(mem.words), FreeAll(old(alloc.Contents()), Sweep(Decoded(mem.words), root, 0, 0));
      var i: bv16 := 0;
      while i < 256
        invariant Valid() && i <= 256
        invariant FreeAll(alloc.Contents(), Sweep(m, root, 0, i)) == goal
        decreases 256 - i
      {
        FreeEntry(alloc.Contents(), m, root, 0, i);
        FreeRootEntry(root, i);
        i := i + 1;
      }
    }

    /** One round of the outer loop. */
    method FreeRootEntry(root: PhysAddr, i: bv16)
      requires Valid() && i < 256
      modifies alloc, alloc.freeList
      ensures Valid()
      ensures alloc.Contents() == EntryFreed(old(alloc.Contents()), Decoded(mem.words), root, 0, i)
    {
      var present, huge, pdpt := mem.Read(root, i as bv9);
      if present && !huge {
        FreePdpt(pdpt);
        alloc.FreeFrame4K(pdpt);
      }
    }

    /** The middle loop: each PD of a PDPT, its subtree first. */
    method FreePdpt(pdpt: PhysAddr)
      requires Valid()
      modifies alloc, alloc.freeList
      ensures Valid()
      ensures alloc.Contents() == FreeAll(old(alloc.Contents()), Sweep(Decoded(mem.words), pdpt, 1, 0))
    {
      ghost var m, goal := Decoded(mem.words), FreeAll(old(alloc.Contents()), Sweep(Decoded(mem.words), pdpt, 1, 0));
      var i: bv16 := 0;
      while i < 512
        invariant Valid() && i <= 512
        invariant FreeAll(alloc.Contents(), Sweep(m, pdpt, 1, i)) == goal
        decreases 512 - i
      {
        FreeEntry(alloc.Contents(), m, pdpt, 1, i);
        FreePdptEntry(pdpt, i);
        i := i + 1;
      }
    }

    /** One round of the middle loop. */
    method FreePdptEntry(pdpt: PhysAddr, i: bv16)
      requires Valid() && i < 512
      modifies alloc, alloc.freeList
      ensures Valid()
      ensures alloc.Contents() == EntryFreed(old(alloc.Contents()), Decoded(mem.words), pdpt, 1, i)
    {
      var present, huge, pd := mem.Read(pdpt, i as bv9);
      if present && !huge {
        FreePd(pd);
        alloc.FreeFrame4K(pd);
      }
    }

    /** The inner loop: each last-level table of a PD. */
    method FreePd(pd: PhysAddr)
      requires Valid()
      modifies alloc, alloc.freeList
      ensures Valid()
      ensures alloc.Contents() == FreeAll(old(alloc.Contents()), Sweep(Decoded(mem.words), pd, 2, 0))
    {
      ghost var m, goal := Decoded(mem.words), FreeAll(old(alloc.Contents()), Sweep(Decoded(mem.words), pd, 2, 0));
      var i: bv16 := 0;
      while i < 512
        invariant Valid() && i <= 512
        invariant FreeAll(alloc.Contents(), Sweep(m, pd, 2, i)) == goal
        decreases 512 - i
      {
        FreeEntry(alloc.Contents(), m, pd, 2, i);
        FreePdEntry(pd, i);
        i := i + 1;
      }
    }

    /** One round of the inner loop. */
    method FreePdEntry(pd: PhysAddr, i: bv16)
      requires Valid() && i < 512
      modifies alloc, alloc.freeList
      ensures Valid()
      ensures alloc.Contents() == EntryFreed(old(alloc.Contents()), Decoded(mem.words), pd, 2, i)
    {
      var present, huge, pt := mem.Read(pd, i as bv9);
      if present && !huge {
        alloc.FreeFrame4K(pt);
      }
    }
  }
}
