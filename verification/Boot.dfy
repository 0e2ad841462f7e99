/**
 The state the system starts in.
 */
module Boot {
  import opened Wrappers
  import opened Pte
  import opened FrameSupply
  import opened FrameCursor
  import opened PageTree
  import opened PageMapper
  import opened Slots
  import opened Machine
  import opened Runs
  import opened BootAllocator
  import opened PhysicalMemory
  import opened X86MmuImpl

  /** No address space has been created yet. */
  function BootState(entries: seq<MemMapEntry>, mem: Memory, cr3: PhysAddr, nxe: bool): State {
    State(Ram(mem, InitialContents(entries)), cr3, nxe, seq(MAX_ADDRESS_SPACES, _ => EMPTY_SLOT))
  }

  ghost function BootLedger(entries: seq<MemMapEntry>, boot: Ownership): Ledger {
    Ledger(boot, boot.nodes.Keys, Elements(Frames(Pending(Start(entries)))), {})
  }

  /**
   What is taken for granted about the boot loader: its tables form a proper tree
   under CR3, the memory map does not offer their frames, and usable entries are
   disjoint and end below 2^52.
   */
  ghost predicate ProperBoot(entries: seq<MemMapEntry>, mem: Memory, boot: Ownership) {
    && Addressable(entries) && Disjoint(entries)
    && Tree(mem, boot) && boot.spaces == {}
    && forall f :: f in boot.nodes ==> f !in Frames(Pending(Start(entries)))
  }

  /** The invariant of all runs then holds to begin with. */
  lemma BootEstablishesInv(entries: seq<MemMapEntry>, mem: Memory, boot: Ownership, nxe: bool)
    requires ProperBoot(entries, mem, boot)
    ensures Inv(BootState(entries, mem, boot.kernel, nxe), BootLedger(entries, boot))
  {
    var s, l := BootState(entries, mem, boot.kernel, nxe), BootLedger(entries, boot);
    InitialSupply(entries);
    assert Taken(l) == {};
    assert Roots(s.slots) == {};
    forall f | f in l.boot ensures l.own.nodes[f].root == l.own.kernel {
      assert Placed(mem, boot, f);
    }
  }

  /** From boot on the invariant holds in every reachable state. */
  lemma ReachableFromBoot(entries: seq<MemMapEntry>, mem: Memory, boot: Ownership, nxe: bool, ops: seq<Op>)
    requires ProperBoot(entries, mem, boot)
    requires AllowedRun(BootState(entries, mem, boot.kernel, nxe), ops)
    ensures var s := BootState(entries, mem, boot.kernel, nxe);
            Inv(Run(s, ops), LedgerRun(s, BootLedger(entries, boot), ops))
  {
    BootEstablishesInv(entries, mem, boot, nxe);
    RunKeepsInv(BootState(entries, mem, boot.kernel, nxe), BootLedger(entries, boot), ops);
  }

  // ---- The code in place ----------------------------------------------------

  /** `vm::init`: the allocator over the memory map, and the kernel space under CR3 unless that is 0. */
  method Init(entries: seq<MemMapEntry>, mem: PhysMem, cr3: bv64, nxe: bool, ghost boot: Ownership)
    returns (r: Result<X86Mmu>)
    ensures if cr3 & ADDR_MASK == 0 then r == Err(InvalidArgs)
            else && r.Ok? && fresh(r.value) && r.value.Valid()
                 && r.value.Abs() == BootState(entries, Decoded(mem.words), PhysAddr(cr3 & ADDR_MASK), nxe)
                 && (ProperBoot(entries, Decoded(mem.words), boot) && boot.kernel == PhysAddr(cr3 & ADDR_MASK) ==>
                       Inv(r.value.Abs(), BootLedger(entries, boot)))
  {
    var root := PhysAddr(cr3 & ADDR_MASK);
    if root == PhysAddr(0) {
      return Err(InvalidArgs);
    }
    var alloc := new BootPtAlloc(entries, mem);
    var mmu := new X86Mmu(mem, alloc, root, nxe);
    if ProperBoot(entries, Decoded(mem.words), boot) && boot.kernel == root {
      BootEstablishesInv(entries, Decoded(mem.words), boot, nxe);
    }
    return Ok(mmu);
  }

  /** One call of the VM service: the words in memory take the step, and an allowed step keeps the invariant. */
  method Perform(mmu: X86Mmu, op: Op, ghost l: Ledger)
    requires mmu.Valid()
    modifies mmu.mem, mmu.alloc, mmu.alloc.freeList, mmu.slots
    ensures mmu.Valid() && mmu.Abs() == Step(old(mmu.Abs()), op)
    ensures old(Inv(mmu.Abs(), l) && Allowed(mmu.Abs(), op)) ==> Inv(mmu.Abs(), LedgerStep(old(mmu.Abs()), l, op))
  {
    ghost var s := mmu.Abs();
    if Inv(s, l) && Allowed(s, op) {
      StepKeepsInv(s, l, op);
    }
    match op
    case New => var _ := mmu.AddressSpaceNew();
    case Destroy(h) => mmu.AddressSpaceDestroy(h);
    case Map(h, v, p, flags) => var _ := mmu.Map4K(h, v, p, flags);
    case Unmap(h, v) => var _ := mmu.Unmap4K(h, v);
    case Protect(h, v, flags) => var _ := mmu.Protect4K(h, v, flags);
  }
}
